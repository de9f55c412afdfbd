/** The variable-width LZW decoder for GIF image data, and the reference encoder of Appendix F of
    GIF89a it has to invert. */
module GifLzw {
  import opened Bits
  import opened Options

  const TABLE_LIMIT: nat := 4096
  const MAX_CODE_SIZE: nat := 12

  function ClearCode(minCodeSize: nat): nat { Pow2(minCodeSize) }

  function EndCode(minCodeSize: nat): nat { ClearCode(minCodeSize) + 1 }

  predicate LegalMinCodeSize(minCodeSize: int) { 2 <= minCodeSize <= 8 }

  // ----- The decoder, one code at a time -----

  /** What a code stands for: never the empty string. */
  type Phrase = s: seq<nat> | s != [] witness [0]

  datatype Decoder = Decoder(
    table: map<nat, Phrase>,
    nextCode: nat,
    codeSize: nat,
    previous: Option<Phrase>,
    output: seq<nat>)

  function RootTable(clearCode: nat): map<nat, Phrase> {
    map index: nat | index < clearCode :: [index]
  }

  /** The decoder right after a clear code: everything but the output is forgotten. */
  function Cleared(minCodeSize: nat, output: seq<nat>): Decoder {
    Decoder(RootTable(ClearCode(minCodeSize)), EndCode(minCodeSize) + 1, minCodeSize + 1, None, output)
  }

  datatype Outcome = Restarted(next: Decoder) | Emitted(next: Decoder) | Ended | Corrupt

  function Lookup(d: Decoder, code: nat): Option<Phrase> {
    if code in d.table then Some(d.table[code])
    else if d.previous.Some? && code == d.nextCode then Some(d.previous.value + [d.previous.value[0]])
    else None
  }

  /** The dictionary lags by one entry: what is learned here belongs to the code before. */
  function Learn(d: Decoder, entry: Phrase): Decoder {
    if d.previous.Some? && d.nextCode < TABLE_LIMIT then
      var next := d.nextCode + 1;
      d.(table := d.table[d.nextCode := d.previous.value + [entry[0]]],
         nextCode := next,
         codeSize := if next == Pow2(d.codeSize) && d.codeSize < MAX_CODE_SIZE then d.codeSize + 1 else d.codeSize)
    else d
  }

  function Step(d: Decoder, code: nat, minCodeSize: nat): Outcome {
    if code == ClearCode(minCodeSize) then Restarted(Cleared(minCodeSize, d.output))
    else if code == EndCode(minCodeSize) then Ended
    else match Lookup(d, code)
      case None => Corrupt
      case Some(entry) => Emitted(Learn(d, entry).(previous := Some(entry), output := d.output + entry))
  }

  function Truncate(output: seq<nat>, expected: nat): seq<nat> {
    if |output| <= expected then output else output[..expected]
  }

  /** What the decoder answers once the codes run out or the end code is read. */
  function Finish(output: seq<nat>, expected: nat): Option<seq<nat>> {
    if output == [] then None else Some(Truncate(output, expected))
  }

  /** Decodes the codes of a bit string from state `d` on. */
  function Decode(bits: seq<bool>, d: Decoder, minCodeSize: nat, expected: nat): Option<seq<nat>>
    requires d.codeSize > 0
    decreases |bits|
  {
    if |bits| < d.codeSize then Finish(d.output, expected)
    else
      var rest := bits[d.codeSize..];
      match Step(d, FromBits(bits[..d.codeSize]), minCodeSize)
      case Restarted(next) => Decode(rest, next, minCodeSize, expected)
      case Ended => Finish(d.output, expected)
      case Corrupt => None
      case Emitted(next) =>
        if |next.output| >= expected then Some(next.output[..expected])
        else Decode(rest, next, minCodeSize, expected)
  }

  /** `decode_gif_lzw` as a function of the data bytes. */
  function DecodeData(data: seq<byte>, minCodeSize: int, expected: nat): Option<seq<nat>> {
    if !LegalMinCodeSize(minCodeSize) then None
    else Decode(Unpack(data), Cleared(minCodeSize, []), minCodeSize, expected)
  }

  // ----- What holds of the decoder on any input -----

  ghost predicate SliceAt(entry: seq<nat>, output: seq<nat>, i: nat) {
    i + |entry| <= |output| && output[i..i + |entry|] == entry
  }

  ghost predicate SliceSince(entry: seq<nat>, output: seq<nat>, since: nat) {
    exists i :: since <= i && SliceAt(entry, output, i)
  }

  /** The dictionary holds exactly the roots and the codes handed out since the last clear code. */
  ghost predicate KeysExact(d: Decoder, minCodeSize: nat) {
    && (forall code: nat :: code in d.table <==>
          code < ClearCode(minCodeSize) || EndCode(minCodeSize) < code < d.nextCode)
    && (forall code: nat :: code < ClearCode(minCodeSize) ==> d.table[code] == [code])
  }

  /** The last clear code was read when `since` symbols had been produced; the previous phrase ends
      the output, and each learned entry is a piece of the output since. */
  ghost predicate Grounded(d: Decoder, minCodeSize: nat, since: nat) {
    && since <= |d.output|
    && (forall code: nat :: EndCode(minCodeSize) < code < d.nextCode && code in d.table ==>
          SliceSince(d.table[code], d.output, since))
    && (d.previous.Some? ==>
          var p := d.previous.value;
          |p| <= |d.output| - since && d.output[|d.output| - |p|..] == p)
  }

  ghost predicate Widths(d: Decoder, minCodeSize: nat) {
    && minCodeSize < d.codeSize <= MAX_CODE_SIZE
    && EndCode(minCodeSize) < d.nextCode <= TABLE_LIMIT
    && (d.nextCode < Pow2(d.codeSize) || d.codeSize == MAX_CODE_SIZE)
    && (d.previous.None? ==> d.nextCode == EndCode(minCodeSize) + 1)
  }

  ghost predicate Symbols(s: seq<nat>, minCodeSize: nat) {
    forall i :: 0 <= i < |s| ==> s[i] < ClearCode(minCodeSize)
  }

  ghost predicate Sound(d: Decoder, minCodeSize: nat) {
    && LegalMinCodeSize(minCodeSize)
    && Widths(d, minCodeSize)
    && Symbols(d.output, minCodeSize)
    && KeysExact(d, minCodeSize)
    && exists since :: Grounded(d, minCodeSize, since)
  }

  lemma Limits()
    ensures Pow2(2) == 4 && Pow2(8) == 256 && Pow2(MAX_CODE_SIZE) == TABLE_LIMIT
  {
    assert Pow2(4) == 16;
    assert Pow2(8) == 256;
    assert Pow2(10) == 1024;
  }

  lemma ClearedIsSound(minCodeSize: nat, output: seq<nat>)
    requires LegalMinCodeSize(minCodeSize) && Symbols(output, minCodeSize)
    ensures Sound(Cleared(minCodeSize, output), minCodeSize)
  {
    Limits();
    Pow2Monotone(2, minCodeSize);
    Pow2Monotone(minCodeSize, 8);
    assert Grounded(Cleared(minCodeSize, output), minCodeSize, |output|);
  }

  lemma LearnKeepsWidths(d: Decoder, entry: Phrase, minCodeSize: nat)
    requires LegalMinCodeSize(minCodeSize) && Widths(d, minCodeSize)
    ensures Widths(Learn(d, entry).(previous := Some(entry)), minCodeSize)
  {
    Limits();
    if d.codeSize < MAX_CODE_SIZE {
      Pow2Monotone(d.codeSize + 1, MAX_CODE_SIZE);
    }
  }

  lemma LookupKeepsSymbols(d: Decoder, code: nat, minCodeSize: nat, since: nat)
    requires KeysExact(d, minCodeSize) && Grounded(d, minCodeSize, since) && Symbols(d.output, minCodeSize)
    requires Lookup(d, code).Some?
    ensures Symbols(Lookup(d, code).value, minCodeSize)
  {
    var entry := Lookup(d, code).value;
    if code in d.table {
      if code >= ClearCode(minCodeSize) {
        var i :| since <= i && SliceAt(entry, d.output, i);
        assert forall k :: 0 <= k < |entry| ==> entry[k] == d.output[i + k];
      }
    } else {
      var p := d.previous.value;
      assert forall k :: 0 <= k < |p| ==> p[k] == d.output[|d.output| - |p| + k];
    }
  }

  lemma SliceGrows(entry: seq<nat>, output: seq<nat>, more: seq<nat>, since: nat)
    requires SliceSince(entry, output, since)
    ensures SliceSince(entry, output + more, since)
  {
    var i :| since <= i && SliceAt(entry, output, i);
    assert (output + more)[i..i + |entry|] == output[i..i + |entry|];
    assert SliceAt(entry, output + more, i);
  }

  lemma LearnKeepsKeys(d: Decoder, entry: Phrase, minCodeSize: nat)
    requires KeysExact(d, minCodeSize) && d.nextCode > EndCode(minCodeSize)
    ensures KeysExact(Learn(d, entry), minCodeSize)
  {
  }

  /** The new entry is the previous phrase and the symbol right behind it in the output. */
  lemma NewEntryIsSlice(output: seq<nat>, previous: seq<nat>, entry: Phrase, since: nat)
    requires |previous| <= |output| - since && output[|output| - |previous|..] == previous
    ensures SliceSince(previous + [entry[0]], output + entry, since)
  {
    var i := |output| - |previous|;
    assert (output + entry)[i..i + |previous| + 1] == previous + [entry[0]];
    assert SliceAt(previous + [entry[0]], output + entry, i);
  }

  lemma EmitKeepsGrounded(d: Decoder, entry: Phrase, minCodeSize: nat, since: nat)
    requires Grounded(d, minCodeSize, since)
    ensures Grounded(Learn(d, entry).(previous := Some(entry), output := d.output + entry), minCodeSize, since)
  {
    var next := Learn(d, entry).(previous := Some(entry), output := d.output + entry);
    assert next.output[|next.output| - |entry|..] == entry;
    forall c: nat | EndCode(minCodeSize) < c < next.nextCode && c in next.table
      ensures SliceSince(next.table[c], next.output, since)
    {
      if next.nextCode > d.nextCode && c == d.nextCode {
        NewEntryIsSlice(d.output, d.previous.value, entry, since);
      } else {
        SliceGrows(d.table[c], d.output, entry, since);
      }
    }
  }

  /** One code of any value keeps the decoder sound. */
  lemma StepKeepsSound(d: Decoder, code: nat, minCodeSize: nat)
    requires Sound(d, minCodeSize)
    ensures var outcome := Step(d, code, minCodeSize);
      && (outcome.Restarted? || outcome.Emitted? ==> Sound(outcome.next, minCodeSize))
      && (outcome.Emitted? ==> |outcome.next.output| > |d.output|)
  {
    var outcome := Step(d, code, minCodeSize);
    if outcome.Restarted? {
      ClearedIsSound(minCodeSize, d.output);
    } else if outcome.Emitted? {
      var since :| Grounded(d, minCodeSize, since);
      var entry := Lookup(d, code).value;
      LookupKeepsSymbols(d, code, minCodeSize, since);
      EmitKeepsGrounded(d, entry, minCodeSize, since);
      LearnKeepsWidths(d, entry, minCodeSize);
      LearnKeepsKeys(d, entry, minCodeSize);
    }
  }

  /** The state after a run of codes, if the decoder is still reading. */
  function Run(codes: seq<nat>, d: Decoder, minCodeSize: nat): Option<Decoder> {
    if codes == [] then Some(d)
    else
      var outcome := Step(d, codes[0], minCodeSize);
      if outcome.Restarted? || outcome.Emitted? then Run(codes[1..], outcome.next, minCodeSize) else None
  }

  lemma {:induction false} RunKeepsSound(codes: seq<nat>, d: Decoder, minCodeSize: nat)
    requires Sound(d, minCodeSize)
    ensures Run(codes, d, minCodeSize).Some? ==> Sound(Run(codes, d, minCodeSize).value, minCodeSize)
  {
    if codes != [] {
      StepKeepsSound(d, codes[0], minCodeSize);
      var outcome := Step(d, codes[0], minCodeSize);
      if outcome.Restarted? || outcome.Emitted? {
        RunKeepsSound(codes[1..], outcome.next, minCodeSize);
      }
    }
  }

  /** Whatever the codes are, every state the decoder reaches from its start is sound. */
  lemma EveryReachableDecoderIsSound(codes: seq<nat>, minCodeSize: nat)
    requires LegalMinCodeSize(minCodeSize)
    ensures var reached := Run(codes, Cleared(minCodeSize, []), minCodeSize);
      reached.Some? ==> Sound(reached.value, minCodeSize)
  {
    ClearedIsSound(minCodeSize, []);
    RunKeepsSound(codes, Cleared(minCodeSize, []), minCodeSize);
  }

  lemma {:induction false} DecodeIsSound(bits: seq<bool>, d: Decoder, minCodeSize: nat, expected: nat)
    requires Sound(d, minCodeSize)
    ensures var answer := Decode(bits, d, minCodeSize, expected);
      answer.Some? ==> |answer.value| <= expected && Symbols(answer.value, minCodeSize)
    decreases |bits|
  {
    if |bits| >= d.codeSize {
      var code := FromBits(bits[..d.codeSize]);
      StepKeepsSound(d, code, minCodeSize);
      var outcome := Step(d, code, minCodeSize);
      if outcome.Restarted? || outcome.Emitted? {
        DecodeIsSound(bits[d.codeSize..], outcome.next, minCodeSize, expected);
      }
    }
  }

  /** On any bytes at all, the answer is no longer than asked for and names only root symbols. */
  lemma DecodeDataIsSound(data: seq<byte>, minCodeSize: int, expected: nat)
    ensures var answer := DecodeData(data, minCodeSize, expected);
      answer.Some? ==> LegalMinCodeSize(minCodeSize) && |answer.value| <= expected && Symbols(answer.value, minCodeSize)
  {
    if LegalMinCodeSize(minCodeSize) {
      ClearedIsSound(minCodeSize, []);
      DecodeIsSound(Unpack(data), Cleared(minCodeSize, []), minCodeSize, expected);
    }
  }

  /** Decoding from a bit position on, unfolded by one code. */
  lemma DecodeUnfolds(bits: seq<bool>, position: nat, d: Decoder, code: nat, minCodeSize: nat, expected: nat)
    requires d.codeSize > 0 && position + d.codeSize <= |bits|
    requires code == FromBits(bits[position..position + d.codeSize])
    ensures var answer, outcome := Decode(bits[position..], d, minCodeSize, expected), Step(d, code, minCodeSize);
      var rest := bits[position + d.codeSize..];
      && (outcome.Restarted? ==> answer == Decode(rest, outcome.next, minCodeSize, expected))
      && (outcome.Ended? ==> answer == Finish(d.output, expected))
      && (outcome.Corrupt? ==> answer == None)
      && (outcome.Emitted? && |outcome.next.output| >= expected ==>
            answer == Some(outcome.next.output[..expected]))
      && (outcome.Emitted? && |outcome.next.output| < expected ==>
            answer == Decode(rest, outcome.next, minCodeSize, expected))
  {
    assert bits[position..][..d.codeSize] == bits[position..position + d.codeSize];
    assert bits[position..][d.codeSize..] == bits[position + d.codeSize..];
  }

  /** Decoding from a bit position in a state leads to `goal`. */
  ghost predicate LeadsTo(
      goal: Option<seq<nat>>, bits: seq<bool>, position: nat, d: Decoder, minCodeSize: nat, expected: nat)
  {
    d.codeSize > 0 && position <= |bits| && goal == Decode(bits[position..], d, minCodeSize, expected)
  }

  lemma DecodeBegins(data: seq<byte>, minCodeSize: nat, expected: nat)
    requires LegalMinCodeSize(minCodeSize)
    ensures LeadsTo(
      DecodeData(data, minCodeSize, expected), Unpack(data), 0, Cleared(minCodeSize, []), minCodeSize, expected)
  {
    assert Unpack(data)[0..] == Unpack(data);
  }

  lemma DecodeTurns(
      goal: Option<seq<nat>>, bits: seq<bool>, position: nat, d: Decoder, code: nat, minCodeSize: nat, expected: nat)
    requires LeadsTo(goal, bits, position, d, minCodeSize, expected)
    requires position + d.codeSize <= |bits| && code == FromBits(bits[position..position + d.codeSize])
    ensures var outcome, next := Step(d, code, minCodeSize), position + d.codeSize;
      && (outcome.Restarted? ==> LeadsTo(goal, bits, next, outcome.next, minCodeSize, expected))
      && (outcome.Ended? ==> goal == Finish(d.output, expected))
      && (outcome.Corrupt? ==> goal == None)
      && (outcome.Emitted? && |outcome.next.output| >= expected ==> goal == Some(outcome.next.output[..expected]))
      && (outcome.Emitted? && |outcome.next.output| < expected ==>
            LeadsTo(goal, bits, next, outcome.next, minCodeSize, expected))
  {
    DecodeUnfolds(bits, position, d, code, minCodeSize, expected);
  }

  lemma DecodeRunsOut(
      goal: Option<seq<nat>>, bits: seq<bool>, position: nat, d: Decoder, minCodeSize: nat, expected: nat)
    requires LeadsTo(goal, bits, position, d, minCodeSize, expected) && position + d.codeSize > |bits|
    ensures goal == Finish(d.output, expected)
  {
  }

  /** `decode_gif_lzw`: the loop over the codes, with its table, its bit position and its output. */
  method DecodeGifLzw(data: seq<byte>, minCodeSize: int, expected: nat) returns (indices: Option<seq<nat>>)
    ensures indices == DecodeData(data, minCodeSize, expected)
  {
    hide FromBits, Unpack, Decode, LeadsTo, Pow2;
    if minCodeSize < 2 || minCodeSize > 8 {
      return None;
    }
    var clearCode := Pow2(minCodeSize);
    var endCode := clearCode + 1;
    var nextCode: nat := endCode + 1;
    var codeSize: nat := minCodeSize + 1;
    var table: map<nat, Phrase> := RootTable(clearCode);
    var bitPosition: nat := 0;
    var previous: Option<Phrase> := None;
    var output: seq<nat> := [];
    ghost var bits := Unpack(data);
    ghost var d := Cleared(minCodeSize, []);
    ghost var goal := DecodeData(data, minCodeSize, expected);
    ghost var ended := false;
    DecodeBegins(data, minCodeSize, expected);
    while bitPosition + codeSize <= |data| * 8
      invariant bitPosition <= |bits| && codeSize > 0 && !ended
      invariant d == Decoder(table, nextCode, codeSize, previous, output)
      invariant LeadsTo(goal, bits, bitPosition, d, minCodeSize, expected)
      decreases |bits| - bitPosition
    {
      var code := ReadLittleEndianBits(data, bitPosition, codeSize);
      DecodeTurns(goal, bits, bitPosition, d, code, minCodeSize, expected);
      ghost var outcome := Step(d, code, minCodeSize);
      bitPosition := bitPosition + codeSize;
      if code == clearCode {
        table := RootTable(clearCode);
        nextCode := endCode + 1;
        codeSize := minCodeSize + 1;
        previous := None;
        d := outcome.next;
        continue;
      }
      if code == endCode {
        ended := true;
        break;
      }
      var entry: Phrase;
      if code in table {
        entry := table[code];
      } else if previous.Some? && code == nextCode {
        entry := previous.value + [previous.value[0]];
      } else {
        return None;
      }
      ghost var learned := Learn(d, entry);
      assert outcome == Emitted(learned.(previous := Some(entry), output := d.output + entry));
      output := output + entry;
      if previous.Some? && nextCode < TABLE_LIMIT {
        table := table[nextCode := previous.value + [entry[0]]];
        nextCode := nextCode + 1;
        if nextCode == Pow2(codeSize) && codeSize < MAX_CODE_SIZE {
          codeSize := codeSize + 1;
        }
      }
      assert learned == Decoder(table, nextCode, codeSize, previous, d.output);
      previous := Some(entry);
      d := outcome.next;
      if |output| >= expected {
        return Some(output[..expected]);
      }
    }
    if !ended {
      DecodeRunsOut(goal, bits, bitPosition, d, minCodeSize, expected);
    }
    indices := if output == [] then None else Some(Truncate(output, expected));
  }
}
