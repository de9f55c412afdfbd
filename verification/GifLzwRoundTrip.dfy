/** A reference encoder after Appendix F of GIF89a, and the proof that the decoder inverts it.

    The encoder keeps its own dictionary and its own width counter; nothing in it looks at the
    decoder. It clears wherever `clears` tells it to, or never: with the table full and no clear it
    goes on with the codes it has (the deferred clear code of GIF89a). */
module GifLzwRoundTrip {
  import opened Bits
  import opened GifLzw
  import opened Options

  datatype Encoder = Encoder(codes: map<seq<nat>, nat>, freeCode: nat, width: nat)

  function RootCodes(minCodeSize: nat): map<seq<nat>, nat> {
    map index: nat | index < ClearCode(minCodeSize) :: [index] := index
  }

  function FreshEncoder(minCodeSize: nat): Encoder {
    Encoder(RootCodes(minCodeSize), EndCode(minCodeSize) + 1, minCodeSize + 1)
  }

  predicate HasPhrase(codes: map<seq<nat>, nat>, s: seq<nat>, n: nat) {
    n <= |s| && s[..n] in codes
  }

  /** Greedy match: the prefix of `s` is extended symbol by symbol as long as it has a code. */
  function MatchLength(codes: map<seq<nat>, nat>, s: seq<nat>, n: nat): (m: nat)
    requires 1 <= n && HasPhrase(codes, s, n)
    ensures n <= m && HasPhrase(codes, s, m)
    decreases |s| - n
  {
    if n < |s| && s[..n + 1] in codes then MatchLength(codes, s, n + 1) else n
  }

  /** The state after writing the code of `s[..n]`: the code width is settled first, then the
      phrase with the next symbol gets the free code, if there is a next symbol and a free code. */
  function Written(e: Encoder, s: seq<nat>, n: nat): Encoder
    requires n <= |s|
  {
    var width := if e.freeCode == Pow2(e.width) && e.width < MAX_CODE_SIZE then e.width + 1 else e.width;
    if n < |s| && e.freeCode < TABLE_LIMIT then
      Encoder(e.codes[s[..n + 1] := e.freeCode], e.freeCode + 1, width)
    else
      e.(width := width)
  }

  predicate HasRoots(e: Encoder, minCodeSize: nat) {
    forall index: nat :: index < ClearCode(minCodeSize) ==> [index] in e.codes
  }

  /** The code stream for `s`, ended by the end code. `clears(i)` asks for a clear code before the
      `i`-th code. */
  function Encode(s: seq<nat>, e: Encoder, minCodeSize: nat, clears: nat -> bool, i: nat): seq<bool>
    requires HasRoots(e, minCodeSize) && Symbols(s, minCodeSize)
    decreases |s|, 1
  {
    if clears(i) then
      ToBits(ClearCode(minCodeSize), e.width) + EncodeNext(s, FreshEncoder(minCodeSize), minCodeSize, clears, i)
    else
      EncodeNext(s, e, minCodeSize, clears, i)
  }

  function EncodeNext(s: seq<nat>, e: Encoder, minCodeSize: nat, clears: nat -> bool, i: nat): seq<bool>
    requires HasRoots(e, minCodeSize) && Symbols(s, minCodeSize)
    decreases |s|, 0
  {
    if s == [] then ToBits(EndCode(minCodeSize), e.width)
    else
      var n := FirstMatch(e, s, minCodeSize);
      ToBits(e.codes[s[..n]], e.width) + Encode(s[n..], Written(e, s, n), minCodeSize, clears, i + 1)
  }

  function FirstMatch(e: Encoder, s: seq<nat>, minCodeSize: nat): (n: nat)
    requires HasRoots(e, minCodeSize) && Symbols(s, minCodeSize) && s != []
    ensures 1 <= n && HasPhrase(e.codes, s, n)
  {
    assert s[..1] == [s[0]];
    MatchLength(e.codes, s, 1)
  }

  function EncodeData(s: seq<nat>, minCodeSize: nat, clears: nat -> bool): seq<byte>
    requires Symbols(s, minCodeSize)
  {
    Pack(Encode(s, FreshEncoder(minCodeSize), minCodeSize, clears, 0))
  }

  // ----- Encoder and decoder in step -----

  /** `w` has code `code` at the encoder. The decoder knows the code already, or `w` is the one
      phrase it has still to learn: the previous phrase and the first symbol of what follows. */
  ghost predicate KnownOrPending(d: Decoder, w: seq<nat>, code: nat, s: seq<nat>) {
    if code in d.table then d.table[code] == w
    else
      && code == d.nextCode < TABLE_LIMIT
      && d.previous.Some? && s != [] && w == d.previous.value + [s[0]]
  }

  /** The encoder, about to encode `s`, and the decoder, about to read the result. The encoder's
      free code is one ahead of the decoder's, until both have run out of codes. */
  ghost predicate InStep(e: Encoder, d: Decoder, minCodeSize: nat, s: seq<nat>) {
    && Widths(d, minCodeSize)
    && HasRoots(e, minCodeSize)
    && e.width == d.codeSize
    && KeysExact(d, minCodeSize)
    && (s != [] ==>
      && e.freeCode == (if d.previous.Some? && d.nextCode < TABLE_LIMIT then d.nextCode + 1 else d.nextCode)
      && forall w :: w in e.codes ==> KnownOrPending(d, w, e.codes[w], s))
  }

  lemma FreshInStep(minCodeSize: nat, output: seq<nat>, s: seq<nat>)
    requires LegalMinCodeSize(minCodeSize)
    ensures InStep(FreshEncoder(minCodeSize), Cleared(minCodeSize, output), minCodeSize, s)
  {
    ClearedIsSound(minCodeSize, []);
  }

  /** Every code the encoder may write fits its current width. */
  lemma CodesFit(e: Encoder, d: Decoder, minCodeSize: nat, s: seq<nat>)
    requires LegalMinCodeSize(minCodeSize) && InStep(e, d, minCodeSize, s)
    ensures EndCode(minCodeSize) < Pow2(e.width)
    ensures s != [] ==> forall w :: w in e.codes ==> e.codes[w] < Pow2(e.width)
  {
    Limits();
    Pow2Monotone(2, minCodeSize);
    Pow2Monotone(minCodeSize + 1, e.width);
    if s != [] {
      forall w | w in e.codes
        ensures e.codes[w] < Pow2(e.width)
      {
        assert KnownOrPending(d, w, e.codes[w], s);
      }
    }
  }

  /** The decoder reads one phrase: KwKwK codes included, it gets the phrase and stays in step. */
  lemma PhraseKeepsInStep(e: Encoder, d: Decoder, minCodeSize: nat, s: seq<nat>, n: nat)
    requires LegalMinCodeSize(minCodeSize) && InStep(e, d, minCodeSize, s)
    requires 1 <= n <= |s| && s[..n] in e.codes
    ensures var outcome := Step(d, e.codes[s[..n]], minCodeSize);
      && outcome.Emitted?
      && outcome.next.output == d.output + s[..n]
      && InStep(Written(e, s, n), outcome.next, minCodeSize, s[n..])
  {
    var w := s[..n];
    var code := e.codes[w];
    assert KnownOrPending(d, w, code, s);
    if code !in d.table {
      var p := d.previous.value;
      assert w[0] == p[0] == s[0];
    }
    assert Lookup(d, code) == Some(w);
    var e', d' := Written(e, s, n), Step(d, code, minCodeSize).next;
    LearnKeepsWidths(d, w, minCodeSize);
    LearnKeepsKeys(d, w, minCodeSize);
    WidthsAgree(e, d, minCodeSize, s, n);
    if n < |s| {
      WrittenInStep(e, d, minCodeSize, s, n);
      assert forall v :: v in e'.codes ==> KnownOrPending(d', v, e'.codes[v], s[n..]);
    }
    WrittenKeepsRoots(e, minCodeSize, s, n);
  }

  lemma WrittenKeepsRoots(e: Encoder, minCodeSize: nat, s: seq<nat>, n: nat)
    requires HasRoots(e, minCodeSize) && n <= |s|
    ensures HasRoots(Written(e, s, n), minCodeSize)
  {
  }

  lemma WidthsAgree(e: Encoder, d: Decoder, minCodeSize: nat, s: seq<nat>, n: nat)
    requires LegalMinCodeSize(minCodeSize) && InStep(e, d, minCodeSize, s)
    requires 1 <= n <= |s|
    ensures Written(e, s, n).width == Learn(d, s[..n]).codeSize
  {
    Limits();
    Pow2Monotone(2, minCodeSize);
    if d.previous.None? {
      assert e.freeCode == Pow2(minCodeSize) + 2;
      assert Pow2(minCodeSize + 1) == 2 * Pow2(minCodeSize);
      Pow2Monotone(minCodeSize + 1, e.width);
    }
  }

  lemma WrittenInStep(e: Encoder, d: Decoder, minCodeSize: nat, s: seq<nat>, n: nat)
    requires LegalMinCodeSize(minCodeSize) && InStep(e, d, minCodeSize, s)
    requires 1 <= n < |s|
    ensures var e', d' := Written(e, s, n), Learn(d, s[..n]).(previous := Some(s[..n]));
      && e'.freeCode == (if d'.nextCode < TABLE_LIMIT then d'.nextCode + 1 else d'.nextCode)
      && forall w :: w in e'.codes ==> KnownOrPending(d', w, e'.codes[w], s[n..])
  {
    var e', d' := Written(e, s, n), Learn(d, s[..n]).(previous := Some(s[..n]));
    forall w | w in e'.codes
      ensures KnownOrPending(d', w, e'.codes[w], s[n..])
    {
      if w == s[..n + 1] && e.freeCode < TABLE_LIMIT {
        assert s[..n + 1] == s[..n] + [s[n..][0]];
      } else {
        assert KnownOrPending(d, w, e.codes[w], s);
      }
    }
  }

  /** The decoder takes one code off the front of the stream. */
  lemma ReadsCode(code: nat, rest: seq<bool>, d: Decoder, minCodeSize: nat, expected: nat)
    requires d.codeSize > 0 && code < Pow2(d.codeSize)
    ensures var answer := Decode(ToBits(code, d.codeSize) + rest, d, minCodeSize, expected);
      var outcome := Step(d, code, minCodeSize);
      && (outcome.Restarted? ==> answer == Decode(rest, outcome.next, minCodeSize, expected))
      && (outcome.Ended? ==> answer == Finish(d.output, expected))
      && (outcome.Emitted? && |outcome.next.output| >= expected ==>
            answer == Some(outcome.next.output[..expected]))
      && (outcome.Emitted? && |outcome.next.output| < expected ==>
            answer == Decode(rest, outcome.next, minCodeSize, expected))
  {
    var bits := ToBits(code, d.codeSize) + rest;
    FromToBits(code, d.codeSize);
    assert bits[0..d.codeSize] == ToBits(code, d.codeSize);
    assert bits[d.codeSize..] == rest;
    assert bits[0..] == bits;
    DecodeUnfolds(bits, 0, d, code, minCodeSize, expected);
  }

  /** After the optional clear code, encoder and decoder are in step again. */
  lemma ReadsClear(e: Encoder, d: Decoder, minCodeSize: nat, s: seq<nat>, rest: seq<bool>, expected: nat)
    requires LegalMinCodeSize(minCodeSize) && InStep(e, d, minCodeSize, s)
    ensures Decode(ToBits(ClearCode(minCodeSize), e.width) + rest, d, minCodeSize, expected) ==
            Decode(rest, Cleared(minCodeSize, d.output), minCodeSize, expected)
    ensures InStep(FreshEncoder(minCodeSize), Cleared(minCodeSize, d.output), minCodeSize, s)
  {
    CodesFit(e, d, minCodeSize, s);
    ReadsCode(ClearCode(minCodeSize), rest, d, minCodeSize, expected);
    FreshInStep(minCodeSize, d.output, s);
  }

  lemma SameWidth(e: Encoder, d: Decoder, minCodeSize: nat, s: seq<nat>)
    requires InStep(e, d, minCodeSize, s)
    ensures e.width == d.codeSize > 0
  {
  }

  /** Reading from state `d`, the decoder answers what it has so far and then `s`. */
  ghost predicate Decodes(stream: seq<bool>, tail: seq<bool>, d: Decoder, minCodeSize: nat, expected: nat, s: seq<nat>)
    requires d.codeSize > 0
  {
    Decode(stream + tail, d, minCodeSize, expected) == Finish(d.output + s, expected)
  }

  /** Once there is enough output, what would follow does not matter. */
  lemma EnoughOutput(output: seq<nat>, more: seq<nat>, expected: nat)
    requires output != [] && |output| >= expected
    ensures Finish(output + more, expected) == Some(output[..expected])
  {
    if |output + more| > expected {
      assert (output + more)[..expected] == output[..expected];
    } else {
      assert output + more == output == output[..expected];
    }
  }

  lemma EndDecodes(e: Encoder, d: Decoder, minCodeSize: nat, tail: seq<bool>, expected: nat)
    requires LegalMinCodeSize(minCodeSize) && InStep(e, d, minCodeSize, [])
    ensures Decodes(ToBits(EndCode(minCodeSize), e.width), tail, d, minCodeSize, expected, [])
  {
    CodesFit(e, d, minCodeSize, []);
    ReadsCode(EndCode(minCodeSize), tail, d, minCodeSize, expected);
    assert d.output + [] == d.output;
  }

  lemma ClearDecodes(
      e: Encoder, d: Decoder, minCodeSize: nat, s: seq<nat>, rest: seq<bool>, tail: seq<bool>, expected: nat)
    requires LegalMinCodeSize(minCodeSize) && InStep(e, d, minCodeSize, s)
    requires Decodes(rest, tail, Cleared(minCodeSize, d.output), minCodeSize, expected, s)
    ensures Decodes(ToBits(ClearCode(minCodeSize), e.width) + rest, tail, d, minCodeSize, expected, s)
  {
    ReadsClear(e, d, minCodeSize, s, rest + tail, expected);
    assert (ToBits(ClearCode(minCodeSize), e.width) + rest) + tail
        == ToBits(ClearCode(minCodeSize), e.width) + (rest + tail);
  }

  lemma PhraseDecodes(
      e: Encoder, d: Decoder, minCodeSize: nat, s: seq<nat>, n: nat, rest: seq<bool>, tail: seq<bool>, expected: nat)
    requires LegalMinCodeSize(minCodeSize) && InStep(e, d, minCodeSize, s)
    requires 1 <= n <= |s| && s[..n] in e.codes
    requires var outcome := Step(d, e.codes[s[..n]], minCodeSize);
      outcome.Emitted? && outcome.next.codeSize > 0 && |outcome.next.output| < expected ==>
        Decodes(rest, tail, outcome.next, minCodeSize, expected, s[n..])
    ensures Decodes(ToBits(e.codes[s[..n]], e.width) + rest, tail, d, minCodeSize, expected, s)
  {
    hide Step, InStep, Decode, ToBits, Pow2, Widths;
    var code := e.codes[s[..n]];
    SameWidth(e, d, minCodeSize, s);
    CodesFit(e, d, minCodeSize, s);
    PhraseKeepsInStep(e, d, minCodeSize, s, n);
    ReadsCode(code, rest + tail, d, minCodeSize, expected);
    var next := Step(d, code, minCodeSize).next;
    assert (ToBits(code, e.width) + rest) + tail == ToBits(code, e.width) + (rest + tail);
    assert d.output + s == next.output + s[n..];
    if |next.output| >= expected {
      EnoughOutput(next.output, s[n..], expected);
    }
  }

  lemma {:induction false} DecodeInvertsEncode(
      s: seq<nat>, e: Encoder, d: Decoder, minCodeSize: nat, clears: nat -> bool, i: nat,
      tail: seq<bool>, expected: nat)
    requires LegalMinCodeSize(minCodeSize) && Symbols(s, minCodeSize)
    requires InStep(e, d, minCodeSize, s)
    requires d.output == [] || |d.output| < expected
    ensures Decodes(Encode(s, e, minCodeSize, clears, i), tail, d, minCodeSize, expected, s)
    decreases |s|, 1
  {
    if clears(i) {
      var e', d' := FreshEncoder(minCodeSize), Cleared(minCodeSize, d.output);
      FreshInStep(minCodeSize, d.output, s);
      DecodeInvertsEncodeNext(s, e', d', minCodeSize, clears, i, tail, expected);
      ClearDecodes(e, d, minCodeSize, s, EncodeNext(s, e', minCodeSize, clears, i), tail, expected);
    } else {
      DecodeInvertsEncodeNext(s, e, d, minCodeSize, clears, i, tail, expected);
    }
  }

  lemma {:induction false} DecodeInvertsEncodeNext(
      s: seq<nat>, e: Encoder, d: Decoder, minCodeSize: nat, clears: nat -> bool, i: nat,
      tail: seq<bool>, expected: nat)
    requires LegalMinCodeSize(minCodeSize) && Symbols(s, minCodeSize)
    requires InStep(e, d, minCodeSize, s)
    requires d.output == [] || |d.output| < expected
    ensures Decodes(EncodeNext(s, e, minCodeSize, clears, i), tail, d, minCodeSize, expected, s)
    decreases |s|, 0
  {
    if s == [] {
      EndDecodes(e, d, minCodeSize, tail, expected);
    } else {
      var n := FirstMatch(e, s, minCodeSize);
      PhraseKeepsInStep(e, d, minCodeSize, s, n);
      var e', d' := Written(e, s, n), Step(d, e.codes[s[..n]], minCodeSize).next;
      if |d'.output| < expected {
        DecodeInvertsEncode(s[n..], e', d', minCodeSize, clears, i + 1, tail, expected);
      }
      PhraseDecodes(e, d, minCodeSize, s, n, Encode(s[n..], e', minCodeSize, clears, i + 1), tail, expected);
    }
  }

  /** Packed into bytes and followed by more bytes, a bit stream is still read first. */
  lemma PackedStream(stream: seq<bool>, trailing: seq<byte>) returns (tail: seq<bool>)
    ensures Unpack(Pack(stream) + trailing) == stream + tail
  {
    UnpackPack(stream);
    UnpackConcat(Pack(stream), trailing);
    tail := Unpack(Pack(stream))[|stream|..] + Unpack(trailing);
  }

  /** The round trip: for every minimum code size from 2 to 8, every choice of clear codes, any
      bytes after the stream and any size asked for, the decoder answers what was encoded, cut to
      that size; only the empty string comes back as no image at all. */
  lemma GifLzwRoundTrip(s: seq<nat>, minCodeSize: nat, clears: nat -> bool, trailing: seq<byte>, expected: nat)
    requires LegalMinCodeSize(minCodeSize) && Symbols(s, minCodeSize)
    ensures DecodeData(EncodeData(s, minCodeSize, clears) + trailing, minCodeSize, expected)
            == if s == [] then None else Some(Truncate(s, expected))
  {
    var e, d := FreshEncoder(minCodeSize), Cleared(minCodeSize, []);
    var stream := Encode(s, e, minCodeSize, clears, 0);
    var tail := PackedStream(stream, trailing);
    FreshInStep(minCodeSize, [], s);
    DecodeInvertsEncode(s, e, d, minCodeSize, clears, 0, tail, expected);
    assert d.output + s == s;
  }
}
