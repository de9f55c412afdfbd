/** Transcript files: newline-terminated JSON records, the running summary that a scan keeps, and
    the full scan of a file. What a line means is the business of `parse`, any function from lines to
    records. */
module Transcript {
  import opened Bits
  import opened Options

  type Bytes = seq<byte>

  const NEWLINE: byte := 10
  const RETURN: byte := 13

  /** What one line tells: a user or assistant record has text that is not blank. */
  datatype Record = Meta(id: string) | User(prompt: string) | Assistant(text: string, phase: string) | Other

  type Parser = Bytes -> Record

  datatype Result = Result(text: string, sessionId: string, phase: string, lineIndex: int, prompt: string)

  // ----- Lines -----

  /** The length of the first line, its newline included if it has one. */
  function LineLength(content: Bytes): (n: nat)
    ensures n <= |content| && (content != [] ==> n > 0)
  {
    if content == [] then 0 else if content[0] == NEWLINE then 1 else 1 + LineLength(content[1..])
  }

  predicate Terminated(line: Bytes) { line != [] && line[|line| - 1] == NEWLINE }

  /** The complete lines of `content`; an unfinished last line is not among them. */
  function Lines(content: Bytes): seq<Bytes>
    decreases |content|
  {
    if content == [] then []
    else
      var n := LineLength(content);
      if Terminated(content[..n]) then [content[..n]] + Lines(content[n..]) else []
  }

  /** How many bytes the complete lines take. */
  function CompleteLength(content: Bytes): (n: nat)
    ensures n <= |content|
    decreases |content|
  {
    if content == [] then 0
    else
      var n := LineLength(content);
      if Terminated(content[..n]) then n + CompleteLength(content[n..]) else 0
  }

  /** `content` is made of complete lines. */
  predicate AtBoundary(content: Bytes) { CompleteLength(content) == |content| }

  lemma {:induction false} LineLengthExtends(a: Bytes, b: Bytes)
    requires a != [] && Terminated(a[..LineLength(a)])
    ensures LineLength(a + b) == LineLength(a)
  {
    if a[0] != NEWLINE {
      assert (a + b)[1..] == a[1..] + b;
      assert a[..LineLength(a)] == [a[0]] + a[1..][..LineLength(a[1..])];
      LineLengthExtends(a[1..], b);
    }
  }

  lemma {:induction false} LinesOfConcat(a: Bytes, b: Bytes)
    requires AtBoundary(a)
    ensures Lines(a + b) == Lines(a) + Lines(b)
    ensures CompleteLength(a + b) == |a| + CompleteLength(b)
    decreases |a|
  {
    if a == [] {
      assert a + b == b;
    } else {
      var n := LineLength(a);
      LineLengthExtends(a, b);
      assert (a + b)[..n] == a[..n];
      assert (a + b)[n..] == a[n..] + b;
      LinesOfConcat(a[n..], b);
      assert Lines(a + b) == [a[..n]] + (Lines(a[n..]) + Lines(b));
    }
  }

  lemma {:induction false} CompletePart(content: Bytes)
    ensures var done := content[..CompleteLength(content)];
      AtBoundary(done) && Lines(done) == Lines(content)
    decreases |content|
  {
    if content != [] {
      var n := LineLength(content);
      if Terminated(content[..n]) {
        CompletePart(content[n..]);
        var rest := content[n..][..CompleteLength(content[n..])];
        var line := content[..n];
        assert content[..CompleteLength(content)] == line + rest;
        OneLine(content);
        LinesOfConcat(line, rest);
      }
    }
  }

  lemma OneLine(content: Bytes)
    requires content != [] && Terminated(content[..LineLength(content)])
    ensures var line := content[..LineLength(content)];
      AtBoundary(line) && Lines(line) == [line]
  {
    var line := content[..LineLength(content)];
    LineLengthOfLine(content);
    assert line[..|line|] == line && line[|line|..] == [];
  }

  lemma {:induction false} LineLengthOfLine(content: Bytes)
    requires content != []
    ensures LineLength(content[..LineLength(content)]) == LineLength(content)
  {
    if content[0] != NEWLINE && |content| > 1 {
      LineLengthOfLine(content[1..]);
      assert content[..LineLength(content)][1..] == content[1..][..LineLength(content[1..])];
    }
  }

  function Flat(lines: seq<Bytes>): Bytes { if lines == [] then [] else lines[0] + Flat(lines[1..]) }

  lemma FlatCons(line: Bytes, lines: seq<Bytes>)
    ensures Flat([line] + lines) == line + Flat(lines)
  {
    assert ([line] + lines)[1..] == lines;
  }

  ghost predicate NoneIs10(content: Bytes) { forall k :: 0 <= k < |content| ==> content[k] != 10 }

  ghost predicate AllCut(lines: seq<Bytes>) { forall i :: 0 <= i < |lines| ==> CutBehind10(lines[i]) }

  /** The complete lines are the bytes up to the last byte 10, cut behind each byte 10. */
  lemma {:induction false} LinesAreCut(content: Bytes)
    ensures Flat(Lines(content)) == content[..CompleteLength(content)]
    ensures NoneIs10(content[CompleteLength(content)..]) && AllCut(Lines(content))
    decreases |content|
  {
    hide Flat, LineLength, CutBehind10, Terminated, NoneIs10;
    if content == [] {
      NothingIsCut();
    } else {
      var n := LineLength(content);
      FirstLineIsCut(content);
      LastOfCut(content[..n]);
      if Terminated(content[..n]) {
        var m := CompleteLength(content[n..]);
        LinesAreCut(content[n..]);
        FlatCons(content[..n], Lines(content[n..]));
        assert content[..n + m] == content[..n] + content[n..][..m];
        assert content[n..][m..] == content[n + m..];
      } else {
        NothingIsCut();
        assert content[0..] == content;
      }
    }
  }

  lemma NothingIsCut()
    ensures Flat([]) == [] && NoneIs10([])
  {
  }

  lemma LastOfCut(line: Bytes)
    ensures CutBehind10(line) ==> Terminated(line)
    ensures NoneIs10(line) ==> !Terminated(line)
  {
  }

  predicate CutBehind10(line: Bytes) {
    line != [] && line[|line| - 1] == 10 && forall k :: 0 <= k < |line| - 1 ==> line[k] != 10
  }

  lemma {:induction false} FirstLineIsCut(content: Bytes)
    requires content != []
    ensures var line := content[..LineLength(content)];
      CutBehind10(line) || (line == content && NoneIs10(content))
  {
    if content[0] != NEWLINE && |content| > 1 {
      FirstLineIsCut(content[1..]);
      var rest := content[1..][..LineLength(content[1..])];
      assert content[..LineLength(content)] == [content[0]] + rest;
      assert forall k :: 1 <= k < |content| ==> content[k] == content[1..][k - 1];
    }
  }

  // ----- The running summary -----

  datatype Summary = Summary(
    lineIndex: int, sessionId: string, preferred: Option<Result>, fallback: Option<Result>, prompt: string)

  function Start(sessionId: string): Summary { Summary(-1, sessionId, None, None, "") }

  /** One more line. */
  function Fold(s: Summary, record: Record, phases: set<string>): Summary {
    var next := s.(lineIndex := s.lineIndex + 1);
    match record
    case Meta(id) => if s.sessionId == "" then next.(sessionId := id) else next
    case User(prompt) => next.(prompt := prompt)
    case Assistant(text, phase) =>
      var result := Result(text, s.sessionId, phase, next.lineIndex, s.prompt);
      if phase in phases then next.(preferred := Some(result)) else next.(fallback := Some(result))
    case Other => next
  }

  function FoldAll(s: Summary, lines: seq<Bytes>, parse: Parser, phases: set<string>): Summary
    decreases |lines|
  {
    if lines == [] then s else FoldAll(Fold(s, parse(lines[0]), phases), lines[1..], parse, phases)
  }

  lemma {:induction false} FoldAllConcat(s: Summary, a: seq<Bytes>, b: seq<Bytes>, parse: Parser, phases: set<string>)
    ensures FoldAll(s, a + b, parse, phases) == FoldAll(FoldAll(s, a, parse, phases), b, parse, phases)
    decreases |a|
  {
    if a == [] {
      assert a + b == b;
    } else {
      assert (a + b)[1..] == a[1..] + b;
      FoldAllConcat(Fold(s, parse(a[0]), phases), a[1..], b, parse, phases);
    }
  }

  lemma {:induction false} FoldCounts(s: Summary, lines: seq<Bytes>, parse: Parser, phases: set<string>)
    ensures FoldAll(s, lines, parse, phases).lineIndex == s.lineIndex + |lines|
    decreases |lines|
  {
    if lines != [] {
      FoldCounts(Fold(s, parse(lines[0]), phases), lines[1..], parse, phases);
    }
  }

  /** A session id that is given is kept, and stamped on every result. */
  ghost predicate Stamped(s: Summary, sessionId: string) {
    && s.sessionId == sessionId
    && (s.preferred.Some? ==> s.preferred.value.sessionId == sessionId)
    && (s.fallback.Some? ==> s.fallback.value.sessionId == sessionId)
  }

  lemma {:induction false} GivenSessionIdIsKept(
      s: Summary, sessionId: string, lines: seq<Bytes>, parse: Parser, phases: set<string>)
    requires sessionId != "" && Stamped(s, sessionId)
    ensures Stamped(FoldAll(s, lines, parse, phases), sessionId)
    decreases |lines|
  {
    if lines != [] {
      GivenSessionIdIsKept(Fold(s, parse(lines[0]), phases), sessionId, lines[1..], parse, phases);
    }
  }

  function Selected(s: Summary, fallbackToAny: bool): Option<Result> {
    if s.preferred.Some? then s.preferred else if fallbackToAny then s.fallback else None
  }

  /** Results on record come from lines already counted. */
  ghost predicate Numbered(s: Summary) {
    && (s.preferred.Some? ==> s.preferred.value.lineIndex <= s.lineIndex)
    && (s.fallback.Some? ==> s.fallback.value.lineIndex <= s.lineIndex)
  }

  lemma {:induction false} FoldAllIsNumbered(s: Summary, lines: seq<Bytes>, parse: Parser, phases: set<string>)
    requires Numbered(s)
    ensures Numbered(FoldAll(s, lines, parse, phases))
    decreases |lines|
  {
    if lines != [] {
      FoldAllIsNumbered(Fold(s, parse(lines[0]), phases), lines[1..], parse, phases);
    }
  }

  /** The record gives a result that would be selected on top of `s`. */
  predicate Counts(s: Summary, record: Record, phases: set<string>, fallbackToAny: bool) {
    record.Assistant? && (record.phase in phases || (fallbackToAny && s.preferred.None?))
  }

  /** One more record changes what is selected exactly if it counts. */
  lemma SelectedChangesIff(s: Summary, record: Record, phases: set<string>, fallbackToAny: bool)
    requires Numbered(s)
    ensures Selected(Fold(s, record, phases), fallbackToAny) != Selected(s, fallbackToAny) <==>
      Counts(s, record, phases, fallbackToAny)
  {
  }

  // ----- The full scan -----

  /** The length of the first line of a text file: the decoder of text files ends a line at a
      newline, at a carriage return, or at both together. */
  function TextLineLength(content: Bytes): (n: nat)
    ensures n <= |content| && (content != [] ==> n > 0)
  {
    if content == [] then 0
    else if content[0] == NEWLINE then 1
    else if content[0] == RETURN then (if |content| > 1 && content[1] == NEWLINE then 2 else 1)
    else 1 + TextLineLength(content[1..])
  }

  /** All lines of a text file, an unfinished last one included. */
  function TextLines(content: Bytes): seq<Bytes>
    decreases |content|
  {
    if content == [] then [] else [content[..TextLineLength(content)]] + TextLines(content[TextLineLength(content)..])
  }

  /** Bytes 10 and 13 end a line of text, the two in this order together. */
  predicate IsTextLine(line: Bytes) {
    && line != [] && (forall k :: 0 <= k < |line| - 2 ==> line[k] != 10 && line[k] != 13)
    && (|line| > 1 ==> line[|line| - 2] != 10 && (line[|line| - 2] == 13 ==> line[|line| - 1] == 10))
  }

  /** Between two lines of text: the first has its end, and byte 13 is not cut off from a byte 10 behind it. */
  predicate CutBetween(line: Bytes, next: Bytes)
    requires line != [] && next != []
  {
    (line[|line| - 1] == 10 || line[|line| - 1] == 13) && !(line[|line| - 1] == 13 && next[0] == 10)
  }

  ghost predicate AllTextLines(lines: seq<Bytes>) {
    && (forall i :: 0 <= i < |lines| ==> IsTextLine(lines[i]))
    && (forall i :: 0 <= i < |lines| - 1 ==> CutBetween(lines[i], lines[i + 1]))
  }

  /** The lines of text are all bytes, each cut at its end; only the last may have none. */
  lemma {:induction false} TextLinesAreCut(content: Bytes)
    ensures Flat(TextLines(content)) == content && AllTextLines(TextLines(content))
    decreases |content|
  {
    hide Flat, TextLineLength, IsTextLine, CutBetween, AllTextLines;
    if content == [] {
      NothingIsCut();
      NoTextLines();
    } else {
      var n := TextLineLength(content);
      FirstTextLineIsCut(content);
      TextLinesAreCut(content[n..]);
      FlatCons(content[..n], TextLines(content[n..]));
      assert content == content[..n] + content[n..];
      if n < |content| {
        FirstTextLineIsCut(content[n..]);
        CutInTwo(content, n, TextLineLength(content[n..]));
      }
      OneMoreTextLine(content[..n], TextLines(content[n..]));
    }
  }

  lemma NoTextLines()
    ensures AllTextLines([])
  {
  }

  lemma CutInTwo(content: Bytes, n: nat, m: nat)
    requires 0 < n < |content| && 0 < m <= |content| - n
    requires (content[n - 1] == 10 || content[n - 1] == 13) && !(content[n - 1] == 13 && content[n] == 10)
    ensures CutBetween(content[..n], content[n..][..m])
  {
  }

  lemma OneMoreTextLine(line: Bytes, lines: seq<Bytes>)
    requires IsTextLine(line) && AllTextLines(lines)
    requires lines != [] ==> IsTextLine(lines[0]) && CutBetween(line, lines[0])
    ensures AllTextLines([line] + lines)
  {
    hide CutBetween;
    var all := [line] + lines;
    assert forall i :: 1 <= i < |all| ==> all[i] == lines[i - 1];
  }

  lemma {:induction false} FirstTextLineIsCut(content: Bytes)
    requires content != []
    ensures var n := TextLineLength(content);
      && IsTextLine(content[..n])
      && (n < |content| ==>
            (content[n - 1] == 10 || content[n - 1] == 13) && !(content[n - 1] == 13 && content[n] == 10))
  {
    if content[0] != NEWLINE && content[0] != RETURN && |content| > 1 {
      FirstTextLineIsCut(content[1..]);
      var m := TextLineLength(content[1..]);
      assert content[..m + 1] == [content[0]] + content[1..][..m];
    }
  }

  function FullScan(
      content: Bytes, sessionId: string, phases: set<string>, fallbackToAny: bool, parse: Parser): Option<Result>
  {
    Selected(FoldAll(Start(sessionId), TextLines(content), parse, phases), fallbackToAny)
  }

  lemma FoldOne(s: Summary, line: Bytes, parse: Parser, phases: set<string>)
    ensures FoldAll(s, [line], parse, phases) == Fold(s, parse(line), phases)
  {
    assert [line][1..] == [];
    assert FoldAll(Fold(s, parse(line), phases), [], parse, phases) == Fold(s, parse(line), phases);
  }

  lemma FoldLast(s: Summary, lines: seq<Bytes>, parse: Parser, phases: set<string>)
    requires lines != []
    ensures var n := |lines| - 1;
      FoldAll(s, lines, parse, phases) == Fold(FoldAll(s, lines[..n], parse, phases), parse(lines[n]), phases)
  {
    var n := |lines| - 1;
    assert lines == lines[..n] + [lines[n]];
    FoldAllConcat(s, lines[..n], [lines[n]], parse, phases);
    FoldOne(FoldAll(s, lines[..n], parse, phases), lines[n], parse, phases);
  }

  lemma FoldNothing(s: Summary, parse: Parser, phases: set<string>)
    ensures FoldAll(s, [], parse, phases) == s
  {
  }

  // ----- What an answer is made of -----

  /** The prompt of the last user line before line `i`. */
  ghost predicate PromptAt(prompt: string, lines: seq<Bytes>, i: nat, parse: Parser)
    requires i <= |lines|
  {
    || (prompt == "" && forall k :: 0 <= k < i ==> !parse(lines[k]).User?)
    || exists j: nat :: j < i && parse(lines[j]) == User(prompt) && forall k :: j < k < i ==> !parse(lines[k]).User?
  }

  /** The session id that was given, or else the first one that is told before line `i`. */
  ghost predicate SessionAt(id: string, given: string, lines: seq<Bytes>, i: nat, parse: Parser)
    requires i <= |lines|
  {
    if given != "" then id == given
    else
      || (id == "" && forall k :: 0 <= k < i ==> !TellsSession(parse(lines[k])))
      || (id != "" && exists j: nat :: j < i && parse(lines[j]) == Meta(id)
                                       && forall k :: 0 <= k < j ==> !TellsSession(parse(lines[k])))
  }

  predicate TellsSession(record: Record) { record.Meta? && record.id != "" }

  /** The answer of line `i`, with what the lines before it tell. */
  ghost predicate AnswerAt(r: Result, given: string, lines: seq<Bytes>, i: nat, parse: Parser) {
    && i < |lines| && parse(lines[i]) == Assistant(r.text, r.phase) && r.lineIndex == i
    && PromptAt(r.prompt, lines, i, parse) && SessionAt(r.sessionId, given, lines, i, parse)
  }

  /** An answer in one of the phases, or an answer in none of them. */
  predicate IsWanted(record: Record, phases: set<string>, wanted: bool) {
    record.Assistant? && (record.phase in phases <==> wanted)
  }

  /** The result of the last line with such an answer. */
  ghost predicate IsLatest(
      latest: Option<Result>, given: string, lines: seq<Bytes>, phases: set<string>, wanted: bool, parse: Parser)
  {
    match latest
    case None => forall k :: 0 <= k < |lines| ==> !IsWanted(parse(lines[k]), phases, wanted)
    case Some(r) =>
      && AnswerAt(r, given, lines, LineOf(r), parse) && IsWanted(parse(lines[LineOf(r)]), phases, wanted)
      && forall k :: LineOf(r) < k < |lines| ==> !IsWanted(parse(lines[k]), phases, wanted)
  }

  function LineOf(r: Result): nat { if r.lineIndex < 0 then 0 else r.lineIndex }

  lemma FoldRecord(s: Summary, record: Record, phases: set<string>)
    ensures var next := Fold(s, record, phases);
      && next.lineIndex == s.lineIndex + 1
      && next.prompt == (if record.User? then record.prompt else s.prompt)
      && next.sessionId == (if s.sessionId == "" && record.Meta? then record.id else s.sessionId)
      && next.preferred == (if IsWanted(record, phases, true) then Some(ResultOf(s, record)) else s.preferred)
      && next.fallback == (if IsWanted(record, phases, false) then Some(ResultOf(s, record)) else s.fallback)
  {
  }

  function ResultOf(s: Summary, record: Record): Result
    requires record.Assistant?
  {
    Result(record.text, s.sessionId, record.phase, s.lineIndex + 1, s.prompt)
  }

  lemma PromptMoves(prompt: string, lines: seq<Bytes>, parse: Parser)
    requires lines != [] && PromptAt(prompt, lines[..|lines| - 1], |lines| - 1, parse)
    ensures var record := parse(lines[|lines| - 1]);
      PromptAt(if record.User? then record.prompt else prompt, lines, |lines|, parse)
    ensures PromptAt(prompt, lines, |lines| - 1, parse)
  {
    var n := |lines| - 1;
    var before := lines[..n];
    assert forall k :: 0 <= k < n ==> before[k] == lines[k];
    if j: nat :| j < n && parse(before[j]) == User(prompt) && forall k :: j < k < n ==> !parse(before[k]).User? {
      assert parse(lines[j]) == User(prompt) && forall k :: j < k < n ==> !parse(lines[k]).User?;
    } else {
      assert forall k :: 0 <= k < n ==> !parse(lines[k]).User?;
    }
  }

  lemma SessionMoves(id: string, given: string, lines: seq<Bytes>, parse: Parser)
    requires lines != [] && SessionAt(id, given, lines[..|lines| - 1], |lines| - 1, parse)
    ensures var record := parse(lines[|lines| - 1]);
      SessionAt(if id == "" && record.Meta? then record.id else id, given, lines, |lines|, parse)
    ensures SessionAt(id, given, lines, |lines| - 1, parse)
  {
    var n := |lines| - 1;
    var before := lines[..n];
    assert forall k :: 0 <= k < n ==> before[k] == lines[k];
    if given == "" && id != "" {
      var j: nat :| j < n && parse(before[j]) == Meta(id)
        && forall k :: 0 <= k < j ==> !TellsSession(parse(before[k]));
      assert parse(lines[j]) == Meta(id) && forall k :: 0 <= k < j ==> !TellsSession(parse(lines[k]));
    } else if given == "" {
      assert forall k :: 0 <= k < n ==> !TellsSession(parse(lines[k]));
    }
  }

  lemma PromptInLonger(prompt: string, lines: seq<Bytes>, more: seq<Bytes>, i: nat, parse: Parser)
    requires lines <= more && i <= |lines| && PromptAt(prompt, lines, i, parse)
    ensures PromptAt(prompt, more, i, parse)
  {
    assert forall k :: 0 <= k < i ==> more[k] == lines[k];
    if j: nat :| j < i && parse(lines[j]) == User(prompt) && forall k :: j < k < i ==> !parse(lines[k]).User? {
      assert parse(more[j]) == User(prompt) && forall k :: j < k < i ==> !parse(more[k]).User?;
    } else {
      assert forall k :: 0 <= k < i ==> !parse(more[k]).User?;
    }
  }

  lemma SessionInLonger(id: string, given: string, lines: seq<Bytes>, more: seq<Bytes>, i: nat, parse: Parser)
    requires lines <= more && i <= |lines| && SessionAt(id, given, lines, i, parse)
    ensures SessionAt(id, given, more, i, parse)
  {
    assert forall k :: 0 <= k < i ==> more[k] == lines[k];
    if given == "" && id != "" {
      var j: nat :| j < i && parse(lines[j]) == Meta(id) && forall k :: 0 <= k < j ==> !TellsSession(parse(lines[k]));
      assert parse(more[j]) == Meta(id) && forall k :: 0 <= k < j ==> !TellsSession(parse(more[k]));
    } else if given == "" {
      assert forall k :: 0 <= k < i ==> !TellsSession(parse(more[k]));
    }
  }

  lemma LatestMoves(
      latest: Option<Result>, given: string, lines: seq<Bytes>, phases: set<string>, wanted: bool, parse: Parser,
      s: Summary)
    requires lines != [] && s.lineIndex == |lines| - 2
    requires IsLatest(latest, given, lines[..|lines| - 1], phases, wanted, parse)
    requires PromptAt(s.prompt, lines, |lines| - 1, parse) && SessionAt(s.sessionId, given, lines, |lines| - 1, parse)
    ensures var record := parse(lines[|lines| - 1]);
      IsLatest(if IsWanted(record, phases, wanted) then Some(ResultOf(s, record)) else latest,
               given, lines, phases, wanted, parse)
  {
    hide PromptAt, SessionAt;
    var n := |lines| - 1;
    var before := lines[..n];
    assert forall k :: 0 <= k < n ==> before[k] == lines[k];
    if !IsWanted(parse(lines[n]), phases, wanted) && latest.Some? {
      var i := LineOf(latest.value);
      PromptInLonger(latest.value.prompt, before, lines, i, parse);
      SessionInLonger(latest.value.sessionId, given, before, lines, i, parse);
    }
  }

  /** What the summary of a scan means: its prompt and session id are those of the lines, and its two results
      are the last answers in the phases and in none of them. */
  lemma {:induction false} SummaryMeans(given: string, lines: seq<Bytes>, parse: Parser, phases: set<string>)
    ensures var s := FoldAll(Start(given), lines, parse, phases);
      && s.lineIndex == |lines| - 1
      && PromptAt(s.prompt, lines, |lines|, parse) && SessionAt(s.sessionId, given, lines, |lines|, parse)
      && IsLatest(s.preferred, given, lines, phases, true, parse)
      && IsLatest(s.fallback, given, lines, phases, false, parse)
    decreases |lines|
  {
    hide FoldAll, Fold, IsLatest, PromptAt, SessionAt;
    if lines == [] {
      FoldNothing(Start(given), parse, phases);
      NothingTold(given, parse, phases);
    } else {
      var before, record := lines[..|lines| - 1], parse(lines[|lines| - 1]);
      SummaryMeans(given, before, parse, phases);
      var s := FoldAll(Start(given), before, parse, phases);
      FoldLast(Start(given), lines, parse, phases);
      FoldRecord(s, record, phases);
      PromptMoves(s.prompt, lines, parse);
      SessionMoves(s.sessionId, given, lines, parse);
      LatestMoves(s.preferred, given, lines, phases, true, parse, s);
      LatestMoves(s.fallback, given, lines, phases, false, parse, s);
    }
  }

  lemma NothingTold(given: string, parse: Parser, phases: set<string>)
    ensures var s := Start(given); var lines: seq<Bytes> := [];
      && s.lineIndex == -1 && PromptAt(s.prompt, lines, 0, parse) && SessionAt(s.sessionId, given, lines, 0, parse)
      && IsLatest(s.preferred, given, lines, phases, true, parse)
      && IsLatest(s.fallback, given, lines, phases, false, parse)
  {
  }

  /** The answer to a question: the last answer in one of the phases; if there is none, and the question allows
      it, the last answer at all; otherwise nothing. */
  ghost predicate Answers(
      answer: Option<Result>, given: string, lines: seq<Bytes>, phases: set<string>, fallbackToAny: bool, parse: Parser)
  {
    if (exists k :: 0 <= k < |lines| && parse(lines[k]).Assistant? && parse(lines[k]).phase in phases) || !fallbackToAny
    then IsLatest(answer, given, lines, phases, true, parse)
    else IsLatest(answer, given, lines, {}, false, parse)
  }

  lemma SelectedAnswers(given: string, lines: seq<Bytes>, parse: Parser, phases: set<string>, fallbackToAny: bool)
    ensures Answers(Selected(FoldAll(Start(given), lines, parse, phases), fallbackToAny),
                    given, lines, phases, fallbackToAny, parse)
  {
    hide FoldAll, PromptAt, SessionAt;
    SummaryMeans(given, lines, parse, phases);
  }

  // ----- The last answer of a phase -----

  predicate AnswersIn(record: Record, phases: set<string>) { record.Assistant? && record.phase in phases }

  /** Which line holds the last answer of one of the phases. */
  function LastAnswer(lines: seq<Bytes>, parse: Parser, phases: set<string>): Option<nat>
    decreases |lines|
  {
    if lines == [] then None
    else
      var n := |lines| - 1;
      if AnswersIn(parse(lines[n]), phases) then Some(n) else LastAnswer(lines[..n], parse, phases)
  }

  /** Apart from the results, a summary does not depend on the phases asked for. */
  lemma {:induction false} SameButPhases(s: Summary, lines: seq<Bytes>, parse: Parser, a: set<string>, b: set<string>)
    ensures var x, y := FoldAll(s, lines, parse, a), FoldAll(s, lines, parse, b);
      x.lineIndex == y.lineIndex && x.sessionId == y.sessionId && x.prompt == y.prompt
    decreases |lines|
  {
    hide FoldAll;
    if lines == [] {
      FoldNothing(s, parse, a);
      FoldNothing(s, parse, b);
    } else {
      FoldLast(s, lines, parse, a);
      FoldLast(s, lines, parse, b);
      SameButPhases(s, lines[..|lines| - 1], parse, a, b);
    }
  }

  /** The preferred result is that of the last answer of the phases. */
  lemma {:induction false} PreferredIsLast(sessionId: string, lines: seq<Bytes>, parse: Parser, phases: set<string>)
    ensures var preferred := FoldAll(Start(sessionId), lines, parse, phases).preferred;
      var last := LastAnswer(lines, parse, phases);
      && (preferred.Some? <==> last.Some?)
      && (preferred.Some? ==> preferred.value.lineIndex == last.value < |lines|)
    decreases |lines|
  {
    hide FoldAll;
    if lines == [] {
      FoldNothing(Start(sessionId), parse, phases);
    } else {
      FoldLast(Start(sessionId), lines, parse, phases);
      FoldCounts(Start(sessionId), lines[..|lines| - 1], parse, phases);
      PreferredIsLast(sessionId, lines[..|lines| - 1], parse, phases);
    }
  }

  /** Two sets of phases select the same result exactly if they have the same last answer. */
  lemma {:induction false} PreferredAgreesIff(
      sessionId: string, lines: seq<Bytes>, parse: Parser, a: set<string>, b: set<string>)
    ensures var x, y := FoldAll(Start(sessionId), lines, parse, a), FoldAll(Start(sessionId), lines, parse, b);
      x.preferred == y.preferred <==> LastAnswer(lines, parse, a) == LastAnswer(lines, parse, b)
    decreases |lines|
  {
    hide FoldAll;
    PreferredIsLast(sessionId, lines, parse, a);
    PreferredIsLast(sessionId, lines, parse, b);
    if lines == [] {
      FoldNothing(Start(sessionId), parse, a);
      FoldNothing(Start(sessionId), parse, b);
    } else {
      var before := lines[..|lines| - 1];
      FoldLast(Start(sessionId), lines, parse, a);
      FoldLast(Start(sessionId), lines, parse, b);
      SameButPhases(Start(sessionId), before, parse, a, b);
      PreferredIsLast(sessionId, before, parse, a);
      PreferredIsLast(sessionId, before, parse, b);
      PreferredAgreesIff(sessionId, before, parse, a, b);
    }
  }

  function Last(results: seq<Result>): Option<Result> {
    if results == [] then None else Some(results[|results| - 1])
  }

  /** `latest_assistant_transcript_from_session_file`: every result is collected, the last one of
      the better list is the answer. */
  method LatestFromFile(content: Bytes, sessionId: string, phases: set<string>, fallbackToAny: bool, parse: Parser)
    returns (latest: Option<Result>)
    ensures latest == FullScan(content, sessionId, phases, fallbackToAny, parse)
    ensures Answers(latest, sessionId, TextLines(content), phases, fallbackToAny, parse)
  {
    hide Answers, TextLines;
    var fileSessionId := sessionId;
    var preferred: seq<Result> := [];
    var fallback: seq<Result> := [];
    var prompt := "";
    var lines := TextLines(content);
    for index := 0 to |lines|
      invariant FoldAll(Start(sessionId), lines, parse, phases) ==
        FoldAll(Summary(index - 1, fileSessionId, Last(preferred), Last(fallback), prompt), lines[index..], parse,
                phases)
    {
      var record := parse(lines[index]);
      ghost var before := Summary(index - 1, fileSessionId, Last(preferred), Last(fallback), prompt);
      assert lines[index..][1..] == lines[index + 1..];
      match record {
        case Meta(id) =>
          if fileSessionId == "" {
            fileSessionId := id;
          }
        case User(text) =>
          prompt := text;
        case Assistant(text, phase) =>
          var result := Result(text, fileSessionId, phase, index, prompt);
          if phase in phases {
            preferred := preferred + [result];
          } else {
            fallback := fallback + [result];
          }
        case Other =>
      }
      assert Fold(before, record, phases) == Summary(index, fileSessionId, Last(preferred), Last(fallback), prompt);
    }
    SelectedAnswers(sessionId, lines, parse, phases, fallbackToAny);
    if preferred != [] {
      latest := Some(preferred[|preferred| - 1]);
    } else if fallbackToAny && fallback != [] {
      latest := Some(fallback[|fallback| - 1]);
    } else {
      latest := None;
    }
  }

  /** Carriage returns only stand in front of newlines. */
  ghost predicate PairedReturns(content: Bytes) {
    forall i :: 0 <= i < |content| && content[i] == RETURN ==> i + 1 < |content| && content[i + 1] == NEWLINE
  }

  lemma {:induction false} TextLineLengthPlain(content: Bytes)
    requires PairedReturns(content)
    ensures TextLineLength(content) == LineLength(content)
  {
    if content != [] && content[0] != NEWLINE {
      assert PairedReturns(content[1..]);
      TextLineLengthPlain(content[1..]);
    }
  }

  /** Without a carriage return of its own, text mode sees the complete lines and then the unfinished rest. */
  lemma {:induction false} TextLinesPlain(content: Bytes)
    requires PairedReturns(content)
    ensures var rest := content[CompleteLength(content)..];
      TextLines(content) == Lines(content) + if rest == [] then [] else [rest]
    decreases |content|
  {
    if content != [] {
      TextLineLengthPlain(content);
      var n := LineLength(content);
      var tail := content[n..];
      assert PairedReturns(tail);
      if Terminated(content[..n]) {
        TextLinesPlain(tail);
        assert content[CompleteLength(content)..] == tail[CompleteLength(tail)..];
      } else {
        UnfinishedIsAll(content);
        assert content[..n] == content && tail == [];
      }
    }
  }

  lemma {:induction false} UnfinishedIsAll(content: Bytes)
    requires content != [] && !Terminated(content[..LineLength(content)])
    ensures LineLength(content) == |content|
  {
    if content[0] != NEWLINE && |content| > 1 {
      assert content[..LineLength(content)] == [content[0]] + content[1..][..LineLength(content[1..])];
      UnfinishedIsAll(content[1..]);
    }
  }
}
