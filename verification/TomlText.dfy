/** Configuration text as lines, and what a line-based reading of it says: which table is in force where,
    and which key has which value. */
module TomlText {
  import opened Options
  import opened Characters
  import opened TomlLiteral

  type Lines = seq<string>

  // ----- Text and lines -----

  function LineEnd(text: string): (n: nat)
    ensures n <= |text| && (n < |text| ==> IsBreak(text[n]))
    ensures forall i :: 0 <= i < n ==> !IsBreak(text[i])
  {
    if text == "" || IsBreak(text[0]) then 0 else 1 + LineEnd(text[1..])
  }

  function BreakLength(text: string, n: nat): nat {
    if n + 1 < |text| && text[n] == '\r' && text[n + 1] == '\n' then 2 else if n < |text| then 1 else 0
  }

  /** `str.splitlines`. */
  function SplitLines(text: string): Lines
    decreases |text|
  {
    if text == "" then []
    else
      var n := LineEnd(text);
      [text[..n]] + SplitLines(text[n + BreakLength(text, n)..])
  }

  function Joined(lines: Lines): string {
    if lines == [] then "" else if |lines| == 1 then lines[0] else lines[0] + "\n" + Joined(lines[1..])
  }

  predicate EndsInNewline(text: string) { text != "" && text[|text| - 1] == '\n' }

  function JoinLines(lines: Lines, original: string): string {
    Joined(lines) + (if EndsInNewline(original) || lines != [] then "\n" else "")
  }

  predicate EachOneLine(lines: Lines) { forall i :: 0 <= i < |lines| ==> OneLine(lines[i]) }

  lemma {:induction false} LineEndBehind(line: string, rest: string)
    requires OneLine(line)
    ensures LineEnd(line + "\n" + rest) == |line|
  {
    if line != "" {
      assert (line + "\n" + rest)[1..] == line[1..] + "\n" + rest;
      LineEndBehind(line[1..], rest);
    }
  }

  lemma {:induction false} SplitOfJoined(lines: Lines)
    requires EachOneLine(lines) && lines != []
    ensures SplitLines(Joined(lines) + "\n") == lines
  {
    var text := Joined(lines) + "\n";
    var rest := if |lines| == 1 then "" else Joined(lines[1..]) + "\n";
    assert text == lines[0] + "\n" + rest;
    LineEndBehind(lines[0], rest);
    assert text[..|lines[0]|] == lines[0] && text[|lines[0]| + 1..] == rest;
    if |lines| == 1 {
      assert lines == [lines[0]];
    } else {
      assert lines == [lines[0]] + lines[1..];
      SplitOfJoined(lines[1..]);
    }
  }

  /** Lines that are written are read back as they are; no lines may become one blank line. */
  lemma SplitOfJoin(lines: Lines, original: string)
    requires EachOneLine(lines)
    ensures SplitLines(JoinLines(lines, original)) ==
      if lines == [] then (if EndsInNewline(original) then [""] else []) else lines
  {
    if lines == [] {
      assert SplitLines("\n") == [""] by {
        assert LineEnd("\n") == 0 && "\n"[..0] == "" && "\n"[1..] == "";
      }
    } else {
      SplitOfJoined(lines);
    }
  }

  // ----- Lines -----

  function IndexOf(s: string, c: char): (n: nat)
    ensures n <= |s| && (n < |s| ==> s[n] == c) && forall i :: 0 <= i < n ==> s[i] != c
  {
    if s == "" || s[0] == c then 0 else 1 + IndexOf(s[1..], c)
  }

  function KeyPrefix(s: string): (key: string)
    ensures key <= s && (|key| < |s| ==> !IsKeyChar(s[|key|])) && (key != "" ==> IsIdentifier(key))
  {
    if s == "" || !IsKeyChar(s[0]) then "" else [s[0]] + KeyPrefix(s[1..])
  }

  predicate BeginsWith(s: string, c: char) { s != "" && s[0] == c }

  /** The name in a `[name]` line, which may have a comment. */
  function TableName(line: string): Option<string> {
    var rest := StripLeft(line);
    if !BeginsWith(rest, '[') then None
    else
      var close := IndexOf(rest, ']');
      if close == |rest| || close == 1 then None
      else
        var tail := StripLeft(rest[close + 1..]);
        if tail == "" || tail[0] == '#' then Some(Strip(rest[1..close])) else None
  }

  /** Whether a line begins like a table header, with one bracket or two. */
  predicate OpensBracket(line: string) { BeginsWith(StripLeft(line), '[') }

  /** The bare key that a line assigns to. */
  function AssignedKey(line: string): Option<string> {
    var rest := StripLeft(line);
    var key := KeyPrefix(rest);
    if key != "" && BeginsWith(StripLeft(rest[|key|..]), '=') then Some(key) else None
  }

  /** What stands between the `=` and the comment. */
  function ValueText(line: string): string {
    var n := IndexOf(line, '=');
    if n == |line| then ""
    else
      var body := line[n + 1..];
      Strip(body[..CommentAt(body, OUTSIDE)])
  }

  lemma HeadersAssignNothing(line: string)
    ensures OpensBracket(line) ==> AssignedKey(line).None?
    ensures TableName(line).Some? ==> OpensBracket(line)
  {
  }

  // ----- Reading -----

  /** The table that line `i` belongs to; None before the first header. */
  function TableAt(lines: Lines, i: nat): Option<string>
    requires i <= |lines|
  {
    if i == 0 then None
    else if TableName(lines[i - 1]).Some? then TableName(lines[i - 1])
    else TableAt(lines, i - 1)
  }

  predicate Assigns(lines: Lines, i: nat, table: Option<string>, key: string) {
    i < |lines| && AssignedKey(lines[i]) == Some(key) && TableAt(lines, i) == table
  }

  /** The text says that `key` has the value `value` in `table`. */
  ghost predicate Reads(lines: Lines, table: Option<string>, key: string, value: string) {
    exists i: nat :: i < |lines| && Assigns(lines, i, table, key) && ValueText(lines[i]) == value
  }

  ghost predicate HasKey(lines: Lines, table: Option<string>, key: string) {
    exists i: nat :: Assigns(lines, i, table, key)
  }

  predicate LineOk(line: string) { OneLine(line) && (OpensBracket(line) ==> TableName(line).Some?) }

  ghost predicate HeadersDiffer(lines: Lines) {
    forall i, j :: 0 <= i < j < |lines| && TableName(lines[i]).Some? ==> TableName(lines[i]) != TableName(lines[j])
  }

  ghost predicate KeysDiffer(lines: Lines) {
    forall i: nat, j: nat, table, key ::
      Assigns(lines, i, table, key) && Assigns(lines, j, table, key) ==> i == j
  }

  predicate LinesOk(lines: Lines) { forall i :: 0 <= i < |lines| ==> LineOk(lines[i]) }

  /** One entry a line, headers with one bracket only, no header and no key twice. */
  ghost predicate WellFormed(lines: Lines) { LinesOk(lines) && HeadersDiffer(lines) && KeysDiffer(lines) }

  // ----- One more line -----

  function With(a: Lines, line: string, b: Lines): Lines { a + [line] + b }

  lemma {:induction false} TableAtWith(a: Lines, line: string, b: Lines, j: nat)
    requires j <= |a| + 1 + |b| && TableName(line).None?
    ensures TableAt(With(a, line, b), j) == TableAt(a + b, if j <= |a| then j else j - 1)
  {
    hide TableName;
    if j > 0 {
      TableAtWith(a, line, b, j - 1);
      if j <= |a| {
        assert With(a, line, b)[j - 1] == a[j - 1] == (a + b)[j - 1];
      } else if j == |a| + 1 {
        assert With(a, line, b)[j - 1] == line;
      } else {
        assert With(a, line, b)[j - 1] == b[j - 2 - |a|] == (a + b)[j - 2];
      }
    }
  }

  /** Where the lines of `a + b` are when another line stands in between. */
  function Shifted(a: Lines, i: nat): nat { if i < |a| then i else i + 1 }

  lemma AssignsWith(a: Lines, line: string, b: Lines, i: nat, table: Option<string>, key: string)
    requires TableName(line).None?
    ensures Assigns(With(a, line, b), Shifted(a, i), table, key) <==> Assigns(a + b, i, table, key)
    ensures i < |a + b| ==> With(a, line, b)[Shifted(a, i)] == (a + b)[i]
    ensures Assigns(With(a, line, b), |a|, table, key) <==>
      AssignedKey(line) == Some(key) && TableAt(a + b, |a|) == table
  {
    hide TableName, AssignedKey, TableAt;
    if i < |a + b| {
      TableAtWith(a, line, b, Shifted(a, i));
    }
    TableAtWith(a, line, b, |a|);
    assert With(a, line, b)[|a|] == line;
  }

  /** Every line of the longer text is the new one or one of the others. */
  lemma WhichLine(a: Lines, b: Lines, j: nat)
    ensures j == |a| || exists i: nat :: j == Shifted(a, i)
  {
    assert j < |a| ==> j == Shifted(a, j);
    assert j > |a| ==> j == Shifted(a, j - 1);
  }

  lemma ReadsWith(a: Lines, line: string, b: Lines, table: Option<string>, key: string, value: string)
    requires TableName(line).None?
    ensures Reads(With(a, line, b), table, key, value) <==>
      Reads(a + b, table, key, value)
      || (AssignedKey(line) == Some(key) && TableAt(a + b, |a|) == table && ValueText(line) == value)
  {
    hide TableName, AssignedKey, TableAt, ValueText, Assigns;
    var all := With(a, line, b);
    assert all[|a|] == line;
    AssignsWith(a, line, b, 0, table, key);
    if Reads(all, table, key, value) {
      var j: nat :| j < |all| && Assigns(all, j, table, key) && ValueText(all[j]) == value;
      WhichLine(a, b, j);
      if j != |a| {
        var i: nat :| j == Shifted(a, i);
        AssignsWith(a, line, b, i, table, key);
        AssignsInside(a + b, i, table, key);
      }
    }
    if Reads(a + b, table, key, value) {
      var i: nat :| i < |a + b| && Assigns(a + b, i, table, key) && ValueText((a + b)[i]) == value;
      AssignsWith(a, line, b, i, table, key);
    }
  }

  lemma AssignsInside(lines: Lines, i: nat, table: Option<string>, key: string)
    requires Assigns(lines, i, table, key)
    ensures i < |lines|
  {
  }

  lemma KeysDifferWithIff(a: Lines, line: string, b: Lines)
    requires TableName(line).None?
    ensures KeysDiffer(With(a, line, b)) <==>
      KeysDiffer(a + b)
      && (AssignedKey(line).Some? ==> !HasKey(a + b, TableAt(a + b, |a|), AssignedKey(line).value))
  {
    hide TableName, AssignedKey, TableAt, Assigns;
    var all := With(a, line, b);
    if KeysDiffer(all) {
      forall i: nat, j: nat, table, key | Assigns(a + b, i, table, key) && Assigns(a + b, j, table, key)
        ensures i == j
      {
        AssignsWith(a, line, b, i, table, key);
        AssignsWith(a, line, b, j, table, key);
      }
      if AssignedKey(line).Some? {
        var table, key := TableAt(a + b, |a|), AssignedKey(line).value;
        forall i: nat
          ensures !Assigns(a + b, i, table, key)
        {
          AssignsWith(a, line, b, i, table, key);
          assert Shifted(a, i) != |a|;
        }
      }
    }
    if KeysDiffer(a + b) && (AssignedKey(line).Some? ==> !HasKey(a + b, TableAt(a + b, |a|), AssignedKey(line).value)) {
      forall i: nat, j: nat, table, key | Assigns(all, i, table, key) && Assigns(all, j, table, key)
        ensures i == j
      {
        SameAssignment(a, line, b, i, j, table, key);
      }
    }
  }

  lemma SameAssignment(a: Lines, line: string, b: Lines, i: nat, j: nat, table: Option<string>, key: string)
    requires TableName(line).None? && KeysDiffer(a + b)
    requires AssignedKey(line).Some? ==> !HasKey(a + b, TableAt(a + b, |a|), AssignedKey(line).value)
    requires Assigns(With(a, line, b), i, table, key) && Assigns(With(a, line, b), j, table, key)
    ensures i == j
  {
    hide TableName, AssignedKey, TableAt, Assigns;
    WhichLine(a, b, i);
    WhichLine(a, b, j);
    AssignsWith(a, line, b, 0, table, key);
    if i != |a| {
      var m: nat :| i == Shifted(a, m);
      AssignsWith(a, line, b, m, table, key);
      if j != |a| {
        var n: nat :| j == Shifted(a, n);
        AssignsWith(a, line, b, n, table, key);
      }
    } else if j != |a| {
      var n: nat :| j == Shifted(a, n);
      AssignsWith(a, line, b, n, table, key);
    }
  }

  lemma HeadersDifferWithIff(a: Lines, line: string, b: Lines)
    requires TableName(line).None?
    ensures HeadersDiffer(With(a, line, b)) <==> HeadersDiffer(a + b)
  {
    hide TableName;
    var all, most := With(a, line, b), a + b;
    if HeadersDiffer(all) {
      forall i, j | 0 <= i < j < |most| && TableName(most[i]).Some?
        ensures TableName(most[i]) != TableName(most[j])
      {
        assert most[i] == all[Shifted(a, i)] && most[j] == all[Shifted(a, j)];
      }
    }
    if HeadersDiffer(most) {
      forall i, j | 0 <= i < j < |all| && TableName(all[i]).Some?
        ensures TableName(all[i]) != TableName(all[j])
      {
        assert all[|a|] == line;
        var m, n := if i < |a| then i else i - 1, if j < |a| then j else j - 1;
        if j != |a| {
          assert all[i] == most[m] && all[j] == most[n];
        }
      }
    }
  }

  lemma LinesOkWith(a: Lines, line: string, b: Lines)
    ensures LinesOk(With(a, line, b)) <==> LinesOk(a + b) && LineOk(line)
  {
    hide LineOk;
    var all, most := With(a, line, b), a + b;
    assert all[|a|] == line;
    assert forall i :: 0 <= i < |most| ==> most[i] == all[Shifted(a, i)];
    assert forall j :: 0 <= j < |all| && j != |a| ==> all[j] == most[if j < |a| then j else j - 1];
  }

  /** A text with one more line that is no header: well-formed exactly if the rest is, the line is, and
      its key is new to its table. */
  lemma WellFormedWithIff(a: Lines, line: string, b: Lines)
    requires TableName(line).None?
    ensures WellFormed(With(a, line, b)) <==>
      WellFormed(a + b) && LineOk(line)
      && (AssignedKey(line).Some? ==> !HasKey(a + b, TableAt(a + b, |a|), AssignedKey(line).value))
  {
    hide TableName, AssignedKey, TableAt, LinesOk, HeadersDiffer, KeysDiffer, LineOk, HasKey;
    LinesOkWith(a, line, b);
    HeadersDifferWithIff(a, line, b);
    KeysDifferWithIff(a, line, b);
  }

  // ----- A header behind all lines -----

  lemma {:induction false} TableAtBefore(a: Lines, b: Lines, j: nat)
    requires j <= |a|
    ensures TableAt(a + b, j) == TableAt(a, j)
  {
    hide TableName;
    if j > 0 {
      TableAtBefore(a, b, j - 1);
    }
  }

  lemma ReadsBeforeHeader(lines: Lines, header: string, table: Option<string>, key: string, value: string)
    requires TableName(header).Some?
    ensures Reads(lines + [header], table, key, value) <==> Reads(lines, table, key, value)
    ensures HasKey(lines + [header], table, key) <==> HasKey(lines, table, key)
  {
    forall i: nat
      ensures Assigns(lines + [header], i, table, key) <==> Assigns(lines, i, table, key)
      ensures i < |lines| ==> (lines + [header])[i] == lines[i]
    {
      AssignsBeforeHeader(lines, header, i, table, key);
    }
    hide Assigns, ValueText;
  }

  lemma AssignsBeforeHeader(lines: Lines, header: string, i: nat, table: Option<string>, key: string)
    requires TableName(header).Some?
    ensures Assigns(lines + [header], i, table, key) <==> Assigns(lines, i, table, key)
  {
    hide TableName, TableAt, AssignedKey;
    HeadersAssignNothing(header);
    if i < |lines| {
      TableAtBefore(lines, [header], i);
    }
  }

  lemma WellFormedWithHeader(lines: Lines, header: string)
    requires WellFormed(lines) && LineOk(header) && TableName(header).Some?
    requires forall i :: 0 <= i < |lines| ==> TableName(lines[i]) != TableName(header)
    ensures WellFormed(lines + [header])
    ensures TableAt(lines + [header], |lines| + 1) == TableName(header)
  {
    hide TableName, LineOk, Assigns;
    forall i: nat, j: nat, table, key
      | Assigns(lines + [header], i, table, key) && Assigns(lines + [header], j, table, key)
      ensures i == j
    {
      AssignsBeforeHeader(lines, header, i, table, key);
      AssignsBeforeHeader(lines, header, j, table, key);
    }
  }
}
