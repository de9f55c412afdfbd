/** The forms of lines, keys and characters, as patterns: what counts as a header, as an assignment, as a bare key
    and as a line, and where the editor puts blank lines. */
module LineForms {
  import opened Options
  import opened Characters
  import opened TomlLiteral
  import opened TomlPrinter
  import opened TomlText
  import opened TomlEditor
  import opened TomlLaws

  // ----- Characters -----

  lemma CapitalIff(c: char)
    ensures 'A' <= c <= 'Z' <==> c in "ABCDEFGHIJKLMNOPQRSTUVWXYZ"
  {
    var s := "ABCDEFGHIJKLMNOPQRSTUVWXYZ";
    if 'A' <= c <= 'Z' {
      assert s[c as int - 'A' as int] == c;
    }
  }

  lemma SmallIff(c: char)
    ensures 'a' <= c <= 'z' <==> c in "abcdefghijklmnopqrstuvwxyz"
  {
    var s := "abcdefghijklmnopqrstuvwxyz";
    if 'a' <= c <= 'z' {
      assert s[c as int - 'a' as int] == c;
    }
  }

  lemma DigitIff(c: char)
    ensures '0' <= c <= '9' <==> c in "0123456789"
  {
    var s := "0123456789";
    if '0' <= c <= '9' {
      assert s[c as int - '0' as int] == c;
    }
  }

  lemma KeyCharIff(c: char)
    ensures IsKeyChar(c) <==>
      || c in "ABCDEFGHIJKLMNOPQRSTUVWXYZ" || c in "abcdefghijklmnopqrstuvwxyz" || c in "0123456789"
      || c == '_' || c == '-'
  {
    CapitalIff(c);
    SmallIff(c);
    DigitIff(c);
  }

  // ----- Stripping -----

  lemma {:induction false} StripLeftIs(s: string) returns (left: string)
    ensures s == left + StripLeft(s) && IsBlank(left)
    ensures StripLeft(s) != "" ==> !IsSpace(StripLeft(s)[0])
  {
    left := "";
    if s != "" && IsSpace(s[0]) {
      var rest := StripLeftIs(s[1..]);
      left := [s[0]] + rest;
      assert s == [s[0]] + s[1..];
    }
  }

  lemma {:induction false} StripRightIs(s: string) returns (right: string)
    ensures s == StripRight(s) + right && IsBlank(right)
    ensures StripRight(s) != "" ==> !IsSpace(StripRight(s)[|StripRight(s)| - 1])
  {
    right := "";
    if s != "" && IsSpace(s[|s| - 1]) {
      var rest := StripRightIs(s[..|s| - 1]);
      right := rest + [s[|s| - 1]];
      assert s == s[..|s| - 1] + [s[|s| - 1]];
    } else {
      assert s + "" == s;
    }
  }

  /** Stripping takes away blanks on both sides, and all of them. */
  lemma StripIs(s: string) returns (left: string, right: string)
    ensures s == left + Strip(s) + right && IsBlank(left) && IsBlank(right)
    ensures Strip(s) == "" || IsTrimmed(Strip(s))
  {
    left := StripLeftIs(s);
    right := StripRightIs(StripLeft(s));
    if Strip(s) != "" {
      assert StripLeft(s)[0] == Strip(s)[0];
    }
  }

  lemma StripIsBlank(s: string)
    ensures Strip(s) == "" <==> IsBlank(s)
  {
    var left, right := StripIs(s);
    if Strip(s) != "" {
      assert s[|left|] == Strip(s)[0];
    }
  }

  lemma {:induction false} StripLeftOf(blanks: string, rest: string)
    requires IsBlank(blanks) && (rest == "" || !IsSpace(rest[0]))
    ensures StripLeft(blanks + rest) == rest
  {
    if blanks == "" {
      assert blanks + rest == rest;
    } else {
      assert (blanks + rest)[0] == blanks[0] && (blanks + rest)[1..] == blanks[1..] + rest;
      StripLeftOf(blanks[1..], rest);
    }
  }

  // ----- Assignments and headers -----

  /** Blanks, a key, blanks, and an equals sign. */
  predicate IsAssignment(line: string, before: string, key: string, behind: string, rest: string) {
    IsBlank(before) && IsIdentifier(key) && IsBlank(behind) && line == before + (key + (behind + ("=" + rest)))
  }

  lemma AssignedKeyIff(line: string, key: string)
    ensures AssignedKey(line) == Some(key) <==>
      exists before, behind, rest :: IsAssignment(line, before, key, behind, rest)
  {
    hide IsAssignment, AssignedKey;
    if AssignedKey(line) == Some(key) {
      var before, behind, rest := AssignedKeyStands(line, key);
    }
    if before, behind, rest :| IsAssignment(line, before, key, behind, rest) {
      KeyIsAssigned(line, before, key, behind, rest);
    }
  }

  lemma AssignedKeyStands(line: string, key: string) returns (before: string, behind: string, rest: string)
    requires AssignedKey(line) == Some(key)
    ensures IsAssignment(line, before, key, behind, rest)
  {
    hide StripLeft, IsBlank, IsIdentifier;
    var text := StripLeft(line);
    before := StripLeftIs(line);
    behind := StripLeftIs(text[|key|..]);
    var equals := StripLeft(text[|key|..]);
    rest := equals[1..];
    assert equals == "=" + rest;
    assert text == key + text[|key|..];
  }

  lemma KeyIsAssigned(line: string, before: string, key: string, behind: string, rest: string)
    requires IsAssignment(line, before, key, behind, rest)
    ensures AssignedKey(line) == Some(key)
  {
    hide StripLeft, KeyPrefix;
    var tail := behind + ("=" + rest);
    assert (key + tail)[0] == key[0] && IsKeyChar(key[0]);
    StripLeftOf(before, key + tail);
    assert behind == "" ==> tail[0] == '=';
    assert behind != "" ==> tail[0] == behind[0] && IsSpace(behind[0]);
    KeyPrefixOf(key, tail);
    assert (key + tail)[|key|..] == tail;
    StripLeftOf(behind, "=" + rest);
  }

  /** Blanks, a name in brackets, blanks, and perhaps a comment. */
  predicate IsHeader(line: string, before: string, inside: string, behind: string, comment: string) {
    && IsBlank(before) && IsBlank(behind) && inside != "" && ']' !in inside && (comment == "" || comment[0] == '#')
    && line == before + ("[" + (inside + ("]" + (behind + comment))))
  }

  lemma TableNameIff(line: string, name: string)
    ensures TableName(line) == Some(name) <==>
      exists before, inside, behind, comment :: IsHeader(line, before, inside, behind, comment) && Strip(inside) == name
  {
    hide Strip, IsHeader, TableName;
    if TableName(line) == Some(name) {
      var before, inside, behind, comment := TableNameStands(line, name);
    }
    if before, inside, behind, comment :| IsHeader(line, before, inside, behind, comment) && Strip(inside) == name {
      HeaderIsNamed(line, before, inside, behind, comment);
    }
  }

  lemma TableNameStands(line: string, name: string)
    returns (before: string, inside: string, behind: string, comment: string)
    requires TableName(line) == Some(name)
    ensures IsHeader(line, before, inside, behind, comment) && Strip(inside) == name
  {
    hide Strip, StripLeft, IsBlank, IndexOf;
    var text := StripLeft(line);
    before := StripLeftIs(line);
    var close := IndexOf(text, ']');
    inside := text[1..close];
    var tail := text[close + 1..];
    behind := StripLeftIs(tail);
    comment := StripLeft(tail);
    assert text == "[" + (inside + ("]" + tail));
    assert forall i :: 0 <= i < |inside| ==> inside[i] == text[i + 1];
  }

  lemma HeaderIsNamed(line: string, before: string, inside: string, behind: string, comment: string)
    requires IsHeader(line, before, inside, behind, comment)
    ensures TableName(line) == Some(Strip(inside))
  {
    hide StripLeft, Strip, IndexOf;
    var rest := "[" + (inside + ("]" + (behind + comment)));
    StripLeftOf(before, rest);
    assert rest == ("[" + inside) + [']'] + (behind + comment);
    IndexBehind("[" + inside, ']', behind + comment);
    var close := IndexOf(rest, ']');
    assert close == |inside| + 1 && rest[1..close] == inside && rest[close + 1..] == behind + comment;
    StripLeftOf(behind, comment);
  }

  /** Blanks and a bracket. */
  predicate IsOpened(line: string, before: string, rest: string) { IsBlank(before) && line == before + ("[" + rest) }

  lemma OpensBracketIff(line: string)
    ensures OpensBracket(line) <==> exists before, rest :: IsOpened(line, before, rest)
  {
    hide StripLeft;
    if OpensBracket(line) {
      var before := StripLeftIs(line);
      var text := StripLeft(line);
      assert text == "[" + text[1..];
      assert IsOpened(line, before, text[1..]);
    }
    if before, rest :| IsOpened(line, before, rest) {
      StripLeftOf(before, "[" + rest);
    }
  }

  // ----- Keys -----

  /** A name that needs no quotes is printed bare, and so is one with a newline behind it. */
  lemma WordIsPrinted(word: string)
    requires IsIdentifier(word)
    ensures TomlKey(CodePoints(word)) == word && TomlKey(CodePoints(word) + [0xA]) == word + "\n"
  {
    IdentifierIsBare(word);
    var key := CodePoints(word) + [0xA];
    assert key[..|word|] == CodePoints(word) && Ascii(CodePoints(word)) == word;
    NewlineIsNoWord(key);
  }

  lemma NewlineIsNoWord(key: Unicode)
    requires key != [] && key[|key| - 1] == 0xA
    ensures !IsWord(key)
  {
    if IsAscii(key) {
      assert Ascii(key)[|key| - 1] == '\n';
    }
  }

  predicate IsBareKey(key: Unicode, word: string) {
    IsIdentifier(word) && (key == CodePoints(word) || key == CodePoints(word) + [0xA])
  }

  /** Every other key is quoted. */
  lemma OthersAreQuoted(key: Unicode)
    ensures TomlKey(key) == JsonQuote(key) || exists word :: IsBareKey(key, word)
  {
    if IsWord(key) {
      assert key == CodePoints(Ascii(key));
      assert IsBareKey(key, Ascii(key));
    } else if PrintsBare(key) {
      var name := key[..|key| - 1];
      assert name == CodePoints(Ascii(name)) && key == name + [0xA];
      assert IsBareKey(key, Ascii(name));
    }
  }

  // ----- Lines -----

  predicate IsBreakText(s: string) { s == "\r\n" || (|s| == 1 && IsBreak(s[0])) }

  /** The lines with their ends, one after the other. */
  function Woven(lines: Lines, ends: seq<string>): string
    requires |lines| == |ends|
  {
    if lines == [] then "" else lines[0] + ends[0] + Woven(lines[1..], ends[1..])
  }

  /** Every line ends in a break and has none inside; the last one may have no end if it is not empty. A carriage
      return and a newline are one break. */
  predicate AreEnds(lines: Lines, ends: seq<string>)
    requires |lines| == |ends|
  {
    lines != [] ==>
      && OneLine(lines[0])
      && (IsBreakText(ends[0]) || (ends[0] == "" && lines[0] != "" && |lines| == 1))
      && (ends[0] == "\r" ==> !BeginsWith(Woven(lines[1..], ends[1..]), '\n'))
      && AreEnds(lines[1..], ends[1..])
  }

  /** Splitting a text cuts it behind its breaks. */
  lemma {:induction false} SplitLinesAreCut(text: string) returns (ends: seq<string>)
    ensures |ends| == |SplitLines(text)| && Woven(SplitLines(text), ends) == text && AreEnds(SplitLines(text), ends)
    decreases |text|
  {
    hide LineEnd, BreakLength, OneLine, IsBreakText, BeginsWith, Woven, AreEnds, SplitLines;
    ends := [];
    NothingToSplit();
    if text != "" {
      var line, end, rest := FirstLine(text);
      ends := SplitLinesAreCut(rest);
      NoneLeft(rest);
      OneMoreLine(line, end, SplitLines(rest), ends);
      ends := [end] + ends;
    }
  }

  lemma NothingToSplit()
    ensures SplitLines("") == [] && Woven([], []) == "" && AreEnds([], [])
  {
  }

  lemma NoneLeft(text: string)
    ensures SplitLines(text) == [] ==> text == ""
  {
    hide LineEnd, BreakLength;
  }

  /** The first line, its end, and the text behind. */
  lemma FirstLine(text: string) returns (line: string, end: string, rest: string)
    requires text != ""
    ensures text == line + end + rest && |rest| < |text| && OneLine(line)
    ensures SplitLines(text) == [line] + SplitLines(rest)
    ensures IsBreakText(end) || (end == "" && line != "" && rest == "")
    ensures end == "\r" ==> !BeginsWith(rest, '\n')
  {
    hide LineEnd;
    var n := LineEnd(text);
    var k := n + BreakLength(text, n);
    line, end, rest := text[..n], text[n..k], text[k..];
    if end == "\r" {
      assert text[n] == end[0];
    }
  }

  lemma OneMoreLine(line: string, end: string, lines: Lines, ends: seq<string>)
    requires |lines| == |ends| && AreEnds(lines, ends) && OneLine(line)
    requires IsBreakText(end) || (end == "" && line != "" && lines == [])
    requires end == "\r" ==> !BeginsWith(Woven(lines, ends), '\n')
    ensures Woven([line] + lines, [end] + ends) == line + end + Woven(lines, ends)
    ensures AreEnds([line] + lines, [end] + ends)
  {
    hide OneLine, IsBreakText, BeginsWith;
    assert ([line] + lines)[1..] == lines && ([end] + ends)[1..] == ends;
  }

  // ----- Blank lines -----

  /** A new table stands behind everything else, after one blank line unless a blank line is there already. */
  lemma AppendedIs(lines: Lines, target: string, line: string)
    ensures AppendedTable(lines, target, line) ==
      lines + (if lines != [] && !IsBlank(lines[|lines| - 1]) then [""] else []) + ["[" + target + "]"] + [line]
  {
    hide Strip;
    if lines != [] {
      StripIsBlank(lines[|lines| - 1]);
    }
    assert lines + [] == lines;
  }

  /** A new top-level key stands at the place given: above everything else with a blank line below it; or before
      the first header with a blank line below it unless there is one above; or at the end, after a blank line. */
  lemma InsertedIs(lines: Lines, at: nat, line: string)
    requires at <= |lines|
    ensures InsertedTop(lines, at, line) ==
      if at == |lines| then lines + (if lines != [] && !IsBlank(lines[at - 1]) then [""] else []) + [line]
      else if at == 0 then [line, ""] + lines
      else lines[..at] + [line] + (if IsBlank(lines[at - 1]) then [] else [""]) + lines[at..]
  {
    hide Strip;
    if at > 0 {
      StripIsBlank(lines[at - 1]);
      assert lines[..at] + [line] + [""] == lines[..at] + [line, ""];
      assert lines[..at] + [line] + [] == lines[..at] + [line];
    }
    assert lines + [] == lines;
  }
}
