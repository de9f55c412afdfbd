/** The editor that sets and removes keys in configuration text, line by line, without a TOML writer. */
module TomlEditor {
  import opened Options
  import opened TomlLiteral
  import opened TomlPrinter
  import opened TomlText

  // ----- Finding the place -----

  function FirstTable(lines: Lines, i: nat): (n: nat)
    requires i <= |lines|
    ensures i <= n <= |lines| && (n < |lines| ==> OpensBracket(lines[n]))
    ensures forall j :: i <= j < n ==> !OpensBracket(lines[j])
    decreases |lines| - i
  {
    if i == |lines| || OpensBracket(lines[i]) then i else FirstTable(lines, i + 1)
  }

  function FindKey(lines: Lines, i: nat, end: nat, key: string): (found: Option<nat>)
    requires i <= end <= |lines|
    ensures found.Some? ==> i <= found.value < end && AssignedKey(lines[found.value]) == Some(key)
    ensures found.Some? ==> forall j :: i <= j < found.value ==> AssignedKey(lines[j]) != Some(key)
    ensures found.None? ==> forall j :: i <= j < end ==> AssignedKey(lines[j]) != Some(key)
    decreases end - i
  {
    if i == end then None
    else if AssignedKey(lines[i]) == Some(key) then Some(i)
    else FindKey(lines, i + 1, end, key)
  }

  datatype Bounds = Bounds(start: Option<nat>, end: nat)

  /** `_find_table_bounds` from line `i` on, when the table's header was last seen at `start`. */
  function TableBounds(lines: Lines, target: string, i: nat, start: Option<nat>): Bounds
    requires i <= |lines|
    decreases |lines| - i
  {
    if i == |lines| then Bounds(start, |lines|)
    else if TableName(lines[i]).None? then TableBounds(lines, target, i + 1, start)
    else if TableName(lines[i]).value == target then TableBounds(lines, target, i + 1, Some(i))
    else if start.Some? then Bounds(start, i)
    else TableBounds(lines, target, i + 1, start)
  }

  // ----- The edits -----

  function Assignment(key: string, literal: string): string { key + " = " + literal }

  function SetLine(lines: Lines, i: nat, key: string, literal: Option<string>): Lines
    requires i < |lines|
  {
    if literal.None? then lines[..i] + lines[i + 1..]
    else lines[i := Rewritten(key, literal.value, lines[i])]
  }

  predicate HasText(line: string) { Strip(line) != "" }

  function Padded(lines: Lines): Lines {
    if lines != [] && HasText(lines[|lines| - 1]) then lines + [""] else lines
  }

  function InsertedTop(lines: Lines, at: nat, line: string): Lines
    requires at <= |lines|
  {
    if at == 0 && lines != [] then [line, ""] + lines
    else if at < |lines| then lines[..at] + (if HasText(lines[at - 1]) then [line, ""] else [line]) + lines[at..]
    else Padded(lines) + [line]
  }

  /** None means that the text is returned as it is. */
  function TopEdited(lines: Lines, key: string, literal: Option<string>): Option<Lines> {
    var first := FirstTable(lines, 0);
    var found := FindKey(lines, 0, first, key);
    if found.Some? then Some(SetLine(lines, found.value, key, literal))
    else if literal.None? then None
    else Some(InsertedTop(lines, first, Assignment(key, literal.value)))
  }

  function AppendedTable(lines: Lines, target: string, line: string): Lines {
    Padded(lines) + ["[" + target + "]"] + [line]
  }

  function TableEdited(lines: Lines, target: string, key: string, literal: Option<string>): Option<Lines> {
    BoundsInside(lines, target, 0, None);
    var b := TableBounds(lines, target, 0, None);
    if b.start.None? then
      if literal.None? then None else Some(AppendedTable(lines, target, Assignment(key, literal.value)))
    else
      var found := FindKey(lines, b.start.value + 1, b.end, key);
      if found.Some? then Some(SetLine(lines, found.value, key, literal))
      else if literal.None? then None
      else Some(lines[..b.end] + [Assignment(key, literal.value)] + lines[b.end..])
  }

  function Dotted(path: seq<string>): string {
    if path == [] then ""
    else if |path| == 1 then TomlKey(CodePoints(path[0]))
    else TomlKey(CodePoints(path[0])) + "." + Dotted(path[1..])
  }

  function TopKeySet(text: string, key: string, literal: Option<string>): string {
    var edited := TopEdited(SplitLines(text), key, literal);
    if edited.None? then text else JoinLines(edited.value, text)
  }

  function TableKeySet(text: string, path: seq<string>, key: string, literal: Option<string>): string {
    var edited := TableEdited(SplitLines(text), Dotted(path), key, literal);
    if edited.None? then text else JoinLines(edited.value, text)
  }

  lemma {:induction false} BoundsInside(lines: Lines, target: string, i: nat, start: Option<nat>)
    requires i <= |lines| && (start.Some? ==> start.value < i)
    ensures var b := TableBounds(lines, target, i, start);
      b.end <= |lines| && (b.start.Some? ==> b.start.value < b.end)
    decreases |lines| - i
  {
    if i < |lines| && TableName(lines[i]).None? {
      BoundsInside(lines, target, i + 1, start);
    } else if i < |lines| && TableName(lines[i]).value == target {
      BoundsInside(lines, target, i + 1, Some(i));
    } else if i < |lines| && start.None? {
      BoundsInside(lines, target, i + 1, start);
    }
  }

  // ----- The methods -----

  /** None if the value cannot be printed. */
  function LiteralOf(value: Option<Value>): Option<Option<string>> {
    if value.None? then Some(None)
    else if Literal(value.value).None? then None
    else Some(Literal(value.value))
  }

  method SetTopLevelKey(text: string, key: string, value: Option<Value>) returns (r: Option<string>)
    ensures LiteralOf(value).None? ==> r == None
    ensures LiteralOf(value).Some? ==> r == Some(TopKeySet(text, key, LiteralOf(value).value))
  {
    hide Literal, SplitLines, JoinLines, OpensBracket, AssignedKey, Strip, TrailingComment;
    if LiteralOf(value).None? {
      return None;
    }
    var literal := LiteralOf(value).value;
    var lines := SplitLines(text);
    ghost var before := lines;
    var firstTable := |lines|;
    var index := 0;
    while index < |lines|
      invariant index <= |lines| && FirstTable(lines, 0) == FirstTable(lines, index)
      invariant firstTable == |lines|
    {
      if OpensBracket(lines[index]) {
        firstTable := index;
        break;
      }
      index := index + 1;
    }
    index := 0;
    while index < firstTable
      invariant index <= firstTable
      invariant FindKey(lines, 0, firstTable, key) == FindKey(lines, index, firstTable, key)
    {
      if AssignedKey(lines[index]) == Some(key) {
        if literal.None? {
          lines := lines[..index] + lines[index + 1..];
        } else {
          var comment := FindTrailingComment(lines[index]);
          lines := lines[index := key + " = " + literal.value + comment];
        }
        return Some(JoinLines(lines, text));
      }
      index := index + 1;
    }
    if literal.None? {
      return Some(text);
    }
    var line := key + " = " + literal.value;
    if firstTable == 0 && lines != [] {
      lines := [line] + lines;
      lines := lines[..1] + [""] + lines[1..];
      assert lines == [line, ""] + before;
    } else if firstTable < |lines| {
      if HasText(lines[firstTable - 1]) {
        lines := lines[..firstTable] + [""] + lines[firstTable..];
      }
      lines := lines[..firstTable] + [line] + lines[firstTable..];
      assert HasText(before[firstTable - 1]) ==> lines == before[..firstTable] + [line, ""] + before[firstTable..];
    } else {
      if lines != [] && HasText(lines[|lines| - 1]) {
        lines := lines + [""];
      }
      lines := lines + [line];
    }
    r := Some(JoinLines(lines, text));
  }

  method FindTableBounds(lines: Lines, path: seq<string>) returns (start: Option<nat>, end: nat)
    ensures Bounds(start, end) == TableBounds(lines, Dotted(path), 0, None)
  {
    hide TableName, Dotted;
    var target := Dotted(path);
    start := None;
    for index := 0 to |lines|
      invariant TableBounds(lines, target, 0, None) == TableBounds(lines, target, index, start)
    {
      var name := TableName(lines[index]);
      if name.Some? {
        if name.value == target {
          start := Some(index);
        } else if start.Some? {
          return start, index;
        }
      }
    }
    end := |lines|;
  }

  method AppendTable(text: string, path: seq<string>, key: string, literal: string) returns (r: string)
    ensures r == JoinLines(AppendedTable(SplitLines(text), Dotted(path), Assignment(key, literal)), text)
  {
    hide SplitLines, JoinLines, Dotted, Strip;
    var lines := SplitLines(text);
    if lines != [] && HasText(lines[|lines| - 1]) {
      lines := lines + [""];
    }
    lines := lines + ["[" + Dotted(path) + "]"];
    lines := lines + [key + " = " + literal];
    r := JoinLines(lines, text);
  }

  method SetTableKey(text: string, path: seq<string>, key: string, value: Option<Value>) returns (r: Option<string>)
    ensures LiteralOf(value).None? ==> r == None
    ensures LiteralOf(value).Some? ==> r == Some(TableKeySet(text, path, key, LiteralOf(value).value))
  {
    hide Literal, SplitLines, JoinLines, TableName, AssignedKey, Strip, TrailingComment, Dotted, TableBounds;
    if LiteralOf(value).None? {
      return None;
    }
    var literal := LiteralOf(value).value;
    var lines := SplitLines(text);
    var start, end := FindTableBounds(lines, path);
    BoundsInside(lines, Dotted(path), 0, None);
    if start.None? {
      if literal.None? {
        return Some(text);
      }
      var appended := AppendTable(text, path, key, literal.value);
      return Some(appended);
    }
    for index := start.value + 1 to end
      invariant FindKey(lines, start.value + 1, end, key) == FindKey(lines, index, end, key)
    {
      if AssignedKey(lines[index]) == Some(key) {
        if literal.None? {
          lines := lines[..index] + lines[index + 1..];
        } else {
          var comment := FindTrailingComment(lines[index]);
          lines := lines[index := key + " = " + literal.value + comment];
        }
        return Some(JoinLines(lines, text));
      }
    }
    if literal.None? {
      return Some(text);
    }
    lines := lines[..end] + [key + " = " + literal.value] + lines[end..];
    r := Some(JoinLines(lines, text));
  }
}
