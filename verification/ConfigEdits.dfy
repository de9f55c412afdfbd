/** The laws of the editor on whole texts: one edit, the same edit twice, and any sequence of edits. */
module ConfigEdits {
  import opened Options
  import opened TomlLiteral
  import opened TomlPrinter
  import opened TomlText
  import opened TomlEditor
  import opened TomlLaws

  /** One edit of a text; the empty path is the top level, and no literal means removal. */
  datatype Edit = Edit(path: seq<string>, key: string, literal: Option<string>)

  function TableOf(e: Edit): Option<string> { if e.path == [] then None else Some(Dotted(e.path)) }

  function Edited(text: string, e: Edit): string {
    if e.path == [] then TopKeySet(text, e.key, e.literal) else TableKeySet(text, e.path, e.key, e.literal)
  }

  /** Names that need no quotes, and a literal as the printer writes it, on one line. */
  predicate GoodEdit(e: Edit) {
    && IsIdentifier(e.key) && (forall i :: 0 <= i < |e.path| ==> IsIdentifier(e.path[i]))
    && (e.literal.Some? ==> GoodLiteral(e.literal.value))
  }

  function EditedLines(lines: Lines, e: Edit): Lines {
    var edited := if e.path == [] then TopEdited(lines, e.key, e.literal)
                  else TableEdited(lines, Dotted(e.path), e.key, e.literal);
    if edited.None? then lines else edited.value
  }

  lemma LinesEditOk(lines: Lines, e: Edit)
    requires WellFormed(lines) && GoodEdit(e)
    ensures EditOk(lines, EditedLines(lines, e), TableOf(e), e.key, e.literal)
  {
    hide EditOk, WellFormed, TopEdited, TableEdited, Dotted, IsIdentifier, GoodLiteral;
    if e.path == [] {
      TopEditIsOk(lines, e.key, e.literal);
    } else {
      DottedIsTarget(e.path);
      TableEditIsOk(lines, Dotted(e.path), e.key, e.literal);
    }
  }

  lemma OkIsOneLine(lines: Lines)
    requires WellFormed(lines)
    ensures EachOneLine(lines)
  {
  }

  lemma JoinedSaysTheSame(lines: Lines, original: string)
    requires WellFormed(lines)
    ensures SayTheSame(lines, SplitLines(JoinLines(lines, original)))
    ensures lines != [] ==> SplitLines(JoinLines(lines, original)) == lines
  {
    hide WellFormed, SayTheSame, SplitLines, JoinLines;
    OkIsOneLine(lines);
    SplitOfJoin(lines, original);
    SaysTheSame(lines);
    if lines == [] {
      assert lines + [] == lines && With(lines, "", []) == [""];
      BlankSaysNothing(lines, []);
    }
  }

  /** The law of one edit on a well-formed text: the text reads as before except for the key, which now
      has the literal or is gone; comments and headers stay, a new table's header apart; and the text
      is still well-formed. */
  lemma EditLaw(text: string, e: Edit)
    requires WellFormed(SplitLines(text)) && GoodEdit(e)
    ensures var lines := EditedLines(SplitLines(text), e);
      && EditOk(SplitLines(text), lines, TableOf(e), e.key, e.literal)
      && SayTheSame(lines, SplitLines(Edited(text, e)))
  {
    hide EditOk, WellFormed, SayTheSame, SplitLines, JoinLines, TopEdited, TableEdited, Dotted, GoodEdit;
    var before := SplitLines(text);
    LinesEditOk(before, e);
    var lines := EditedLines(before, e);
    SaysTheSame(before);
    EditIsWellFormed(before, lines, e);
    JoinedSaysTheSame(lines, text);
  }

  lemma EditIsWellFormed(before: Lines, after: Lines, e: Edit)
    requires EditOk(before, after, TableOf(e), e.key, e.literal)
    ensures WellFormed(after)
  {
  }

  // ----- All other lines -----

  /** The lines that an edit adds: the assignment, behind the header of a table that the text does not have. */
  ghost predicate NewLines(before: Lines, e: Edit, lines: Lines) {
    e.literal.Some?
    && lines == (if e.path != [] && NoHeader(before, Dotted(e.path)) then ["[" + Dotted(e.path) + "]"] else [])
              + [Assignment(e.key, e.literal.value)]
  }

  predicate NoHeader(lines: Lines, target: string) {
    forall m :: 0 <= m < |lines| ==> TableName(lines[m]) != Some(target)
  }

  /** The line of the key is replaced, or gone. */
  ghost predicate OneLineChanged(before: Lines, after: Lines, e: Edit, i: nat) {
    && i < |before| && AssignedKey(before[i]) == Some(e.key)
    && after == before[..i]
              + (if e.literal.None? then [] else [Rewritten(e.key, e.literal.value, before[i])])
              + before[i + 1..]
  }

  /** New lines are inserted at one place, with at most one blank line before or after them. */
  ghost predicate LinesInserted(before: Lines, after: Lines, e: Edit, i: nat, lines: Lines) {
    && i <= |before| && NewLines(before, e, lines)
    && (|| after == before[..i] + lines + before[i..]
        || after == before[..i] + [""] + lines + before[i..]
        || after == before[..i] + lines + [""] + before[i..])
  }

  /** Every other line, whatever it holds, is as it was and in its order. */
  ghost predicate OtherLinesStay(before: Lines, after: Lines, e: Edit) {
    || (after == before && e.literal.None?)
    || (exists i: nat :: OneLineChanged(before, after, e, i))
    || (exists i: nat, lines :: LinesInserted(before, after, e, i, lines))
  }

  /** An edit of any lines, well-formed or not, touches one line or inserts one block. */
  lemma LinesStay(before: Lines, e: Edit)
    ensures OtherLinesStay(before, EditedLines(before, e), e)
  {
    hide Dotted, TableName, AssignedKey, OpensBracket, TableBounds, Rewritten, Assignment, HasText, NoHeader;
    if e.path == [] {
      TopLinesStay(before, e);
    } else {
      TableLinesStay(before, e);
    }
  }

  lemma LineIsSet(before: Lines, e: Edit, i: nat)
    requires i < |before| && AssignedKey(before[i]) == Some(e.key)
    ensures OneLineChanged(before, SetLine(before, i, e.key, e.literal), e, i)
  {
    hide AssignedKey, Rewritten;
    if e.literal.None? {
      assert before[..i] + [] + before[i + 1..] == before[..i] + before[i + 1..];
    }
  }

  lemma TopLinesStay(before: Lines, e: Edit)
    requires e.path == []
    ensures OtherLinesStay(before, EditedLines(before, e), e)
  {
    hide AssignedKey, OpensBracket, Rewritten, HasText, SetLine, Dotted;
    var first := FirstTable(before, 0);
    var found := FindKey(before, 0, first, e.key);
    var after := EditedLines(before, e);
    if found.Some? {
      LineIsSet(before, e, found.value);
    } else if e.literal.Some? {
      var line := Assignment(e.key, e.literal.value);
      assert NewLines(before, e, [line]) by { assert [] + [line] == [line]; }
      TopIsInserted(before, first, line);
      assert LinesInserted(before, after, e, first, [line]);
    }
  }

  lemma TopIsInserted(before: Lines, at: nat, line: string)
    requires at <= |before|
    ensures var after := InsertedTop(before, at, line);
      || after == before[..at] + [line] + before[at..]
      || after == before[..at] + [""] + [line] + before[at..]
      || after == before[..at] + [line] + [""] + before[at..]
  {
    hide HasText;
    var after := InsertedTop(before, at, line);
    assert [line, ""] == [line] + [""];
    if at == 0 && before != [] {
      assert after == before[..at] + [line] + [""] + before[at..];
    } else if at < |before| && HasText(before[at - 1]) {
      assert after == before[..at] + [line] + [""] + before[at..];
    } else if at < |before| {
      assert after == before[..at] + [line] + before[at..];
    } else if Padded(before) == before {
      assert after == before[..at] + [line] + before[at..];
    } else {
      assert after == before[..at] + [""] + [line] + before[at..];
    }
  }

  lemma {:induction false} HeaderIsFound(lines: Lines, target: string, i: nat, start: Option<nat>)
    requires i <= |lines|
    ensures TableBounds(lines, target, i, start).start.None? <==>
      start.None? && forall m :: i <= m < |lines| ==> TableName(lines[m]) != Some(target)
    decreases |lines| - i
  {
    hide TableName;
    if i < |lines| {
      if TableName(lines[i]).None? {
        HeaderIsFound(lines, target, i + 1, start);
      } else if TableName(lines[i]).value == target {
        HeaderIsFound(lines, target, i + 1, Some(i));
      } else if start.None? {
        HeaderIsFound(lines, target, i + 1, start);
      }
    }
  }

  lemma TableLinesStay(before: Lines, e: Edit)
    requires e.path != []
    ensures OtherLinesStay(before, EditedLines(before, e), e)
  {
    hide AssignedKey, TableName, TableBounds, Rewritten, HasText, SetLine, Dotted, AppendedTable;
    var target := Dotted(e.path);
    BoundsInside(before, target, 0, None);
    HeaderIsFound(before, target, 0, None);
    var b := TableBounds(before, target, 0, None);
    var after := EditedLines(before, e);
    if e.literal.Some? {
      var line := Assignment(e.key, e.literal.value);
      if b.start.None? {
        TableIsAppended(before, target, line);
        assert LinesInserted(before, after, e, |before|, ["[" + target + "]"] + [line]);
      } else {
        var found := FindKey(before, b.start.value + 1, b.end, e.key);
        if found.Some? {
          LineIsSet(before, e, found.value);
        } else {
          assert [] + [line] == [line];
          assert LinesInserted(before, after, e, b.end, [line]);
        }
      }
    } else if b.start.Some? {
      var found := FindKey(before, b.start.value + 1, b.end, e.key);
      if found.Some? {
        LineIsSet(before, e, found.value);
      }
    }
  }

  lemma TableIsAppended(before: Lines, target: string, line: string)
    ensures var after, block := AppendedTable(before, target, line), ["[" + target + "]"] + [line]; var n := |before|;
      || after == before[..n] + block + before[n..]
      || after == before[..n] + [""] + block + before[n..]
  {
    hide HasText;
    var after, block, n := AppendedTable(before, target, line), ["[" + target + "]"] + [line], |before|;
    if Padded(before) == before {
      assert after == before[..n] + block + before[n..];
    } else {
      assert after == before[..n] + [""] + block + before[n..];
    }
  }

  /** On a well-formed text these are the lines of the new text, unless none is left. */
  lemma EditKeepsLines(text: string, e: Edit)
    requires WellFormed(SplitLines(text)) && GoodEdit(e)
    ensures var lines := EditedLines(SplitLines(text), e);
      && OtherLinesStay(SplitLines(text), lines, e)
      && (lines != [] ==> SplitLines(Edited(text, e)) == lines)
  {
    hide EditOk, WellFormed, SayTheSame, SplitLines, JoinLines, TopEdited, TableEdited, Dotted, GoodEdit,
         OtherLinesStay;
    var before := SplitLines(text);
    LinesStay(before, e);
    LinesEditOk(before, e);
    EditIsWellFormed(before, EditedLines(before, e), e);
    JoinedSaysTheSame(EditedLines(before, e), text);
  }

  // ----- Twice is once -----

  /** A line that the editor wrote is written again as it is. */
  lemma SetLineAgain(lines: Lines, i: nat, table: Option<string>, key: string, literal: string)
    requires WellFormed(lines) && Assigns(lines, i, table, key) && Written(lines, table, key, literal)
    requires IsIdentifier(key) && GoodLiteral(literal)
    ensures SetLine(lines, i, key, Some(literal)) == lines
  {
    hide LinesOk, HeadersDiffer, Assigns, IsComment, GoodLiteral, TrailingComment;
    var j: nat, comment :| j < |lines| && Assigns(lines, j, table, key)
      && IsComment(comment) && OneLine(comment) && lines[j] == Assignment(key, literal) + comment;
    assert i == j;
    AssignmentHasComment(key, literal, comment);
  }

  lemma TopEditAgain(lines: Lines, key: string, literal: string)
    requires WellFormed(lines) && Written(lines, None, key, literal) && IsIdentifier(key) && GoodLiteral(literal)
    ensures TopEdited(lines, key, Some(literal)) == Some(lines)
  {
    hide WellFormed, OpensBracket, AssignedKey, TableAt, SetLine, GoodLiteral;
    var first := FirstTable(lines, 0);
    var found := FindKey(lines, 0, first, key);
    var j: nat :| j < |lines| && Assigns(lines, j, None, key);
    TopKeysAreAbove(lines, key, j);
    NoHeaderAbove(lines, found.value);
    SetLineAgain(lines, found.value, None, key, literal);
  }

  lemma TableEditAgain(lines: Lines, target: string, key: string, literal: string)
    requires WellFormed(lines) && Written(lines, Some(target), key, literal)
    requires IsIdentifier(key) && GoodLiteral(literal)
    ensures TableEdited(lines, target, key, Some(literal)) == Some(lines)
  {
    hide WellFormed, TableName, AssignedKey, TableAt, SetLine, GoodLiteral, TableBounds, HeadersDiffer, Encloses;
    BoundsInside(lines, target, 0, None);
    var b := TableBounds(lines, target, 0, None);
    FoundBounds(lines, target);
    var j: nat :| j < |lines| && Assigns(lines, j, Some(target), key);
    TableKeysAreInside(lines, target, b, key, j);
    var found := FindKey(lines, b.start.value + 1, b.end, key);
    InsideTable(lines, target, b, found.value);
    SetLineAgain(lines, found.value, Some(target), key, literal);
  }

  /** Setting the same key to the same value twice is setting it once; so is removing it twice. */
  lemma EditTwiceIsOnce(text: string, e: Edit)
    requires WellFormed(SplitLines(text)) && GoodEdit(e)
    ensures Edited(Edited(text, e), e) == Edited(text, e)
  {
    hide WellFormed, SayTheSame, SplitLines, JoinLines, TopEdited, TableEdited, Dotted, GoodLiteral, IsIdentifier,
         ReadsAs, Written;
    var before := SplitLines(text);
    var lines, once := EditedLines(before, e), Edited(text, e);
    LinesEditOk(before, e);
    JoinedSaysTheSame(lines, text);
    if e.literal.Some? {
      WrittenIsSome(lines, TableOf(e), e.key, e.literal.value);
      EditsSomething(before, e);
      assert SplitLines(once) == lines;
      if e.path == [] {
        TopEditAgain(lines, e.key, e.literal.value);
      } else {
        TableEditAgain(lines, Dotted(e.path), e.key, e.literal.value);
      }
      JoinedAgain(lines, text);
    } else {
      EditLaw(text, e);
      NothingLeft(text, e);
    }
  }

  lemma WrittenIsSome(lines: Lines, table: Option<string>, key: string, literal: string)
    requires Written(lines, table, key, literal)
    ensures lines != []
  {
  }

  lemma EditsSomething(lines: Lines, e: Edit)
    requires e.literal.Some?
    ensures e.path == [] ==> TopEdited(lines, e.key, e.literal).Some?
    ensures e.path != [] ==> TableEdited(lines, Dotted(e.path), e.key, e.literal).Some?
  {
    hide SetLine, InsertedTop, AppendedTable, Dotted, TableBounds;
    BoundsInside(lines, Dotted(e.path), 0, None);
  }

  lemma JoinedAgain(lines: Lines, original: string)
    requires lines != []
    ensures JoinLines(lines, JoinLines(lines, original)) == JoinLines(lines, original)
  {
    hide Joined;
  }

  /** Behind a removal there is nothing more to remove. */
  lemma NothingLeft(text: string, e: Edit)
    requires WellFormed(SplitLines(text)) && GoodEdit(e) && e.literal.None?
    requires var lines := EditedLines(SplitLines(text), e);
      && ReadsAs(SplitLines(text), lines, TableOf(e), e.key, None)
      && SayTheSame(lines, SplitLines(Edited(text, e)))
    ensures Edited(Edited(text, e), e) == Edited(text, e)
  {
    hide WellFormed, SplitLines, JoinLines, TopEdited, TableEdited, Dotted, GoodEdit, Reads, HasKey, Comments, Headers,
         Edited, EditedLines;
    var once := Edited(text, e);
    var after := SplitLines(once);
    HasKeyIffReads(after, TableOf(e), e.key);
    assert !HasKey(after, TableOf(e), e.key);
    AbsentIsLeft(once, e);
  }

  lemma AbsentIsLeft(text: string, e: Edit)
    requires WellFormed(SplitLines(text)) && e.literal.None? && !HasKey(SplitLines(text), TableOf(e), e.key)
    ensures Edited(text, e) == text
  {
    hide WellFormed, SplitLines, JoinLines, OpensBracket, AssignedKey, TableAt, TableName, SetLine, TableBounds, Dotted,
         HeadersDiffer, Encloses;
    var lines := SplitLines(text);
    if e.path == [] {
      var first := FirstTable(lines, 0);
      forall j: nat | j < first
        ensures TableAt(lines, j) == None
      {
        NoHeaderAbove(lines, j);
      }
      FoundIsThere(lines, 0, first, None, e.key);
    } else {
      var target := Dotted(e.path);
      BoundsInside(lines, target, 0, None);
      var b := TableBounds(lines, target, 0, None);
      FoundBounds(lines, target);
      if b.start.Some? {
        forall j: nat | b.start.value + 1 <= j < b.end
          ensures TableAt(lines, j) == Some(target)
        {
          InsideTable(lines, target, b, j);
        }
        FoundIsThere(lines, b.start.value + 1, b.end, Some(target), e.key);
      }
    }
  }

  /** A key that is found among the lines of a table is one that the table has. */
  lemma FoundIsThere(lines: Lines, i: nat, end: nat, table: Option<string>, key: string)
    requires i <= end <= |lines| && forall j: nat :: i <= j < end ==> TableAt(lines, j) == table
    ensures FindKey(lines, i, end, key).None? || HasKey(lines, table, key)
  {
    hide TableAt, AssignedKey;
    var found := FindKey(lines, i, end, key);
    if found.Some? {
      assert Assigns(lines, found.value, table, key);
    }
  }

  // ----- Sequences of edits -----

  function AllEdited(text: string, edits: seq<Edit>): string
    decreases |edits|
  {
    if edits == [] then text else AllEdited(Edited(text, edits[0]), edits[1..])
  }

  predicate GoodEdits(edits: seq<Edit>) { forall i :: 0 <= i < |edits| ==> GoodEdit(edits[i]) }

  predicate Touches(e: Edit, table: Option<string>, key: string) { TableOf(e) == table && e.key == key }

  /** What the last edit of a key made of it; None if none touched it. */
  function LastEdit(edits: seq<Edit>, table: Option<string>, key: string): Option<Option<string>>
    decreases |edits|
  {
    if edits == [] then None
    else
      var later := LastEdit(edits[1..], table, key);
      if later.Some? then later
      else if Touches(edits[0], table, key) then Some(edits[0].literal)
      else None
  }

  /** A key reads as its last edit says, or as before if there was none. */
  ghost predicate Overlays(before: Lines, after: Lines, edits: seq<Edit>) {
    forall t, k, v :: Reads(after, t, k, v) <==>
      var last := LastEdit(edits, t, k);
      if last.None? then Reads(before, t, k, v) else last.value == Some(v)
  }

  predicate AllSet(edits: seq<Edit>) { forall i :: 0 <= i < |edits| ==> edits[i].literal.Some? }

  /** Any sequence of edits equals the ordered overlay: well-formed text whose keys read as their last
      edit says, or as before. No header is lost, and without removals no comment either. */
  lemma {:induction false} EditsOverlay(text: string, edits: seq<Edit>)
    requires WellFormed(SplitLines(text)) && GoodEdits(edits)
    ensures var before, after := SplitLines(text), SplitLines(AllEdited(text, edits));
      && WellFormed(after) && Overlays(before, after, edits)
      && Headers(before) <= Headers(after)
      && (AllSet(edits) ==> Comments(after) == Comments(before))
    decreases |edits|
  {
    hide WellFormed, SplitLines, Edited, EditedLines, GoodEdit, Reads, Headers, Comments, TableOf, Written, OneLineGone;
    if edits != [] {
      var e, rest := edits[0], edits[1..];
      EditLaw(text, e);
      var before, next := SplitLines(text), SplitLines(Edited(text, e));
      EditsOverlay(Edited(text, e), rest);
      var after := SplitLines(AllEdited(text, edits));
      OverlayComposes(before, next, after, edits);
      assert AllSet(edits) ==> AllSet(rest);
    }
  }

  lemma OverlayComposes(before: Lines, next: Lines, after: Lines, edits: seq<Edit>)
    requires edits != [] && Overlays(next, after, edits[1..])
    requires forall t, k, v :: Reads(next, t, k, v) <==>
      if t == TableOf(edits[0]) && k == edits[0].key then edits[0].literal == Some(v) else Reads(before, t, k, v)
    ensures Overlays(before, after, edits)
  {
    hide Reads, TableOf;
  }
}
