/** Get, set and frame laws of the configuration editor on well-formed text. */
module TomlLaws {
  import opened Options
  import opened Characters
  import opened TomlLiteral
  import opened TomlPrinter
  import opened TomlText
  import opened TomlEditor

  // ----- The lines the editor writes -----

  /** What a printed value promises to those who put it on a line. */
  predicate GoodLiteral(literal: string) {
    After(literal, OUTSIDE) == Some(OUTSIDE) && IsTrimmed(literal) && OneLine(literal)
  }

  lemma PrintedIsGood(v: Value)
    requires Literal(v).Some? && KeysOneLine(v)
    ensures GoodLiteral(Literal(v).value)
  {
    hide Literal, After, OneLine, KeysOneLine;
    AfterLiteral(v);
    LiteralIsTrimmed(v);
    LiteralOneLineIff(v);
  }

  lemma {:induction false} KeyPrefixOf(key: string, rest: string)
    requires (forall i :: 0 <= i < |key| ==> IsKeyChar(key[i])) && (rest == "" || !IsKeyChar(rest[0]))
    ensures KeyPrefix(key + rest) == key
  {
    if key == "" {
      assert key + rest == rest;
    } else {
      assert (key + rest)[1..] == key[1..] + rest;
      KeyPrefixOf(key[1..], rest);
    }
  }

  lemma {:induction false} IndexBehind(a: string, c: char, b: string)
    requires forall i :: 0 <= i < |a| ==> a[i] != c
    ensures IndexOf(a + [c] + b, c) == |a|
  {
    if a != "" {
      assert (a + [c] + b)[1..] == a[1..] + [c] + b;
      IndexBehind(a[1..], c, b);
    }
  }

  lemma StripPadded(s: string)
    requires IsTrimmed(s)
    ensures Strip(" " + s) == s && Strip(" " + s + "  ") == s
  {
    StripLeftStops(s);
    StripLeftStops(s + "  ");
    assert (" " + s)[1..] == s && (" " + s + "  ")[1..] == s + "  ";
    assert StripLeft(" " + s) == s && StripLeft(" " + s + "  ") == s + "  ";
    StripRightStops(s);
    assert (s + " ")[..|s|] == s && (s + "  ")[..|s| + 1] == s + " ";
    assert StripRight(s + " ") == s;
  }

  lemma StripLeftStops(s: string)
    requires s != "" && !IsSpace(s[0])
    ensures StripLeft(s) == s
  {
  }

  lemma StripRightStops(s: string)
    requires s != "" && !IsSpace(s[|s| - 1])
    ensures StripRight(s) == s
  {
  }

  /** An assignment reads as what was written, comment and all. */
  lemma AssignmentReads(key: string, literal: string, comment: string)
    requires IsIdentifier(key) && GoodLiteral(literal) && IsComment(comment) && OneLine(comment)
    ensures var line := Assignment(key, literal) + comment;
      && AssignedKey(line) == Some(key) && TableName(line).None? && !OpensBracket(line)
      && ValueText(line) == literal && TrailingComment(line) == comment && OneLine(line)
  {
    hide After, CommentAt, IsTrimmed, OneLine, Strip, IsComment, TableName;
    var line := Assignment(key, literal) + comment;
    AssignmentHasKey(key, literal + comment, line);
    HeadersAssignNothing(line);
    AssignmentHasComment(key, literal, comment);
    AssignmentHasValue(key, literal, comment);
    OneLineConcat(key, " = ");
    OneLineConcat(key + " = ", literal);
    OneLineConcat(Assignment(key, literal), comment);
    KeyIsOneLine(key);
  }

  lemma KeyIsOneLine(key: string)
    requires IsIdentifier(key)
    ensures OneLine(key) && OneLine(" = ")
  {
  }

  lemma AssignmentHasKey(key: string, rest: string, line: string)
    requires IsIdentifier(key) && line == key + (" = " + rest)
    ensures AssignedKey(line) == Some(key)
  {
    assert line[0] == key[0] && IsKeyChar(key[0]);
    StripLeftStops(line);
    KeyPrefixOf(key, " = " + rest);
    assert line[|key|..] == " = " + rest;
    assert (" = " + rest)[1..] == "= " + rest;
    StripLeftStops("= " + rest);
  }

  lemma AssignmentHasComment(key: string, literal: string, comment: string)
    requires IsIdentifier(key) && GoodLiteral(literal) && IsComment(comment)
    ensures TrailingComment(Assignment(key, literal) + comment) == comment
  {
    hide CommentAt, IsTrimmed, OneLine, IsComment, Strip;
    KeyCharsArePlain(key);
    AfterPlain(key + " = ", false);
    AfterConcat(key + " = ", literal, OUTSIDE);
    CommentFound(Assignment(key, literal), comment);
  }

  lemma AssignmentHasValue(key: string, literal: string, comment: string)
    requires IsIdentifier(key) && GoodLiteral(literal) && IsComment(comment)
    ensures ValueText(Assignment(key, literal) + comment) == literal
  {
    hide After, CommentAt, IsTrimmed, OneLine, Strip, StripRight;
    var line := Assignment(key, literal) + comment;
    var body := " " + literal + comment;
    assert line == key + " " + "=" + body;
    IndexBehind(key + " ", '=', body);
    assert line[|key| + 2..] == body;
    AfterPlain(" ", false);
    AfterConcat(" ", literal, OUTSIDE);
    StripPadded(literal);
    if comment == "" {
      CommentBehind(" " + literal, "", OUTSIDE);
      NothingBehind();
      assert body == " " + literal + "" && body[..|body|] == " " + literal;
    } else {
      var padded := " " + literal + "  ";
      AfterPlain("  ", false);
      AfterConcat(" " + literal, "  ", OUTSIDE);
      HashFirst(comment[2..]);
      CommentBehind(padded, comment[2..], OUTSIDE);
      assert comment == "  " + comment[2..];
      assert body == padded + comment[2..] && body[..|padded|] == padded;
    }
  }

  lemma {:induction false} StripLeftIsSuffix(s: string)
    ensures |StripLeft(s)| <= |s| && StripLeft(s) == s[|s| - |StripLeft(s)|..]
  {
    if s != "" && IsSpace(s[0]) {
      StripLeftIsSuffix(s[1..]);
    }
  }

  lemma CommentIsOneLine(line: string)
    requires OneLine(line)
    ensures OneLine(TrailingComment(line))
  {
    hide CommentAt, StripLeft, StripRight, OneLine;
    var i := CommentAt(line, OUTSIDE);
    var rest := line[i..];
    var body := StripLeft(rest);
    var comment := StripRight(body);
    StripLeftIsSuffix(rest);
    StripRightTwice(body);
    assert line == line[..i] + rest;
    OneLineConcat(line[..i], rest);
    assert rest == rest[..|rest| - |body|] + body;
    OneLineConcat(rest[..|rest| - |body|], body);
    assert body == comment + body[|comment|..];
    OneLineConcat(comment, body[|comment|..]);
    TwoBlanks();
    OneLineConcat("  ", comment);
  }

  lemma TwoBlanks()
    ensures OneLine("  ") && OneLine("")
  {
  }

  // ----- What stays -----

  function Comments(lines: Lines): seq<string> {
    if lines == [] then []
    else Comments(lines[..|lines| - 1]) + CommentOf(lines[|lines| - 1])
  }

  function CommentOf(line: string): seq<string> {
    if TrailingComment(line) == "" then [] else [TrailingComment(line)]
  }

  function Headers(lines: Lines): seq<string> {
    if lines == [] then []
    else Headers(lines[..|lines| - 1]) + HeaderOf(lines[|lines| - 1])
  }

  function HeaderOf(line: string): seq<string> {
    if TableName(line).None? then [] else [TableName(line).value]
  }

  lemma {:induction false} CommentsConcat(a: Lines, b: Lines)
    ensures Comments(a + b) == Comments(a) + Comments(b)
  {
    hide CommentOf;
    if b == [] {
      assert a + b == a;
    } else {
      assert (a + b)[..|a + b| - 1] == a + b[..|b| - 1];
      CommentsConcat(a, b[..|b| - 1]);
    }
  }

  lemma {:induction false} HeadersConcat(a: Lines, b: Lines)
    ensures Headers(a + b) == Headers(a) + Headers(b)
  {
    hide HeaderOf;
    if b == [] {
      assert a + b == a;
    } else {
      assert (a + b)[..|a + b| - 1] == a + b[..|b| - 1];
      HeadersConcat(a, b[..|b| - 1]);
    }
  }

  lemma StaysWith(a: Lines, line: string, b: Lines)
    ensures Comments(With(a, line, b)) == Comments(a) + CommentOf(line) + Comments(b)
    ensures Headers(With(a, line, b)) == Headers(a) + HeaderOf(line) + Headers(b)
  {
    hide CommentOf, HeaderOf;
    CommentsConcat(a + [line], b);
    CommentsConcat(a, [line]);
    HeadersConcat(a + [line], b);
    HeadersConcat(a, [line]);
    assert [line][..0] == [];
  }

  lemma {:induction false} HeadersAreNames(lines: Lines, name: string)
    ensures name in Headers(lines) <==> exists i :: 0 <= i < |lines| && TableName(lines[i]) == Some(name)
  {
    hide TableName;
    if lines != [] {
      var most, last := lines[..|lines| - 1], lines[|lines| - 1];
      HeadersAreNames(most, name);
      if exists i :: 0 <= i < |lines| && TableName(lines[i]) == Some(name) {
        var i :| 0 <= i < |lines| && TableName(lines[i]) == Some(name);
        assert i < |most| ==> most[i] == lines[i];
      }
    }
  }

  // ----- The laws -----

  /** The line of the key is as the editor writes it. */
  ghost predicate Written(lines: Lines, table: Option<string>, key: string, literal: string) {
    exists i: nat, comment :: i < |lines| && Assigns(lines, i, table, key)
      && IsComment(comment) && OneLine(comment) && lines[i] == Assignment(key, literal) + comment
  }

  /** The two texts read alike, except that `key` in `table` now has the literal, or is gone. */
  ghost predicate ReadsAs(before: Lines, after: Lines, table: Option<string>, key: string, literal: Option<string>) {
    forall t, k, v :: Reads(after, t, k, v) <==>
      if t == table && k == key then literal == Some(v) else Reads(before, t, k, v)
  }

  ghost predicate OneLineGone(before: Lines, after: Lines, table: Option<string>, key: string) {
    exists i: nat :: i < |before| && Assigns(before, i, table, key) && after == before[..i] + before[i + 1..]
  }

  /** The whole law for one edit: the new reading, all comments and headers, and well-formed text. A
      header is added only for a table that had none. A removed key takes its own line along. */
  ghost predicate EditOk(before: Lines, after: Lines, table: Option<string>, key: string, literal: Option<string>) {
    && WellFormed(after)
    && ReadsAs(before, after, table, key, literal)
    && (literal.Some? ==> Comments(after) == Comments(before) && Written(after, table, key, literal.value))
    && (literal.None? ==> after == before || OneLineGone(before, after, table, key))
    && Headers(after) == Headers(before) + NewHeader(before, table, literal)
  }

  function NewHeader(before: Lines, table: Option<string>, literal: Option<string>): seq<string> {
    if table.Some? && literal.Some? && table.value !in Headers(before) then [table.value] else []
  }

  lemma HasKeyIffReads(lines: Lines, table: Option<string>, key: string)
    ensures HasKey(lines, table, key) <==> exists v :: Reads(lines, table, key, v)
  {
    hide ValueText, Assigns;
    if HasKey(lines, table, key) {
      var i: nat :| Assigns(lines, i, table, key);
      AssignsInside(lines, i, table, key);
      assert Reads(lines, table, key, ValueText(lines[i]));
    }
  }

  /** A new line for a key that its table does not have. */
  lemma InsertedOk(a: Lines, b: Lines, table: Option<string>, key: string, literal: string, comment: string)
    requires WellFormed(a + b) && TableAt(a + b, |a|) == table && !HasKey(a + b, table, key)
    requires IsIdentifier(key) && GoodLiteral(literal) && IsComment(comment) && OneLine(comment)
    ensures var after := With(a, Assignment(key, literal) + comment, b);
      && WellFormed(after) && ReadsAs(a + b, after, table, key, Some(literal)) && Written(after, table, key, literal)
      && Comments(after) == Comments(a) + (if comment == "" then [] else [comment]) + Comments(b)
      && Headers(after) == Headers(a + b)
  {
    hide TableName, AssignedKey, ValueText, TableAt, Assigns, IsComment, GoodLiteral, OneLine, OpensBracket,
      HasKey, LinesOk, HeadersDiffer, KeysDiffer, TrailingComment, Comments, Headers, Reads;
    var line := Assignment(key, literal) + comment;
    var after := With(a, line, b);
    AssignmentReads(key, literal, comment);
    WellFormedWithIff(a, line, b);
    HasKeyIffReads(a + b, table, key);
    forall t, k, v
      ensures Reads(after, t, k, v) <==>
        if t == table && k == key then Some(literal) == Some(v) else Reads(a + b, t, k, v)
    {
      ReadsWith(a, line, b, t, k, v);
    }
    AssignsWith(a, line, b, 0, table, key);
    assert after[|a|] == line;
    StaysWith(a, line, b);
    HeadersConcat(a, b);
  }

  lemma SplitAt(lines: Lines, i: nat)
    requires i < |lines|
    ensures lines == With(lines[..i], lines[i], lines[i + 1..])
  {
  }

  /** Taking the key's line away. */
  lemma WithoutLineOk(a: Lines, line: string, b: Lines, table: Option<string>, key: string)
    requires WellFormed(With(a, line, b)) && Assigns(With(a, line, b), |a|, table, key)
    ensures WellFormed(a + b) && !HasKey(a + b, table, key) && TableAt(a + b, |a|) == table
    ensures ReadsAs(With(a, line, b), a + b, table, key, None)
    ensures Headers(a + b) == Headers(With(a, line, b))
    ensures Comments(With(a, line, b)) == Comments(a) + CommentOf(line) + Comments(b)
  {
    hide TableName, AssignedKey, ValueText, TableAt, OneLine, OpensBracket,
      HasKey, LinesOk, HeadersDiffer, KeysDiffer, CommentOf, Comments, Headers, Reads;
    var before := With(a, line, b);
    assert before[|a|] == line;
    HeadersAssignNothing(line);
    WellFormedWithIff(a, line, b);
    TableAtWith(a, line, b, |a|);
    HasKeyIffReads(a + b, table, key);
    forall t, k, v
      ensures Reads(a + b, t, k, v) <==> if t == table && k == key then false else Reads(before, t, k, v)
    {
      ReadsWith(a, line, b, t, k, v);
    }
    StaysWith(a, line, b);
    HeadersConcat(a, b);
  }

  /** Setting or removing a key where it has a line. */
  lemma SetLineOk(lines: Lines, i: nat, table: Option<string>, key: string, literal: Option<string>)
    requires WellFormed(lines) && Assigns(lines, i, table, key)
    requires IsIdentifier(key) && (literal.Some? ==> GoodLiteral(literal.value))
    requires table.Some? ==> table.value in Headers(lines)
    ensures EditOk(lines, SetLine(lines, i, key, literal), table, key, literal)
  {
    hide WellFormed, ReadsAs, Headers, Comments, IsComment, OneLine, GoodLiteral, HasKey, TableAt, AssignedKey,
         TrailingComment;
    var a, line, b := lines[..i], lines[i], lines[i + 1..];
    SplitAt(lines, i);
    WithoutLineOk(a, line, b, table, key);
    var after := SetLine(lines, i, key, literal);
    if literal.Some? {
      var comment := TrailingComment(line);
      TrailingIsComment(line);
      LineIsOneLine(lines, i);
      CommentIsOneLine(line);
      InsertedOk(a, b, table, key, literal.value, comment);
      assert after == With(a, Assignment(key, literal.value) + comment, b);
      ReplacedReads(lines, a + b, after, table, key, literal.value);
    }
  }

  lemma LineIsOneLine(lines: Lines, i: nat)
    requires WellFormed(lines) && i < |lines|
    ensures OneLine(lines[i])
  {
  }

  lemma ReplacedReads(before: Lines, between: Lines, after: Lines, table: Option<string>, key: string, literal: string)
    requires ReadsAs(before, between, table, key, None) && ReadsAs(between, after, table, key, Some(literal))
    ensures ReadsAs(before, after, table, key, Some(literal))
  {
    hide Reads;
  }

  // ----- Blank lines -----

  /** The two texts say the same. */
  ghost predicate SayTheSame(before: Lines, after: Lines) {
    && WellFormed(after)
    && (forall t, k, v :: Reads(after, t, k, v) <==> Reads(before, t, k, v))
    && Comments(after) == Comments(before) && Headers(after) == Headers(before)
  }

  lemma BlankLine()
    ensures TableName("").None? && AssignedKey("").None? && LineOk("") && CommentOf("") == [] && HeaderOf("") == []
  {
  }

  lemma BlankSaysNothing(a: Lines, b: Lines)
    requires WellFormed(a + b)
    ensures SayTheSame(a + b, With(a, "", b))
    ensures TableAt(With(a, "", b), |a|) == TableAt(a + b, |a|)
  {
    hide TableName, AssignedKey, ValueText, TableAt, LineOk, HasKey, LinesOk, HeadersDiffer, KeysDiffer,
      CommentOf, HeaderOf, Comments, Headers, Reads;
    BlankLine();
    WellFormedWithIff(a, "", b);
    forall t, k, v
      ensures Reads(With(a, "", b), t, k, v) <==> Reads(a + b, t, k, v)
    {
      ReadsWith(a, "", b, t, k, v);
    }
    StaysWith(a, "", b);
    CommentsConcat(a, b);
    HeadersConcat(a, b);
    TableAtWith(a, "", b, |a|);
  }

  lemma SameHasKey(before: Lines, after: Lines, table: Option<string>, key: string)
    requires SayTheSame(before, after)
    ensures HasKey(after, table, key) <==> HasKey(before, table, key)
  {
    hide WellFormed, Comments, Headers, Reads, HasKey;
    HasKeyIffReads(before, table, key);
    HasKeyIffReads(after, table, key);
    if exists v :: Reads(before, table, key, v) {
      var v :| Reads(before, table, key, v);
      assert Reads(after, table, key, v);
    }
  }

  /** A new line for a key, perhaps with a blank line that came first. */
  lemma InsertedAfterBlank(
      before: Lines, a: Lines, b: Lines, table: Option<string>, key: string, literal: string)
    requires SayTheSame(before, a + b) && TableAt(a + b, |a|) == table && !HasKey(before, table, key)
    requires IsIdentifier(key) && GoodLiteral(literal) && (table.Some? ==> table.value in Headers(before))
    ensures EditOk(before, With(a, Assignment(key, literal), b), table, key, Some(literal))
  {
    hide WellFormed, Headers, Comments, IsComment, GoodLiteral, HasKey, TableAt, Reads, IsIdentifier, Written;
    SameHasKey(before, a + b, table, key);
    NoComment();
    InsertedOk(a, b, table, key, literal, "");
    assert Assignment(key, literal) + "" == Assignment(key, literal);
    CommentsConcat(a, b);
  }

  lemma NoComment()
    ensures IsComment("") && OneLine("")
  {
  }

  lemma SaysTheSame(lines: Lines)
    requires WellFormed(lines)
    ensures SayTheSame(lines, lines)
  {
  }

  lemma PaddedSaysTheSame(lines: Lines)
    requires WellFormed(lines)
    ensures SayTheSame(lines, Padded(lines))
    ensures TableAt(Padded(lines), |Padded(lines)|) == TableAt(lines, |lines|)
  {
    hide WellFormed, TableName, HasText, SayTheSame;
    assert lines + [] == lines && With(lines, "", []) == lines + [""];
    SaysTheSame(lines);
    BlankSaysNothing(lines, []);
    BlankLine();
  }

  // ----- The top level -----

  lemma {:induction false} NoHeaderAbove(lines: Lines, i: nat)
    requires i <= |lines| && forall j :: 0 <= j < i ==> !OpensBracket(lines[j])
    ensures TableAt(lines, i) == None
  {
    hide TableName, OpensBracket;
    if i > 0 {
      HeadersAssignNothing(lines[i - 1]);
      NoHeaderAbove(lines, i - 1);
    }
  }

  lemma {:induction false} HeaderAbove(lines: Lines, h: nat, i: nat)
    requires h < i <= |lines| && TableName(lines[h]).Some?
    ensures TableAt(lines, i).Some?
  {
    hide TableName;
    if h < i - 1 {
      HeaderAbove(lines, h, i - 1);
    }
  }

  /** Top-level keys are assigned above the first header. */
  lemma TopKeysAreAbove(lines: Lines, key: string, i: nat)
    requires WellFormed(lines) && Assigns(lines, i, None, key)
    ensures i < FirstTable(lines, 0)
  {
    hide TableName, OpensBracket, AssignedKey, HeadersDiffer, KeysDiffer;
    var first := FirstTable(lines, 0);
    if first < |lines| {
      assert LineOk(lines[first]);
      HeadersAssignNothing(lines[first]);
      if first < i {
        HeaderAbove(lines, first, i);
      }
    }
  }

  /** The law for the top level. */
  lemma TopEditIsOk(lines: Lines, key: string, literal: Option<string>)
    requires WellFormed(lines) && IsIdentifier(key) && (literal.Some? ==> GoodLiteral(literal.value))
    ensures var edited := TopEdited(lines, key, literal);
      EditOk(lines, if edited.None? then lines else edited.value, None, key, literal)
  {
    hide WellFormed, EditOk, SetLine, InsertedTop, AssignedKey, OpensBracket, TableAt, GoodLiteral, IsIdentifier;
    var first := FirstTable(lines, 0);
    var found := FindKey(lines, 0, first, key);
    if found.Some? {
      NoHeaderAbove(lines, found.value);
      SetLineOk(lines, found.value, None, key, literal);
    } else {
      forall i: nat
        ensures !Assigns(lines, i, None, key)
      {
        if Assigns(lines, i, None, key) {
          TopKeysAreAbove(lines, key, i);
        }
      }
      if literal.Some? {
        InsertedTopOk(lines, first, key, literal.value);
      } else {
        NothingToRemove(lines, None, key);
      }
    }
  }

  lemma NothingToRemove(lines: Lines, table: Option<string>, key: string)
    requires WellFormed(lines) && !HasKey(lines, table, key)
    ensures EditOk(lines, lines, table, key, None)
  {
    hide WellFormed, Comments, Headers, Reads, HasKey;
    HasKeyIffReads(lines, table, key);
  }

  lemma InsertedTopOk(lines: Lines, first: nat, key: string, literal: string)
    requires WellFormed(lines) && first == FirstTable(lines, 0) && !HasKey(lines, None, key)
    requires IsIdentifier(key) && GoodLiteral(literal)
    ensures EditOk(lines, InsertedTop(lines, first, Assignment(key, literal)), None, key, Some(literal))
  {
    hide WellFormed, EditOk, AssignedKey, OpensBracket, TableAt, GoodLiteral, IsIdentifier, HasKey, SayTheSame, HasText,
         FirstTable, Assignment;
    var line := Assignment(key, literal);
    var a, b := lines[..first], lines[first..];
    assert a + b == lines;
    AboveIsTop(lines, first);
    SaysTheSame(lines);
    BlankSaysNothing(a, b);
    if first < |lines| {
      if first == 0 || HasText(lines[first - 1]) {
        assert a + ([""] + b) == With(a, "", b);
        InsertedAfterBlank(lines, a, [""] + b, None, key, literal);
        assert With(a, line, [""] + b) == InsertedTop(lines, first, line);
      } else {
        InsertedAfterBlank(lines, a, b, None, key, literal);
        assert With(a, line, b) == InsertedTop(lines, first, line);
      }
    } else {
      assert a == lines && b == [];
      PaddedSaysTheSame(lines);
      var padded := Padded(lines);
      assert padded + [] == padded;
      InsertedAfterBlank(lines, padded, [], None, key, literal);
      if lines == [] {
        assert With(padded, line, []) == InsertedTop(lines, first, line);
      } else {
        TopIsNotFirst(lines, first);
        assert With(padded, line, []) == InsertedTop(lines, first, line);
      }
    }
  }

  lemma AboveIsTop(lines: Lines, first: nat)
    requires first == FirstTable(lines, 0)
    ensures TableAt(lines, first) == None
  {
    NoHeaderAbove(lines, first);
  }

  lemma TopIsNotFirst(lines: Lines, first: nat)
    requires lines != [] && first == |lines|
    ensures first > 0
  {
  }

  // ----- Tables -----

  ghost predicate LastHeader(lines: Lines, h: nat, i: nat) {
    h < i <= |lines| && TableName(lines[h]).Some? && forall m :: h < m < i ==> TableName(lines[m]).None?
  }

  lemma {:induction false} NearestHeader(lines: Lines, i: nat)
    requires i <= |lines| && TableAt(lines, i).Some?
    ensures exists h: nat :: LastHeader(lines, h, i) && TableName(lines[h]) == TableAt(lines, i)
  {
    hide TableName;
    if TableName(lines[i - 1]).Some? {
      assert LastHeader(lines, i - 1, i);
    } else {
      NearestHeader(lines, i - 1);
      var h: nat :| LastHeader(lines, h, i - 1) && TableName(lines[h]) == TableAt(lines, i - 1);
      assert LastHeader(lines, h, i);
    }
  }

  /** The bounds enclose exactly the lines of the table. */
  ghost predicate Encloses(lines: Lines, target: string, b: Bounds) {
    && b.end <= |lines|
    && (if b.start.None? then forall m :: 0 <= m < |lines| ==> TableName(lines[m]) != Some(target)
        else
          && b.start.value < b.end && TableName(lines[b.start.value]) == Some(target)
          && (forall m :: b.start.value < m < b.end ==> TableName(lines[m]).None?)
          && (b.end < |lines| ==> TableName(lines[b.end]).Some?))
  }

  lemma {:induction false} BoundsEnclose(lines: Lines, target: string, i: nat, start: Option<nat>)
    requires i <= |lines| && HeadersDiffer(lines)
    requires if start.None? then forall m :: 0 <= m < i ==> TableName(lines[m]) != Some(target)
             else start.value < i && TableName(lines[start.value]) == Some(target)
                  && forall m :: start.value < m < i ==> TableName(lines[m]).None?
    ensures Encloses(lines, target, TableBounds(lines, target, i, start))
    decreases |lines| - i
  {
    hide TableName;
    if i < |lines| {
      var name := TableName(lines[i]);
      if name.None? {
        BoundsEnclose(lines, target, i + 1, start);
      } else if name.value == target {
        assert start.None?;
        BoundsEnclose(lines, target, i + 1, Some(i));
      } else if start.None? {
        BoundsEnclose(lines, target, i + 1, start);
      }
    }
  }

  lemma {:induction false} InsideTable(lines: Lines, target: string, b: Bounds, j: nat)
    requires Encloses(lines, target, b) && b.start.Some? && b.start.value < j <= b.end
    ensures TableAt(lines, j) == Some(target)
    decreases j
  {
    hide TableName;
    if b.start.value < j - 1 {
      InsideTable(lines, target, b, j - 1);
    }
  }

  /** Every assignment of the table lies within the bounds; a table without a header has none. */
  lemma TableKeysAreInside(lines: Lines, target: string, b: Bounds, key: string, j: nat)
    requires HeadersDiffer(lines) && Encloses(lines, target, b) && Assigns(lines, j, Some(target), key)
    ensures b.start.Some? && b.start.value < j < b.end
  {
    hide TableName, AssignedKey, OpensBracket, TableAt;
    NearestHeader(lines, j);
    var h: nat :| LastHeader(lines, h, j) && TableName(lines[h]) == Some(target);
    if b.start.Some? {
      assert h == b.start.value;
      HeadersAssignNothing(lines[j]);
    }
  }

  predicate IsTarget(target: string) {
    target != "" && forall i :: 0 <= i < |target| ==> IsKeyChar(target[i]) || target[i] == '.'
  }

  /** A new header reads as the table's, and has no comment. */
  lemma HeaderReads(target: string)
    requires IsTarget(target)
    ensures var header := "[" + target + "]";
      TableName(header) == Some(target) && LineOk(header) && CommentOf(header) == [] && HeaderOf(header) == [target]
  {
    hide After, CommentAt, OneLine;
    var header := "[" + target + "]";
    StripLeftStops(header);
    IndexBehind("[" + target, ']', "");
    assert header == "[" + target + [']'] + "" && header[1..|target| + 1] == target && header[|target| + 2..] == "";
    StripLeftStops(target);
    StripRightStops(target);
    assert TableName(header) == Some(target);
    TargetIsPlain(target);
    AfterPlain(header, false);
    CommentBehind(header, "", OUTSIDE);
    NothingBehind();
    assert header + "" == header;
  }

  lemma TargetIsPlain(target: string)
    requires IsTarget(target)
    ensures IsPlain("[" + target + "]") && OneLine("[" + target + "]")
  {
  }

  lemma {:induction false} DottedIsTarget(path: seq<string>)
    requires path != [] && forall i :: 0 <= i < |path| ==> IsIdentifier(path[i])
    ensures IsTarget(Dotted(path))
  {
    IdentifierIsBare(path[0]);
    if |path| > 1 {
      DottedIsTarget(path[1..]);
    }
  }

  /** A new table behind everything else. */
  lemma AppendedOk(lines: Lines, target: string, key: string, literal: string)
    requires WellFormed(lines) && IsTarget(target) && IsIdentifier(key) && GoodLiteral(literal)
    requires forall m :: 0 <= m < |lines| ==> TableName(lines[m]) != Some(target)
    requires !HasKey(lines, Some(target), key)
    ensures EditOk(lines, AppendedTable(lines, target, Assignment(key, literal)), Some(target), key, Some(literal))
  {
    hide WellFormed, TableAt, GoodLiteral, HasKey, HasText, Reads, Comments, Headers, TableName, IsTarget, LineOk,
      CommentOf, HeaderOf, IsIdentifier, Written, Padded, IsComment, OneLine, Assignment;
    var header, padded := "[" + target + "]", Padded(lines);
    HeaderReads(target);
    PaddedSaysTheSame(lines);
    SameHasKey(lines, padded, Some(target), key);
    PaddedHasNo(lines, target);
    var m := padded + [header];
    WellFormedWithHeader(padded, header);
    ReadsBeforeHeader(padded, header, Some(target), key, "");
    forall t, k, v
      ensures Reads(m, t, k, v) <==> Reads(lines, t, k, v)
    {
      ReadsBeforeHeader(padded, header, t, k, v);
    }
    NoComment();
    assert m + [] == m;
    InsertedOk(m, [], Some(target), key, literal, "");
    assert Assignment(key, literal) + "" == Assignment(key, literal);
    assert AppendedTable(lines, target, Assignment(key, literal)) == With(m, Assignment(key, literal), []);
    StaysWith(padded, header, []);
    assert With(padded, header, []) == m;
    NothingStays();
    HeadersAreNames(lines, target);
  }

  lemma NothingStays()
    ensures Comments([]) == [] && Headers([]) == []
  {
  }

  lemma PaddedHasNo(lines: Lines, target: string)
    requires forall m :: 0 <= m < |lines| ==> TableName(lines[m]) != Some(target)
    ensures forall m :: 0 <= m < |Padded(lines)| ==> TableName(Padded(lines)[m]) != Some(target)
  {
    hide HasText, TableName;
    BlankLine();
  }

  /** The law for tables. */
  lemma TableEditIsOk(lines: Lines, target: string, key: string, literal: Option<string>)
    requires WellFormed(lines) && IsTarget(target) && IsIdentifier(key)
    requires literal.Some? ==> GoodLiteral(literal.value)
    ensures var edited := TableEdited(lines, target, key, literal);
      EditOk(lines, if edited.None? then lines else edited.value, Some(target), key, literal)
  {
    hide WellFormed, EditOk, SetLine, AppendedTable, AssignedKey, TableAt, GoodLiteral, IsIdentifier, IsTarget,
      TableName, TableBounds, HeadersDiffer, Encloses, Headers, Assignment;
    BoundsInside(lines, target, 0, None);
    var b := TableBounds(lines, target, 0, None);
    FoundBounds(lines, target);
    HeadersAreNames(lines, target);
    if b.start.None? {
      forall i: nat
        ensures !Assigns(lines, i, Some(target), key)
      {
        if Assigns(lines, i, Some(target), key) {
          TableKeysAreInside(lines, target, b, key, i);
          assert false;
        }
      }
      if literal.Some? {
        NoHeaderOf(lines, target, b);
        AppendedOk(lines, target, key, literal.value);
      } else {
        NothingToRemove(lines, Some(target), key);
      }
    } else {
      HeaderIsThere(lines, target, b);
      var found := FindKey(lines, b.start.value + 1, b.end, key);
      if found.Some? {
        InsideTable(lines, target, b, found.value);
        SetLineOk(lines, found.value, Some(target), key, literal);
      } else {
        NoKeyInside(lines, target, b, key);
        if literal.Some? {
          var a, rest := lines[..b.end], lines[b.end..];
          assert a + rest == lines;
          InsideTable(lines, target, b, b.end);
          SaysTheSame(lines);
          InsertedAfterBlank(lines, a, rest, Some(target), key, literal.value);
        } else {
          NothingToRemove(lines, Some(target), key);
        }
      }
    }
  }

  lemma FoundBounds(lines: Lines, target: string)
    requires WellFormed(lines)
    ensures Encloses(lines, target, TableBounds(lines, target, 0, None)) && HeadersDiffer(lines)
  {
    hide LinesOk, KeysDiffer;
    BoundsEnclose(lines, target, 0, None);
  }

  lemma NoHeaderOf(lines: Lines, target: string, b: Bounds)
    requires Encloses(lines, target, b) && b.start.None?
    ensures forall m :: 0 <= m < |lines| ==> TableName(lines[m]) != Some(target)
  {
  }

  lemma HeaderIsThere(lines: Lines, target: string, b: Bounds)
    requires Encloses(lines, target, b) && b.start.Some?
    ensures target in Headers(lines)
  {
    hide Headers, TableName;
    HeadersAreNames(lines, target);
  }

  lemma NoKeyInside(lines: Lines, target: string, b: Bounds, key: string)
    requires HeadersDiffer(lines) && Encloses(lines, target, b) && b.start.Some?
    requires forall j :: b.start.value < j < b.end ==> AssignedKey(lines[j]) != Some(key)
    ensures !HasKey(lines, Some(target), key)
  {
    hide TableName, AssignedKey, TableAt, HeadersDiffer;
    forall j: nat
      ensures !Assigns(lines, j, Some(target), key)
    {
      if Assigns(lines, j, Some(target), key) {
        TableKeysAreInside(lines, target, b, key, j);
        assert false;
      }
    }
  }
}
