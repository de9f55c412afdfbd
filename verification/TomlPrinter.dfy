/** What holds of printed literals: they take one line, can be read back, and keep the comment behind them. */
module TomlPrinter {
  import opened Options
  import opened Characters
  import opened TomlLiteral

  // ----- Comments are kept -----

  lemma {:induction false} CommentBehind(a: string, b: string, st: Scan)
    requires After(a, st).Some?
    ensures CommentAt(a + b, st) == |a| + CommentAt(b, After(a, st).value)
  {
    if a == "" {
      assert a + b == b;
    } else {
      assert (a + b)[1..] == a[1..] + b;
      CommentBehind(a[1..], b, Step(st, a[0]));
    }
  }

  lemma {:induction false} StripRightTwice(s: string)
    ensures StripRight(StripRight(s)) == StripRight(s) && StripRight(s) <= s
  {
    if s != "" && IsSpace(s[|s| - 1]) {
      StripRightTwice(s[..|s| - 1]);
    }
  }

  lemma {:induction false} StripRightKeepsHead(s: string)
    requires s != "" && !IsSpace(s[0])
    ensures StripRight(s) != "" && StripRight(s)[0] == s[0]
  {
    if IsSpace(s[|s| - 1]) {
      StripRightKeepsHead(s[..|s| - 1]);
    }
  }

  /** What the editor puts behind a value: nothing, or two blanks and a stripped comment. */
  predicate IsComment(c: string) {
    c == "" || (|c| > 2 && c[..2] == "  " && c[2] == '#' && StripRight(c[2..]) == c[2..])
  }

  lemma TrailingIsComment(line: string)
    ensures IsComment(TrailingComment(line))
  {
    var i := CommentAt(line, OUTSIDE);
    if i < |line| {
      StripRightTwice(line[i..]);
      StripRightKeepsHead(line[i..]);
      var c := TrailingComment(line);
      assert c[..2] == "  " && c[2..] == StripRight(line[i..]);
    }
  }

  lemma HashFirst(body: string)
    requires body != "" && body[0] == '#' && StripRight(body) == body
    ensures CommentAt(body, OUTSIDE) == 0 && Strip(body) == body
  {
  }

  lemma CommentFound(text: string, c: string)
    requires After(text, OUTSIDE) == Some(OUTSIDE) && IsComment(c)
    ensures TrailingComment(text + c) == c
  {
    hide After, CommentAt, Strip, StripRight, IsComment;
    CommentBehind(text, c, OUTSIDE);
    CommentInside(c);
    assert (text + c)[|text|..] == c;
    CommentThere(text + c, |text|, c);
  }

  lemma CommentInside(c: string)
    requires IsComment(c)
    ensures CommentAt(c, OUTSIDE) == if c == "" then 0 else 2
  {
    hide Strip, StripRight;
    if c != "" {
      assert c[0] == ' ' && c[1..][0] == ' ' && c[1..][1..] == c[2..] && c[2..][0] == '#';
      assert CommentAt(c, OUTSIDE) == 1 + CommentAt(c[1..], OUTSIDE) == 2 + CommentAt(c[2..], OUTSIDE);
    }
  }

  /** The comment is at the end of the line, and the scan stops at its hash. */
  lemma CommentThere(line: string, n: nat, c: string)
    requires n <= |line| && line[n..] == c && IsComment(c)
    requires CommentAt(line, OUTSIDE) == n + if c == "" then 0 else 2
    ensures TrailingComment(line) == c
  {
    hide CommentAt, Strip, StripRight;
    if c != "" {
      assert line[n + 2..] == c[2..];
      HashFirst(c[2..]);
    }
  }

  lemma NothingBehind()
    ensures CommentAt("", OUTSIDE) == 0
  {
  }

  /** The new text of an assignment that already had a line. */
  function Rewritten(key: string, literal: string, line: string): string {
    key + " = " + literal + TrailingComment(line)
  }

  lemma AfterAssignment(key: string, v: Value)
    requires IsIdentifier(key) && Literal(v).Some?
    ensures After(key + " = " + Literal(v).value, OUTSIDE) == Some(OUTSIDE)
  {
    KeyCharsArePlain(key);
    AfterPlain(key, false);
    AfterPlain(" = ", false);
    AfterLiteral(v);
    AfterConcat(key, " = ", OUTSIDE);
    AfterConcat(key + " = ", Literal(v).value, OUTSIDE);
  }

  /** The comment behind any value is exactly the one that was put there, so writing the same value
      twice is the same as writing it once. */
  lemma RewrittenKeepsComment(key: string, v: Value, line: string)
    requires IsIdentifier(key) && Literal(v).Some?
    ensures var again := Rewritten(key, Literal(v).value, line);
      TrailingComment(again) == TrailingComment(line) && Rewritten(key, Literal(v).value, again) == again
  {
    AfterAssignment(key, v);
    TrailingIsComment(line);
    CommentFound(key + " = " + Literal(v).value, TrailingComment(line));
  }

  // ----- Literals take one line -----

  lemma OneLineConcat(a: string, b: string)
    ensures OneLine(a + b) <==> OneLine(a) && OneLine(b)
  {
    if OneLine(a + b) {
      assert forall i :: 0 <= i < |a| ==> (a + b)[i] == a[i];
      assert forall i :: 0 <= i < |b| ==> (a + b)[|a| + i] == b[i];
    }
  }

  predicate IsPrintable(s: string) { forall i :: 0 <= i < |s| ==> ' ' <= s[i] <= '~' }

  lemma HexIsPrintable(n: nat)
    requires n < 0x10000
    ensures IsPrintable(UnicodeEscape(n))
  {
    assert forall k :: 0 <= k < 16 ==> ' ' <= "0123456789abcdef"[k] <= '~';
  }

  lemma QuotedCharIsPrintable(n: CodePoint)
    ensures IsPrintable(QuotedChar(n))
  {
    hide UnicodeEscape;
    if n < 0x10000 {
      HexIsPrintable(n);
    } else {
      HexIsPrintable(0xD800 + (n - 0x10000) / 0x400);
      HexIsPrintable(0xDC00 + (n - 0x10000) % 0x400);
    }
  }

  lemma {:induction false} QuotedIsPrintable(s: Unicode)
    ensures IsPrintable(QuotedChars(s))
  {
    hide QuotedChar;
    if s != [] {
      QuotedCharIsPrintable(s[0]);
      QuotedIsPrintable(s[1..]);
    }
  }

  lemma QuoteIsOneLine(s: Unicode)
    ensures OneLine(JsonQuote(s))
  {
    QuotedIsPrintable(s);
  }

  /** No printed key ends in a newline. */
  predicate KeysOneLine(v: Value)
    decreases v
  {
    match v
    case Map(entries) =>
      forall i :: 0 <= i < |entries| ==>
        entries[i].value.Null? || (OneLine(TomlKey(entries[i].key)) && KeysOneLine(entries[i].value))
    case List(items) => forall i :: 0 <= i < |items| ==> KeysOneLine(items[i])
    case _ => true
  }

  lemma KeyOneLineIff(key: Unicode)
    ensures OneLine(TomlKey(key)) <==> !(PrintsBare(key) && !IsWord(key))
  {
    if PrintsBare(key) {
      if !IsWord(key) {
        assert IsBreak(TomlKey(key)[|key| - 1]);
      }
    } else {
      QuoteIsOneLine(key);
    }
  }

  /** A printed literal is on one line exactly if no key of its maps is an identifier followed by a
      newline: such a key passes for an identifier and is printed as it is. */
  lemma {:induction false} LiteralOneLineIff(v: Value)
    requires Literal(v).Some?
    ensures OneLine(Literal(v).value) <==> KeysOneLine(v)
    decreases v
  {
    match v
    case Bool(_) =>
    case Int(n) => IntTextIsPlain(n);
    case Float(f) => FloatIsPlain(f);
    case Str(s) => QuoteIsOneLine(s);
    case Map(entries) =>
      EntriesOneLineIff(entries, true);
      OneLineConcat("{ ", EntryList(entries, true).value);
      OneLineConcat("{ " + EntryList(entries, true).value, " }");
    case List(items) =>
      ItemsOneLineIff(items, true);
      OneLineConcat("[", ItemList(items, true).value);
      OneLineConcat("[" + ItemList(items, true).value, "]");
    case _ =>
  }

  lemma {:induction false} EntriesOneLineIff(entries: seq<Entry>, first: bool)
    requires EntryList(entries, first).Some?
    ensures OneLine(EntryList(entries, first).value) <==> KeysOneLine(Map(entries))
    decreases entries
  {
    if entries != [] {
      var e := entries[0];
      KeysOfTail(entries);
      if e.value.Null? {
        EntriesOneLineIff(entries[1..], first);
      } else {
        var head, rest := EntryText(e).value, EntryList(entries[1..], false).value;
        EntriesOneLineIff(entries[1..], false);
        LiteralOneLineIff(e.value);
        OneLineConcat(TomlKey(e.key), " = ");
        OneLineConcat(TomlKey(e.key) + " = ", Literal(e.value).value);
        SeparatorIsPlain(first);
        OneLineConcat(Separator(first), head);
        OneLineConcat(Separator(first) + head, rest);
      }
    }
  }

  lemma KeysOfTail(entries: seq<Entry>)
    requires entries != []
    ensures KeysOneLine(Map(entries)) <==>
      (entries[0].value.Null? || (OneLine(TomlKey(entries[0].key)) && KeysOneLine(entries[0].value)))
      && KeysOneLine(Map(entries[1..]))
  {
    assert forall i :: 0 <= i < |entries[1..]| ==> entries[1..][i] == entries[i + 1];
    assert forall i :: 0 < i < |entries| ==> entries[i] == entries[1..][i - 1];
  }

  lemma {:induction false} ItemsOneLineIff(items: seq<Value>, first: bool)
    requires ItemList(items, first).Some?
    ensures OneLine(ItemList(items, first).value) <==> KeysOneLine(List(items))
    decreases items
  {
    if items != [] {
      var head, rest := Literal(items[0]).value, ItemList(items[1..], false).value;
      assert forall i :: 0 <= i < |items[1..]| ==> items[1..][i] == items[i + 1];
      assert forall i :: 0 < i < |items| ==> items[i] == items[1..][i - 1];
      ItemsOneLineIff(items[1..], false);
      LiteralOneLineIff(items[0]);
      SeparatorIsPlain(first);
      OneLineConcat(Separator(first), head);
      OneLineConcat(Separator(first) + head, rest);
    }
  }

  // ----- Which values are printed -----

  /** No null but as an entry of a table, and nothing of an unknown kind. */
  predicate Prints(v: Value)
    decreases v
  {
    match v
    case Null => false
    case Unsupported => false
    case Map(entries) => forall i :: 0 <= i < |entries| ==> entries[i].value.Null? || Prints(entries[i].value)
    case List(items) => forall i :: 0 <= i < |items| ==> Prints(items[i])
    case _ => true
  }

  lemma {:induction false} PrintsIff(v: Value)
    ensures Literal(v).Some? <==> Prints(v)
    decreases v
  {
    match v
    case Map(entries) => EntriesPrintIff(entries, true);
    case List(items) => ItemsPrintIff(items, true);
    case _ =>
  }

  lemma {:induction false} EntriesPrintIff(entries: seq<Entry>, first: bool)
    ensures EntryList(entries, first).Some? <==> Prints(Map(entries))
    decreases entries
  {
    if entries != [] {
      var e, rest := entries[0], entries[1..];
      assert forall i :: 0 < i < |entries| ==> entries[i] == rest[i - 1];
      assert forall i :: 0 <= i < |rest| ==> rest[i] == entries[i + 1];
      EntriesPrintIff(rest, first);
      EntriesPrintIff(rest, false);
      if !e.value.Null? {
        PrintsIff(e.value);
      }
    }
  }

  lemma {:induction false} ItemsPrintIff(items: seq<Value>, first: bool)
    ensures ItemList(items, first).Some? <==> Prints(List(items))
    decreases items
  {
    if items != [] {
      var rest := items[1..];
      assert forall i :: 0 < i < |items| ==> items[i] == rest[i - 1];
      assert forall i :: 0 <= i < |rest| ==> rest[i] == items[i + 1];
      ItemsPrintIff(rest, false);
      PrintsIff(items[0]);
    }
  }

  /** Nothing to strip at either end. */
  predicate IsTrimmed(s: string) { s != "" && !IsSpace(s[0]) && !IsSpace(s[|s| - 1]) }

  lemma LiteralIsTrimmed(v: Value)
    requires Literal(v).Some?
    ensures IsTrimmed(Literal(v).value)
  {
    match v
    case Int(n) => IntTextIsPlain(n);
    case Float(f) => FloatIsPlain(f);
    case _ =>
  }

  // ----- The scanner against TOML -----

  datatype Reading = Bare | Basic | BasicEscape | LiteralString

  function Read(r: Reading, c: char): Reading {
    match r
    case Bare => if c == '"' then Basic else if c == '\'' then LiteralString else Bare
    case Basic => if c == '"' then Bare else if c == '\\' then BasicEscape else Basic
    case BasicEscape => Basic
    case LiteralString => if c == '\'' then Bare else LiteralString
  }

  /** Where the comment of a one-line TOML entry begins. */
  function TrueCommentAt(s: string, r: Reading): nat {
    if s == "" || (r == Bare && s[0] == '#') then 0 else 1 + TrueCommentAt(s[1..], Read(r, s[0]))
  }

  /** Up to its comment, the line has no single-quoted string, and no backslash outside of a string. */
  predicate NoLiteralStrings(s: string, r: Reading) {
    s == "" || (r == Bare && s[0] == '#')
    || (!(r == Bare && (s[0] == '\'' || s[0] == '\\')) && NoLiteralStrings(s[1..], Read(r, s[0])))
  }

  function AsScan(r: Reading): Scan { Scan(r == Basic || r == BasicEscape, r == BasicEscape) }

  /** On lines without single-quoted strings the scanner finds the comment that TOML sees. */
  lemma {:induction false} ScannerAgreesWithToml(s: string, r: Reading)
    requires NoLiteralStrings(s, r) && r != LiteralString
    ensures CommentAt(s, AsScan(r)) == TrueCommentAt(s, r)
  {
    if s != "" && !(r == Bare && s[0] == '#') {
      assert Step(AsScan(r), s[0]) == AsScan(Read(r, s[0]));
      ScannerAgreesWithToml(s[1..], Read(r, s[0]));
    }
  }

  lemma {:induction false} TrueBehind(s: string, rest: string)
    requires IsPlain(s) && forall i :: 0 <= i < |s| ==> s[i] != '\''
    ensures TrueCommentAt(s + rest, Bare) == |s| + TrueCommentAt(rest, Bare)
  {
    if s == "" {
      assert s + rest == rest;
    } else {
      assert (s + rest)[1..] == s[1..] + rest;
      TrueBehind(s[1..], rest);
    }
  }

  // ----- Single-quoted values -----

  /** `key = '<body>'<comment>`. */
  function SingleQuoted(key: string, body: string, comment: string): string {
    key + " = '" + body + "'" + comment
  }

  /** To the scanner, which does not know single quotes, the body has no bare `#` and, if a comment
      follows, leaves no string open. */
  predicate BodySettles(body: string, comment: string) {
    After(body, OUTSIDE).Some? && (comment == "" || !After(body, OUTSIDE).value.inString)
  }

  lemma {:induction false} StopsInside(a: string, b: string, st: Scan)
    requires After(a, st).None?
    ensures CommentAt(a + b, st) < |a|
  {
    assert (a + b)[0] == a[0] && (a + b)[1..] == a[1..] + b;
    if !Stops(st, a[0]) {
      StopsInside(a[1..], b, Step(st, a[0]));
    }
  }

  lemma {:induction false} TrueCommentIsHash(s: string, r: Reading)
    ensures TrueCommentAt(s, r) <= |s|
    ensures TrueCommentAt(s, r) < |s| ==> s[TrueCommentAt(s, r)] == '#'
  {
    if s != "" && !(r == Bare && s[0] == '#') {
      TrueCommentIsHash(s[1..], Read(r, s[0]));
    }
  }

  /** On any line the scanner finds the comment that TOML sees exactly if nothing before it stops the scan and,
      when there is a comment, no string is taken to be open there. */
  lemma ScannerAgreesIff(s: string)
    ensures var p := TrueCommentAt(s, Bare);
      p <= |s| &&
      (CommentAt(s, OUTSIDE) == p <==>
         After(s[..p], OUTSIDE).Some? && (p == |s| || !After(s[..p], OUTSIDE).value.inString))
  {
    hide After, TrueCommentAt;
    var p := TrueCommentAt(s, Bare);
    TrueCommentIsHash(s, Bare);
    assert s == s[..p] + s[p..];
    if After(s[..p], OUTSIDE).None? {
      StopsInside(s[..p], s[p..], OUTSIDE);
    } else {
      CommentBehind(s[..p], s[p..], OUTSIDE);
    }
  }

  lemma {:induction false} LiteralBehind(body: string, rest: string)
    requires '\'' !in body
    ensures TrueCommentAt(body + "'" + rest, LiteralString) == |body| + 1 + TrueCommentAt(rest, Bare)
  {
    var s := body + "'" + rest;
    if body == "" {
      assert s[0] == '\'' && s[1..] == rest;
    } else {
      assert s[0] == body[0] && s[1..] == body[1..] + "'" + rest;
      LiteralBehind(body[1..], rest);
    }
  }

  /** In the comment itself: it is found at its hash, but not when a string is taken to be open. */
  lemma CommentInQuotes(c: string, st: Scan)
    requires IsComment(c)
    ensures TrueCommentAt(c, Bare) == if c == "" then 0 else 2
    ensures CommentAt("'" + c, st) == 1 + TrueCommentAt(c, Bare) <==> c == "" || !st.inString
    ensures CommentAt("'" + c, st) >= 1 + TrueCommentAt(c, Bare)
  {
    var s := "'" + c;
    assert s[1..] == c && Step(st, '\'') == Scan(st.inString, false);
    if c != "" {
      assert c[0] == ' ' && c[1..][0] == ' ' && c[1..][1..] == c[2..] && c[2..][0] == '#';
      assert TrueCommentAt(c, Bare) == 1 + TrueCommentAt(c[1..], Bare) == 2 + TrueCommentAt(c[2..], Bare);
      var inside := Scan(st.inString, false);
      assert CommentAt(c, inside) == 1 + CommentAt(c[1..], inside) == 2 + CommentAt(c[2..], inside);
    }
  }

  lemma TrueCommentBehindQuotes(key: string, body: string, c: string)
    requires IsIdentifier(key) && '\'' !in body
    ensures TrueCommentAt(SingleQuoted(key, body, c), Bare) == |key| + 4 + |body| + 1 + TrueCommentAt(c, Bare)
  {
    var before, rest := key + " = ", body + "'" + c;
    KeyCharsArePlain(key);
    TrueBehind(before, "'" + rest);
    assert SingleQuoted(key, body, c) == before + ("'" + rest);
    assert ("'" + rest)[1..] == rest;
    LiteralBehind(body, c);
  }

  /** Behind a single-quoted value, the scanner finds the comment that TOML sees exactly if the body
      settles; otherwise an edit of the line takes a part of the value for a comment, or loses the
      comment. */
  lemma SingleQuotedIff(key: string, body: string, c: string)
    requires IsIdentifier(key) && '\'' !in body && IsComment(c)
    ensures var line := SingleQuoted(key, body, c);
      && (CommentAt(line, OUTSIDE) == TrueCommentAt(line, Bare) <==> BodySettles(body, c))
      && (BodySettles(body, c) ==> TrailingComment(line) == c)
      && (After(body, OUTSIDE).None? ==> CommentAt(line, OUTSIDE) < |key| + 4 + |body|)
      && (After(body, OUTSIDE).Some? ==> CommentAt(line, OUTSIDE) >= TrueCommentAt(line, Bare))
  {
    hide After, CommentAt, TrueCommentAt, TrailingComment, IsComment, SingleQuoted;
    TrueCommentBehindQuotes(key, body, c);
    CommentInQuotesIs(key, body, c);
    if After(body, OUTSIDE).Some? {
      CommentInQuotes(c, After(body, OUTSIDE).value);
    }
    if BodySettles(body, c) {
      CommentIsTail(key, body, c);
    }
  }

  /** Where the scan of the whole line ends, from that of its parts. */
  lemma CommentInQuotesIs(key: string, body: string, c: string)
    requires IsIdentifier(key)
    ensures var at := CommentAt(SingleQuoted(key, body, c), OUTSIDE) - (|key| + 4);
      match After(body, OUTSIDE)
      case None => at < |body|
      case Some(st) => at == |body| + CommentAt("'" + c, st)
  {
    hide After, CommentAt;
    var before, behind := key + " = '", "'" + c;
    KeyCharsArePlain(key);
    AfterPlain(before, false);
    assert SingleQuoted(key, body, c) == before + (body + behind);
    CommentBehind(before, body + behind, OUTSIDE);
    if After(body, OUTSIDE).None? {
      StopsInside(body, behind, OUTSIDE);
    } else {
      CommentBehind(body, behind, OUTSIDE);
    }
  }

  lemma CommentIsTail(key: string, body: string, c: string)
    requires IsComment(c)
    requires CommentAt(SingleQuoted(key, body, c), OUTSIDE) == |key| + 5 + |body| + TrueCommentAt(c, Bare)
    ensures TrailingComment(SingleQuoted(key, body, c)) == c
  {
    hide CommentAt, TrailingComment, TrueCommentAt, IsComment;
    CommentInQuotes(c, OUTSIDE);
    var line := SingleQuoted(key, body, c);
    assert line[|key| + 5 + |body|..] == c;
    CommentThere(line, |key| + 5 + |body|, c);
  }

  /** A hash is enough to fool it: it is taken for the beginning of a comment where TOML sees none. */
  lemma SingleQuotesFoolScanner(key: string)
    requires IsIdentifier(key)
    ensures !BodySettles("#", "")
    ensures var line := SingleQuoted(key, "#", "");
      TrueCommentAt(line, Bare) == |line| && CommentAt(line, OUTSIDE) < |line|
  {
    hide After, CommentAt, TrueCommentAt, IsIdentifier, IsComment;
    HashStops();
    SingleQuotedIff(key, "#", "");
    TrueCommentBehindQuotes(key, "#", "");
  }

  lemma HashStops()
    ensures After("#", OUTSIDE).None? && TrueCommentAt("", Bare) == 0 && IsComment("")
  {
  }
}
