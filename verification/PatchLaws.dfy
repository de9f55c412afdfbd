/** What a patch of the configuration does, in terms of the request: which parts are refused, and which value
    each key has in the new text. */
module PatchLaws {
  import opened Options
  import opened Characters
  import opened TomlLiteral
  import opened TomlPrinter
  import opened TomlReader
  import opened TomlText
  import opened TomlEditor
  import opened TomlLaws
  import opened LineForms
  import opened ConfigEdits
  import opened CodexConfig

  // ----- One edit sets one value -----

  /** The key is gone if the value is null. Otherwise it is there, and a reader finds the value without its
      null entries, or refuses it if it cannot be read. */
  ghost predicate IsSet(lines: Lines, table: Option<string>, key: string, v: Value) {
    if v.Null? then !HasKey(lines, table, key)
    else
      && HasKey(lines, table, key)
      && forall text :: Reads(lines, table, key, text) ==>
           ValueOf(text) == if CanBeRead(v) then Some(WithoutNulls(v)) else None
  }

  lemma IsSetIf(lines: Lines, table: Option<string>, key: string, v: Value)
    requires LiteralOf(AsOption(v)).Some?
    requires forall text :: Reads(lines, table, key, text) <==> LiteralOf(AsOption(v)).value == Some(text)
    ensures IsSet(lines, table, key, v)
  {
    hide Literal, Reads, HasKey, CanBeRead, ValueOf;
    HasKeyIffReads(lines, table, key);
    if !v.Null? {
      assert Reads(lines, table, key, Literal(v).value);
      ValueReadsBackIff(v);
    }
  }

  /** The law of the editor's two methods in terms of values: behind a set, the key has the value; behind a
      removal it is gone; and everything else reads as before. */
  lemma SetsValue(text: string, path: seq<string>, key: string, v: Value)
    requires WellFormed(SplitLines(text)) && IsIdentifier(key)
    requires forall i :: 0 <= i < |path| ==> IsIdentifier(path[i])
    requires LiteralOf(AsOption(v)).Some? && KeysOneLine(v)
    ensures var table := if path == [] then None else Some(Dotted(path));
      var literal := LiteralOf(AsOption(v)).value;
      var before, after := SplitLines(text),
                           SplitLines(if path == [] then TopKeySet(text, key, literal)
                                      else TableKeySet(text, path, key, literal));
      && WellFormed(after) && IsSet(after, table, key, v)
      && forall t, k, x :: t != table || k != key ==> (Reads(after, t, k, x) <==> Reads(before, t, k, x))
  {
    hide WellFormed, SplitLines, TopKeySet, TableKeySet, IsIdentifier, Literal, KeysOneLine, Reads, Dotted, Comments,
      Headers, EditedLines, HasKey, Written, OneLineGone, GoodLiteral, IsSet;
    var e := Edit(path, key, LiteralOf(AsOption(v)).value);
    if !v.Null? {
      PrintedIsGood(v);
    }
    EditLaw(text, e);
    IsSetIf(SplitLines(Edited(text, e)), TableOf(e), key, v);
  }

  // ----- What is refused -----

  predicate CanBePrinted(v: Value) { v.Null? || Prints(v) }

  lemma PrintedIff(v: Value)
    ensures LiteralOf(AsOption(v)).Some? <==> CanBePrinted(v)
  {
    hide Literal, Prints;
    PrintsIff(v);
  }

  predicate UpdateIsFine(e: Setting) { Strip(e.key) in SAFE_FIELDS && CanBePrinted(e.value) }

  predicate McpIsFine(e: Setting) { e.key in MCP_KEYS && CanBePrinted(e.value) }

  /** One edit for each update, with its key and value; none if one of them is refused. */
  lemma {:induction false} UpdatesMean(updates: seq<Setting>)
    ensures UpdateEdits(updates).Some? <==> forall i :: 0 <= i < |updates| ==> UpdateIsFine(updates[i])
    ensures UpdateEdits(updates).Some? ==>
      var edits := UpdateEdits(updates).value;
      && |edits| == |updates|
      && forall i :: 0 <= i < |edits| ==>
           EditOf([], Strip(updates[i].key), AsOption(updates[i].value)) == Some(edits[i])
  {
    hide Strip, LiteralOf, CanBePrinted;
    if updates != [] {
      var rest := updates[1..];
      PrintedIff(updates[0].value);
      UpdatesMean(rest);
      assert forall i :: 0 < i < |updates| ==> updates[i] == rest[i - 1];
      assert forall i :: 0 <= i < |rest| ==> rest[i] == updates[i + 1];
    }
  }

  lemma {:induction false} RemovalsMean(keys: seq<string>)
    ensures RemoveEdits(keys).Some? <==> forall i :: 0 <= i < |keys| ==> Strip(keys[i]) in SAFE_FIELDS
    ensures RemoveEdits(keys).Some? ==>
      var edits := RemoveEdits(keys).value;
      |edits| == |keys| && forall i :: 0 <= i < |edits| ==> edits[i] == Edit([], Strip(keys[i]), None)
  {
    hide Strip;
    if keys != [] {
      var rest := keys[1..];
      RemovalsMean(rest);
      assert forall i :: 0 < i < |keys| ==> keys[i] == rest[i - 1];
      assert forall i :: 0 <= i < |rest| ==> rest[i] == keys[i + 1];
    }
  }

  lemma {:induction false} McpMeans(mcp: seq<Setting>)
    ensures McpEdits(mcp).Some? <==> forall i :: 0 <= i < |mcp| ==> McpIsFine(mcp[i])
    ensures McpEdits(mcp).Some? ==>
      var edits := McpEdits(mcp).value;
      && |edits| == |mcp|
      && forall i :: 0 <= i < |edits| ==>
           EditOf(["mcp_servers", "agent-pbx"], mcp[i].key, AsOption(mcp[i].value)) == Some(edits[i])
  {
    hide LiteralOf, CanBePrinted;
    if mcp != [] {
      var rest := mcp[1..];
      PrintedIff(mcp[0].value);
      McpMeans(rest);
      assert forall i :: 0 < i < |mcp| ==> mcp[i] == rest[i - 1];
      assert forall i :: 0 <= i < |rest| ==> rest[i] == mcp[i + 1];
    }
  }

  predicate PresetsAreFine(preset: Option<string>, theme: Option<string>) {
    && (preset == None || preset == Some("portable") || preset == Some("reset"))
    && (theme == None || Strip(theme.value) == "" || IsKebab(Strip(theme.value)))
  }

  lemma PresetsMean(preset: Option<string>, theme: Option<string>)
    ensures KeymapEdits(preset).Some? && ThemeEdits(theme).Some? <==> PresetsAreFine(preset, theme)
  {
    hide Strip, IsKebab;
    TextsPrint(["enter"]);
    TextsPrint(["ctrl-j", "shift-enter", "alt-enter", "ctrl-enter"]);
  }

  lemma TextsPrint(texts: seq<string>)
    ensures Literal(Texts(texts)).Some?
  {
    PrintsIff(Texts(texts));
  }

  predicate IsThemeWord(w: string) { w != "" && forall i :: 0 <= i < |w| ==> 'a' <= w[i] <= 'z' || '0' <= w[i] <= '9' }

  predicate AreThemeWords(words: seq<string>) {
    words != [] && forall i :: 0 <= i < |words| ==> IsThemeWord(words[i])
  }

  function Hyphenated(words: seq<string>): string
    requires words != []
  {
    if |words| == 1 then words[0] else words[0] + "-" + Hyphenated(words[1..])
  }

  /** The names of themes are the words joined by hyphens: all of these, and no others. */
  lemma {:induction false} WordsAreKebab(words: seq<string>)
    requires AreThemeWords(words)
    ensures IsKebab(Hyphenated(words))
  {
    var w, s := words[0], Hyphenated(words);
    assert IsThemeWord(w);
    if |words| > 1 {
      var rest := Hyphenated(words[1..]);
      WordsAreKebab(words[1..]);
      assert forall i :: 0 <= i < |rest| ==> s[|w| + 1 + i] == rest[i];
      assert forall i :: |w| < i < |s| ==> s[i] == rest[i - |w| - 1];
    }
  }

  lemma {:induction false} KebabIsWords(s: string) returns (words: seq<string>)
    requires IsKebab(s)
    ensures AreThemeWords(words) && s == Hyphenated(words)
  {
    var n := IndexOf(s, '-');
    if n == |s| {
      words := [s];
    } else {
      var rest := KebabIsWords(s[n + 1..]);
      words := [s[..n]] + rest;
      assert words[1..] == rest;
      assert s == s[..n] + "-" + s[n + 1..];
    }
  }

  /** A secret that is set has a value, and its path the required form. */
  predicate SecretIsFine(s: Secret) {
    (s.remove || (s.value.Some? && s.value.value != [])) && s.target.Some? && s.target.value.name != []
  }

  /** The request up to its secrets. */
  predicate FixedIsFine(r: Request) {
    && (forall i :: 0 <= i < |r.updates| ==> UpdateIsFine(r.updates[i]))
    && (forall i :: 0 <= i < |r.remove| ==> Strip(r.remove[i]) in SAFE_FIELDS)
    && (forall i :: 0 <= i < |r.mcp| ==> McpIsFine(r.mcp[i]))
    && PresetsAreFine(r.keymap, r.theme)
  }

  lemma FixedIff(r: Request)
    ensures FixedEdits(r).Some? <==> FixedIsFine(r)
  {
    hide UpdateEdits, RemoveEdits, McpEdits, KeymapEdits, ThemeEdits, UpdateIsFine, McpIsFine, PresetsAreFine, Strip;
    UpdatesMean(r.updates);
    RemovalsMean(r.remove);
    McpMeans(r.mcp);
    PresetsMean(r.keymap, r.theme);
  }

  /** The tables that the parser finds can be printed, as tables of strings can. */
  ghost predicate TablesPrint(parser: Parser) {
    forall text, path, table :: Prints(Map(parser.stringMap(text, path, table)))
  }

  lemma {:induction false} SecretTablePrints(entries: seq<Entry>, key: Unicode, value: Unicode)
    requires Prints(Map(entries))
    ensures Prints(Map(WithKey(entries, key, Str(value)))) && Prints(Map(WithoutKey(entries, key)))
  {
    hide Prints;
    OneMorePrints(Entry(key, Str(value)), []);
    assert [Entry(key, Str(value))] + [] == [Entry(key, Str(value))];
    if entries != [] {
      var e, rest := entries[0], entries[1..];
      assert entries == [e] + rest;
      OneMorePrints(e, rest);
      SecretTablePrints(rest, key, value);
      OneMorePrints(Entry(key, Str(value)), rest);
      OneMorePrints(e, WithKey(rest, key, Str(value)));
      OneMorePrints(e, WithoutKey(rest, key));
      assert [] + WithoutKey(rest, key) == WithoutKey(rest, key);
    }
  }

  lemma OneMorePrints(e: Entry, rest: seq<Entry>)
    ensures Prints(Map([e] + rest)) <==> (e.value.Null? || Prints(e.value)) && Prints(Map(rest))
    ensures e.value.Str? ==> Prints(e.value)
    ensures Prints(Map([]))
  {
    var entries := [e] + rest;
    assert entries[0] == e;
    assert forall i :: 0 < i < |entries| ==> entries[i] == rest[i - 1];
    assert forall i :: 0 <= i < |rest| ==> rest[i] == entries[i + 1];
  }

  lemma SecretIff(text: string, s: Secret, parser: Parser)
    requires TablesPrint(parser) && parser.valid(text)
    ensures SecretEdit(text, s, parser).Some? <==> SecretIsFine(s)
  {
    hide Literal, Prints, WithKey, WithoutKey;
    if SecretIsFine(s) {
      var target := s.target.value;
      var current := parser.stringMap(text, ["mcp_servers", target.server], target.table);
      var value := if s.remove then [] else s.value.value;
      SecretTablePrints(current, target.name, value);
      PrintsIff(Map(WithoutKey(current, target.name)));
      PrintsIff(Map(WithKey(current, target.name, Str(value))));
    }
  }

  lemma {:induction false} SecretsIff(text: string, secrets: seq<Secret>, parser: Parser)
    requires TablesPrint(parser) && forall t :: parser.valid(t)
    ensures SecretEdits(text, secrets, parser).Some? <==> forall i :: 0 <= i < |secrets| ==> SecretIsFine(secrets[i])
    decreases |secrets|
  {
    hide SecretEdit, SecretIsFine, Edited, TablesPrint;
    if secrets != [] {
      var rest := secrets[1..];
      assert forall i :: 0 < i < |secrets| ==> secrets[i] == rest[i - 1];
      assert forall i :: 0 <= i < |rest| ==> rest[i] == secrets[i + 1];
      SecretIff(text, secrets[0], parser);
      var e := SecretEdit(text, secrets[0], parser);
      if e.Some? {
        SecretsIff(Edited(text, e.value), rest, parser);
      }
    }
  }

  /** Exactly what is refused when every text on the way can be parsed: a request that the requirements forbid,
      an unknown key, a value that cannot be printed, an unknown keymap preset, a theme that is no kebab-case
      name, and a secret without a value or with a path of another form. */
  lemma AcceptedIff(text: string, r: Request, allowed: bool, parser: Parser)
    requires TablesPrint(parser) && forall t :: parser.valid(t)
    ensures Planned(text, r, allowed, parser).Some? <==>
      allowed && FixedIsFine(r) && forall i :: 0 <= i < |r.secrets| ==> SecretIsFine(r.secrets[i])
  {
    hide FixedEdits, FixedIsFine, SecretEdits, SecretIsFine, AllEdited, Strip, TablesPrint;
    FixedIff(r);
    if FixedEdits(r).Some? {
      SecretsIff(AllEdited(text, FixedEdits(r).value), r.secrets, parser);
    }
  }

  /** A text that cannot be parsed is refused, unless it is blank. */
  lemma InvalidIsRefused(text: string, r: Request, allowed: bool, parser: Parser)
    requires !parser.valid(text) && !IsBlank(text)
    ensures Planned(text, r, allowed, parser).None?
  {
    hide FixedEdits, SecretEdits, AllEdited;
    if Strip(text) == "" {
      StripIsBlank(text);
    }
  }

  // ----- The last edit of a key -----

  lemma {:induction false} LastOfBoth(a: seq<Edit>, b: seq<Edit>, table: Option<string>, key: string)
    ensures LastEdit(a + b, table, key) ==
      if LastEdit(b, table, key).Some? then LastEdit(b, table, key) else LastEdit(a, table, key)
    decreases |a|
  {
    hide Touches;
    if a == [] {
      assert a + b == b;
    } else {
      assert (a + b)[1..] == a[1..] + b && (a + b)[0] == a[0];
      LastOfBoth(a[1..], b, table, key);
    }
  }

  lemma {:induction false} LastIs(edits: seq<Edit>, i: nat, table: Option<string>, key: string)
    requires i < |edits| && Touches(edits[i], table, key)
    requires forall j :: i < j < |edits| ==> !Touches(edits[j], table, key)
    ensures LastEdit(edits, table, key) == Some(edits[i].literal)
    decreases |edits|
  {
    hide Touches;
    assert forall j :: 0 <= j < |edits[1..]| ==> edits[1..][j] == edits[j + 1];
    if i == 0 {
      NotTouched(edits[1..], table, key);
    } else {
      LastIs(edits[1..], i - 1, table, key);
    }
  }

  lemma {:induction false} NotTouched(edits: seq<Edit>, table: Option<string>, key: string)
    requires forall i :: 0 <= i < |edits| ==> !Touches(edits[i], table, key)
    ensures LastEdit(edits, table, key) == None
    decreases |edits|
  {
    hide Touches;
    if edits != [] {
      assert forall j :: 0 <= j < |edits[1..]| ==> edits[1..][j] == edits[j + 1];
      NotTouched(edits[1..], table, key);
    }
  }

  // ----- Tables of secrets -----

  /** The table with one secret set or removed: that name has the new value or is gone, and every other name
      has what it had. */
  ghost predicate IsTableWith(current: seq<Entry>, entries: seq<Entry>, s: Secret)
    requires SecretIsFine(s)
  {
    && (forall k, v :: k != s.target.value.name ==> (Entry(k, v) in entries <==> Entry(k, v) in current))
    && (forall v :: Entry(s.target.value.name, v) in entries <==> !s.remove && v == Str(s.value.value))
    && KeysAreDistinct(entries)
  }

  lemma OneMoreIsDistinct(e: Entry, rest: seq<Entry>)
    ensures KeysAreDistinct([e] + rest) <==> KeysAreDistinct(rest) && forall v :: Entry(e.key, v) !in rest
  {
    var entries := [e] + rest;
    assert entries[0] == e;
    assert forall i :: 0 < i < |entries| ==> entries[i] == rest[i - 1];
    assert forall i :: 0 <= i < |rest| ==> rest[i] == entries[i + 1];
    if v :| Entry(e.key, v) in rest {
      var i :| 0 <= i < |rest| && rest[i] == Entry(e.key, v);
      assert entries[i + 1].key == entries[0].key;
    }
    if forall v :: Entry(e.key, v) !in rest {
      forall i | 0 <= i < |rest| ensures rest[i].key != e.key {
        assert rest[i] == Entry(rest[i].key, rest[i].value);
      }
    }
  }

  lemma {:induction false} WithKeyIs(entries: seq<Entry>, key: Unicode, value: Value)
    requires KeysAreDistinct(entries)
    ensures forall k, v :: k != key ==> (Entry(k, v) in WithKey(entries, key, value) <==> Entry(k, v) in entries)
    ensures forall v :: Entry(key, v) in WithKey(entries, key, value) <==> v == value
    ensures KeysAreDistinct(WithKey(entries, key, value))
  {
    hide KeysAreDistinct;
    OneMoreIsDistinct(Entry(key, value), []);
    assert [Entry(key, value)] + [] == [Entry(key, value)];
    if entries != [] {
      var e, rest := entries[0], entries[1..];
      assert entries == [e] + rest;
      OneMoreIsDistinct(e, rest);
      WithKeyIs(rest, key, value);
      OneMoreIsDistinct(Entry(key, value), rest);
      OneMoreIsDistinct(e, WithKey(rest, key, value));
    } else {
      NoneIsDistinct();
    }
  }

  lemma NoneIsDistinct()
    ensures KeysAreDistinct([])
  {
  }

  lemma {:induction false} WithoutKeyIs(entries: seq<Entry>, key: Unicode)
    ensures forall k, v :: Entry(k, v) in WithoutKey(entries, key) <==> k != key && Entry(k, v) in entries
    ensures KeysAreDistinct(entries) ==> KeysAreDistinct(WithoutKey(entries, key))
  {
    hide KeysAreDistinct;
    if entries != [] {
      var e, rest := entries[0], entries[1..];
      assert entries == [e] + rest;
      WithoutKeyIs(rest, key);
      OneMoreIsDistinct(e, rest);
      OneMoreIsDistinct(e, WithoutKey(rest, key));
      assert [] + WithoutKey(rest, key) == WithoutKey(rest, key);
    } else {
      NoneIsDistinct();
    }
  }

  /** The edit of a secret sets its whole table again. */
  lemma SecretMeans(text: string, s: Secret, parser: Parser) returns (entries: seq<Entry>)
    requires SecretEdit(text, s, parser).Some?
    requires s.target.Some? ==>
      KeysAreDistinct(parser.stringMap(text, ["mcp_servers", s.target.value.server], s.target.value.table))
    ensures SecretIsFine(s)
    ensures var target := s.target.value; var path := ["mcp_servers", target.server];
      && IsTableWith(parser.stringMap(text, path, target.table), entries, s)
      && SecretEdit(text, s, parser) == EditOf(path, target.table, AsOption(Map(entries)))
  {
    hide LiteralOf, KeysAreDistinct, WithKey, WithoutKey;
    var target := s.target.value;
    var current := parser.stringMap(text, ["mcp_servers", target.server], target.table);
    if s.remove {
      WithoutKeyIs(current, target.name);
      entries := WithoutKey(current, target.name);
    } else {
      WithKeyIs(current, target.name, Str(s.value.value));
      entries := WithKey(current, target.name, Str(s.value.value));
    }
  }

  /** Each secret is one edit of the text that the edits before it have left. */
  lemma {:induction false} SecretsMean(text: string, secrets: seq<Secret>, parser: Parser, i: nat)
    requires SecretEdits(text, secrets, parser).Some? && i < |secrets|
    ensures var edits := SecretEdits(text, secrets, parser).value;
      |edits| == |secrets| && SecretEdit(AllEdited(text, edits[..i]), secrets[i], parser) == Some(edits[i])
    decreases |secrets|
  {
    hide SecretEdit, Edited;
    var edits := SecretEdits(text, secrets, parser).value;
    var e, rest := edits[0], secrets[1..];
    AsManySecrets(Edited(text, e), rest, parser);
    if i > 0 {
      SecretsMean(Edited(text, e), rest, parser, i - 1);
      assert edits[..i][1..] == edits[1..][..i - 1] && rest[i - 1] == secrets[i];
    }
  }

  lemma {:induction false} AsManySecrets(text: string, secrets: seq<Secret>, parser: Parser)
    requires SecretEdits(text, secrets, parser).Some?
    ensures |SecretEdits(text, secrets, parser).value| == |secrets|
    decreases |secrets|
  {
    hide SecretEdit, Edited;
    if secrets != [] {
      AsManySecrets(Edited(text, SecretEdit(text, secrets[0], parser).value), secrets[1..], parser);
    }
  }

  // ----- The parts of a patch -----

  datatype Parts = Parts(
    updates: seq<Edit>, removals: seq<Edit>, mcp: seq<Edit>, keymap: seq<Edit>, theme: seq<Edit>, secrets: seq<Edit>)
  {
    function Fixed(): seq<Edit> { updates + (removals + (mcp + (keymap + theme))) }
    function All(): seq<Edit> { Fixed() + secrets }
  }

  predicate ArePartsOf(p: Parts, text: string, r: Request, parser: Parser) {
    && UpdateEdits(r.updates) == Some(p.updates) && RemoveEdits(r.remove) == Some(p.removals)
    && McpEdits(r.mcp) == Some(p.mcp) && KeymapEdits(r.keymap) == Some(p.keymap)
    && ThemeEdits(r.theme) == Some(p.theme)
    && SecretEdits(AllEdited(text, p.Fixed()), r.secrets, parser) == Some(p.secrets)
  }

  lemma PlannedParts(text: string, r: Request, allowed: bool, parser: Parser) returns (p: Parts)
    requires Planned(text, r, allowed, parser).Some?
    ensures ArePartsOf(p, text, r, parser) && Planned(text, r, allowed, parser) == Some(p.All())
  {
    hide UpdateEdits, RemoveEdits, McpEdits, KeymapEdits, ThemeEdits, SecretEdits, AllEdited, Strip;
    p := Parts(UpdateEdits(r.updates).value, RemoveEdits(r.remove).value, McpEdits(r.mcp).value,
               KeymapEdits(r.keymap).value, ThemeEdits(r.theme).value, []);
    p := p.(secrets := SecretEdits(AllEdited(text, p.Fixed()), r.secrets, parser).value);
  }

  /** The edits of a part are about one table; `keys` are all the keys they may touch. */
  predicate AreAbout(edits: seq<Edit>, table: Option<string>, keys: seq<string>) {
    forall i :: 0 <= i < |edits| ==> TableOf(edits[i]) == table && edits[i].key in keys
  }

  lemma NoneAbout(edits: seq<Edit>, about: Option<string>, keys: seq<string>, table: Option<string>, key: string)
    requires AreAbout(edits, about, keys) && (table != about || key !in keys)
    ensures LastEdit(edits, table, key) == None
  {
    hide TableOf;
    NotTouched(edits, table, key);
  }

  lemma TwoWords(a: string, b: string)
    requires IsIdentifier(a) && IsIdentifier(b)
    ensures Dotted([a, b]) == a + "." + b
  {
    hide TomlKey, IsIdentifier;
    IdentifierIsBare(a);
    IdentifierIsBare(b);
    assert [a, b][1..] == [b];
  }

  lemma ThreeWords(a: string, b: string, c: string)
    requires IsIdentifier(a) && IsIdentifier(b) && IsIdentifier(c)
    ensures Dotted([a, b, c]) == a + "." + b + "." + c
  {
    hide TomlKey, IsIdentifier;
    IdentifierIsBare(a);
    TwoWords(b, c);
    assert [a, b, c][1..] == [b, c];
    assert a + "." + (b + "." + c) == a + "." + b + "." + c;
  }

  lemma McpName()
    ensures Dotted(["mcp_servers", "agent-pbx"]) == "mcp_servers.agent-pbx"
  {
    hide IsIdentifier, TomlKey, Dotted;
    TableWords();
    TwoWords("mcp_servers", "agent-pbx");
  }

  lemma TuiNames()
    ensures Dotted(["tui"]) == "tui" && Dotted(["tui", "keymap", "composer"]) == "tui.keymap.composer"
    ensures Dotted(["tui", "keymap", "editor"]) == "tui.keymap.editor"
  {
    hide IsIdentifier, TomlKey;
    TableWords();
    IdentifierIsBare("tui");
    ThreeWords("tui", "keymap", "composer");
    ThreeWords("tui", "keymap", "editor");
  }

  lemma TopParts(p: Parts, text: string, r: Request, parser: Parser)
    requires ArePartsOf(p, text, r, parser)
    ensures AreAbout(p.updates, None, SAFE_FIELDS) && AreAbout(p.removals, None, SAFE_FIELDS)
  {
    hide AllEdited, SecretEdits, UpdateEdits, RemoveEdits, McpEdits, KeymapEdits, ThemeEdits, Strip, LiteralOf;
    UpdatesMean(r.updates);
    RemovalsMean(r.remove);
  }

  lemma McpPart(p: Parts, text: string, r: Request, parser: Parser)
    requires ArePartsOf(p, text, r, parser)
    ensures AreAbout(p.mcp, Some("mcp_servers.agent-pbx"), MCP_KEYS)
  {
    hide AllEdited, SecretEdits, UpdateEdits, RemoveEdits, McpEdits, KeymapEdits, ThemeEdits, LiteralOf, Dotted;
    McpName();
    McpMeans(r.mcp);
  }

  /** The keymap is none or two edits, the theme none or one. */
  lemma PresetParts(p: Parts, text: string, r: Request, parser: Parser)
    requires ArePartsOf(p, text, r, parser)
    ensures if r.keymap.None? then p.keymap == []
      else
        var submit, newline := if r.keymap == Some("portable") then SubmitKeys() else Null,
                               if r.keymap == Some("portable") then NewlineKeys() else Null;
        && |p.keymap| == 2
        && EditOf(["tui", "keymap", "composer"], "submit", AsOption(submit)) == Some(p.keymap[0])
        && EditOf(["tui", "keymap", "editor"], "insert_newline", AsOption(newline)) == Some(p.keymap[1])
    ensures if r.theme.None? then p.theme == []
      else
        var name := Strip(r.theme.value);
        && |p.theme| == 1
        && EditOf(["tui"], "theme", AsOption(if name == "" then Null else Str(CodePoints(name)))) == Some(p.theme[0])
  {
    hide AllEdited, SecretEdits, UpdateEdits, RemoveEdits, McpEdits, Strip, LiteralOf, IsKebab, Texts;
    assert SubmitKeys().List? && NewlineKeys().List? by { TextsAreLists(); }
  }

  lemma TextsAreLists()
    ensures SubmitKeys().List? && NewlineKeys().List?
  {
  }

  /** Each secret is one edit of its server's table. */
  lemma SecretParts(p: Parts, text: string, r: Request, parser: Parser, i: nat)
    requires ArePartsOf(p, text, r, parser) && i < |r.secrets| && GoodSecret(r.secrets[i])
    ensures |p.secrets| == |r.secrets| && r.secrets[i].target.Some?
    ensures var target := r.secrets[i].target.value;
      TableOf(p.secrets[i]) == Some("mcp_servers." + target.server) && p.secrets[i].key == target.table
      && target.table in SECRET_MAPS
  {
    hide AllEdited, SecretEdits, UpdateEdits, RemoveEdits, McpEdits, KeymapEdits, ThemeEdits, LiteralOf, Dotted,
      WithKey, WithoutKey, IsIdentifier;
    SecretsMean(AllEdited(text, p.Fixed()), r.secrets, parser, i);
    TableWords();
    TwoWords("mcp_servers", r.secrets[i].target.value.server);
    assert "mcp_servers" + "." == "mcp_servers.";
  }

  /** The last edit of a key is that of the last part that touches it. */
  lemma LastOfParts(p: Parts, table: Option<string>, key: string)
    ensures LastEdit(p.All(), table, key) ==
      if LastEdit(p.secrets, table, key).Some? then LastEdit(p.secrets, table, key)
      else if LastEdit(p.theme, table, key).Some? then LastEdit(p.theme, table, key)
      else if LastEdit(p.keymap, table, key).Some? then LastEdit(p.keymap, table, key)
      else if LastEdit(p.mcp, table, key).Some? then LastEdit(p.mcp, table, key)
      else if LastEdit(p.removals, table, key).Some? then LastEdit(p.removals, table, key)
      else LastEdit(p.updates, table, key)
  {
    hide LastEdit;
    LastOfBoth(p.Fixed(), p.secrets, table, key);
    LastOfBoth(p.updates, p.removals + (p.mcp + (p.keymap + p.theme)), table, key);
    LastOfBoth(p.removals, p.mcp + (p.keymap + p.theme), table, key);
    LastOfBoth(p.mcp, p.keymap + p.theme, table, key);
    LastOfBoth(p.keymap, p.theme, table, key);
  }

  // ----- What is read behind a patch -----

  /** The lines behind a patch that is not refused. */
  function PatchedLines(text: string, r: Request, allowed: bool, parser: Parser): Lines
    requires Planned(text, r, allowed, parser).Some?
  {
    SplitLines(AllEdited(text, Planned(text, r, allowed, parser).value))
  }

  /** They are those of the file: edits that change a text end it in a newline, or leave nothing. */
  lemma {:induction false} ChangedIsClosed(text: string, edits: seq<Edit>)
    ensures var changed := AllEdited(text, edits); changed == text || Closed(changed) == changed
    decreases |edits|
  {
    hide Edited;
    if edits != [] {
      ChangedIsClosed(Edited(text, edits[0]), edits[1..]);
      EditIsClosed(text, edits[0]);
    }
  }

  lemma EditIsClosed(text: string, e: Edit)
    ensures Edited(text, e) == text || Closed(Edited(text, e)) == Edited(text, e)
  {
    hide SplitLines, JoinLines, TopEdited, TableEdited, Dotted;
    var lines := EditedLines(SplitLines(text), e);
    if Edited(text, e) != text {
      JoinedIsClosed(lines, text);
    }
  }

  lemma JoinedIsClosed(lines: Lines, original: string)
    ensures Closed(JoinLines(lines, original)) == JoinLines(lines, original)
  {
  }

  /** How one key reads behind a patch. */
  lemma ReadsPatched(
    text: string, r: Request, allowed: bool, parser: Parser, p: Parts, table: Option<string>, key: string)
    requires WellFormed(SplitLines(text)) && GoodRequest(r, parser)
    requires Planned(text, r, allowed, parser) == Some(p.All())
    ensures var after, last := PatchedLines(text, r, allowed, parser), LastEdit(p.All(), table, key);
      forall value :: Reads(after, table, key, value) <==>
        if last.None? then Reads(SplitLines(text), table, key, value) else last.value == Some(value)
  {
    hide Planned, GoodRequest, WellFormed, SplitLines, AllEdited, Headers, Comments, AllSet, LastEdit;
    PatchIsOverlay(text, r, allowed, parser);
  }

  /** An update that no later update and no removal concerns: its key has its value. */
  lemma UpdateIsSet(text: string, r: Request, allowed: bool, parser: Parser, i: nat)
    requires WellFormed(SplitLines(text)) && GoodRequest(r, parser) && Planned(text, r, allowed, parser).Some?
    requires i < |r.updates| && forall j :: i < j < |r.updates| ==> Strip(r.updates[j].key) != Strip(r.updates[i].key)
    requires forall j :: 0 <= j < |r.remove| ==> Strip(r.remove[j]) != Strip(r.updates[i].key)
    ensures IsSet(PatchedLines(text, r, allowed, parser), None, Strip(r.updates[i].key), r.updates[i].value)
  {
    hide Planned, PatchedLines, GoodRequest, WellFormed, SplitLines, ArePartsOf, LastEdit, IsSet, Strip, LiteralOf,
      Reads;
    var p := PlannedParts(text, r, allowed, parser);
    var key := Strip(r.updates[i].key);
    OnlyTopParts(p, text, r, parser, key);
    UpdateParts(p, text, r, parser);
    LastIs(p.updates, i, None, key);
    NotTouched(p.removals, None, key);
    ReadsPatched(text, r, allowed, parser, p, None, key);
    IsSetIf(PatchedLines(text, r, allowed, parser), None, key, r.updates[i].value);
  }

  lemma UpdateParts(p: Parts, text: string, r: Request, parser: Parser)
    requires ArePartsOf(p, text, r, parser)
    ensures |p.updates| == |r.updates| && |p.removals| == |r.remove|
    ensures forall i :: 0 <= i < |p.updates| ==>
      EditOf([], Strip(r.updates[i].key), AsOption(r.updates[i].value)) == Some(p.updates[i])
    ensures forall i :: 0 <= i < |p.removals| ==> p.removals[i] == Edit([], Strip(r.remove[i]), None)
  {
    hide AllEdited, SecretEdits, UpdateEdits, RemoveEdits, McpEdits, KeymapEdits, ThemeEdits, Strip, LiteralOf;
    UpdatesMean(r.updates);
    RemovalsMean(r.remove);
  }

  /** The secret is in this table of strings. */
  predicate IsIn(s: Secret, table: Option<string>, key: string) {
    s.target.Some? && table == Some("mcp_servers." + s.target.value.server) && key == s.target.value.table
  }

  predicate IsPreset(table: Option<string>, key: string) {
    || (table == Some("tui.keymap.composer") && key == "submit")
    || (table == Some("tui.keymap.editor") && key == "insert_newline")
  }

  /** Which parts do not concern a key. */
  lemma OtherTables(p: Parts, text: string, r: Request, parser: Parser, table: Option<string>, key: string)
    requires ArePartsOf(p, text, r, parser) && GoodRequest(r, parser)
    ensures table != None || key !in SAFE_FIELDS ==>
      LastEdit(p.updates, table, key) == None && LastEdit(p.removals, table, key) == None
    ensures table != Some("mcp_servers.agent-pbx") || key !in MCP_KEYS ==> LastEdit(p.mcp, table, key) == None
    ensures !IsPreset(table, key) ==> LastEdit(p.keymap, table, key) == None
    ensures table != Some("tui") || key != "theme" ==> LastEdit(p.theme, table, key) == None
    ensures (forall i :: 0 <= i < |r.secrets| ==> !IsIn(r.secrets[i], table, key)) ==>
      LastEdit(p.secrets, table, key) == None
  {
    hide ArePartsOf, LastEdit, Strip, LiteralOf, KeysOneLine, ValuesOneLine, GoodSecret, TableOf, IsIn, IsPreset;
    TopParts(p, text, r, parser);
    McpPart(p, text, r, parser);
    if table != None || key !in SAFE_FIELDS {
      NoneAbout(p.updates, None, SAFE_FIELDS, table, key);
      NoneAbout(p.removals, None, SAFE_FIELDS, table, key);
    }
    if table != Some("mcp_servers.agent-pbx") || key !in MCP_KEYS {
      NoneAbout(p.mcp, Some("mcp_servers.agent-pbx"), MCP_KEYS, table, key);
    }
    PresetsTouch(p, text, r, parser, table, key);
    if forall i :: 0 <= i < |r.secrets| ==> !IsIn(r.secrets[i], table, key) {
      SecretsTouch(p, text, r, parser, table, key);
    }
  }

  lemma PresetsTouch(p: Parts, text: string, r: Request, parser: Parser, table: Option<string>, key: string)
    requires ArePartsOf(p, text, r, parser)
    ensures !IsPreset(table, key) ==> LastEdit(p.keymap, table, key) == None
    ensures table != Some("tui") || key != "theme" ==> LastEdit(p.theme, table, key) == None
  {
    hide ArePartsOf, LastEdit, Strip, LiteralOf, Dotted, Texts;
    PresetParts(p, text, r, parser);
    TuiNames();
    if !IsPreset(table, key) {
      NotTouched(p.keymap, table, key);
    }
    if table != Some("tui") || key != "theme" {
      NotTouched(p.theme, table, key);
    }
  }

  lemma SecretsTouch(p: Parts, text: string, r: Request, parser: Parser, table: Option<string>, key: string)
    requires ArePartsOf(p, text, r, parser) && GoodRequest(r, parser)
    requires forall i :: 0 <= i < |r.secrets| ==> !IsIn(r.secrets[i], table, key)
    ensures LastEdit(p.secrets, table, key) == None
  {
    hide ArePartsOf, LastEdit, KeysOneLine, ValuesOneLine, GoodSecret, TableOf;
    AsManyParts(p, text, r, parser);
    forall i | 0 <= i < |p.secrets| ensures !Touches(p.secrets[i], table, key) {
      SecretParts(p, text, r, parser, i);
    }
    NotTouched(p.secrets, table, key);
  }

  lemma AsManyParts(p: Parts, text: string, r: Request, parser: Parser)
    requires ArePartsOf(p, text, r, parser)
    ensures |p.secrets| == |r.secrets|
  {
    hide AllEdited, SecretEdits, UpdateEdits, RemoveEdits, McpEdits, KeymapEdits, ThemeEdits;
    AsManySecrets(AllEdited(text, p.Fixed()), r.secrets, parser);
  }

  /** At the top level only updates and removals count. */
  lemma OnlyTopParts(p: Parts, text: string, r: Request, parser: Parser, key: string)
    requires ArePartsOf(p, text, r, parser) && GoodRequest(r, parser)
    ensures LastEdit(p.All(), None, key) ==
      if LastEdit(p.removals, None, key).Some? then LastEdit(p.removals, None, key) else LastEdit(p.updates, None, key)
  {
    hide ArePartsOf, LastEdit, Strip, LiteralOf, KeysOneLine, ValuesOneLine, GoodSecret, TableOf;
    LastOfParts(p, None, key);
    OtherTables(p, text, r, parser, None, key);
    assert forall i :: 0 <= i < |r.secrets| ==> !IsIn(r.secrets[i], None, key);
  }

  /** A removed key is gone. */
  lemma RemovedIsGone(text: string, r: Request, allowed: bool, parser: Parser, j: nat)
    requires WellFormed(SplitLines(text)) && GoodRequest(r, parser) && Planned(text, r, allowed, parser).Some?
    requires j < |r.remove|
    ensures IsSet(PatchedLines(text, r, allowed, parser), None, Strip(r.remove[j]), Null)
  {
    hide Planned, PatchedLines, GoodRequest, WellFormed, SplitLines, ArePartsOf, LastEdit, IsSet, Strip, Reads;
    var p := PlannedParts(text, r, allowed, parser);
    var key := Strip(r.remove[j]);
    OnlyTopParts(p, text, r, parser, key);
    UpdateParts(p, text, r, parser);
    var last := LastTouch(p.removals, j, None, key);
    LastIs(p.removals, last, None, key);
    ReadsPatched(text, r, allowed, parser, p, None, key);
    IsSetIf(PatchedLines(text, r, allowed, parser), None, key, Null);
  }

  lemma {:induction false} LastTouch(edits: seq<Edit>, i: nat, table: Option<string>, key: string) returns (last: nat)
    requires i < |edits| && Touches(edits[i], table, key)
    ensures i <= last < |edits| && Touches(edits[last], table, key)
    ensures forall j :: last < j < |edits| ==> !Touches(edits[j], table, key)
    decreases |edits| - i
  {
    if j :| i < j < |edits| && Touches(edits[j], table, key) {
      last := LastTouch(edits, j, table, key);
    } else {
      last := i;
    }
  }

  /** An MCP setting that no later one concerns: its key has its value. */
  lemma McpIsSet(text: string, r: Request, allowed: bool, parser: Parser, i: nat)
    requires WellFormed(SplitLines(text)) && GoodRequest(r, parser) && Planned(text, r, allowed, parser).Some?
    requires i < |r.mcp| && forall j :: i < j < |r.mcp| ==> r.mcp[j].key != r.mcp[i].key
    ensures IsSet(PatchedLines(text, r, allowed, parser), Some("mcp_servers.agent-pbx"), r.mcp[i].key, r.mcp[i].value)
  {
    hide Planned, PatchedLines, GoodRequest, WellFormed, SplitLines, ArePartsOf, LastEdit, IsSet, LiteralOf, Reads;
    var p := PlannedParts(text, r, allowed, parser);
    var table, key := Some("mcp_servers.agent-pbx"), r.mcp[i].key;
    McpSettings(p, text, r, parser);
    NoSecretIn(r, parser, table, key);
    OtherTables(p, text, r, parser, table, key);
    LastOfParts(p, table, key);
    LastIs(p.mcp, i, table, key);
    ReadsPatched(text, r, allowed, parser, p, table, key);
    IsSetIf(PatchedLines(text, r, allowed, parser), table, key, r.mcp[i].value);
  }

  lemma McpSettings(p: Parts, text: string, r: Request, parser: Parser)
    requires ArePartsOf(p, text, r, parser)
    ensures |p.mcp| == |r.mcp|
    ensures forall i :: 0 <= i < |p.mcp| ==>
      && r.mcp[i].key in MCP_KEYS && TableOf(p.mcp[i]) == Some("mcp_servers.agent-pbx") && p.mcp[i].key == r.mcp[i].key
      && LiteralOf(AsOption(r.mcp[i].value)) == Some(p.mcp[i].literal)
  {
    hide AllEdited, SecretEdits, UpdateEdits, RemoveEdits, McpEdits, KeymapEdits, ThemeEdits, LiteralOf, Dotted,
      CanBePrinted;
    McpName();
    McpMeans(r.mcp);
  }

  /** A secret's key is neither an MCP setting nor one of those of the terminal. */
  lemma NoSecretIn(r: Request, parser: Parser, table: Option<string>, key: string)
    requires GoodRequest(r, parser) && key !in SECRET_MAPS
    ensures forall i :: 0 <= i < |r.secrets| && r.secrets[i].target.Some? ==> !IsIn(r.secrets[i], table, key)
  {
    hide KeysOneLine, ValuesOneLine, IsIdentifier;
  }

  /** The keymap preset sets both keys, or removes both. */
  lemma KeymapIsSet(text: string, r: Request, allowed: bool, parser: Parser)
    requires WellFormed(SplitLines(text)) && GoodRequest(r, parser) && Planned(text, r, allowed, parser).Some?
    requires r.keymap.Some?
    ensures var after := PatchedLines(text, r, allowed, parser);
      var submit, newline := Texts(["enter"]), Texts(["ctrl-j", "shift-enter", "alt-enter", "ctrl-enter"]);
      && r.keymap.value in ["portable", "reset"]
      && IsSet(after, Some("tui.keymap.composer"), "submit", if r.keymap.value == "portable" then submit else Null)
      && IsSet(after, Some("tui.keymap.editor"), "insert_newline",
               if r.keymap.value == "portable" then newline else Null)
  {
    hide Planned, PatchedLines, GoodRequest, WellFormed, SplitLines, ArePartsOf, LastEdit, IsSet, LiteralOf, Reads,
      Texts, Strip;
    var p := PlannedParts(text, r, allowed, parser);
    PresetIsKnown(p, text, r, parser);
    PresetParts(p, text, r, parser);
    TuiNames();
    var portable := r.keymap.value == "portable";
    OnlyKeymap(p, text, r, parser, Some("tui.keymap.composer"), "submit");
    LastIs(p.keymap, 0, Some("tui.keymap.composer"), "submit");
    ReadsPatched(text, r, allowed, parser, p, Some("tui.keymap.composer"), "submit");
    IsSetIf(PatchedLines(text, r, allowed, parser), Some("tui.keymap.composer"), "submit",
            if portable then SubmitKeys() else Null);
    OnlyKeymap(p, text, r, parser, Some("tui.keymap.editor"), "insert_newline");
    LastIs(p.keymap, 1, Some("tui.keymap.editor"), "insert_newline");
    ReadsPatched(text, r, allowed, parser, p, Some("tui.keymap.editor"), "insert_newline");
    IsSetIf(PatchedLines(text, r, allowed, parser), Some("tui.keymap.editor"), "insert_newline",
            if portable then NewlineKeys() else Null);
  }

  lemma PresetIsKnown(p: Parts, text: string, r: Request, parser: Parser)
    requires ArePartsOf(p, text, r, parser)
    ensures PresetsAreFine(r.keymap, r.theme)
  {
    hide AllEdited, SecretEdits, UpdateEdits, RemoveEdits, McpEdits, KeymapEdits, ThemeEdits, PresetsAreFine;
    PresetsMean(r.keymap, r.theme);
  }

  lemma OnlyKeymap(p: Parts, text: string, r: Request, parser: Parser, table: Option<string>, key: string)
    requires ArePartsOf(p, text, r, parser) && GoodRequest(r, parser) && IsPreset(table, key)
    ensures LastEdit(p.All(), table, key) == LastEdit(p.keymap, table, key)
  {
    hide ArePartsOf, LastEdit, GoodRequest;
    LastOfParts(p, table, key);
    assert key !in SECRET_MAPS && table != Some("tui") && table != Some("mcp_servers.agent-pbx");
    NoSecretIn(r, parser, table, key);
    OtherTables(p, text, r, parser, table, key);
  }

  /** A theme sets its stripped name, or removes the key if that is empty. */
  lemma ThemeIsSet(text: string, r: Request, allowed: bool, parser: Parser)
    requires WellFormed(SplitLines(text)) && GoodRequest(r, parser) && Planned(text, r, allowed, parser).Some?
    requires r.theme.Some?
    ensures var after, name := PatchedLines(text, r, allowed, parser), Strip(r.theme.value);
      IsSet(after, Some("tui"), "theme", if name == "" then Null else Str(CodePoints(name)))
  {
    hide Planned, PatchedLines, GoodRequest, WellFormed, SplitLines, ArePartsOf, LastEdit, IsSet, LiteralOf, Reads,
      Strip, Texts;
    var p := PlannedParts(text, r, allowed, parser);
    PresetParts(p, text, r, parser);
    TuiNames();
    OnlyTheme(p, text, r, parser);
    LastIs(p.theme, 0, Some("tui"), "theme");
    ReadsPatched(text, r, allowed, parser, p, Some("tui"), "theme");
    var name := Strip(r.theme.value);
    IsSetIf(PatchedLines(text, r, allowed, parser), Some("tui"), "theme",
            if name == "" then Null else Str(CodePoints(name)));
  }

  lemma OnlyTheme(p: Parts, text: string, r: Request, parser: Parser)
    requires ArePartsOf(p, text, r, parser) && GoodRequest(r, parser)
    ensures LastEdit(p.All(), Some("tui"), "theme") == LastEdit(p.theme, Some("tui"), "theme")
  {
    hide ArePartsOf, LastEdit, GoodRequest;
    LastOfParts(p, Some("tui"), "theme");
    assert "theme" !in SECRET_MAPS && !IsPreset(Some("tui"), "theme");
    assert Some("tui") != Some("mcp_servers.agent-pbx") by { assert "tui"[0] != "mcp_servers.agent-pbx"[0]; }
    NoSecretIn(r, parser, Some("tui"), "theme");
    OtherTables(p, text, r, parser, Some("tui"), "theme");
  }

  /** The tables that a parser finds have no name twice. */
  ghost predicate TablesAreDistinct(parser: Parser) {
    forall text, path, table :: KeysAreDistinct(parser.stringMap(text, path, table))
  }

  /** The last secret of a table of strings: the table is that of the text before this secret, found by the
      parser, with the one name set or removed. */
  lemma SecretIsSet(text: string, r: Request, allowed: bool, parser: Parser, i: nat)
    returns (at: string, entries: seq<Entry>)
    requires WellFormed(SplitLines(text)) && GoodRequest(r, parser) && Planned(text, r, allowed, parser).Some?
    requires TablesAreDistinct(parser) && i < |r.secrets| && r.secrets[i].target.Some?
    requires var target := r.secrets[i].target.value;
      forall j :: i < j < |r.secrets| ==> !IsIn(r.secrets[j], Some("mcp_servers." + target.server), target.table)
    ensures SecretIsFine(r.secrets[i])
    ensures var edits := Planned(text, r, allowed, parser).value;
      |r.secrets| <= |edits| && at == AllEdited(text, edits[..|edits| - |r.secrets| + i])
    ensures var target := r.secrets[i].target.value;
      && IsTableWith(parser.stringMap(at, ["mcp_servers", target.server], target.table), entries, r.secrets[i])
      && IsSet(PatchedLines(text, r, allowed, parser), Some("mcp_servers." + target.server), target.table, Map(entries))
  {
    hide Planned, PatchedLines, GoodRequest, WellFormed, SplitLines, ArePartsOf, LastEdit, IsSet, LiteralOf, Reads,
      KeysAreDistinct, SecretEdit, AllEdited, IsTableWith, SecretIsFine, GoodSecret, TableOf;
    var p := PlannedParts(text, r, allowed, parser);
    var target := r.secrets[i].target.value;
    var table := Some("mcp_servers." + target.server);
    SecretsAreFine(r, parser);
    at, entries := SecretAt(p, text, r, parser, i);
    LastSecret(p, text, r, parser, i);
    ReadsPatched(text, r, allowed, parser, p, table, target.table);
    IsSetIf(PatchedLines(text, r, allowed, parser), table, target.table, Map(entries));
    assert p.All()[..|p.All()| - |r.secrets| + i] == p.Fixed() + p.secrets[..i];
  }

  lemma SecretsAreFine(r: Request, parser: Parser)
    requires GoodRequest(r, parser)
    ensures forall i :: 0 <= i < |r.secrets| ==> GoodSecret(r.secrets[i])
  {
    hide GoodSecret, KeysOneLine, ValuesOneLine;
  }

  lemma SecretAt(p: Parts, text: string, r: Request, parser: Parser, i: nat) returns (at: string, entries: seq<Entry>)
    requires ArePartsOf(p, text, r, parser) && TablesAreDistinct(parser) && i < |r.secrets| && r.secrets[i].target.Some?
    ensures |p.secrets| == |r.secrets| && SecretIsFine(r.secrets[i])
    ensures at == AllEdited(text, p.Fixed() + p.secrets[..i])
    ensures var target := r.secrets[i].target.value; var path := ["mcp_servers", target.server];
      && IsTableWith(parser.stringMap(at, path, target.table), entries, r.secrets[i])
      && LiteralOf(AsOption(Map(entries))) == Some(p.secrets[i].literal)
  {
    hide AllEdited, SecretEdits, SecretEdit, UpdateEdits, RemoveEdits, McpEdits, KeymapEdits, ThemeEdits, LiteralOf,
      KeysAreDistinct, IsTableWith;
    SecretsMean(AllEdited(text, p.Fixed()), r.secrets, parser, i);
    EditedConcat(text, p.Fixed(), p.secrets[..i]);
    at := AllEdited(text, p.Fixed() + p.secrets[..i]);
    entries := SecretMeans(at, r.secrets[i], parser);
  }

  lemma LastSecret(p: Parts, text: string, r: Request, parser: Parser, i: nat)
    requires ArePartsOf(p, text, r, parser) && GoodRequest(r, parser) && i < |r.secrets| && r.secrets[i].target.Some?
    requires |p.secrets| == |r.secrets|
    requires var target := r.secrets[i].target.value;
      forall j :: i < j < |r.secrets| ==> !IsIn(r.secrets[j], Some("mcp_servers." + target.server), target.table)
    ensures var target := r.secrets[i].target.value;
      LastEdit(p.All(), Some("mcp_servers." + target.server), target.table) == Some(p.secrets[i].literal)
  {
    hide ArePartsOf, GoodRequest, LastEdit, TableOf, GoodSecret;
    SecretsAreFine(r, parser);
    var target := r.secrets[i].target.value;
    var table := Some("mcp_servers." + target.server);
    SecretParts(p, text, r, parser, i);
    forall j | i < j < |p.secrets| ensures !Touches(p.secrets[j], table, target.table) {
      SecretParts(p, text, r, parser, j);
    }
    LastIs(p.secrets, i, table, target.table);
    LastOfParts(p, table, target.table);
  }

  /** Some part of the request names the key. */
  predicate IsNamed(r: Request, table: Option<string>, key: string) {
    || (table == None && ((exists i :: 0 <= i < |r.updates| && Strip(r.updates[i].key) == key)
                          || exists i :: 0 <= i < |r.remove| && Strip(r.remove[i]) == key))
    || (table == Some("mcp_servers.agent-pbx") && exists i :: 0 <= i < |r.mcp| && r.mcp[i].key == key)
    || (r.keymap.Some? && IsPreset(table, key))
    || (r.theme.Some? && table == Some("tui") && key == "theme")
    || exists i :: 0 <= i < |r.secrets| && IsIn(r.secrets[i], table, key)
  }

  /** Every key that no part of the request names reads as before. */
  lemma OthersStay(text: string, r: Request, allowed: bool, parser: Parser, table: Option<string>, key: string)
    requires WellFormed(SplitLines(text)) && GoodRequest(r, parser) && Planned(text, r, allowed, parser).Some?
    requires !IsNamed(r, table, key)
    ensures forall value ::
      Reads(PatchedLines(text, r, allowed, parser), table, key, value) <==> Reads(SplitLines(text), table, key, value)
  {
    hide Planned, PatchedLines, GoodRequest, WellFormed, SplitLines, ArePartsOf, LastEdit, LiteralOf, Reads, Strip,
      IsIn, IsPreset, Texts;
    var p := PlannedParts(text, r, allowed, parser);
    UpdateParts(p, text, r, parser);
    McpSettings(p, text, r, parser);
    PresetParts(p, text, r, parser);
    if table == None {
      NotTouched(p.updates, table, key);
      NotTouched(p.removals, table, key);
    }
    if table == Some("mcp_servers.agent-pbx") {
      NotTouched(p.mcp, table, key);
    }
    if r.keymap.None? {
      NotTouched(p.keymap, table, key);
    }
    if r.theme.None? {
      NotTouched(p.theme, table, key);
    }
    OtherTables(p, text, r, parser, table, key);
    LastOfParts(p, table, key);
    ReadsPatched(text, r, allowed, parser, p, table, key);
  }
}
