/** Patching the Codex configuration: a request becomes a sequence of edits, and the file is written only
    if no part of the request is refused. */
module CodexConfig {
  import opened Options
  import opened TomlLiteral
  import opened TomlPrinter
  import opened TomlText
  import opened TomlEditor
  import opened TomlLaws
  import opened ConfigEdits

  const SAFE_FIELDS: seq<string> := [
    "model", "model_provider", "model_reasoning_effort", "model_verbosity", "model_reasoning_summary",
    "service_tier", "approval_policy", "approvals_reviewer", "sandbox_mode", "default_permissions", "web_search"]

  const MCP_KEYS: seq<string> := [
    "url", "bearer_token_env_var", "default_tools_approval_mode", "enabled", "required",
    "startup_timeout_sec", "tool_timeout_sec"]

  const SECRET_MAPS: seq<string> := ["env", "env_http_headers", "http_headers"]

  function McpTable(): seq<string> { ["mcp_servers", "agent-pbx"] }
  function ComposerTable(): seq<string> { ["tui", "keymap", "composer"] }
  function EditorTable(): seq<string> { ["tui", "keymap", "editor"] }
  function TuiTable(): seq<string> { ["tui"] }

  /** A secret path that has the required form, taken apart. */
  datatype SecretTarget = SecretTarget(server: string, table: string, name: Unicode)

  datatype Secret = Secret(target: Option<SecretTarget>, remove: bool, value: Option<Unicode>)

  /** A value and the key it is for. */
  datatype Setting = Setting(key: string, value: Value)

  datatype Request = Request(
    updates: seq<Setting>, remove: seq<string>, mcp: seq<Setting>, keymap: Option<string>, theme: Option<string>,
    secrets: seq<Secret>)

  /** What a TOML parser says of a text: whether it is valid, and what a table of strings holds. */
  datatype Parser = Parser(valid: string -> bool, stringMap: (string, seq<string>, string) -> seq<Entry>)

  // ----- From a request to edits -----

  function AsOption(v: Value): Option<Value> { if v.Null? then None else Some(v) }

  /** None if the value cannot be printed. */
  function EditOf(path: seq<string>, key: string, value: Option<Value>): Option<Edit> {
    if LiteralOf(value).None? then None else Some(Edit(path, key, LiteralOf(value).value))
  }

  /** One edit after the other; None if one of them is refused. */
  function Then(a: Option<Edit>, rest: Option<seq<Edit>>): Option<seq<Edit>> {
    if a.None? || rest.None? then None else Some([a.value] + rest.value)
  }

  function And(a: Option<seq<Edit>>, b: Option<seq<Edit>>): Option<seq<Edit>> {
    if a.None? || b.None? then None else Some(a.value + b.value)
  }

  function UpdateEdit(e: Setting): Option<Edit> {
    if Strip(e.key) !in SAFE_FIELDS then None else EditOf([], Strip(e.key), AsOption(e.value))
  }

  function UpdateEdits(updates: seq<Setting>): Option<seq<Edit>> {
    if updates == [] then Some([]) else Then(UpdateEdit(updates[0]), UpdateEdits(updates[1..]))
  }

  function RemoveEdits(keys: seq<string>): Option<seq<Edit>> {
    if keys == [] then Some([]) else Then(UpdateEdit(Setting(keys[0], Null)), RemoveEdits(keys[1..]))
  }

  function McpEdit(e: Setting): Option<Edit> {
    if e.key !in MCP_KEYS then None else EditOf(McpTable(), e.key, AsOption(e.value))
  }

  function McpEdits(mcp: seq<Setting>): Option<seq<Edit>> {
    if mcp == [] then Some([]) else Then(McpEdit(mcp[0]), McpEdits(mcp[1..]))
  }

  function Texts(texts: seq<string>): Value {
    List(seq(|texts|, i requires 0 <= i < |texts| => Str(CodePoints(texts[i]))))
  }

  function SubmitKeys(): Value { Texts(["enter"]) }
  function NewlineKeys(): Value { Texts(["ctrl-j", "shift-enter", "alt-enter", "ctrl-enter"]) }

  /** The preset arrives stripped and in lower case. */
  function KeymapEdits(preset: Option<string>): Option<seq<Edit>> {
    if preset.None? then Some([])
    else if preset.value == "portable" then
      Then(EditOf(ComposerTable(), "submit", Some(SubmitKeys())),
           Then(EditOf(EditorTable(), "insert_newline", Some(NewlineKeys())), Some([])))
    else if preset.value == "reset" then
      Then(EditOf(ComposerTable(), "submit", None), Then(EditOf(EditorTable(), "insert_newline", None), Some([])))
    else None
  }

  predicate IsThemeChar(c: char) { 'a' <= c <= 'z' || '0' <= c <= '9' }

  /** Words of lower-case letters and digits with single hyphens in between. */
  predicate IsKebab(s: string) {
    && s != "" && (forall i :: 0 <= i < |s| ==> IsThemeChar(s[i]) || s[i] == '-')
    && IsThemeChar(s[0]) && IsThemeChar(s[|s| - 1])
    && forall i :: 0 < i < |s| ==> !(s[i - 1] == '-' && s[i] == '-')
  }

  function ThemeEdits(theme: Option<string>): Option<seq<Edit>> {
    if theme.None? then Some([])
    else
      var name := Strip(theme.value);
      if name != "" && !IsKebab(name) then None
      else Then(EditOf(TuiTable(), "theme", if name == "" then None else Some(Str(CodePoints(name)))), Some([]))
  }

  function FixedEdits(r: Request): Option<seq<Edit>> {
    And(UpdateEdits(r.updates),
        And(RemoveEdits(r.remove), And(McpEdits(r.mcp), And(KeymapEdits(r.keymap), ThemeEdits(r.theme)))))
  }

  function WithoutKey(entries: seq<Entry>, key: Unicode): seq<Entry> {
    if entries == [] then []
    else (if entries[0].key == key then [] else [entries[0]]) + WithoutKey(entries[1..], key)
  }

  function WithKey(entries: seq<Entry>, key: Unicode, value: Value): seq<Entry> {
    if entries == [] then [Entry(key, value)]
    else if entries[0].key == key then [Entry(key, value)] + entries[1..]
    else [entries[0]] + WithKey(entries[1..], key, value)
  }

  /** The edit for a secret depends on the text: the whole table of strings is written again. */
  function SecretEdit(text: string, s: Secret, parser: Parser): Option<Edit> {
    if !s.remove && (s.value.None? || s.value.value == []) then None
    else if s.target.None? || s.target.value.name == [] || !parser.valid(text) then None
    else
      var target := s.target.value;
      var path := ["mcp_servers", target.server];
      var current := parser.stringMap(text, path, target.table);
      var entries := if s.remove then WithoutKey(current, target.name)
                     else WithKey(current, target.name, Str(s.value.value));
      EditOf(path, target.table, Some(Map(entries)))
  }

  function SecretEdits(text: string, secrets: seq<Secret>, parser: Parser): Option<seq<Edit>>
    decreases |secrets|
  {
    if secrets == [] then Some([])
    else
      var e := SecretEdit(text, secrets[0], parser);
      if e.None? then None else Then(e, SecretEdits(Edited(text, e.value), secrets[1..], parser))
  }

  /** All edits of a request in order; None if any part of it is refused. */
  function Planned(text: string, r: Request, allowed: bool, parser: Parser): Option<seq<Edit>> {
    if (Strip(text) != "" && !parser.valid(text)) || !allowed || FixedEdits(r).None? then None
    else And(FixedEdits(r), SecretEdits(AllEdited(text, FixedEdits(r).value), r.secrets, parser))
  }

  function Closed(text: string): string { if text != "" && !EndsInNewline(text) then text + "\n" else text }

  // ----- The file -----

  class ConfigFile {
    /** The text of the file, if there is one, and that of its last backup. */
    var content: Option<string>
    var backup: Option<string>

    constructor (content: Option<string>)
      ensures this.content == content && backup == None
    {
      this.content, backup := content, None;
    }

    function Text(): (text: string)
      reads this
      ensures if content == None then text == "" else content == Some(text)
    {
      if content.Some? then content.value else ""
    }

    /** `patch_codex_config`; `allowed` says that the managed requirements do not forbid the request. */
    method Patch(r: Request, allowed: bool, parser: Parser) returns (ok: bool)
      modifies this
      ensures ok <==> Planned(old(Text()), r, allowed, parser).Some?
      ensures !ok ==> content == old(content) && backup == old(backup)
      ensures ok ==>
        var text := old(Text()); var changed := AllEdited(text, Planned(text, r, allowed, parser).value);
        if changed == text then content == old(content) && backup == old(backup)
        else content == Some(Closed(changed)) && backup == if old(content).Some? then old(content) else old(backup)
    {
      hide Strip, FixedEdits, SecretEdits, AllEdited, EndsInNewline;
      var text := Text();
      if Strip(text) != "" && !parser.valid(text) {
        return false;
      }
      if !allowed {
        return false;
      }
      var fixed, planned := PatchFixed(text, r);
      if !planned {
        return false;
      }
      var newText, edits, secretsOk := PatchSecrets(fixed, r.secrets, parser);
      if !secretsOk {
        return false;
      }
      EditedConcat(text, FixedEdits(r).value, edits);
      if newText != text {
        if content.Some? {
          backup := content;
        }
        content := Some(Closed(newText));
      }
      ok := true;
    }
  }

  function AndThen(done: seq<Edit>, rest: Option<seq<Edit>>): Option<seq<Edit>> { And(Some(done), rest) }

  lemma NothingDone(text: string, rest: Option<seq<Edit>>)
    ensures AndThen([], rest) == rest && AllEdited(text, []) == text
  {
    if rest.Some? {
      assert [] + rest.value == rest.value;
    }
  }

  lemma ThenAfter(done: seq<Edit>, e: Edit, rest: Option<seq<Edit>>)
    ensures AndThen(done, Then(Some(e), rest)) == AndThen(done + [e], rest)
  {
    if rest.Some? {
      assert done + ([e] + rest.value) == done + [e] + rest.value;
    }
  }

  lemma {:induction false} EditedConcat(text: string, a: seq<Edit>, b: seq<Edit>)
    ensures AllEdited(text, a + b) == AllEdited(AllEdited(text, a), b)
    decreases |a|
  {
    hide Edited;
    if a == [] {
      assert a + b == b;
    } else {
      assert (a + b)[1..] == a[1..] + b;
      EditedConcat(Edited(text, a[0]), a[1..], b);
    }
  }

  lemma EditedLast(text: string, done: seq<Edit>, e: Edit)
    ensures AllEdited(text, done + [e]) == Edited(AllEdited(text, done), e)
  {
    hide Edited;
    EditedConcat(text, done, [e]);
    assert [e][1..] == [];
  }

  /** What the editor's methods do to a text is the edit. */
  lemma EditByMethod(text: string, path: seq<string>, key: string, value: Option<Value>)
    requires LiteralOf(value).Some?
    ensures EditOf(path, key, value).Some?
    ensures Edited(text, EditOf(path, key, value).value) ==
      if path == [] then TopKeySet(text, key, LiteralOf(value).value)
      else TableKeySet(text, path, key, LiteralOf(value).value)
  {
    hide LiteralOf, TopKeySet, TableKeySet;
  }

  /** Updates, removals, MCP keys, the keymap and the theme, in this order. */
  method PatchFixed(text: string, r: Request) returns (newText: string, ok: bool)
    ensures ok <==> FixedEdits(r).Some?
    ensures ok ==> newText == AllEdited(text, FixedEdits(r).value)
  {
    hide KeymapEdits, ThemeEdits, UpdateEdits, RemoveEdits, McpEdits, AllEdited;
    var edits: seq<Edit>;
    newText, edits, ok := PatchUpdates(text, r.updates);
    if !ok {
      return;
    }
    ghost var all := edits;
    newText, edits, ok := PatchRemovals(newText, r.remove);
    if !ok {
      return;
    }
    EditedConcat(text, all, edits);
    all := all + edits;
    newText, edits, ok := PatchMcp(newText, r.mcp);
    if !ok {
      return;
    }
    EditedConcat(text, all, edits);
    all := all + edits;
    newText, edits, ok := PatchKeymap(newText, r.keymap);
    if !ok {
      return;
    }
    EditedConcat(text, all, edits);
    all := all + edits;
    newText, edits, ok := PatchTheme(newText, r.theme);
    if !ok {
      return;
    }
    EditedConcat(text, all, edits);
    all := all + edits;
    assert FixedEdits(r).value == all;
  }

  /** One call of the editor at the end of some edits. */
  method SetNext(text: string, path: seq<string>, key: string, value: Option<Value>, start: string, edits: seq<Edit>)
    returns (newText: string, done: seq<Edit>, ok: bool)
    requires text == AllEdited(start, edits)
    ensures ok <==> EditOf(path, key, value).Some?
    ensures ok ==> done == edits + [EditOf(path, key, value).value] && newText == AllEdited(start, done)
  {
    hide LiteralOf, TopKeySet, TableKeySet, AllEdited, Edited;
    var r;
    if path == [] {
      r := SetTopLevelKey(text, key, value);
    } else {
      r := SetTableKey(text, path, key, value);
    }
    if r.None? {
      return text, edits, false;
    }
    EditByMethod(text, path, key, value);
    EditedLast(start, edits, EditOf(path, key, value).value);
    newText, done, ok := r.value, edits + [EditOf(path, key, value).value], true;
  }

  method PatchUpdates(text: string, updates: seq<Setting>) returns (newText: string, edits: seq<Edit>, ok: bool)
    ensures ok <==> UpdateEdits(updates).Some?
    ensures ok ==> UpdateEdits(updates) == Some(edits) && newText == AllEdited(text, edits)
  {
    hide AllEdited, EditOf, Strip;
    newText, edits := text, [];
    NothingDone(text, UpdateEdits(updates));
    assert updates[0..] == updates;
    for i := 0 to |updates|
      invariant newText == AllEdited(text, edits)
      invariant UpdateEdits(updates) == AndThen(edits, UpdateEdits(updates[i..]))
    {
      var key := Strip(updates[i].key);
      assert updates[i..][1..] == updates[i + 1..];
      if key !in SAFE_FIELDS {
        return newText, edits, false;
      }
      ghost var before := edits;
      newText, edits, ok := SetNext(newText, [], key, AsOption(updates[i].value), text, edits);
      if !ok {
        return;
      }
      ThenAfter(before, UpdateEdit(updates[i]).value, UpdateEdits(updates[i + 1..]));
    }
    assert edits + [] == edits;
    ok := true;
  }

  method PatchRemovals(text: string, keys: seq<string>) returns (newText: string, edits: seq<Edit>, ok: bool)
    ensures ok <==> RemoveEdits(keys).Some?
    ensures ok ==> RemoveEdits(keys) == Some(edits) && newText == AllEdited(text, edits)
  {
    hide AllEdited, EditOf, Strip;
    newText, edits := text, [];
    NothingDone(text, RemoveEdits(keys));
    assert keys[0..] == keys;
    for i := 0 to |keys|
      invariant newText == AllEdited(text, edits)
      invariant RemoveEdits(keys) == AndThen(edits, RemoveEdits(keys[i..]))
    {
      var key := Strip(keys[i]);
      assert keys[i..][1..] == keys[i + 1..];
      if key !in SAFE_FIELDS {
        return newText, edits, false;
      }
      ghost var before := edits;
      newText, edits, ok := SetNext(newText, [], key, None, text, edits);
      if !ok {
        return;
      }
      ThenAfter(before, UpdateEdit(Setting(keys[i], Null)).value, RemoveEdits(keys[i + 1..]));
    }
    assert edits + [] == edits;
    ok := true;
  }

  method PatchMcp(text: string, mcp: seq<Setting>) returns (newText: string, edits: seq<Edit>, ok: bool)
    ensures ok <==> McpEdits(mcp).Some?
    ensures ok ==> McpEdits(mcp) == Some(edits) && newText == AllEdited(text, edits)
  {
    hide AllEdited, EditOf, McpTable;
    newText, edits := text, [];
    NothingDone(text, McpEdits(mcp));
    assert mcp[0..] == mcp;
    for i := 0 to |mcp|
      invariant newText == AllEdited(text, edits)
      invariant McpEdits(mcp) == AndThen(edits, McpEdits(mcp[i..]))
    {
      assert mcp[i..][1..] == mcp[i + 1..];
      if mcp[i].key !in MCP_KEYS {
        return newText, edits, false;
      }
      ghost var before := edits;
      newText, edits, ok := SetNext(newText, McpTable(), mcp[i].key, AsOption(mcp[i].value), text, edits);
      if !ok {
        return;
      }
      ThenAfter(before, McpEdit(mcp[i]).value, McpEdits(mcp[i + 1..]));
    }
    assert edits + [] == edits;
    ok := true;
  }

  method PatchKeymap(text: string, preset: Option<string>) returns (newText: string, edits: seq<Edit>, ok: bool)
    ensures ok <==> KeymapEdits(preset).Some?
    ensures ok ==> KeymapEdits(preset) == Some(edits) && newText == AllEdited(text, edits)
  {
    hide AllEdited, EditOf, ComposerTable, EditorTable, SubmitKeys, NewlineKeys;
    NothingDone(text, None);
    newText, edits := text, [];
    if preset.None? {
      return newText, edits, true;
    }
    if preset.value != "portable" && preset.value != "reset" {
      return newText, edits, false;
    }
    var submit := if preset.value == "portable" then Some(SubmitKeys()) else None;
    var newline := if preset.value == "portable" then Some(NewlineKeys()) else None;
    newText, edits, ok := SetNext(newText, ComposerTable(), "submit", submit, text, edits);
    if !ok {
      return;
    }
    newText, edits, ok := SetNext(newText, EditorTable(), "insert_newline", newline, text, edits);
    TwoEdits(EditOf(ComposerTable(), "submit", submit), EditOf(EditorTable(), "insert_newline", newline));
  }

  lemma TwoEdits(a: Option<Edit>, b: Option<Edit>)
    ensures a.Some? && b.Some? ==>
      Then(b, Some([])) == Some([] + [b.value]) && Then(a, Then(b, Some([]))) == Some([] + [a.value] + [b.value])
  {
    if a.Some? && b.Some? {
      assert [b.value] + [] == [] + [b.value];
      assert [a.value] + ([b.value] + []) == [] + [a.value] + [b.value];
    }
  }

  method PatchTheme(text: string, theme: Option<string>) returns (newText: string, edits: seq<Edit>, ok: bool)
    ensures ok <==> ThemeEdits(theme).Some?
    ensures ok ==> ThemeEdits(theme) == Some(edits) && newText == AllEdited(text, edits)
  {
    hide AllEdited, EditOf, TuiTable, Strip, IsKebab;
    NothingDone(text, None);
    newText, edits := text, [];
    if theme.None? {
      return newText, edits, true;
    }
    var name := Strip(theme.value);
    if name != "" && !IsKebab(name) {
      return newText, edits, false;
    }
    var value := if name == "" then None else Some(Str(CodePoints(name)));
    newText, edits, ok := SetNext(newText, TuiTable(), "theme", value, text, edits);
    TwoEdits(EditOf(TuiTable(), "theme", value), EditOf(TuiTable(), "theme", value));
  }

  method PatchSecrets(text: string, secrets: seq<Secret>, parser: Parser)
    returns (newText: string, edits: seq<Edit>, ok: bool)
    ensures ok <==> SecretEdits(text, secrets, parser).Some?
    ensures ok ==> SecretEdits(text, secrets, parser) == Some(edits) && newText == AllEdited(text, edits)
  {
    hide AllEdited, EditOf, Edited, WithKey, WithoutKey;
    newText, edits := text, [];
    NothingDone(text, SecretEdits(text, secrets, parser));
    assert secrets[0..] == secrets;
    for i := 0 to |secrets|
      invariant newText == AllEdited(text, edits)
      invariant SecretEdits(text, secrets, parser) == AndThen(edits, SecretEdits(newText, secrets[i..], parser))
    {
      var s := secrets[i];
      assert secrets[i..][1..] == secrets[i + 1..];
      if !s.remove && (s.value.None? || s.value.value == []) {
        return newText, edits, false;
      }
      if s.target.None? || s.target.value.name == [] || !parser.valid(newText) {
        return newText, edits, false;
      }
      var target := s.target.value;
      var path := ["mcp_servers", target.server];
      var entries := parser.stringMap(newText, path, target.table);
      if s.remove {
        entries := WithoutKey(entries, target.name);
      } else {
        entries := WithKey(entries, target.name, Str(s.value.value));
      }
      ghost var e := SecretEdit(newText, s, parser);
      ghost var before, was := edits, newText;
      newText, edits, ok := SetNext(newText, path, target.table, Some(Map(entries)), text, edits);
      if !ok {
        return;
      }
      EditedLast(text, before, e.value);
      ThenAfter(before, e.value, SecretEdits(Edited(was, e.value), secrets[i + 1..], parser));
    }
    assert edits + [] == edits;
    ok := true;
  }

  // ----- A patch is the overlay of its edits -----

  lemma SafeWords()
    ensures IsIdentifier("model") && IsIdentifier("model_provider") && IsIdentifier("model_reasoning_effort")
    ensures IsIdentifier("model_verbosity") && IsIdentifier("model_reasoning_summary")
  {
  }

  lemma MoreSafeWords()
    ensures IsIdentifier("service_tier") && IsIdentifier("approval_policy") && IsIdentifier("approvals_reviewer")
    ensures IsIdentifier("sandbox_mode") && IsIdentifier("default_permissions") && IsIdentifier("web_search")
  {
  }

  lemma McpWords()
    ensures IsIdentifier("url") && IsIdentifier("bearer_token_env_var") && IsIdentifier("default_tools_approval_mode")
  {
  }

  lemma MoreMcpWords()
    ensures IsIdentifier("enabled") && IsIdentifier("required") && IsIdentifier("startup_timeout_sec")
    ensures IsIdentifier("tool_timeout_sec")
  {
  }

  lemma TableWords()
    ensures IsIdentifier("mcp_servers") && IsIdentifier("agent-pbx") && IsIdentifier("tui") && IsIdentifier("keymap")
    ensures IsIdentifier("composer") && IsIdentifier("editor") && IsIdentifier("submit")
    ensures IsIdentifier("insert_newline") && IsIdentifier("theme")
  {
  }

  lemma SecretWords()
    ensures IsIdentifier("env") && IsIdentifier("env_http_headers") && IsIdentifier("http_headers")
  {
  }

  lemma FieldsAreIdentifiers(key: string)
    ensures key in SAFE_FIELDS || key in MCP_KEYS || key in SECRET_MAPS ==> IsIdentifier(key)
  {
    hide IsIdentifier;
    SafeWords();
    MoreSafeWords();
    McpWords();
    MoreMcpWords();
    SecretWords();
  }

  lemma EditIsGood(path: seq<string>, key: string, value: Option<Value>)
    requires IsIdentifier(key) && forall i :: 0 <= i < |path| ==> IsIdentifier(path[i])
    requires EditOf(path, key, value).Some? && (value.Some? ==> KeysOneLine(value.value))
    ensures GoodEdit(EditOf(path, key, value).value)
  {
    hide IsIdentifier, Literal, KeysOneLine, GoodLiteral;
    if value.Some? {
      PrintedIsGood(value.value);
    }
  }

  predicate ValuesOneLine(entries: seq<Setting>) {
    forall i :: 0 <= i < |entries| ==> KeysOneLine(entries[i].value)
  }

  /** What the caller's values and the parser's tables must be like: no key of theirs is an identifier
      followed by a newline. */
  ghost predicate GoodRequest(r: Request, parser: Parser) {
    && ValuesOneLine(r.updates) && ValuesOneLine(r.mcp)
    && (forall i :: 0 <= i < |r.secrets| ==> GoodSecret(r.secrets[i]))
    && (forall text, path, table :: KeysOneLine(Map(parser.stringMap(text, path, table))))
  }

  predicate GoodSecret(s: Secret) {
    s.target.Some? ==>
      && IsIdentifier(s.target.value.server) && s.target.value.table in SECRET_MAPS
      && OneLine(TomlKey(s.target.value.name))
  }

  lemma {:induction false} UpdatesAreGood(updates: seq<Setting>)
    requires UpdateEdits(updates).Some? && ValuesOneLine(updates)
    ensures GoodEdits(UpdateEdits(updates).value)
  {
    hide IsIdentifier, EditOf, KeysOneLine, Strip, GoodEdit;
    if updates != [] {
      var key := Strip(updates[0].key);
      FieldsAreIdentifiers(key);
      EditIsGood([], key, AsOption(updates[0].value));
      UpdatesAreGood(updates[1..]);
    }
  }

  lemma {:induction false} RemovalsAreGood(keys: seq<string>)
    requires RemoveEdits(keys).Some?
    ensures GoodEdits(RemoveEdits(keys).value)
  {
    hide IsIdentifier, EditOf, KeysOneLine, Strip, GoodEdit;
    if keys != [] {
      var key := Strip(keys[0]);
      FieldsAreIdentifiers(key);
      EditIsGood([], key, None);
      RemovalsAreGood(keys[1..]);
    }
  }

  lemma {:induction false} McpIsGood(mcp: seq<Setting>)
    requires McpEdits(mcp).Some? && ValuesOneLine(mcp)
    ensures GoodEdits(McpEdits(mcp).value)
  {
    hide IsIdentifier, EditOf, KeysOneLine, GoodEdit;
    if mcp != [] {
      TableWords();
      FieldsAreIdentifiers(mcp[0].key);
      EditIsGood(McpTable(), mcp[0].key, AsOption(mcp[0].value));
      McpIsGood(mcp[1..]);
    }
  }

  lemma TextsAreOneLine(texts: seq<string>)
    ensures KeysOneLine(Texts(texts))
  {
  }

  lemma PresetsAreGood(preset: Option<string>, theme: Option<string>)
    requires KeymapEdits(preset).Some? && ThemeEdits(theme).Some?
    ensures GoodEdits(KeymapEdits(preset).value) && GoodEdits(ThemeEdits(theme).value)
  {
    hide IsIdentifier, EditOf, KeysOneLine, GoodEdit, Texts, Strip, IsKebab;
    TableWords();
    TextsAreOneLine(["enter"]);
    TextsAreOneLine(["ctrl-j", "shift-enter", "alt-enter", "ctrl-enter"]);
    if preset.Some? {
      var portable := preset.value == "portable";
      EditIsGood(ComposerTable(), "submit", if portable then Some(SubmitKeys()) else None);
      EditIsGood(EditorTable(), "insert_newline", if portable then Some(NewlineKeys()) else None);
    }
    if theme.Some? {
      var name := Strip(theme.value);
      TextIsOneLine(CodePoints(name));
      EditIsGood(TuiTable(), "theme", if name == "" then None else Some(Str(CodePoints(name))));
    }
  }

  lemma TextIsOneLine(s: Unicode)
    ensures KeysOneLine(Str(s))
  {
  }

  lemma {:induction false} WithKeyOneLine(entries: seq<Entry>, key: Unicode, value: Unicode)
    requires KeysOneLine(Map(entries)) && OneLine(TomlKey(key))
    ensures KeysOneLine(Map(WithKey(entries, key, Str(value)))) && KeysOneLine(Map(WithoutKey(entries, key)))
  {
    hide OneLine, TomlKey;
    if entries != [] {
      KeysOfTail(entries);
      WithKeyOneLine(entries[1..], key, value);
      KeysOfTail([entries[0]] + WithKey(entries[1..], key, Str(value)));
      KeysOfTail([Entry(key, Str(value))] + entries[1..]);
      KeysOfTail([entries[0]] + WithoutKey(entries[1..], key));
      assert ([entries[0]] + WithKey(entries[1..], key, Str(value)))[1..] == WithKey(entries[1..], key, Str(value));
      assert ([Entry(key, Str(value))] + entries[1..])[1..] == entries[1..];
      assert ([entries[0]] + WithoutKey(entries[1..], key))[1..] == WithoutKey(entries[1..], key);
      assert [] + WithoutKey(entries[1..], key) == WithoutKey(entries[1..], key);
    }
  }

  lemma SecretIsGood(text: string, s: Secret, parser: Parser)
    requires SecretEdit(text, s, parser).Some? && GoodSecret(s)
    requires forall text, path, table :: KeysOneLine(Map(parser.stringMap(text, path, table)))
    ensures GoodEdit(SecretEdit(text, s, parser).value)
  {
    hide IsIdentifier, EditOf, KeysOneLine, GoodEdit, WithKey, WithoutKey, OneLine, TomlKey;
    var target := s.target.value;
    var path := ["mcp_servers", target.server];
    var current := parser.stringMap(text, path, target.table);
    TableWords();
    FieldsAreIdentifiers(target.table);
    WithKeyOneLine(current, target.name, if s.value.Some? then s.value.value else []);
    EditIsGood(path, target.table, Some(Map(
      if s.remove then WithoutKey(current, target.name) else WithKey(current, target.name, Str(s.value.value)))));
  }

  lemma {:induction false} SecretsAreGood(text: string, secrets: seq<Secret>, parser: Parser)
    requires SecretEdits(text, secrets, parser).Some? && forall i :: 0 <= i < |secrets| ==> GoodSecret(secrets[i])
    requires forall text, path, table :: KeysOneLine(Map(parser.stringMap(text, path, table)))
    ensures GoodEdits(SecretEdits(text, secrets, parser).value)
    decreases |secrets|
  {
    hide SecretEdit, GoodSecret, GoodEdit, Edited, KeysOneLine;
    if secrets != [] {
      var e := SecretEdit(text, secrets[0], parser).value;
      SecretIsGood(text, secrets[0], parser);
      SecretsAreGood(Edited(text, e), secrets[1..], parser);
    }
  }

  lemma GoodTogether(a: seq<Edit>, b: seq<Edit>)
    requires GoodEdits(a) && GoodEdits(b)
    ensures GoodEdits(a + b)
  {
    hide GoodEdit;
  }

  lemma PlannedIsGood(text: string, r: Request, allowed: bool, parser: Parser)
    requires GoodRequest(r, parser) && Planned(text, r, allowed, parser).Some?
    ensures GoodEdits(Planned(text, r, allowed, parser).value)
  {
    hide UpdateEdits, RemoveEdits, McpEdits, KeymapEdits, ThemeEdits, SecretEdits, AllEdited, GoodEdits, GoodSecret,
      ValuesOneLine, Strip, KeysOneLine;
    UpdatesAreGood(r.updates);
    RemovalsAreGood(r.remove);
    McpIsGood(r.mcp);
    PresetsAreGood(r.keymap, r.theme);
    var updates, removals, mcp := UpdateEdits(r.updates).value, RemoveEdits(r.remove).value, McpEdits(r.mcp).value;
    var keymap, theme := KeymapEdits(r.keymap).value, ThemeEdits(r.theme).value;
    GoodTogether(keymap, theme);
    GoodTogether(mcp, keymap + theme);
    GoodTogether(removals, mcp + (keymap + theme));
    GoodTogether(updates, removals + (mcp + (keymap + theme)));
    var fixed := FixedEdits(r).value;
    SecretsAreGood(AllEdited(text, fixed), r.secrets, parser);
    GoodTogether(fixed, SecretEdits(AllEdited(text, fixed), r.secrets, parser).value);
  }

  /** The main result about a patch that is not refused. The new text is the ordered overlay of its
      updates, removals, MCP keys, keymap, theme and secrets: every key reads as its last edit says, or
      as before. It is well-formed and keeps every header. */
  lemma PatchIsOverlay(text: string, r: Request, allowed: bool, parser: Parser)
    requires WellFormed(SplitLines(text)) && GoodRequest(r, parser) && Planned(text, r, allowed, parser).Some?
    ensures var edits := Planned(text, r, allowed, parser).value;
      var before, after := SplitLines(text), SplitLines(AllEdited(text, edits));
      && WellFormed(after) && Overlays(before, after, edits) && Headers(before) <= Headers(after)
      && (AllSet(edits) ==> Comments(after) == Comments(before))
  {
    hide Planned, GoodRequest, WellFormed, SplitLines, AllEdited, GoodEdits, Overlays, Headers, Comments;
    PlannedIsGood(text, r, allowed, parser);
    EditsOverlay(text, Planned(text, r, allowed, parser).value);
  }

  /** The same edits once more change nothing that is read. */
  lemma OverlayTwiceReadsAsOnce(text: string, edits: seq<Edit>, table: Option<string>, key: string, value: string)
    requires WellFormed(SplitLines(text)) && GoodEdits(edits)
    ensures var once := AllEdited(text, edits);
      Reads(SplitLines(AllEdited(once, edits)), table, key, value) <==> Reads(SplitLines(once), table, key, value)
  {
    hide WellFormed, SplitLines, AllEdited, GoodEdits, Reads, Headers, Comments;
    EditsOverlay(text, edits);
    EditsOverlay(AllEdited(text, edits), edits);
  }
}
