/** The literals the configuration editor prints, and the scanner that looks for a comment behind one. */
module TomlLiteral {
  import opened Options
  import opened Characters

  // ----- Characters -----

  predicate IsKeyChar(c: char) {
    'A' <= c <= 'Z' || 'a' <= c <= 'z' || '0' <= c <= '9' || c == '_' || c == '-'
  }

  predicate IsIdentifier(s: string) { s != "" && forall i :: 0 <= i < |s| ==> IsKeyChar(s[i]) }

  predicate OneLine(s: string) { forall i :: 0 <= i < |s| ==> !IsBreak(s[i]) }

  // ----- Values -----

  /** A character of a Python string is any code point, surrogates included. */
  type CodePoint = n: nat | n < 0x110000

  type Unicode = seq<CodePoint>

  function CodePoints(s: string): Unicode { seq(|s|, i requires 0 <= i < |s| => s[i] as int) }

  predicate IsDigit(c: char) { '0' <= c <= '9' }

  type Digits = s: string | s != "" && forall i :: 0 <= i < |s| ==> IsDigit(s[i]) witness "0"

  datatype Exponent = Exponent(negative: bool, digits: Digits)

  /** A floating-point number as far as it is printed: with a fraction, with an exponent, or with both. */
  datatype Number =
    | NotANumber
    | Infinite(negative: bool)
    | Decimal(negative: bool, whole: nat, fraction: Digits, exponent: Option<Exponent>)
    | Scientific(negative: bool, whole: nat, power: Exponent)

  datatype Value =
    | Null
    | Bool(b: bool)
    | Int(n: int)
    | Float(f: Number)
    | Str(s: Unicode)
    | Map(entries: seq<Entry>)
    | List(items: seq<Value>)
    | Unsupported

  datatype Entry = Entry(key: Unicode, value: Value)

  // ----- Printing -----

  function HexDigit(n: nat): char
    requires n < 16
  {
    "0123456789abcdef"[n]
  }

  function Hex4(n: nat): string
    requires n < 0x10000
  {
    [HexDigit(n / 0x1000), HexDigit(n / 0x100 % 16), HexDigit(n / 0x10 % 16), HexDigit(n % 16)]
  }

  function UnicodeEscape(n: nat): string
    requires n < 0x10000
  {
    "\\u" + Hex4(n)
  }

  /** A character the way JSON prints it in ASCII; above U+FFFF as two surrogates. */
  function QuotedChar(n: CodePoint): string {
    if n == 0x22 then "\\\""
    else if n == 0x5C then "\\\\"
    else if n == 0xA then "\\n"
    else if n == 0xD then "\\r"
    else if n == 0x9 then "\\t"
    else if n == 0x8 then "\\b"
    else if n == 0xC then "\\f"
    else if 0x20 <= n <= 0x7E then [n as char]
    else if n < 0x10000 then UnicodeEscape(n)
    else UnicodeEscape(0xD800 + (n - 0x10000) / 0x400) + UnicodeEscape(0xDC00 + (n - 0x10000) % 0x400)
  }

  function QuotedChars(s: Unicode): string {
    if s == [] then "" else QuotedChar(s[0]) + QuotedChars(s[1..])
  }

  function JsonQuote(s: Unicode): string { "\"" + QuotedChars(s) + "\"" }

  predicate IsAscii(s: Unicode) { forall i :: 0 <= i < |s| ==> s[i] < 0x80 }

  function Ascii(s: Unicode): string
    requires IsAscii(s)
  {
    seq(|s|, i requires 0 <= i < |s| => s[i] as char)
  }

  predicate IsWord(key: Unicode) { IsAscii(key) && IsIdentifier(Ascii(key)) }

  /** The pattern ends in `$`, which also matches before a newline at the end. */
  predicate PrintsBare(key: Unicode) {
    IsWord(key) || (|key| > 0 && key[|key| - 1] == 0xA && IsWord(key[..|key| - 1]))
  }

  function TomlKey(key: Unicode): string {
    if IsWord(key) then Ascii(key)
    else if PrintsBare(key) then Ascii(key[..|key| - 1]) + "\n"
    else JsonQuote(key)
  }

  function NatText(n: nat): string {
    if n < 10 then ["0123456789"[n]] else NatText(n / 10) + ["0123456789"[n % 10]]
  }

  function IntText(n: int): string { if n < 0 then "-" + NatText(-n) else NatText(n) }

  function Sign(negative: bool): string { if negative then "-" else "" }

  function ExponentText(e: Exponent): string { "e" + (if e.negative then "-" else "+") + e.digits }

  /** As JSON prints it; numbers that JSON does not have are printed by their names. */
  function FloatText(f: Number): string {
    match f
    case NotANumber => "NaN"
    case Infinite(negative) => Sign(negative) + "Infinity"
    case Decimal(negative, whole, fraction, exponent) =>
      Sign(negative) + NatText(whole) + ("." + fraction + if exponent.Some? then ExponentText(exponent.value) else "")
    case Scientific(negative, whole, exponent) => Sign(negative) + NatText(whole) + ExponentText(exponent)
  }

  /** None where the printer raises. */
  function Literal(v: Value): Option<string>
    decreases v
  {
    match v
    case Null => None
    case Bool(b) => Some(if b then "true" else "false")
    case Int(n) => Some(IntText(n))
    case Float(f) => Some(FloatText(f))
    case Str(s) => Some(JsonQuote(s))
    case Map(entries) =>
      var inner := EntryList(entries, true);
      if inner.None? then None else Some("{ " + inner.value + " }")
    case List(items) =>
      var inner := ItemList(items, true);
      if inner.None? then None else Some("[" + inner.value + "]")
    case Unsupported => None
  }

  function Separator(first: bool): string { if first then "" else ", " }

  function EntryText(e: Entry): Option<string>
    decreases e
  {
    var literal := Literal(e.value);
    if literal.None? then None else Some(TomlKey(e.key) + " = " + literal.value)
  }

  /** The entries that have a value, with commas in between. */
  function EntryList(entries: seq<Entry>, first: bool): Option<string>
    decreases entries
  {
    if entries == [] then Some("")
    else if entries[0].value.Null? then EntryList(entries[1..], first)
    else
      var head := EntryText(entries[0]);
      if head.None? then None
      else
        var rest := EntryList(entries[1..], false);
        if rest.None? then None else Some(Separator(first) + head.value + rest.value)
  }

  function ItemList(items: seq<Value>, first: bool): Option<string>
    decreases items
  {
    if items == [] then Some("")
    else
      var head := Literal(items[0]);
      if head.None? then None
      else
        var rest := ItemList(items[1..], false);
        if rest.None? then None else Some(Separator(first) + head.value + rest.value)
  }

  // ----- The comment scanner -----

  datatype Scan = Scan(inString: bool, escape: bool)

  const OUTSIDE: Scan := Scan(false, false)
  const INSIDE: Scan := Scan(true, false)

  predicate Stops(st: Scan, c: char) { c == '#' && !st.inString }

  function Step(st: Scan, c: char): Scan {
    Scan(if c == '"' && !st.escape then !st.inString else st.inString, c == '\\' && !st.escape)
  }

  /** The state behind `s`, or None if a bare `#` stops the scan. */
  function After(s: string, st: Scan): Option<Scan> {
    if s == "" then Some(st)
    else if Stops(st, s[0]) then None
    else After(s[1..], Step(st, s[0]))
  }

  /** Where the scan stops; the length of the line if it does not. */
  function CommentAt(s: string, st: Scan): (i: nat)
    ensures i <= |s| && (i < |s| ==> s[i] == '#')
  {
    if s == "" || Stops(st, s[0]) then 0 else 1 + CommentAt(s[1..], Step(st, s[0]))
  }

  function StripLeft(s: string): string {
    if s != "" && IsSpace(s[0]) then StripLeft(s[1..]) else s
  }

  function StripRight(s: string): string {
    if s != "" && IsSpace(s[|s| - 1]) then StripRight(s[..|s| - 1]) else s
  }

  function Strip(s: string): string { StripRight(StripLeft(s)) }

  function TrailingComment(line: string): string {
    var i := CommentAt(line, OUTSIDE);
    if i == |line| then "" else "  " + Strip(line[i..])
  }

  /** The loop over the line. */
  method FindTrailingComment(line: string) returns (comment: string)
    ensures comment == TrailingComment(line)
  {
    var inString, escape := false, false;
    for index := 0 to |line|
      invariant CommentAt(line, OUTSIDE) == index + CommentAt(line[index..], Scan(inString, escape))
    {
      var c := line[index];
      assert line[index..][1..] == line[index + 1..];
      if c == '"' && !escape {
        inString := !inString;
      }
      if c == '#' && !inString {
        return "  " + Strip(line[index..]);
      }
      escape := c == '\\' && !escape;
      if c != '\\' {
        escape := false;
      }
    }
    comment := "";
  }

  // ----- The scanner is never fooled by a literal -----

  lemma {:induction false} AfterConcat(a: string, b: string, st: Scan)
    ensures After(a + b, st) == if After(a, st).None? then None else After(b, After(a, st).value)
  {
    if a == "" {
      assert a + b == b;
    } else {
      assert (a + b)[1..] == a[1..] + b;
      AfterConcat(a[1..], b, Step(st, a[0]));
    }
  }

  /** Text without quotes, backslashes and hashes leaves a settled scanner where it was. */
  predicate IsPlain(s: string) {
    forall i :: 0 <= i < |s| ==> s[i] != '"' && s[i] != '\\' && s[i] != '#'
  }

  lemma {:induction false} AfterPlain(s: string, inString: bool)
    requires IsPlain(s)
    ensures After(s, Scan(inString, false)) == Some(Scan(inString, false))
  {
    if s != "" {
      AfterPlain(s[1..], inString);
    }
  }

  lemma HexIsPlain(n: nat)
    requires n < 0x10000
    ensures |Hex4(n)| == 4 && IsPlain(Hex4(n)) && OneLine(Hex4(n))
  {
    hide HexDigit;
    var a, b, c, d := n / 0x1000, n / 0x100 % 16, n / 0x10 % 16, n % 16;
    HexDigitIsKeyChar(a);
    HexDigitIsKeyChar(b);
    HexDigitIsKeyChar(c);
    HexDigitIsKeyChar(d);
    FourIsPlain(HexDigit(a), HexDigit(b), HexDigit(c), HexDigit(d));
  }

  lemma FourIsPlain(a: char, b: char, c: char, d: char)
    requires IsKeyChar(a) && IsKeyChar(b) && IsKeyChar(c) && IsKeyChar(d)
    ensures IsPlain([a, b, c, d]) && OneLine([a, b, c, d])
  {
  }

  lemma HexDigitIsKeyChar(n: nat)
    requires n < 16
    ensures IsKeyChar(HexDigit(n))
  {
  }

  lemma AfterEscape(n: nat)
    requires n < 0x10000
    ensures After(UnicodeEscape(n), INSIDE) == Some(INSIDE)
  {
    HexIsPlain(n);
    AfterConcat("\\u", Hex4(n), INSIDE);
    AfterPlain(Hex4(n), true);
    assert "\\u"[1..] == "u" && "u"[1..] == "";
    assert After("\\u", INSIDE) == After("u", Scan(true, true)) == After("", INSIDE);
  }

  lemma AfterQuotedChar(n: CodePoint)
    ensures After(QuotedChar(n), INSIDE) == Some(INSIDE)
  {
    var q := QuotedChar(n);
    if |q| == 2 {
      assert q[0] == '\\' && q[1..] == [q[1]] && [q[1]][1..] == "";
      assert After(q, INSIDE) == After([q[1]], Scan(true, true)) == After("", INSIDE);
    } else if 0x20 <= n <= 0x7E {
      assert q == [n as char] && q[1..] == "";
    } else if n < 0x10000 {
      AfterEscape(n);
    } else {
      var high, low := 0xD800 + (n - 0x10000) / 0x400, 0xDC00 + (n - 0x10000) % 0x400;
      AfterEscape(high);
      AfterEscape(low);
      AfterConcat(UnicodeEscape(high), UnicodeEscape(low), INSIDE);
    }
  }

  lemma {:induction false} AfterQuotedChars(s: Unicode)
    ensures After(QuotedChars(s), INSIDE) == Some(INSIDE)
  {
    if s != [] {
      hide QuotedChar;
      AfterQuotedChar(s[0]);
      AfterQuotedChars(s[1..]);
      AfterConcat(QuotedChar(s[0]), QuotedChars(s[1..]), INSIDE);
    }
  }

  lemma AfterJsonQuote(s: Unicode)
    ensures After(JsonQuote(s), OUTSIDE) == Some(OUTSIDE)
  {
    AfterQuotedChars(s);
    AfterConcat("\"", QuotedChars(s), OUTSIDE);
    AfterConcat("\"" + QuotedChars(s), "\"", OUTSIDE);
    assert "\""[1..] == "";
    assert After("\"", OUTSIDE) == After("", INSIDE) && After("\"", INSIDE) == After("", OUTSIDE);
  }

  lemma KeyCharsArePlain(s: string)
    requires forall i :: 0 <= i < |s| ==> IsKeyChar(s[i]) || s[i] == '\n'
    ensures IsPlain(s)
  {
  }

  lemma AfterKey(key: Unicode)
    ensures After(TomlKey(key), OUTSIDE) == Some(OUTSIDE)
  {
    if PrintsBare(key) {
      KeyCharsArePlain(TomlKey(key));
      AfterPlain(TomlKey(key), false);
    } else {
      AfterJsonQuote(key);
    }
  }

  /** An identifier is printed as it is. */
  lemma IdentifierIsBare(s: string)
    requires IsIdentifier(s)
    ensures TomlKey(CodePoints(s)) == s
  {
    assert IsAscii(CodePoints(s)) && Ascii(CodePoints(s)) == s;
  }

  lemma {:induction false} NatTextDigits(n: nat)
    ensures NatText(n) != "" && forall i :: 0 <= i < |NatText(n)| ==> IsDigit(NatText(n)[i])
    ensures |NatText(n)| > 1 ==> NatText(n)[0] != '0'
    ensures |NatText(n)| == 1 && NatText(n)[0] == '0' ==> n == 0
  {
    assert forall k :: 0 <= k < 10 ==> IsDigit("0123456789"[k]) && ("0123456789"[k] == '0' ==> k == 0);
    if n >= 10 {
      NatTextDigits(n / 10);
    }
  }

  lemma IntTextIsPlain(n: int)
    ensures IntText(n) != "" && forall i :: 0 <= i < |IntText(n)| ==> IsKeyChar(IntText(n)[i])
  {
    NatTextDigits(if n < 0 then -n else n);
  }

  predicate IsFloatChar(c: char) { IsKeyChar(c) || c == '.' || c == '+' }

  predicate IsFloatText(s: string) { s != "" && forall i :: 0 <= i < |s| ==> IsFloatChar(s[i]) }

  lemma FloatTextsJoin(a: string, b: string)
    requires (a == "" || IsFloatText(a)) && (b == "" || IsFloatText(b)) && a + b != ""
    ensures IsFloatText(a + b)
  {
  }

  lemma DigitsAreFloatText(s: string)
    requires s != "" && forall i :: 0 <= i < |s| ==> IsDigit(s[i])
    ensures IsFloatText(s)
  {
  }

  lemma ExponentIsPlain(e: Exponent)
    ensures IsFloatText(ExponentText(e))
  {
    hide IsFloatText;
    DigitsAreFloatText(e.digits);
    assert IsFloatText("e-") && IsFloatText("e+") by { ShortTexts(); }
    FloatTextsJoin(if e.negative then "e-" else "e+", e.digits);
    assert "e" + "-" == "e-" && "e" + "+" == "e+";
  }

  lemma ShortTexts()
    ensures IsFloatText("e-") && IsFloatText("e+") && IsFloatText(".") && IsFloatText("-")
    ensures IsFloatText("NaN") && IsFloatText("Infinity")
  {
  }

  lemma FloatIsPlain(f: Number)
    ensures IsFloatText(FloatText(f)) && IsPlain(FloatText(f))
  {
    hide IsFloatText, ExponentText, NatText;
    ShortTexts();
    match f {
      case NotANumber =>
      case Infinite(negative) => FloatTextsJoin(Sign(negative), "Infinity");
      case Decimal(negative, whole, fraction, exponent) =>
        var tail := if exponent.Some? then ExponentText(exponent.value) else "";
        if exponent.Some? {
          ExponentIsPlain(exponent.value);
        }
        NatTextDigits(whole);
        DigitsAreFloatText(NatText(whole));
        DigitsAreFloatText(fraction);
        FloatTextsJoin(Sign(negative), NatText(whole));
        FloatTextsJoin(".", fraction);
        FloatTextsJoin("." + fraction, tail);
        FloatTextsJoin(Sign(negative) + NatText(whole), "." + fraction + tail);
      case Scientific(negative, whole, exponent) =>
        ExponentIsPlain(exponent);
        NatTextDigits(whole);
        DigitsAreFloatText(NatText(whole));
        FloatTextsJoin(Sign(negative), NatText(whole));
        FloatTextsJoin(Sign(negative) + NatText(whole), ExponentText(exponent));
    }
    FloatTextIsPlain(FloatText(f));
  }

  lemma FloatTextIsPlain(s: string)
    requires IsFloatText(s)
    ensures IsPlain(s)
  {
  }

  lemma SeparatorIsPlain(first: bool)
    ensures IsPlain(Separator(first)) && OneLine(Separator(first))
  {
  }

  /** After a whole literal the scanner is outside of every string, expects no escaped character, and
      has seen no bare `#`. */
  lemma {:induction false} AfterLiteral(v: Value)
    requires Literal(v).Some?
    ensures After(Literal(v).value, OUTSIDE) == Some(OUTSIDE)
    decreases v
  {
    match v
    case Bool(b) => AfterPlain(if b then "true" else "false", false);
    case Int(n) =>
      IntTextIsPlain(n);
      AfterPlain(IntText(n), false);
    case Float(f) =>
      FloatIsPlain(f);
      AfterPlain(FloatText(f), false);
    case Str(s) => AfterJsonQuote(s);
    case Map(entries) =>
      AfterEntries(entries, true);
      AfterBrackets("{ ", EntryList(entries, true).value, " }");
    case List(items) =>
      AfterItems(items, true);
      AfterBrackets("[", ItemList(items, true).value, "]");
    case _ =>
  }

  lemma AfterBrackets(open: string, inner: string, close: string)
    requires IsPlain(open) && IsPlain(close) && After(inner, OUTSIDE) == Some(OUTSIDE)
    ensures After(open + inner + close, OUTSIDE) == Some(OUTSIDE)
  {
    AfterPlain(open, false);
    AfterPlain(close, false);
    AfterConcat(open, inner, OUTSIDE);
    AfterConcat(open + inner, close, OUTSIDE);
  }

  lemma {:induction false} AfterEntries(entries: seq<Entry>, first: bool)
    requires EntryList(entries, first).Some?
    ensures After(EntryList(entries, first).value, OUTSIDE) == Some(OUTSIDE)
    decreases entries
  {
    if entries != [] {
      if entries[0].value.Null? {
        AfterEntries(entries[1..], first);
      } else {
        var key, literal := TomlKey(entries[0].key), Literal(entries[0].value).value;
        var rest := EntryList(entries[1..], false).value;
        AfterKey(entries[0].key);
        AfterPlain(" = ", false);
        AfterLiteral(entries[0].value);
        AfterConcat(key, " = ", OUTSIDE);
        AfterConcat(key + " = ", literal, OUTSIDE);
        AfterEntries(entries[1..], false);
        AfterListed(first, key + " = " + literal, rest);
      }
    }
  }

  lemma AfterListed(first: bool, head: string, rest: string)
    requires After(head, OUTSIDE) == Some(OUTSIDE) && After(rest, OUTSIDE) == Some(OUTSIDE)
    ensures After(Separator(first) + head + rest, OUTSIDE) == Some(OUTSIDE)
  {
    SeparatorIsPlain(first);
    AfterPlain(Separator(first), false);
    AfterConcat(Separator(first), head, OUTSIDE);
    AfterConcat(Separator(first) + head, rest, OUTSIDE);
  }

  lemma {:induction false} AfterItems(items: seq<Value>, first: bool)
    requires ItemList(items, first).Some?
    ensures After(ItemList(items, first).value, OUTSIDE) == Some(OUTSIDE)
    decreases items
  {
    if items != [] {
      AfterLiteral(items[0]);
      AfterItems(items[1..], false);
      AfterListed(first, Literal(items[0]).value, ItemList(items[1..], false).value);
    }
  }
}
