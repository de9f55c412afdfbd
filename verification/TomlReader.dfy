/** A reader of one-line TOML values, and when it reads what the editor has printed. */
module TomlReader {
  import opened Options
  import opened Characters
  import opened TomlLiteral
  import opened TomlPrinter

  /** What was read, and the text behind it. */
  datatype Found<T> = Found(value: T, rest: string)

  // ----- Strings -----

  function HexValue(c: char): Option<nat> {
    if '0' <= c <= '9' then Some(c as int - '0' as int)
    else if 'a' <= c <= 'f' then Some(c as int - 'a' as int + 10)
    else if 'A' <= c <= 'F' then Some(c as int - 'A' as int + 10)
    else None
  }

  /** The number that four hexadecimal digits stand for. */
  function HexNumber(s: string): Option<nat>
    requires |s| == 4
  {
    var a, b, c, d := HexValue(s[0]), HexValue(s[1]), HexValue(s[2]), HexValue(s[3]);
    if a.None? || b.None? || c.None? || d.None? then None
    else Some(((a.value * 16 + b.value) * 16 + c.value) * 16 + d.value)
  }

  /** The short escapes of a TOML basic string. */
  function ShortEscape(c: char): Option<CodePoint> {
    if c == 'b' then Some(0x8)
    else if c == 't' then Some(0x9)
    else if c == 'n' then Some(0xA)
    else if c == 'f' then Some(0xC)
    else if c == 'r' then Some(0xD)
    else if c == '"' then Some(0x22)
    else if c == '\\' then Some(0x5C)
    else None
  }

  predicate IsScalar(n: nat) { n < 0xD800 || 0xE000 <= n < 0x110000 }

  /** A TOML basic string behind its opening quote: short escapes, `\uXXXX` for Unicode scalar values only,
      and no raw control characters. Other escapes, which the printer does not write, are not read. */
  function StringTail(s: string): (r: Option<Found<Unicode>>)
    ensures r.Some? ==> |r.value.rest| < |s|
  {
    if s == "" then None
    else if s[0] == '"' then Some(Found([], s[1..]))
    else if s[0] == '\\' then
      if |s| < 2 then None
      else if s[1] == 'u' then
        if |s| < 6 || HexNumber(s[2..6]).None? || !IsScalar(HexNumber(s[2..6]).value) then None
        else Prefixed(HexNumber(s[2..6]).value, StringTail(s[6..]))
      else if ShortEscape(s[1]).None? then None
      else Prefixed(ShortEscape(s[1]).value, StringTail(s[2..]))
    else if (s[0] < ' ' && s[0] != '\t') || s[0] as int == 0x7F then None
    else Prefixed(s[0] as int, StringTail(s[1..]))
  }

  function Prefixed(n: CodePoint, rest: Option<Found<Unicode>>): Option<Found<Unicode>> {
    if rest.None? then None else Some(Found([n] + rest.value.value, rest.value.rest))
  }

  // ----- Numbers -----

  /** How many digits come first. */
  function DigitRun(s: string): (n: nat)
    ensures n <= |s|
  {
    if s != "" && IsDigit(s[0]) then 1 + DigitRun(s[1..]) else 0
  }

  function Unsigned(s: string): string { if s != "" && (s[0] == '-' || s[0] == '+') then s[1..] else s }

  function DigitValue(c: char): nat
    requires IsDigit(c)
  {
    c as int - '0' as int
  }

  /** The number that digits stand for, the last one counting least. */
  function Decimals(digits: string): nat
    requires forall i :: 0 <= i < |digits| ==> IsDigit(digits[i])
  {
    if digits == "" then 0
    else 10 * Decimals(digits[..|digits| - 1]) + DigitValue(digits[|digits| - 1])
  }

  lemma {:induction false} RunIsDigits(s: string)
    ensures forall i :: 0 <= i < DigitRun(s) ==> IsDigit(s[i])
  {
    if s != "" && IsDigit(s[0]) {
      RunIsDigits(s[1..]);
      assert forall i :: 0 < i < |s| ==> s[i] == s[1..][i - 1];
    }
  }

  /** `e` or `E`, a sign or none, and digits. */
  function ReadExponent(s: string): Option<Exponent> {
    if s == "" || (s[0] != 'e' && s[0] != 'E') then None
    else
      var digits := Unsigned(s[1..]);
      RunIsDigits(digits);
      if digits == "" || DigitRun(digits) < |digits| then None else Some(Exponent(s[1] == '-', digits))
  }

  /** What follows the whole part: nothing, a fraction, an exponent, or a fraction and an exponent. */
  function ReadBehindWhole(negative: bool, whole: nat, tail: string): Option<Value> {
    if tail == "" then Some(Int(if negative then -(whole as int) else whole))
    else if tail[0] == '.' then
      var k := DigitRun(tail[1..]);
      RunIsDigits(tail[1..]);
      var fraction, exponent := tail[1..][..k], tail[1..][k..];
      if k == 0 then None
      else if exponent == "" then Some(Float(Decimal(negative, whole, fraction, None)))
      else if ReadExponent(exponent).None? then None
      else Some(Float(Decimal(negative, whole, fraction, ReadExponent(exponent))))
    else if ReadExponent(tail).None? then None
    else Some(Float(Scientific(negative, whole, ReadExponent(tail).value)))
  }

  /** A whole number or a float, whose digits have no leading zero, or one of the two names. Underscores and
      other bases are not read. */
  function ReadNumber(s: string): Option<Value> {
    var negative, u := s != "" && s[0] == '-', Unsigned(s);
    var n := DigitRun(u);
    RunIsDigits(u);
    if u == "inf" then Some(Float(Infinite(negative)))
    else if u == "nan" then Some(Float(NotANumber))
    else if n == 0 || (n > 1 && u[0] == '0') then None
    else ReadBehindWhole(negative, Decimals(u[..n]), u[n..])
  }

  /** A boolean or a number. */
  function ReadWord(s: string): Option<Value> {
    if s == "true" then Some(Bool(true)) else if s == "false" then Some(Bool(false)) else ReadNumber(s)
  }

  // ----- Values -----

  function SkipBlanks(s: string): (r: string)
    ensures |r| <= |s|
  {
    if s != "" && (s[0] == ' ' || s[0] == '\t') then SkipBlanks(s[1..]) else s
  }

  /** How many characters of a boolean or a number come first. */
  function WordLength(s: string): (n: nat)
    ensures n <= |s|
  {
    if s != "" && IsFloatChar(s[0]) then 1 + WordLength(s[1..]) else 0
  }

  /** The value at the start of the text. Single-quoted and multi-line strings, dates and times, and arrays on
      more than one line are not read. */
  function ReadValue(s: string): (r: Option<Found<Value>>)
    ensures r.Some? ==> |r.value.rest| < |s|
    decreases |s|, 0
  {
    if s == "" then None
    else if s[0] == '"' then
      var r := StringTail(s[1..]);
      if r.None? then None else Some(Found(Str(r.value.value), r.value.rest))
    else if s[0] == '[' then
      var r := ReadItems(s[1..]);
      if r.None? then None else Some(Found(List(r.value.value), r.value.rest))
    else if s[0] == '{' then
      var r := ReadEntries(s[1..], true);
      if r.None? || !KeysAreDistinct(r.value.value) then None
      else Some(Found(Map(r.value.value), r.value.rest))
    else
      var n := WordLength(s);
      var r := ReadWord(s[..n]);
      if n == 0 || r.None? then None else Some(Found(r.value, s[n..]))
  }

  /** The items of an array behind its bracket, or behind a comma. */
  function ReadItems(s: string): (r: Option<Found<seq<Value>>>)
    ensures r.Some? ==> |r.value.rest| < |s|
    decreases |s|, 1
  {
    var t := SkipBlanks(s);
    if t != "" && t[0] == ']' then Some(Found([], t[1..]))
    else
      var item := ReadValue(t);
      if item.None? then None
      else
        var u := SkipBlanks(item.value.rest);
        if u != "" && u[0] == ']' then Some(Found([item.value.value], u[1..]))
        else if u == "" || u[0] != ',' then None
        else
          var more := ReadItems(u[1..]);
          if more.None? then None else Some(Found([item.value.value] + more.value.value, more.value.rest))
  }

  /** A bare key or a quoted one. */
  function ReadKey(s: string): (r: Option<Found<Unicode>>)
    ensures r.Some? ==> |r.value.rest| < |s|
  {
    var n := KeyLength(s);
    if s != "" && s[0] == '"' then StringTail(s[1..])
    else if n == 0 then None
    else Some(Found(CodePoints(s[..n]), s[n..]))
  }

  function KeyLength(s: string): (n: nat)
    ensures n <= |s|
  {
    if s != "" && IsKeyChar(s[0]) then 1 + KeyLength(s[1..]) else 0
  }

  /** The entries of an inline table behind its brace, or behind a comma. */
  function ReadEntries(s: string, first: bool): (r: Option<Found<seq<Entry>>>)
    ensures r.Some? ==> |r.value.rest| < |s|
    decreases |s|, 1
  {
    var t := SkipBlanks(s);
    if first && t != "" && t[0] == '}' then Some(Found([], t[1..]))
    else
      var e := ReadEntry(t);
      if e.None? then None
      else
        var u := SkipBlanks(e.value.rest);
        if u != "" && u[0] == '}' then Some(Found([e.value.value], u[1..]))
        else if u == "" || u[0] != ',' then None
        else
          var more := ReadEntries(u[1..], false);
          if more.None? then None else Some(Found([e.value.value] + more.value.value, more.value.rest))
  }

  function ReadEntry(s: string): (r: Option<Found<Entry>>)
    ensures r.Some? ==> |r.value.rest| < |s|
    decreases |s|, 0
  {
    var key := ReadKey(s);
    if key.None? then None
    else
      var u := SkipBlanks(key.value.rest);
      if u == "" || u[0] != '=' then None
      else
        var v := ReadValue(SkipBlanks(u[1..]));
        if v.None? then None else Some(Found(Entry(key.value.value, v.value.value), v.value.rest))
  }

  /** TOML refuses a table with the same key twice. */
  predicate KeysAreDistinct(entries: seq<Entry>) {
    forall i, j :: 0 <= i < j < |entries| ==> entries[i].key != entries[j].key
  }

  /** The value that a whole text stands for. */
  function ValueOf(s: string): Option<Value> {
    var r := ReadValue(s);
    if r.None? || r.value.rest != "" then None else Some(r.value.value)
  }

  // ----- Which values can be read back -----

  /** The value without its entries that are null, in its tables and in those inside. */
  function WithoutNulls(v: Value): Value
    decreases v
  {
    match v
    case Map(entries) => Map(EntriesWithoutNulls(entries))
    case List(items) => List(ItemsWithoutNulls(items))
    case _ => v
  }

  function EntriesWithoutNulls(entries: seq<Entry>): seq<Entry>
    decreases entries
  {
    if entries == [] then []
    else
      var e := entries[0];
      (if e.value.Null? then [] else [Entry(e.key, WithoutNulls(e.value))]) + EntriesWithoutNulls(entries[1..])
  }

  function ItemsWithoutNulls(items: seq<Value>): seq<Value>
    decreases items
  {
    if items == [] then [] else [WithoutNulls(items[0])] + ItemsWithoutNulls(items[1..])
  }

  /** A scalar value that fits into one `\uXXXX`. */
  predicate IsReadable(n: CodePoint) { n < 0xD800 || 0xE000 <= n < 0x10000 }

  predicate IsReadableText(s: Unicode) { forall i :: 0 <= i < |s| ==> IsReadable(s[i]) }

  /** Strings and keys of readable characters, no key that is an identifier followed by a newline, no key
      twice, and finite floats. */
  predicate CanBeRead(v: Value)
    decreases v
  {
    match v
    case Float(f) => f.Decimal? || f.Scientific?
    case Str(s) => IsReadableText(s)
    case Map(entries) =>
      && KeysAreDistinct(EntriesWithoutNulls(entries))
      && EntriesCanBeRead(entries)
    case List(items) => forall i :: 0 <= i < |items| ==> CanBeRead(items[i])
    case _ => true
  }

  predicate EntriesCanBeRead(entries: seq<Entry>)
    decreases entries
  {
    forall i :: 0 <= i < |entries| ==> entries[i].value.Null? || EntryCanBeRead(entries[i])
  }

  predicate EntryCanBeRead(e: Entry)
    decreases e
  {
    IsReadableText(e.key) && OneLine(TomlKey(e.key)) && CanBeRead(e.value)
  }

  // ----- Numbers are read back -----

  lemma {:induction false} RunOfDigits(a: string, b: string)
    requires (forall i :: 0 <= i < |a| ==> IsDigit(a[i])) && (b == "" || !IsDigit(b[0]))
    ensures DigitRun(a + b) == |a| && (a + b)[|a|..] == b
  {
    if a == "" {
      assert a + b == b;
    } else {
      assert (a + b)[0] == a[0] && (a + b)[1..] == a[1..] + b;
      RunOfDigits(a[1..], b);
    }
  }

  lemma {:induction false} DecimalsOfText(n: nat)
    ensures (forall i :: 0 <= i < |NatText(n)| ==> IsDigit(NatText(n)[i])) && Decimals(NatText(n)) == n
  {
    NatTextDigits(n);
    var s := NatText(n);
    DigitIs(n % 10);
    if n < 10 {
      assert s[..0] == "" && n % 10 == n;
    } else {
      DecimalsOfText(n / 10);
      assert s[..|s| - 1] == NatText(n / 10);
    }
  }

  lemma DigitIs(k: nat)
    requires k < 10
    ensures IsDigit("0123456789"[k]) && DigitValue("0123456789"[k]) == k
  {
  }

  /** What comes first in a printed number: its sign, and its whole part without a leading zero. */
  lemma WholeReads(negative: bool, whole: nat, tail: string)
    requires tail == "" || !IsDigit(tail[0])
    ensures ReadNumber(Sign(negative) + NatText(whole) + tail) == ReadBehindWhole(negative, whole, tail)
  {
    hide NatText, ReadBehindWhole, Decimals;
    DecimalsOfText(whole);
    NatTextDigits(whole);
    var digits, s := NatText(whole), Sign(negative) + NatText(whole) + tail;
    if negative {
      assert s[0] == '-' && s[1..] == digits + tail;
    } else {
      assert s == digits + tail && s[0] == digits[0];
    }
    assert Unsigned(s) == digits + tail;
    RunOfDigits(digits, tail);
    assert (digits + tail)[0] == digits[0] && (digits + tail)[..|digits|] == digits;
    assert "inf"[0] == 'i' && "nan"[0] == 'n';
  }

  lemma IntReads(n: int)
    ensures ReadNumber(IntText(n)) == Some(Int(n))
  {
    hide NatText, ReadNumber;
    var whole := if n < 0 then -n else n;
    WholeReads(n < 0, whole, "");
    assert IntText(n) == Sign(n < 0) + NatText(whole) + "";
  }

  lemma ExponentReads(e: Exponent)
    ensures ReadExponent(ExponentText(e)) == Some(e) && ExponentText(e) != "" && ExponentText(e)[0] == 'e'
  {
    var s := ExponentText(e);
    assert s[1..] == (if e.negative then "-" else "+") + e.digits;
    assert Unsigned(s[1..]) == e.digits;
    RunOfDigits(e.digits, "");
    assert e.digits + "" == e.digits;
  }

  lemma DecimalReads(negative: bool, whole: nat, fraction: Digits, exponent: Option<Exponent>)
    ensures var f := Decimal(negative, whole, fraction, exponent); ReadNumber(FloatText(f)) == Some(Float(f))
  {
    hide NatText, ReadNumber, ExponentText, ReadExponent;
    var last := if exponent.Some? then ExponentText(exponent.value) else "";
    if exponent.Some? {
      ExponentReads(exponent.value);
    }
    var tail := "." + fraction + last;
    assert tail[0] == '.' && tail[1..] == fraction + last;
    RunOfDigits(fraction, last);
    assert (fraction + last)[..|fraction|] == fraction;
    WholeReads(negative, whole, tail);
    var f := Decimal(negative, whole, fraction, exponent);
    assert FloatText(f) == Sign(negative) + NatText(whole) + tail;
  }

  lemma ScientificReads(negative: bool, whole: nat, power: Exponent)
    ensures var f := Scientific(negative, whole, power); ReadNumber(FloatText(f)) == Some(Float(f))
  {
    hide NatText, ReadNumber, ExponentText, ReadExponent;
    ExponentReads(power);
    WholeReads(negative, whole, ExponentText(power));
    assert FloatText(Scientific(negative, whole, power)) == Sign(negative) + NatText(whole) + ExponentText(power);
  }

  /** A printed float reads as the same number exactly if it is finite. The names that are printed for the
      others are in capitals, which TOML refuses. */
  lemma FloatReadsIff(f: Number)
    ensures ReadNumber(FloatText(f)) == if f.Decimal? || f.Scientific? then Some(Float(f)) else None
  {
    hide ReadNumber;
    match f
    case NotANumber => NamesAreRefused();
    case Infinite(_) => NamesAreRefused();
    case Decimal(negative, whole, fraction, exponent) => DecimalReads(negative, whole, fraction, exponent);
    case Scientific(negative, whole, power) => ScientificReads(negative, whole, power);
  }

  lemma NamesAreRefused()
    ensures ReadNumber("NaN").None? && ReadNumber(Sign(false) + "Infinity").None?
    ensures ReadNumber(Sign(true) + "Infinity").None?
  {
    assert Sign(false) + "Infinity" == "Infinity" && (Sign(true) + "Infinity")[1..] == "Infinity";
    assert "Infinity"[0] == 'I' && "NaN"[0] == 'N' && "inf"[0] == 'i' && "nan"[0] == 'n';
    assert DigitRun("Infinity") == 0 && DigitRun("NaN") == 0;
  }

  // ----- Strings are read back -----

  lemma HexDigitValue(n: nat)
    requires n < 16
    ensures HexValue(HexDigit(n)) == Some(n)
  {
  }

  lemma DigitsAddUp(n: nat)
    ensures n == ((n / 0x1000 * 16 + n / 0x100 % 16) * 16 + n / 0x10 % 16) * 16 + n % 16
  {
    var m := n / 0x10;
    var l := m / 0x10;
    assert n / 0x100 == l;
    assert n / 0x1000 == l / 0x10;
  }

  lemma HexRoundTrip(n: nat)
    requires n < 0x10000
    ensures HexNumber(Hex4(n)) == Some(n)
  {
    hide HexValue, HexDigit;
    var a, b, c, d := n / 0x1000, n / 0x100 % 16, n / 0x10 % 16, n % 16;
    DigitsAddUp(n);
    HexDigitValue(a);
    HexDigitValue(b);
    HexDigitValue(c);
    HexDigitValue(d);
  }

  predicate IsShort(n: CodePoint) { n == 0x22 || n == 0x5C || 0x8 <= n <= 0xA || n == 0xC || n == 0xD }

  /** A character that has a short escape, and which. */
  lemma ShortQuoted(n: CodePoint)
    ensures var q := QuotedChar(n);
      IsShort(n) ==> |q| == 2 && q == ['\\', q[1]] && ShortEscape(q[1]) == Some(n)
  {
  }

  lemma ReadUnicode(n: nat, rest: string)
    requires n < 0x10000
    ensures StringTail(UnicodeEscape(n) + rest) == if IsScalar(n) then Prefixed(n, StringTail(rest)) else None
  {
    hide HexNumber, Hex4;
    HexRoundTrip(n);
    HexIsPlain(n);
    var s := UnicodeEscape(n) + rest;
    assert s[0] == '\\' && s[1] == 'u' && s[2..6] == Hex4(n) && s[6..] == rest;
  }

  lemma ReadShort(escape: char, rest: string)
    requires ShortEscape(escape).Some?
    ensures StringTail(['\\', escape] + rest) == Prefixed(ShortEscape(escape).value, StringTail(rest))
  {
    var s := ['\\', escape] + rest;
    assert s[0] == '\\' && s[1] == escape && s[2..] == rest;
  }

  lemma ReadChar(n: CodePoint, rest: string)
    ensures StringTail(QuotedChar(n) + rest) == if IsReadable(n) then Prefixed(n, StringTail(rest)) else None
  {
    hide UnicodeEscape, HexNumber, ShortEscape, StringTail;
    var s := QuotedChar(n) + rest;
    ShortQuoted(n);
    if IsShort(n) {
      ReadShort(QuotedChar(n)[1], rest);
    } else if 0x20 <= n <= 0x7E {
      ReadRaw(n as char, rest);
    } else if n < 0x10000 {
      ReadUnicode(n, rest);
    } else {
      var high, low := 0xD800 + (n - 0x10000) / 0x400, 0xDC00 + (n - 0x10000) % 0x400;
      ReadUnicode(high, UnicodeEscape(low) + rest);
      assert s == UnicodeEscape(high) + (UnicodeEscape(low) + rest);
    }
  }

  lemma ReadRaw(c: char, rest: string)
    requires ' ' <= c <= '~' && c != '"' && c != '\\'
    ensures StringTail([c] + rest) == Prefixed(c as int, StringTail(rest))
  {
    assert ([c] + rest)[0] == c && ([c] + rest)[1..] == rest;
  }

  /** A printed string reads as the string itself exactly if every character is a scalar value up to U+FFFF;
      otherwise TOML refuses it. */
  lemma {:induction false} StringReadsBackIff(s: Unicode, rest: string)
    ensures StringTail(QuotedChars(s) + "\"" + rest) == if IsReadableText(s) then Some(Found(s, rest)) else None
  {
    hide QuotedChar, IsReadable;
    if s == [] {
      var closed := "\"" + rest;
      assert QuotedChars(s) + "\"" + rest == closed && closed[0] == '"' && closed[1..] == rest;
    } else {
      var tail := QuotedChars(s[1..]) + "\"" + rest;
      assert QuotedChars(s) + "\"" + rest == QuotedChar(s[0]) + tail;
      ReadChar(s[0], tail);
      StringReadsBackIff(s[1..], rest);
      assert s == [s[0]] + s[1..];
      ReadableTail(s);
    }
  }

  lemma ReadableTail(s: Unicode)
    requires s != []
    ensures IsReadableText(s) <==> IsReadable(s[0]) && IsReadableText(s[1..])
  {
    assert forall i :: 0 < i < |s| ==> s[i] == s[1..][i - 1];
    assert forall i :: 0 <= i < |s[1..]| ==> s[1..][i] == s[i + 1];
  }

  /** The two kinds of strings that fail: one with a lone surrogate, which is printed as it is, and one
      with a character above U+FFFF, which is printed as two surrogates. */
  lemma SurrogatesAreRefused(a: Unicode, n: CodePoint, b: Unicode, rest: string)
    requires 0xD800 <= n < 0xE000 || 0x10000 <= n
    ensures Literal(Str(a + [n] + b)).Some? && StringTail(QuotedChars(a + [n] + b) + "\"" + rest) == None
  {
    var s := a + [n] + b;
    assert s[|a|] == n && !IsReadable(s[|a|]);
    StringReadsBackIff(s, rest);
  }

  // ----- Whole values are read back -----

  /** What may stand behind a boolean or a number. */
  predicate EndsWord(rest: string) { rest == "" || !IsFloatChar(rest[0]) }

  lemma {:induction false} WordLengthOf(a: string, rest: string)
    requires (forall i :: 0 <= i < |a| ==> IsFloatChar(a[i])) && EndsWord(rest)
    ensures WordLength(a + rest) == |a|
  {
    if a == "" {
      assert a + rest == rest;
    } else {
      assert (a + rest)[0] == a[0] && (a + rest)[1..] == a[1..] + rest;
      WordLengthOf(a[1..], rest);
    }
  }

  lemma WordReads(text: string, rest: string)
    requires IsFloatText(text) && EndsWord(rest)
    ensures ReadValue(text + rest) ==
      if ReadWord(text).None? then None else Some(Found(ReadWord(text).value, rest))
  {
    hide ReadWord, WordLength, StringTail;
    WordLengthOf(text, rest);
    var s := text + rest;
    assert s[0] == text[0] && s[..|text|] == text && s[|text|..] == rest;
  }

  lemma BoolReads(b: bool, rest: string)
    requires EndsWord(rest)
    ensures ReadValue((if b then "true" else "false") + rest) == Some(Found(Bool(b), rest))
  {
    hide ReadValue, ReadNumber;
    WordReads(if b then "true" else "false", rest);
  }

  lemma NumberIsNoBool(s: string)
    requires s != "" && s[0] != 't' && s[0] != 'f'
    ensures ReadWord(s) == ReadNumber(s)
  {
    hide ReadNumber;
    assert "true"[0] == 't' && "false"[0] == 'f';
  }

  lemma IntTextStarts(n: int)
    ensures IsFloatText(IntText(n)) && IntText(n)[0] != 't' && IntText(n)[0] != 'f'
  {
    hide NatText;
    NatTextDigits(if n < 0 then -n else n);
  }

  lemma FloatTextStarts(f: Number)
    ensures IsFloatText(FloatText(f)) && FloatText(f)[0] != 't' && FloatText(f)[0] != 'f'
  {
    hide NatText, ExponentText;
    FloatIsPlain(f);
    match f
    case Decimal(_, whole, _, _) => NatTextDigits(whole);
    case Scientific(_, whole, _) => NatTextDigits(whole);
    case _ =>
  }

  /** A printed value begins with none of the characters that end a list, and with no blank. */
  predicate StartsValue(s: string) {
    s != "" && s[0] != ' ' && s[0] != '\t' && s[0] != ']' && s[0] != '}'
  }

  lemma LiteralStarts(v: Value)
    requires Literal(v).Some?
    ensures StartsValue(Literal(v).value)
  {
    hide FloatText, IntText;
    match v
    case Int(n) => IntTextStarts(n);
    case Float(f) => FloatTextStarts(f);
    case _ =>
  }

  /** The main result about printed values. What is read is the value less its null entries, exactly if it
      can be read; otherwise it is refused. */
  lemma {:induction false} LiteralReadsIff(v: Value, rest: string)
    requires Literal(v).Some? && EndsWord(rest)
    ensures ReadValue(Literal(v).value + rest) ==
      if CanBeRead(v) then Some(Found(WithoutNulls(v), rest)) else None
    decreases v
  {
    hide FloatText, IntText, ReadNumber, ReadWord, EndsWord;
    match v
    case Bool(b) => BoolReads(b, rest);
    case Int(n) =>
      hide ReadValue;
      IntTextStarts(n);
      NumberIsNoBool(IntText(n));
      IntReads(n);
      WordReads(IntText(n), rest);
    case Float(f) =>
      hide ReadValue;
      FloatTextStarts(f);
      NumberIsNoBool(FloatText(f));
      FloatReadsIff(f);
      WordReads(FloatText(f), rest);
    case Str(s) => QuoteReads(s, rest);
    case Map(entries) =>
      EntriesRead(entries, true, rest);
      TableReads(entries, rest);
    case List(items) =>
      ItemsRead(items, rest);
      ArrayReads(items, rest);
    case _ =>
  }

  lemma QuoteReads(s: Unicode, rest: string)
    ensures ReadValue(JsonQuote(s) + rest) == if IsReadableText(s) then Some(Found(Str(s), rest)) else None
  {
    hide StringTail, QuotedChars;
    var text := JsonQuote(s) + rest;
    assert text[0] == '"' && text[1..] == QuotedChars(s) + "\"" + rest;
    StringReadsBackIff(s, rest);
  }

  lemma ArrayReads(items: seq<Value>, rest: string)
    requires ItemList(items, true).Some?
    requires ReadItems(ItemList(items, true).value + "]" + rest) ==
      if CanBeRead(List(items)) then Some(Found(ItemsWithoutNulls(items), rest)) else None
    ensures ReadValue(Literal(List(items)).value + rest) ==
      if CanBeRead(List(items)) then Some(Found(WithoutNulls(List(items)), rest)) else None
  {
    hide ReadItems, ItemList, CanBeRead, ItemsWithoutNulls;
    var text := Literal(List(items)).value + rest;
    assert text[0] == '[' && text[1..] == ItemList(items, true).value + "]" + rest;
  }

  lemma SkipOne(s: string)
    ensures SkipBlanks(" " + s) == SkipBlanks(s)
  {
    assert (" " + s)[1..] == s;
  }

  lemma NothingToSkip(s: string)
    requires s == "" || (s[0] != ' ' && s[0] != '\t')
    ensures SkipBlanks(s) == s
  {
  }

  lemma BlankBeforeItems(s: string)
    ensures ReadItems(" " + s) == ReadItems(s)
  {
    hide ReadValue, SkipBlanks;
    SkipOne(s);
  }

  /** An array read item by item: the text of one value, and what stands behind it. */
  lemma ItemThen(head: string, tail: string)
    requires StartsValue(head) && tail != "" && (tail[0] == ',' || tail[0] == ']')
    ensures ReadItems(head + tail) ==
      var item := ReadValue(head + tail);
      if item.None? then None
      else if item.value.rest != tail then ReadItems(head + tail)
      else if tail[0] == ']' then Some(Found([item.value.value], tail[1..]))
      else
        var more := ReadItems(tail[1..]);
        if more.None? then None else Some(Found([item.value.value] + more.value.value, more.value.rest))
  {
    hide ReadValue, SkipBlanks;
    NothingToSkip(head + tail);
    NothingToSkip(tail);
  }

  lemma {:induction false} ItemsRead(items: seq<Value>, rest: string)
    requires ItemList(items, true).Some?
    ensures ReadItems(ItemList(items, true).value + "]" + rest) ==
      if CanBeRead(List(items)) then Some(Found(ItemsWithoutNulls(items), rest)) else None
    decreases items
  {
    hide ReadValue, ReadItems, Literal, StartsValue, ItemList, CanBeRead, WithoutNulls;
    if items == [] {
      NoItems(rest);
    } else {
      var head, more := ItemListParts(items);
      var tail := more + "]" + rest;
      assert ItemList(items, true).value + "]" + rest == head + tail;
      LiteralStarts(items[0]);
      LiteralReadsIff(items[0], tail);
      ItemThen(head, tail);
      ListTail(items);
      if items[1..] != [] {
        var next := ItemList(items[1..], true).value + "]" + rest;
        ItemsRead(items[1..], rest);
        assert tail[1..] == " " + next;
        BlankBeforeItems(next);
      } else {
        assert tail[1..] == rest;
        assert [WithoutNulls(items[0])] + [] == [WithoutNulls(items[0])];
        NoItems(rest);
      }
    }
  }

  lemma ItemListParts(items: seq<Value>) returns (head: string, more: string)
    requires ItemList(items, true).Some? && items != []
    ensures Literal(items[0]) == Some(head) && ItemList(items[1..], true).Some?
    ensures more == if items[1..] == [] then "" else ", " + ItemList(items[1..], true).value
    ensures ItemList(items, true).value == head + more
  {
    hide Literal;
    head, more := Literal(items[0]).value, ItemList(items[1..], false).value;
    assert "" + head + more == head + more;
    MoreItems(items[1..]);
  }

  /** Behind the first item comes nothing, or a comma and the other items. */
  lemma MoreItems(items: seq<Value>)
    requires ItemList(items, false).Some?
    ensures ItemList(items, true).Some?
    ensures ItemList(items, false).value == if items == [] then "" else ", " + ItemList(items, true).value
  {
    hide Literal;
    if items != [] {
      var first, others := Literal(items[0]).value, ItemList(items[1..], false).value;
      assert ", " + first + others == ", " + ("" + first + others);
    }
  }

  lemma NoItems(rest: string)
    ensures ItemList([], true) == Some("") && ReadItems("" + "]" + rest) == Some(Found([], rest))
    ensures ItemsWithoutNulls([]) == [] && CanBeRead(List([]))
  {
    hide ReadValue, SkipBlanks;
    assert "" + "]" + rest == "]" + rest;
    NothingToSkip("]" + rest);
    assert ("]" + rest)[1..] == rest;
  }

  lemma ListTail(items: seq<Value>)
    requires items != []
    ensures CanBeRead(List(items)) <==> CanBeRead(items[0]) && CanBeRead(List(items[1..]))
  {
    assert forall i :: 0 < i < |items| ==> items[i] == items[1..][i - 1];
    assert forall i :: 0 <= i < |items[1..]| ==> items[1..][i] == items[i + 1];
  }

  // ----- Keys and entries are read back -----

  lemma {:induction false} KeyLengthOf(a: string, rest: string)
    requires (forall i :: 0 <= i < |a| ==> IsKeyChar(a[i])) && (rest == "" || !IsKeyChar(rest[0]))
    ensures KeyLength(a + rest) == |a|
  {
    if a == "" {
      assert a + rest == rest;
    } else {
      assert (a + rest)[0] == a[0] && (a + rest)[1..] == a[1..] + rest;
      KeyLengthOf(a[1..], rest);
    }
  }

  lemma WordIsRead(key: Unicode, rest: string)
    requires IsWord(key) && (rest == "" || !IsKeyChar(rest[0]))
    ensures ReadKey(Ascii(key) + rest) == Some(Found(key, rest)) && IsReadableText(key)
  {
    hide StringTail;
    var word := Ascii(key);
    KeyLengthOf(word, rest);
    var s := word + rest;
    assert s[0] == word[0] && s[..|word|] == word && s[|word|..] == rest;
    assert CodePoints(word) == key;
  }

  /** A printed key reads as the key, except that one with a newline at its end reads without it. */
  lemma KeyReads(key: Unicode, rest: string)
    requires rest != "" && rest[0] == ' '
    ensures ReadKey(TomlKey(key) + rest) ==
      if IsWord(key) then Some(Found(key, rest))
      else if PrintsBare(key) then Some(Found(key[..|key| - 1], "\n" + rest))
      else if IsReadableText(key) then Some(Found(key, rest))
      else None
    ensures IsWord(key) ==> IsReadableText(key)
  {
    hide ReadKey, JsonQuote, IsIdentifier, IsReadableText;
    if IsWord(key) {
      WordIsRead(key, rest);
    } else if PrintsBare(key) {
      WordIsRead(key[..|key| - 1], "\n" + rest);
      assert TomlKey(key) + rest == Ascii(key[..|key| - 1]) + ("\n" + rest);
    } else {
      QuotedKeyReads(key, rest);
    }
  }

  lemma QuotedKeyReads(key: Unicode, rest: string)
    ensures ReadKey(JsonQuote(key) + rest) == if IsReadableText(key) then Some(Found(key, rest)) else None
  {
    hide StringTail, QuotedChars;
    var s := JsonQuote(key) + rest;
    assert s[0] == '"' && s[1..] == QuotedChars(key) + "\"" + rest;
    StringReadsBackIff(key, rest);
  }

  /** One entry: the key, then ` = `, then the value. */
  lemma EntryReads(e: Entry, tail: string)
    requires EntryText(e).Some?
    requires ReadValue(Literal(e.value).value + tail) ==
      if CanBeRead(e.value) then Some(Found(WithoutNulls(e.value), tail)) else None
    ensures ReadEntry(EntryText(e).value + tail) ==
      if EntryCanBeRead(e) then Some(Found(Entry(e.key, WithoutNulls(e.value)), tail)) else None
  {
    hide ReadValue, ReadKey, Literal, TomlKey, IsReadableText, CanBeRead, WithoutNulls, IsWord, PrintsBare, OneLine;
    var literal := Literal(e.value).value;
    var behind := " = " + literal + tail;
    assert EntryText(e).value + tail == TomlKey(e.key) + behind;
    KeyReads(e.key, behind);
    KeyOneLineIff(e.key);
    NothingToSkip("\n" + behind);
    LiteralStarts(e.value);
    EqualsSkipped(literal, tail);
  }

  lemma EqualsSkipped(literal: string, tail: string)
    requires StartsValue(literal)
    ensures var u := SkipBlanks(" = " + literal + tail);
      u != "" && u[0] == '=' && SkipBlanks(u[1..]) == literal + tail
  {
    hide SkipBlanks;
    var u := "= " + literal + tail;
    assert " = " + literal + tail == " " + u;
    SkipOne(u);
    NothingToSkip(u);
    assert u[1..] == " " + (literal + tail);
    SkipOne(literal + tail);
    NothingToSkip(literal + tail);
  }

  lemma BlankBeforeEntries(s: string, first: bool)
    ensures ReadEntries(" " + s, first) == ReadEntries(s, first)
  {
    hide ReadEntry, SkipBlanks;
    SkipOne(s);
  }

  lemma NoEntries(rest: string)
    ensures ReadEntries(" }" + rest, true) == Some(Found([], rest))
  {
    hide ReadEntry, SkipBlanks;
    assert " }" + rest == " " + ("}" + rest);
    SkipOne("}" + rest);
    NothingToSkip("}" + rest);
    assert ("}" + rest)[1..] == rest;
  }

  /** A table read entry by entry: the text of one entry, and what stands behind it. */
  lemma EntryThen(head: string, tail: string, first: bool)
    requires StartsValue(head) && tail != "" && (tail[0] == ',' || (|tail| > 1 && tail[..2] == " }"))
    ensures ReadEntries(head + tail, first) ==
      var e := ReadEntry(head + tail);
      if e.None? then None
      else if e.value.rest != tail then ReadEntries(head + tail, first)
      else if tail[0] != ',' then Some(Found([e.value.value], tail[2..]))
      else
        var more := ReadEntries(tail[1..], false);
        if more.None? then None else Some(Found([e.value.value] + more.value.value, more.value.rest))
  {
    hide ReadEntry, SkipBlanks;
    NothingToSkip(head + tail);
    if tail[0] == ',' {
      NothingToSkip(tail);
    } else {
      assert tail == " " + tail[1..];
      SkipOne(tail[1..]);
      NothingToSkip(tail[1..]);
    }
  }

  lemma KeyStarts(key: Unicode)
    ensures StartsValue(TomlKey(key))
  {
    if IsWord(key) {
      assert IsKeyChar(Ascii(key)[0]);
    } else if PrintsBare(key) {
      assert IsKeyChar(Ascii(key[..|key| - 1])[0]);
    }
  }

  lemma EntryStarts(e: Entry)
    requires EntryText(e).Some?
    ensures StartsValue(EntryText(e).value)
  {
    hide TomlKey, Literal;
    KeyStarts(e.key);
  }

  lemma {:induction false} EntriesRead(entries: seq<Entry>, first: bool, rest: string)
    requires EntryList(entries, true).Some? && (first || EntriesWithoutNulls(entries) != [])
    ensures ReadEntries(EntryList(entries, true).value + " }" + rest, first) ==
      if EntriesCanBeRead(entries) then Some(Found(EntriesWithoutNulls(entries), rest)) else None
    decreases entries
  {
    hide ReadValue, ReadEntries, ReadEntry, EntryText, StartsValue, EntryList, EntryCanBeRead, EntriesCanBeRead,
      WithoutNulls, CanBeRead, Literal;
    EntriesTail(entries);
    if entries == [] {
      NoEntries(rest);
      assert "" + " }" + rest == " }" + rest;
    } else if entries[0].value.Null? {
      NullIsSkipped(entries);
      EntriesRead(entries[1..], first, rest);
    } else {
      var e, others := entries[0], entries[1..];
      var head, more := EntryListParts(entries);
      var tail := more + " }" + rest;
      assert EntryList(entries, true).value + " }" + rest == head + tail;
      EntryStarts(e);
      LiteralReadsIff(e.value, tail);
      EntryReads(e, tail);
      EntryThen(head, tail, first);
      if EntriesWithoutNulls(others) != [] {
        var next := EntryList(others, true).value + " }" + rest;
        EntriesRead(others, false, rest);
        assert tail[1..] == " " + next;
        BlankBeforeEntries(next, false);
      } else {
        assert tail[2..] == rest;
        assert [Entry(e.key, WithoutNulls(e.value))] + [] == [Entry(e.key, WithoutNulls(e.value))];
      }
    }
  }

  /** All entries can be read if the first one can and the others can; null entries count for nothing. */
  lemma EntriesTail(entries: seq<Entry>)
    ensures entries == [] ==> EntriesCanBeRead(entries) && EntryList(entries, true) == Some("")
    ensures entries != [] ==>
      (EntriesCanBeRead(entries) <==>
       (entries[0].value.Null? || EntryCanBeRead(entries[0])) && EntriesCanBeRead(entries[1..]))
  {
    hide EntryCanBeRead;
    if entries != [] {
      assert forall i :: 0 < i < |entries| ==> entries[i] == entries[1..][i - 1];
      assert forall i :: 0 <= i < |entries[1..]| ==> entries[1..][i] == entries[i + 1];
    }
  }

  lemma NullIsSkipped(entries: seq<Entry>)
    requires entries != [] && entries[0].value.Null?
    ensures EntryList(entries, true) == EntryList(entries[1..], true)
    ensures EntriesWithoutNulls(entries) == EntriesWithoutNulls(entries[1..])
  {
    assert [] + EntriesWithoutNulls(entries[1..]) == EntriesWithoutNulls(entries[1..]);
  }

  lemma EntryListParts(entries: seq<Entry>) returns (head: string, more: string)
    requires EntryList(entries, true).Some? && entries != [] && !entries[0].value.Null?
    ensures EntryText(entries[0]) == Some(head) && Literal(entries[0].value).Some?
    ensures EntryList(entries[1..], true).Some? && EntryList(entries, true).value == head + more
    ensures if EntriesWithoutNulls(entries[1..]) == [] then more == "" && EntriesCanBeRead(entries[1..])
            else more == ", " + EntryList(entries[1..], true).value
  {
    hide EntryText, EntriesWithoutNulls, EntriesCanBeRead;
    head, more := EntryText(entries[0]).value, EntryList(entries[1..], false).value;
    assert "" + head + more == head + more;
    HasLiteral(entries[0]);
    MoreEntries(entries[1..]);
  }

  lemma HasLiteral(e: Entry)
    requires EntryText(e).Some?
    ensures Literal(e.value).Some?
  {
    hide Literal;
  }

  /** Behind the first entry comes nothing, or a comma and the other entries. */
  lemma {:induction false} MoreEntries(entries: seq<Entry>)
    requires EntryList(entries, false).Some?
    ensures EntryList(entries, true).Some?
    ensures var more := EntryList(entries, false).value;
      if EntriesWithoutNulls(entries) == [] then more == "" && EntriesCanBeRead(entries)
      else more == ", " + EntryList(entries, true).value
    decreases entries
  {
    hide EntryText, EntryCanBeRead, EntriesCanBeRead, WithoutNulls;
    EntriesTail(entries);
    if entries != [] {
      if entries[0].value.Null? {
        MoreEntries(entries[1..]);
      } else {
        var first, others := EntryText(entries[0]).value, EntryList(entries[1..], false).value;
        assert ", " + first + others == ", " + ("" + first + others);
      }
    }
  }

  lemma TableReads(entries: seq<Entry>, rest: string)
    requires EntryList(entries, true).Some?
    requires ReadEntries(EntryList(entries, true).value + " }" + rest, true) ==
      if EntriesCanBeRead(entries) then Some(Found(EntriesWithoutNulls(entries), rest)) else None
    ensures ReadValue(Literal(Map(entries)).value + rest) ==
      if CanBeRead(Map(entries)) then Some(Found(WithoutNulls(Map(entries)), rest)) else None
  {
    hide ReadEntries, EntryList, EntriesCanBeRead, EntriesWithoutNulls, KeysAreDistinct;
    var text, inner := Literal(Map(entries)).value + rest, EntryList(entries, true).value + " }" + rest;
    assert text[0] == '{' && text[1..] == " " + inner;
    BlankBeforeEntries(inner, true);
  }

  /** So a whole printed text stands for the value less its null entries, exactly if the value can be read. */
  lemma ValueReadsBackIff(v: Value)
    requires Literal(v).Some?
    ensures ValueOf(Literal(v).value) == if CanBeRead(v) then Some(WithoutNulls(v)) else None
  {
    hide Literal, ReadValue, CanBeRead;
    LiteralReadsIff(v, "");
    assert Literal(v).value + "" == Literal(v).value;
  }
}
