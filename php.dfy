/**
 * The PHP language rules and WordPress helpers the plugin leans on.
 *
 * PHP arrays holding form data, sanitised records and database rows are
 * modelled as maps from the keys the plugin reads (an enumeration, one
 * constructor per array key) to scalar `Value`s.  Helpers whose
 * behaviour is fully determined by a few lines of WordPress or PHP
 * (`sanitize_key`, `absint`, `(bool)`, `esc_html`, `nl2br`, `preg_match`
 * with an anchored character class, `==` between strings) are given here
 * concretely; helpers whose internals are large (`sanitize_text_field`,
 * `esc_url`, `filter_var`, the media library) are fields of `Helpers`,
 * so every fact the model uses about them is an explicit hypothesis.
 */
module Php {

  datatype Option<T> = None | Some(value: T)

  /** A PHP scalar as it can sit in an array. */
  datatype Value = Null | Bool(b: bool) | Int(i: int) | Str(s: string)

  /** The array keys the plugin reads; other keys are never looked at. */
  datatype Key =
    | Id | Name | Indicators | Controls | Transition | Autoplay | Interval
    | Keyboard | Touch | PauseHover | Wrap | Active | ImageHeight | ImageFit
    | CreatedAt | ModifiedAt
    | SliderId | SlideOrder | ImageId | ImageUrl | ImageAlt
    | CaptionEnabled | CaptionTitle | CaptionText
    | ButtonEnabled | ButtonText | ButtonUrl | ButtonStyle | ButtonNewTab

  /** The PHP spelling of each key. */
  function KeyName(k: Key): string {
    match k
    case Id => "id"
    case Name => "name"
    case Indicators => "indicators"
    case Controls => "controls"
    case Transition => "transition"
    case Autoplay => "autoplay"
    case Interval => "interval"
    case Keyboard => "keyboard"
    case Touch => "touch"
    case PauseHover => "pause_hover"
    case Wrap => "wrap"
    case Active => "active"
    case ImageHeight => "image_height"
    case ImageFit => "image_fit"
    case CreatedAt => "created_at"
    case ModifiedAt => "modified_at"
    case SliderId => "slider_id"
    case SlideOrder => "slide_order"
    case ImageId => "image_id"
    case ImageUrl => "image_url"
    case ImageAlt => "image_alt"
    case CaptionEnabled => "caption_enabled"
    case CaptionTitle => "caption_title"
    case CaptionText => "caption_text"
    case ButtonEnabled => "button_enabled"
    case ButtonText => "button_text"
    case ButtonUrl => "button_url"
    case ButtonStyle => "button_style"
    case ButtonNewTab => "button_new_tab"
  }

  /** A PHP array, restricted to the keys the plugin reads. */
  type Bag = map<Key, Value>

  /** `isset($bag[$k])`: the key is present and its value is not null. */
  predicate IsSet(bag: Bag, k: Key) {
    k in bag && !bag[k].Null?
  }

  /** `$bag[$k]`, which reads as null when the key is absent. */
  function Get(bag: Bag, k: Key): Value {
    if k in bag then bag[k] else Null
  }

  /** `empty()` of a string: the empty string and "0". */
  predicate EmptyString(s: string) {
    s == "" || s == "0"
  }

  /** `empty($v)` */
  predicate Empty(v: Value) {
    match v
    case Null => true
    case Bool(b) => !b
    case Int(i) => i == 0
    case Str(s) => EmptyString(s)
  }

  /** `(bool)$v` */
  function ToBool(v: Value): bool {
    !Empty(v)
  }

  function Abs(i: int): nat {
    if i < 0 then -i else i
  }

  // ---------------------------------------------------------------------
  // Decimal digits

  predicate IsDigit(c: char) {
    '0' <= c <= '9'
  }

  predicate AllDigits(s: string) {
    forall i :: 0 <= i < |s| ==> IsDigit(s[i])
  }

  function DigitValue(c: char): nat
    requires IsDigit(c)
  {
    c as int - '0' as int
  }

  function DigitChar(d: nat): char
    requires d < 10
  {
    ('0' as int + d) as char
  }

  /** The number a string of decimal digits denotes, most significant digit first. */
  function DigitsValue(s: string): nat
    requires AllDigits(s)
  {
    if s == [] then 0 else DigitsValue(s[..|s| - 1]) * 10 + DigitValue(s[|s| - 1])
  }

  /** Length of the longest prefix of `s` made of decimal digits. */
  function DigitPrefixLen(s: string): (n: nat)
    ensures n <= |s| && AllDigits(s[..n])
    ensures n < |s| ==> !IsDigit(s[n])
  {
    if s == [] || !IsDigit(s[0]) then 0
    else
      var m := DigitPrefixLen(s[1..]);
      assert s[..1 + m] == [s[0]] + s[1..][..m];
      1 + m
  }

  lemma {:induction false} DigitPrefixLenOfDigits(s: string, rest: string)
    requires AllDigits(s)
    requires rest == [] || !IsDigit(rest[0])
    ensures DigitPrefixLen(s + rest) == |s|
  {
    if s != [] {
      assert (s + rest)[1..] == s[1..] + rest;
      DigitPrefixLenOfDigits(s[1..], rest);
    }
  }

  /** PHP's decimal rendering of a non-negative integer. */
  function NatToString(n: nat): (s: string)
    ensures |s| >= 1 && AllDigits(s)
  {
    if n < 10 then [DigitChar(n)] else NatToString(n / 10) + [DigitChar(n % 10)]
  }

  lemma {:induction false} NatToStringValue(n: nat)
    ensures DigitsValue(NatToString(n)) == n
  {
    if n >= 10 {
      var s := NatToString(n);
      assert s[..|s| - 1] == NatToString(n / 10);
      NatToStringValue(n / 10);
    }
  }

  lemma NatToStringInjective(a: nat, b: nat)
    requires NatToString(a) == NatToString(b)
    ensures a == b
  {
    NatToStringValue(a);
    NatToStringValue(b);
  }

  /** `(string)$i` */
  function IntToString(i: int): string {
    if i < 0 then "-" + NatToString(-i) else NatToString(i)
  }

  /** `(string)$v` */
  function StrVal(v: Value): string {
    match v
    case Null => ""
    case Bool(b) => if b then "1" else ""
    case Int(i) => IntToString(i)
    case Str(s) => s
  }

  predicate IsWhitespace(c: char) {
    c == ' ' || c == '\t' || c == '\n' || c == '\r' || c == '\U{000B}' || c == '\U{000C}'
  }

  predicate AllWhitespace(s: string) {
    forall i :: 0 <= i < |s| ==> IsWhitespace(s[i])
  }

  function SkipWhitespace(s: string): (t: string)
    ensures |t| <= |s|
    ensures t == [] || !IsWhitespace(t[0])
  {
    if s != [] && IsWhitespace(s[0]) then SkipWhitespace(s[1..]) else s
  }

  // ---------------------------------------------------------------------
  // PHP 8 `(int)` on a string

  /** PHP_INT_MAX and PHP_INT_MIN of a 64-bit build. */
  const PhpIntMax: int := 0x7FFF_FFFF_FFFF_FFFF
  const PhpIntMin: int := -0x8000_0000_0000_0000

  /** The least magnitude a correctly rounding `strtod` turns into
      infinity: DBL_MAX plus half of its last unit, (2^54 - 1) * 2^970. */
  const DoubleOverflow: nat :=
    0xfffffffffffffc00000000000000000000000000000000000000000000000000000000000000000000000000000000000000000000000000000000000000000000000000000000000000000000000000000000000000000000000000000000000000000000000000000000000000000000000000000000000000000000000000

  /** A 64-bit value, clamped to PHP's integer range. */
  function Saturate(i: int): (r: int)
    ensures PhpIntMin <= r <= PhpIntMax
    ensures PhpIntMin <= i <= PhpIntMax ==> r == i
  {
    if i > PhpIntMax then PhpIntMax else if i < PhpIntMin then PhpIntMin else i
  }

  /** C's `(long)` of a real: the integer part, rounded toward zero. */
  function Truncate(x: real): int {
    if x >= 0.0 then x.Floor else -((-x).Floor)
  }

  /** The magnitude of the longest numeric prefix of `u` (digits, an
      optional fraction, an optional exponent), or 0 when `u` does not
      start with one.  Unlike `UnsignedNumeric`, text may follow. */
  function LeadingMagnitude(u: string): (m: real)
    ensures m >= 0.0
  {
    var n1 := DigitPrefixLen(u);
    LeadingAfterDigits(u[..n1], u[n1..])
  }

  /** `LeadingMagnitude` once the integer digits `whole` are read. */
  function LeadingAfterDigits(whole: string, rest: string): (m: real)
    requires AllDigits(whole)
    ensures m >= 0.0
  {
    var hasDot := rest != [] && rest[0] == '.';
    var afterDot := if hasDot then rest[1..] else rest;
    var n2 := if hasDot then DigitPrefixLen(afterDot) else 0;
    if |whole| + n2 == 0 then 0.0
    else LeadingExponent(DigitsValue(whole) as real + FractionValue(afterDot[..n2]), afterDot[n2..])
  }

  /** An exponent counts only when `e`/`E` and an optional sign are
      followed by a digit; otherwise the mantissa stands alone. */
  function LeadingExponent(m: real, rest: string): (r: real)
    requires m >= 0.0
    ensures r >= 0.0
  {
    if rest != [] && (rest[0] == 'e' || rest[0] == 'E') then
      var v := rest[1..];
      var w := if v != [] && (v[0] == '-' || v[0] == '+') then v[1..] else v;
      var n3 := DigitPrefixLen(w);
      if n3 == 0 then m
      else ScaleByPow10(m, v[0] == '-', DigitsValue(w[..n3]))
    else m
  }

  /** `m` times or divided by 10^k. */
  function ScaleByPow10(m: real, down: bool, k: nat): (r: real)
    requires m >= 0.0
    ensures r >= 0.0
  {
    if down then m / Pow10(k) as real else m * Pow10(k) as real
  }

  lemma ScaleUpOfNat(x: nat, k: nat)
    ensures ScaleByPow10(x as real, false, k) == (x * Pow10(k)) as real
  {
    var p := Pow10(k);
    assert (x * p) as real == x as real * p as real;
  }

  /** `(int)$s` in PHP 8: leading whitespace, an optional sign, then the
      longest numeric prefix, truncated toward zero.  A value outside the
      64-bit range saturates; one too large for a double is infinity,
      which converts to 0; a string without a numeric prefix gives 0. */
  function StringToInt(s: string): (i: int)
    ensures PhpIntMin <= i <= PhpIntMax
  {
    var t := SkipWhitespace(s);
    var u := if t != [] && (t[0] == '-' || t[0] == '+') then t[1..] else t;
    var m := LeadingMagnitude(u);
    if m >= DoubleOverflow as real then 0
    else if t != [] && t[0] == '-' then Saturate(-m.Floor)
    else Saturate(m.Floor)
  }

  /** `(int)$v` */
  function IntVal(v: Value): int {
    match v
    case Null => 0
    case Bool(b) => if b then 1 else 0
    case Int(i) => i
    case Str(s) => StringToInt(s)
  }

  /** WordPress `absint()`: `abs((int)$v)`. */
  function AbsInt(v: Value): (n: nat)
    ensures v.Int? && v.i >= 0 ==> n == v.i
    ensures v.Str? ==> n <= PhpIntMax + 1
  {
    Abs(IntVal(v))
  }

  /** A decimal string in the 64-bit range read back by `absint` gives the number it renders. */
  lemma AbsIntOfDecimal(n: nat)
    requires n <= PhpIntMax
    ensures AbsInt(Str(NatToString(n))) == n
  {
    NatToStringValue(n);
    StringToIntOfDigits(NatToString(n));
  }

  /** `(int)` of a digit string is its number, saturated at PHP_INT_MAX,
      or 0 once the number is too large for a double. */
  lemma StringToIntOfDigits(s: string)
    requires |s| >= 1 && AllDigits(s)
    ensures StringToInt(s) ==
      if DigitsValue(s) >= DoubleOverflow then 0
      else if DigitsValue(s) > PhpIntMax then PhpIntMax
      else DigitsValue(s)
  {
    assert IsDigit(s[0]);
    assert SkipWhitespace(s) == s;
    LeadingMagnitudeOfDigits(s);
  }

  lemma LeadingMagnitudeOfDigits(s: string)
    requires |s| >= 1 && AllDigits(s)
    ensures LeadingMagnitude(s) == DigitsValue(s) as real
  {
    DigitPrefixLenOfDigits(s, []);
    assert s + [] == s;
    var empty: string := [];
    assert s[|s|..] == empty && s[..|s|] == s;
    assert empty[..0] == empty && empty[0..] == empty;
  }

  /** On a numeric string, `(int)` is the number `NumericValue` reads,
      truncated toward zero and saturated, unless a double overflows. */
  lemma {:induction false} StringToIntOfNumeric(s: string, v: real)
    requires NumericValue(s) == Some(v)
    requires -(DoubleOverflow as real) < v < DoubleOverflow as real
    ensures StringToInt(s) == Saturate(Truncate(v))
  {
    var t := SkipWhitespace(s);
    var u := if t != [] && (t[0] == '-' || t[0] == '+') then t[1..] else t;
    var m :| UnsignedNumeric(u) == Some(m) && v == (if t != [] && t[0] == '-' then -m else m);
    LeadingMagnitudeOfNumeric(u, m);
  }

  /** The numeric prefix of a numeric string is all of it. */
  lemma LeadingMagnitudeOfNumeric(u: string, m: real)
    requires UnsignedNumeric(u) == Some(m)
    ensures LeadingMagnitude(u) == m && m >= 0.0
  {
    var n1 := DigitPrefixLen(u);
    LeadingAfterDigitsOfNumeric(u[..n1], u[n1..], m);
  }

  lemma LeadingAfterDigitsOfNumeric(whole: string, rest: string, m: real)
    requires AllDigits(whole)
    requires NumericAfterDigits(whole, rest) == Some(m)
    ensures LeadingAfterDigits(whole, rest) == m && m >= 0.0
  {
    if rest != [] && rest[0] == '.' {
      var afterDot := rest[1..];
      var n2 := DigitPrefixLen(afterDot);
      var mant := DigitsValue(whole) as real + FractionValue(afterDot[..n2]);
      LeadingExponentOfApply(mant, afterDot[n2..], m);
    } else {
      var mant := DigitsValue(whole) as real + FractionValue(rest[..0]);
      LeadingExponentOfApply(mant, rest[0..], m);
    }
  }

  lemma LeadingExponentOfApply(mant: real, rest: string, m: real)
    requires mant >= 0.0
    requires ApplyExponent(mant, rest) == Some(m)
    ensures LeadingExponent(mant, rest) == m && m >= 0.0
  {
    if rest != [] && (rest[0] == 'e' || rest[0] == 'E') {
    } else {
      assert AllWhitespace(rest);
      assert rest == [] || !(rest[0] == 'e' || rest[0] == 'E');
    }
  }

  /** Scientific notation, as an `<input type="number">` may submit it. */
  lemma StringToIntOfExponent(d: string, e: string)
    requires |d| >= 1 && AllDigits(d) && |e| >= 1 && AllDigits(e)
    requires DigitsValue(d) * Pow10(DigitsValue(e)) < DoubleOverflow
    ensures StringToInt(d + "e" + e) == Saturate(DigitsValue(d) * Pow10(DigitsValue(e)))
  {
    var s := d + "e" + e;
    assert IsDigit(s[0]);
    assert SkipWhitespace(s) == s;
    var n := DigitsValue(d) * Pow10(DigitsValue(e));
    LeadingMagnitudeOfExponent(d, e);
    ScaleUpOfNat(DigitsValue(d), DigitsValue(e));
    assert LeadingMagnitude(s) == n as real;
    assert (n as real).Floor == n;
  }

  /** An interval typed as "1e4" is read as 10000. */
  lemma AbsIntOfScientific()
    ensures AbsInt(Str("1e4")) == 10000
  {
    assert "1" + "e" + "4" == "1e4";
    assert DigitsValue("1") == 1 && DigitsValue("4") == 4;
    assert Pow10(4) == 10 * Pow10(3) && Pow10(3) == 10 * Pow10(2) && Pow10(2) == 100;
    StringToIntOfExponent("1", "4");
  }

  lemma LeadingMagnitudeOfExponent(d: string, e: string)
    requires |d| >= 1 && AllDigits(d) && |e| >= 1 && AllDigits(e)
    ensures LeadingMagnitude(d + "e" + e) == ScaleByPow10(DigitsValue(d) as real, false, DigitsValue(e))
  {
    var s := d + ("e" + e);
    assert d + "e" + e == s;
    assert !IsDigit('e');
    DigitPrefixLenOfDigits(d, "e" + e);
    assert s[..|d|] == d;
    assert s[|d|..] == "e" + e;
    LeadingMagnitudeWithoutFraction(s);
    LeadingExponentOfDigits(DigitsValue(d) as real, e);
  }

  /** A numeric prefix with digits and no decimal point. */
  lemma LeadingMagnitudeWithoutFraction(u: string)
    requires DigitPrefixLen(u) >= 1
    requires DigitPrefixLen(u) == |u| || u[DigitPrefixLen(u)] != '.'
    ensures LeadingMagnitude(u) ==
      LeadingExponent(DigitsValue(u[..DigitPrefixLen(u)]) as real, u[DigitPrefixLen(u)..])
  {
    var n1 := DigitPrefixLen(u);
    LeadingAfterDigitsWithoutFraction(u[..n1], u[n1..]);
  }

  lemma LeadingAfterDigitsWithoutFraction(whole: string, rest: string)
    requires |whole| >= 1 && AllDigits(whole)
    requires rest == [] || rest[0] != '.'
    ensures LeadingAfterDigits(whole, rest) == LeadingExponent(DigitsValue(whole) as real, rest)
  {
    assert rest[..0] == [];
    assert FractionValue(rest[..0]) == 0.0;
    assert rest[0..] == rest;
  }

  lemma LeadingExponentOfDigits(m: real, e: string)
    requires m >= 0.0 && |e| >= 1 && AllDigits(e)
    ensures LeadingExponent(m, "e" + e) == ScaleByPow10(m, false, DigitsValue(e))
  {
    var rest := "e" + e;
    assert rest[1..] == e;
    assert IsDigit(e[0]);
    DigitPrefixLenOfDigits(e, []);
    assert e + [] == e;
    assert e[..|e|] == e;
  }

  // ---------------------------------------------------------------------
  // sanitize_key

  function ToLowerAscii(c: char): char {
    if 'A' <= c <= 'Z' then (c as int + 32) as char else c
  }

  predicate IsKeyChar(c: char) {
    'a' <= c <= 'z' || '0' <= c <= '9' || c == '_' || c == '-'
  }

  predicate IsKey(s: string) {
    forall i :: 0 <= i < |s| ==> IsKeyChar(s[i])
  }

  /** WordPress `sanitize_key()` on a string: ASCII lower-casing, then every
      character outside [a-z0-9_-] is dropped. */
  function SanitizeKey(s: string): (k: string)
    ensures IsKey(k)
    ensures |k| <= |s|
  {
    if s == [] then []
    else
      var c := ToLowerAscii(s[0]);
      (if IsKeyChar(c) then [c] else []) + SanitizeKey(s[1..])
  }

  /** A key is left as it is; hence `sanitize_key` is idempotent. */
  lemma {:induction false} SanitizeKeyFixesKeys(s: string)
    requires IsKey(s)
    ensures SanitizeKey(s) == s
  {
    if s != [] {
      SanitizeKeyFixesKeys(s[1..]);
      assert s == [s[0]] + s[1..];
    }
  }

  lemma SanitizeKeyIdempotent(s: string)
    ensures SanitizeKey(SanitizeKey(s)) == SanitizeKey(s)
  {
    SanitizeKeyFixesKeys(SanitizeKey(s));
  }

  /** `sanitize_key($v)` on any array value (null is not a scalar and gives ""). */
  function KeyOf(v: Value): string {
    if v.Null? then "" else SanitizeKey(StrVal(v))
  }

  // ---------------------------------------------------------------------
  // Output escaping

  predicate IsSpecial(c: char) {
    c == '<' || c == '>' || c == '"' || c == '\''
  }

  /** No character that could open a tag or close an attribute value. */
  predicate NoSpecials(s: string) {
    forall i :: 0 <= i < |s| ==> !IsSpecial(s[i])
  }

  function EscapeChar(c: char): string {
    if c == '&' then "&amp;"
    else if c == '<' then "&lt;"
    else if c == '>' then "&gt;"
    else if c == '"' then "&quot;"
    else if c == '\'' then "&#039;"
    else [c]
  }

  lemma NoSpecialsConcat(a: string, b: string)
    requires NoSpecials(a) && NoSpecials(b)
    ensures NoSpecials(a + b)
  {
    forall i | 0 <= i < |a + b| ensures !IsSpecial((a + b)[i]) {
      if i >= |a| { assert (a + b)[i] == b[i - |a|]; }
    }
  }

  /** WordPress `esc_html()` (and `esc_attr()`, which encodes the same five
      characters): every HTML-special character becomes an entity. */
  function EscHtml(s: string): (r: string)
    ensures NoSpecials(r)
    ensures NoSpecials(s) && '&' !in s ==> r == s
  {
    if s == [] then []
    else
      var head := EscapeChar(s[0]);
      var tail := EscHtml(s[1..]);
      NoSpecialsConcat(head, tail);
      assert s == [s[0]] + s[1..];
      head + tail
  }

  /** WordPress `esc_attr()`. */
  function EscAttr(s: string): string {
    EscHtml(s)
  }

  // ---------------------------------------------------------------------
  // nl2br

  const Br := "<br />"

  /** PHP `nl2br()`: "<br />" is inserted before every line break
      ("\r\n", "\n\r", "\n" or "\r"). */
  function Nl2br(s: string): string {
    if s == [] then []
    else if |s| >= 2 && ((s[0] == '\r' && s[1] == '\n') || (s[0] == '\n' && s[1] == '\r')) then
      Br + s[..2] + Nl2br(s[2..])
    else if s[0] == '\n' || s[0] == '\r' then
      Br + [s[0]] + Nl2br(s[1..])
    else
      [s[0]] + Nl2br(s[1..])
  }

  /** Drops every "<br />" from a string. */
  function RemoveBr(s: string): string {
    if s == [] then []
    else if |s| >= |Br| && s[..|Br|] == Br then RemoveBr(s[|Br|..])
    else [s[0]] + RemoveBr(s[1..])
  }

  /** Text without markup characters keeps its content through `nl2br`: the
      only thing added is line-break markup. */
  lemma {:induction false} Nl2brOnlyAddsBreaks(s: string)
    requires NoSpecials(s)
    ensures RemoveBr(Nl2br(s)) == s
  {
    if s == [] {
    } else if |s| >= 2 && ((s[0] == '\r' && s[1] == '\n') || (s[0] == '\n' && s[1] == '\r')) {
      Nl2brOnlyAddsBreaks(s[2..]);
      RemoveBrBeforeBreak(s[..2], Nl2br(s[2..]));
      assert s[..2] + s[2..] == s;
    } else if s[0] == '\n' || s[0] == '\r' {
      Nl2brOnlyAddsBreaks(s[1..]);
      RemoveBrBeforeBreak([s[0]], Nl2br(s[1..]));
      assert [s[0]] + s[1..] == s;
    } else {
      Nl2brOnlyAddsBreaks(s[1..]);
      assert !IsSpecial(s[0]);
      RemoveBrCons(s[0], Nl2br(s[1..]));
      assert [s[0]] + s[1..] == s;
    }
  }

  /** The "<br />" `nl2br` puts before a line break goes, the break stays. */
  lemma RemoveBrBeforeBreak(brk: string, rest: string)
    requires 1 <= |brk| <= 2 && forall i :: 0 <= i < |brk| ==> brk[i] != '<'
    ensures RemoveBr(Br + brk + rest) == brk + RemoveBr(rest)
  {
    assert Br + brk + rest == Br + (brk + rest);
    RemoveBrAfterBr(brk + rest);
    RemoveBrKeepsPlain(brk, rest);
  }

  lemma RemoveBrKeepsPlain(brk: string, rest: string)
    requires 1 <= |brk| <= 2 && forall i :: 0 <= i < |brk| ==> brk[i] != '<'
    ensures RemoveBr(brk + rest) == brk + RemoveBr(rest)
  {
    if |brk| == 1 {
      assert brk == [brk[0]];
      RemoveBrCons(brk[0], rest);
    } else {
      RemoveBrPair(brk[0], brk[1], rest);
      assert brk == [brk[0]] + [brk[1]];
    }
  }

  lemma RemoveBrPair(c: char, d: char, rest: string)
    requires c != '<' && d != '<'
    ensures RemoveBr([c] + [d] + rest) == [c] + [d] + RemoveBr(rest)
  {
    assert [c] + [d] + rest == [c] + ([d] + rest);
    RemoveBrCons(c, [d] + rest);
    RemoveBrCons(d, rest);
  }

  lemma RemoveBrAfterBr(rest: string)
    ensures RemoveBr(Br + rest) == RemoveBr(rest)
  {
    var w := Br + rest;
    assert w[..|Br|] == Br;
    assert w[|Br|..] == rest;
  }

  lemma RemoveBrCons(c: char, rest: string)
    requires c != '<'
    ensures RemoveBr([c] + rest) == [c] + RemoveBr(rest)
  {
    var w := [c] + rest;
    assert w[0] == c && Br[0] == '<';
    assert w[1..] == rest;
  }

  // ---------------------------------------------------------------------
  // preg_match with an anchored class: /^[class]+$/

  predicate IsSlugChar(c: char) {
    'a' <= c <= 'z' || '0' <= c <= '9' || c == '-'
  }

  predicate AllSlugChars(s: string) {
    forall i :: 0 <= i < |s| ==> IsSlugChar(s[i])
  }

  /** `preg_match('/^\d+$/', $s)`.  Without the D modifier PCRE's `$` also
      matches before one final newline. */
  predicate MatchesDigitsPattern(s: string) {
    (|s| >= 1 && AllDigits(s))
    || (|s| >= 2 && s[|s| - 1] == '\n' && AllDigits(s[..|s| - 1]))
  }

  /** `preg_match('/^[a-z0-9\-]+$/', $s)`, with the same reading of `$`. */
  predicate MatchesSlugPattern(s: string) {
    (|s| >= 1 && AllSlugChars(s))
    || (|s| >= 2 && s[|s| - 1] == '\n' && AllSlugChars(s[..|s| - 1]))
  }

  // ---------------------------------------------------------------------
  // PHP 8 `==` between two strings

  function Pow10(n: nat): (p: nat)
    ensures p >= 1
  {
    if n == 0 then 1 else 10 * Pow10(n - 1)
  }

  /** The number a PHP numeric string denotes (leading and trailing
      whitespace, sign, integer or decimal mantissa, optional exponent), or
      None for a non-numeric string.  Values are exact rationals. */
  function NumericValue(s: string): Option<real> {
    var t := SkipWhitespace(s);
    var neg := t != [] && t[0] == '-';
    var u := if t != [] && (t[0] == '-' || t[0] == '+') then t[1..] else t;
    match UnsignedNumeric(u)
    case None => None
    case Some(m) => Some(if neg then -m else m)
  }

  /** Digits, an optional fraction, an optional exponent, trailing whitespace. */
  function UnsignedNumeric(u: string): Option<real> {
    var n1 := DigitPrefixLen(u);
    NumericAfterDigits(u[..n1], u[n1..])
  }

  /** `UnsignedNumeric` once the integer digits `whole` are read. */
  function NumericAfterDigits(whole: string, rest: string): Option<real>
    requires AllDigits(whole)
  {
    var hasDot := rest != [] && rest[0] == '.';
    var afterDot := if hasDot then rest[1..] else rest;
    var n2 := if hasDot then DigitPrefixLen(afterDot) else 0;
    if |whole| + n2 == 0 then None
    else ApplyExponent(DigitsValue(whole) as real + FractionValue(afterDot[..n2]), afterDot[n2..])
  }

  /** The value of the digits after a decimal point. */
  function FractionValue(digits: string): (r: real)
    requires AllDigits(digits)
    ensures digits == [] ==> r == 0.0
    ensures r >= 0.0
  {
    if digits == [] then 0.0 else DigitsValue(digits) as real / Pow10(|digits|) as real
  }

  /** An optional `e`/`E` exponent after the mantissa, then only whitespace. */
  function ApplyExponent(m: real, rest: string): Option<real> {
    if rest != [] && (rest[0] == 'e' || rest[0] == 'E') then
      var v := rest[1..];
      var expNeg := v != [] && v[0] == '-';
      var w := if v != [] && (v[0] == '-' || v[0] == '+') then v[1..] else v;
      var n3 := DigitPrefixLen(w);
      if n3 == 0 || !AllWhitespace(w[n3..]) then None
      else
        var scale := Pow10(DigitsValue(w[..n3])) as real;
        Some(if expNeg then m / scale else m * scale)
    else if AllWhitespace(rest) then Some(m)
    else None
  }

  lemma UnsignedNumericOfDigits(s: string)
    requires |s| >= 1 && AllDigits(s) && DigitPrefixLen(s) == |s|
    ensures UnsignedNumeric(s) == Some(DigitsValue(s) as real)
  {
    var empty: string := [];
    assert s[|s|..] == empty && s[..|s|] == s;
    assert empty[..0] == empty && empty[0..] == empty;
  }

  /** Digits, a point and more digits make a numeric string worth the
      integer part plus the fraction. */
  lemma UnsignedNumericWithFraction(d: string, f: string)
    requires |d| >= 1 && AllDigits(d) && |f| >= 1 && AllDigits(f)
    ensures UnsignedNumeric(d + "." + f) == Some(DigitsValue(d) as real + FractionValue(f))
  {
    var u := d + "." + f;
    assert !IsDigit('.');
    assert u == d + ("." + f);
    DigitPrefixLenOfDigits(d, "." + f);
    assert u[..|d|] == d && u[|d|..] == "." + f;
    NumericAfterDigitsWithFraction(d, f);
  }

  lemma NumericAfterDigitsWithFraction(d: string, f: string)
    requires AllDigits(d) && |f| >= 1 && AllDigits(f)
    ensures NumericAfterDigits(d, "." + f) == Some(DigitsValue(d) as real + FractionValue(f))
  {
    var rest := "." + f;
    assert rest[1..] == f;
    DigitPrefixLenOfDigits(f, []);
    assert f + [] == f;
    assert f[..|f|] == f && f[|f|..] == [];
  }

  /** A non-empty run of decimal digits is a numeric string worth its value. */
  lemma NumericValueOfDigits(s: string)
    requires |s| >= 1 && AllDigits(s)
    ensures NumericValue(s) == Some(DigitsValue(s) as real)
  {
    DigitPrefixLenOfDigits(s, []);
    assert s + [] == s;
    UnsignedNumericOfDigits(s);
    NumericValueUnsigned(s);
  }

  /** A string starting with a digit is read without sign or leading blanks. */
  lemma NumericValueUnsigned(s: string)
    requires |s| >= 1 && IsDigit(s[0])
    ensures NumericValue(s) == UnsignedNumeric(s)
  {
    assert !IsWhitespace(s[0]);
    assert SkipWhitespace(s) == s;
  }

  /** PHP 8 loose `==` between two strings: numeric strings compare as
      numbers, any other pair compares byte by byte. */
  predicate LooseEquals(a: string, b: string) {
    var na := NumericValue(a);
    var nb := NumericValue(b);
    if na.Some? && nb.Some? then na.value == nb.value else a == b
  }

  // ---------------------------------------------------------------------
  // WordPress functions whose internals are not modelled

  /** The WordPress environment: each field stands for one core function. */
  datatype Helpers = Helpers(
    textField: string -> string,       // sanitize_text_field
    textareaField: string -> string,   // sanitize_textarea_field
    urlRaw: string -> string,          // esc_url_raw on a non-empty string
    escUrl: string -> string,          // esc_url on a non-empty string
    validUrl: string -> bool,          // filter_var($u, FILTER_VALIDATE_URL) !== false
    attachmentUrl: int -> string)      // wp_get_attachment_url; "" stands for false

  /** `sanitize_text_field($v)` */
  function TextField(h: Helpers, v: Value): string {
    h.textField(StrVal(v))
  }

  /** `esc_url_raw($s)`; the empty string is returned as it is. */
  function EscUrlRaw(h: Helpers, s: string): string {
    if s == "" then "" else h.urlRaw(s)
  }

  /** `esc_url($s)`; the empty string is returned as it is. */
  function EscUrl(h: Helpers, s: string): string {
    if s == "" then "" else h.escUrl(s)
  }

  /** `esc_url` strips quotes and angle brackets and encodes apostrophes. */
  ghost predicate SafeUrlEscaping(h: Helpers) {
    forall u :: NoSpecials(h.escUrl(u))
  }

  /** The sanitisers are idempotent and leave "" and "auto" alone. */
  ghost predicate StableSanitizers(h: Helpers) {
    && (forall s :: h.textField(h.textField(s)) == h.textField(s))
    && (forall s :: h.textareaField(h.textareaField(s)) == h.textareaField(s))
    && (forall s :: h.urlRaw(h.urlRaw(s)) == h.urlRaw(s))
    && h.textField("") == ""
    && h.textareaField("") == ""
    && h.textField("auto") == "auto"
  }
}
