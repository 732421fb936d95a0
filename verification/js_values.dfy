/**
 * The slice of JavaScript value semantics the server relies on when it reads
 * untrusted JSON: truthiness, `parseInt(v, 10)`, the `Number(v)` coercion,
 * `===`, `<`/`>` against a number, `v - k`, `v + 1`, `Math.min`/`Math.max`.
 *
 * Numbers are the integer-valued finite doubles plus NaN; strings are
 * sequences of UTF-16 code units, as in JavaScript.
 */
module JsValues {

  import opened Wrappers

  newtype CodeUnit = x: int | 0 <= x < 0x1_0000

  type JsString = seq<CodeUnit>

  datatype JsNumber = NaN | Finite(value: int)

  /** A JSON-decoded field; `Undefined` stands for an absent property. */
  datatype JsValue =
    | Undefined
    | Null
    | Bool(b: bool)
    | Number(n: JsNumber)
    | Str(s: JsString)

  /** The code units of a Dafny string literal (all its characters are in the BMP). */
  function Lit(s: string): (r: JsString)
    requires forall i :: 0 <= i < |s| ==> s[i] as int < 0x1_0000
    ensures |r| == |s|
    ensures forall i :: 0 <= i < |s| ==> r[i] as int == s[i] as int
  {
    if s == [] then [] else [s[0] as int as CodeUnit] + Lit(s[1..])
  }

  /** `!!v` */
  predicate Truthy(v: JsValue)
  {
    match v
    case Undefined => false
    case Null => false
    case Bool(b) => b
    case Number(n) => n.Finite? && n.value != 0
    case Str(s) => |s| > 0
  }

  /** The StrWhiteSpaceChar code units (white space and line terminators). */
  predicate IsSpace(c: CodeUnit)
  {
    c == 9 || c == 10 || c == 11 || c == 12 || c == 13 || c == 32 || c == 0xA0 || c == 0x1680
    || (0x2000 <= c <= 0x200A) || c == 0x2028 || c == 0x2029 || c == 0x202F || c == 0x205F
    || c == 0x3000 || c == 0xFEFF
  }

  predicate IsDigit(c: CodeUnit)
  {
    0x30 <= c <= 0x39
  }

  predicate AllDigits(s: JsString)
  {
    forall i :: 0 <= i < |s| ==> IsDigit(s[i])
  }

  function TrimStart(s: JsString): (r: JsString)
    ensures |r| <= |s| && r == s[|s| - |r|..]
    ensures r != [] ==> !IsSpace(r[0])
  {
    if s != [] && IsSpace(s[0]) then TrimStart(s[1..]) else s
  }

  function TrimEnd(s: JsString): (r: JsString)
    ensures |r| <= |s| && r == s[..|r|]
    ensures r != [] ==> !IsSpace(r[|r| - 1])
    ensures s != [] && !IsSpace(s[0]) ==> r != []
  {
    if s != [] && IsSpace(s[|s| - 1]) then TrimEnd(s[..|s| - 1]) else s
  }

  /** Length of the run of decimal digits at the start of `s`. */
  function DigitRun(s: JsString): (n: nat)
    ensures n <= |s| && AllDigits(s[..n])
    ensures n < |s| ==> !IsDigit(s[n])
  {
    if s != [] && IsDigit(s[0]) then
      var n := 1 + DigitRun(s[1..]);
      assert s[..n] == [s[0]] + s[1..][..n - 1];
      n
    else 0
  }

  /** The value of a decimal numeral. */
  function DigitsValue(d: JsString): nat
    requires AllDigits(d)
  {
    if d == [] then 0 else DigitsValue(d[..|d| - 1]) * 10 + (d[|d| - 1] - 0x30) as int
  }

  const MINUS: CodeUnit := 0x2D
  const PLUS: CodeUnit := 0x2B

  /** `parseInt(s, 10)` on a string: leading white space, an optional sign, the longest digit run. */
  function ParseIntString(s: JsString): JsNumber
  {
    var t := TrimStart(s);
    var signed := t != [] && (t[0] == MINUS || t[0] == PLUS);
    var u := if signed then t[1..] else t;
    var n := DigitRun(u);
    if n == 0 then NaN
    else if signed && t[0] == MINUS then Finite(0 - DigitsValue(u[..n]))
    else Finite(DigitsValue(u[..n]))
  }

  /**
   * `parseInt(v, 10)`: the value is first converted to a string. An integer's
   * decimal numeral parses back to itself; "NaN", "undefined", "null", "true"
   * and "false" have no leading digit.
   */
  function ParseInt(v: JsValue): JsNumber
  {
    match v
    case Number(n) => n
    case Str(s) => ParseIntString(s)
    case _ => NaN
  }

  const ZERO: CodeUnit := 0x30
  const DOT: CodeUnit := 0x2E

  /** The value of a hexadecimal digit, 16 for any other code unit. */
  function HexDigitValue(c: CodeUnit): (r: nat)
    ensures r <= 16
    ensures IsDigit(c) ==> r == (c - ZERO) as nat
  {
    if IsDigit(c) then (c - ZERO) as nat
    else if 0x61 <= c <= 0x66 then (c - 0x61) as nat + 10
    else if 0x41 <= c <= 0x46 then (c - 0x41) as nat + 10
    else 16
  }

  predicate AllRadixDigits(d: JsString, radix: nat)
  {
    forall i :: 0 <= i < |d| ==> HexDigitValue(d[i]) < radix
  }

  /** The value of a numeral in base `radix`. */
  function RadixValue(d: JsString, radix: nat): nat
  {
    if d == [] then 0 else RadixValue(d[..|d| - 1], radix) * radix + HexDigitValue(d[|d| - 1])
  }

  /** The base a `0x`, `0o` or `0b` prefix letter (either case) announces; 0 for any other code unit. */
  function RadixOfPrefix(c: CodeUnit): nat
  {
    if c == 0x78 || c == 0x58 then 16
    else if c == 0x6F || c == 0x4F then 8
    else if c == 0x62 || c == 0x42 then 2
    else 0
  }

  function Pow10(n: nat): (r: nat)
    ensures r >= 1
  {
    if n == 0 then 1 else 10 * Pow10(n - 1)
  }

  /** An optional exponent part `e`/`E`, optional sign, digits; the empty string is exponent 0. */
  function ExponentPart(w: JsString): Option<int>
  {
    if w == [] then Some(0)
    else if w[0] != 0x65 && w[0] != 0x45 then None
    else
      var v := w[1..];
      var signed := v != [] && (v[0] == MINUS || v[0] == PLUS);
      var d := if signed then v[1..] else v;
      if d == [] || !AllDigits(d) then None
      else if signed && v[0] == MINUS then Some(0 - DigitsValue(d))
      else Some(DigitsValue(d))
  }

  /**
   * An unsigned decimal literal: digits, an optional `.` and fraction
   * digits (at least one digit in all), an optional exponent part. Its value
   * is `m * 10^e` for the returned `(m, e)`.
   */
  function DecimalLiteral(u: JsString): Option<(nat, int)>
  {
    var a := DigitRun(u);
    var rest := u[a..];
    var point := rest != [] && rest[0] == DOT;
    var f := if point then DigitRun(rest[1..]) else 0;
    var frac := if point then rest[1..][..f] else [];
    var tail := if point then rest[1..][f..] else rest;
    if a + f == 0 then None
    else match ExponentPart(tail)
      case None => None
      case Some(k) =>
        assert AllDigits(u[..a] + frac);
        Some((DigitsValue(u[..a] + frac), k - f))
  }

  /** `m * 10^e` when it is an integer; a value with a fractional part has no representation here. */
  function Scaled(m: nat, e: int): JsNumber
  {
    if e >= 0 then Finite(m * Pow10(e))
    else if m % Pow10(-e) == 0 then Finite(m / Pow10(-e))
    else NaN
  }

  /**
   * `Number(s)` on a string: white space is trimmed, the empty string is 0,
   * a `0x`/`0o`/`0b` numeral is read in its base, and otherwise a signed
   * decimal literal with optional fraction and exponent is read. Anything
   * else is NaN.
   */
  function StringToNumber(s: JsString): JsNumber
  {
    var t := TrimEnd(TrimStart(s));
    if t == [] then Finite(0)
    else if |t| > 2 && t[0] == ZERO && RadixOfPrefix(t[1]) != 0 then
      if AllRadixDigits(t[2..], RadixOfPrefix(t[1])) then Finite(RadixValue(t[2..], RadixOfPrefix(t[1])))
      else NaN
    else
      var signed := t[0] == MINUS || t[0] == PLUS;
      var u := if signed then t[1..] else t;
      match DecimalLiteral(u)
      case None => NaN
      case Some((m, e)) =>
        var v := Scaled(m, e);
        if v.Finite? && t[0] == MINUS then Finite(0 - v.value) else v
  }

  /** The `Number(v)` coercion applied by arithmetic and relational operators. */
  function ToNumber(v: JsValue): JsNumber
  {
    match v
    case Undefined => NaN
    case Null => Finite(0)
    case Bool(b) => Finite(if b then 1 else 0)
    case Number(n) => n
    case Str(s) => StringToNumber(s)
  }

  function NumAdd(n: JsNumber, k: int): JsNumber
  {
    if n.NaN? then NaN else Finite(n.value + k)
  }

  /** `v - k` for a number literal `k`. */
  function Minus(v: JsValue, k: int): JsValue
  {
    Number(NumAdd(ToNumber(v), -k))
  }

  /** `v + 1`: a string operand concatenates, every other operand adds. */
  function PlusOne(v: JsValue): JsValue
  {
    if v.Str? then Str(v.s + Lit("1")) else Number(NumAdd(ToNumber(v), 1))
  }

  /** `a === b`; NaN equals nothing. */
  predicate StrictEquals(a: JsValue, b: JsValue)
  {
    if a.Number? || b.Number? then
      a.Number? && b.Number? && a.n.Finite? && b.n.Finite? && a.n.value == b.n.value
    else a == b
  }

  /** `v < k` for a number `k`; comparing with NaN is false. */
  predicate LessThan(v: JsValue, k: int)
  {
    var n := ToNumber(v);
    n.Finite? && n.value < k
  }

  /** `v > k` for a number `k`; comparing with NaN is false. */
  predicate GreaterThan(v: JsValue, k: int)
  {
    var n := ToNumber(v);
    n.Finite? && n.value > k
  }

  /** `Math.min(k, n)`; a NaN argument gives NaN. */
  function MathMin(k: int, n: JsNumber): JsNumber
  {
    if n.NaN? then NaN else Finite(if k < n.value then k else n.value)
  }

  /** `Math.max(k, n)`; a NaN argument gives NaN. */
  function MathMax(k: int, n: JsNumber): JsNumber
  {
    if n.NaN? then NaN else Finite(if k > n.value then k else n.value)
  }

  /** `Math.max(lo, Math.min(hi, n))` */
  function ClampNumber(lo: int, hi: int, n: JsNumber): (r: JsNumber)
    requires lo <= hi
    ensures r.NaN? <==> n.NaN?
    ensures r.Finite? ==> lo <= r.value <= hi
    ensures n.Finite? && lo <= n.value <= hi ==> r == n
    ensures n.Finite? && n.value < lo ==> r == Finite(lo)
    ensures n.Finite? && n.value > hi ==> r == Finite(hi)
  {
    MathMax(lo, MathMin(hi, n))
  }

  // ---------------------------------------------------------------------
  // Properties

  /** A code unit that can begin a numeral: a digit, `.`, a sign, or the `I` of "Infinity". */
  predicate BeginsNumeral(c: CodeUnit)
  {
    IsDigit(c) || c == DOT || c == MINUS || c == PLUS || c == 0x49
  }

  /** A string whose first non-space code unit cannot begin a numeral is NaN to `Number`. */
  lemma NoNumeralIsNaN(s: JsString)
    requires TrimStart(s) != [] && !BeginsNumeral(TrimStart(s)[0])
    ensures StringToNumber(s).NaN?
  {
    var t := TrimEnd(TrimStart(s));
    assert t != [] && t[0] == TrimStart(s)[0];
    assert DigitRun(t) == 0;
  }

  /** A string with no white space at either end is its own trimmed form. */
  lemma Untrimmed(s: JsString)
    requires s != [] && !IsSpace(s[0]) && !IsSpace(s[|s| - 1])
    ensures TrimEnd(TrimStart(s)) == s
  {
  }

  /** A hexadecimal numeral is read in base 16: "0x1F" is 31. */
  lemma HexNumeral()
    ensures StringToNumber(Lit("0x1F")) == Finite(31)
  {
    var hex: JsString := [0x30, 0x78, 0x31, 0x46];
    assert Lit("0x1F") == hex;
    Untrimmed(hex);
    assert RadixOfPrefix(hex[1]) == 16;
    assert AllRadixDigits(hex[2..], 16);
    assert RadixValue(hex[2..], 16) == 31 by {
      assert hex[2..] == [0x31, 0x46];
      assert [0x31, 0x46][..1] == [0x31];
    }
  }

  /** An exponent scales the digits: "1e9" is one billion. */
  lemma ExponentNumeral()
    ensures StringToNumber(Lit("1e9")) == Finite(1000000000)
  {
    var exp: JsString := [0x31, 0x65, 0x39];
    assert Lit("1e9") == exp;
    Untrimmed(exp);
    assert DigitRun(exp) == 1;
    assert ExponentPart(exp[1..]) == Some(9) by {
      assert exp[1..][1..] == [0x39];
    }
    assert exp[..1] + [] == [0x31];
    assert DecimalLiteral(exp) == Some((1, 9));
    assert Pow10(9) == 1000000000;
  }

  /** "4.50e1" is the digits 450 scaled by 10^-1. */
  lemma FractionLiteral()
    ensures DecimalLiteral([0x34, DOT, 0x35, 0x30, 0x65, 0x31]) == Some((450, -1))
  {
    var u: JsString := [0x34, DOT, 0x35, 0x30, 0x65, 0x31];
    assert DigitRun(u) == 1;
    var rest := u[1..];
    assert rest[0] == DOT;
    assert rest[1..] == [0x35, 0x30, 0x65, 0x31];
    assert DigitRun([0x65, 0x31]) == 0;
    assert [0x30, 0x65, 0x31][1..] == [0x65, 0x31];
    assert DigitRun([0x30, 0x65, 0x31]) == 1;
    assert [0x35, 0x30, 0x65, 0x31][1..] == [0x30, 0x65, 0x31];
    assert DigitRun(rest[1..]) == 2;
    assert rest[1..][..2] == [0x35, 0x30];
    assert u[..1] + [0x35, 0x30] == [0x34, 0x35, 0x30];
    assert DigitsValue([0x34, 0x35, 0x30]) == 450 by {
      assert [0x34, 0x35, 0x30][..2] == [0x34, 0x35];
      assert [0x34, 0x35][..1] == [0x34];
    }
    assert ExponentPart(rest[1..][2..]) == Some(1) by {
      assert rest[1..][2..] == [0x65, 0x31];
      assert rest[1..][2..][1..] == [0x31];
    }
  }

  /** A fraction whose value is whole, with sign and exponent: "-4.50e1" is -45. */
  lemma FractionNumeral()
    ensures StringToNumber(Lit("-4.50e1")) == Finite(-45)
  {
    var dec: JsString := [MINUS, 0x34, DOT, 0x35, 0x30, 0x65, 0x31];
    assert Lit("-4.50e1") == dec;
    Untrimmed(dec);
    assert dec[1..] == [0x34, DOT, 0x35, 0x30, 0x65, 0x31];
    FractionLiteral();
    assert Pow10(1) == 10;
    assert Scaled(450, -1) == Finite(45);
  }

  /** Trailing garbage makes the whole string NaN, unlike `parseInt`. */
  lemma TrailingGarbage()
    ensures StringToNumber(Lit("12abc")).NaN?
  {
    var bad: JsString := [0x31, 0x32, 0x61, 0x62, 0x63];
    assert Lit("12abc") == bad;
    Untrimmed(bad);
    assert DigitRun(bad) == 2;
    assert bad[2..] == [0x61, 0x62, 0x63];
    assert ExponentPart(bad[2..]).None?;
    assert DecimalLiteral(bad).None?;
  }
}
