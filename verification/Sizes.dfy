/** HumanSize of internal/search/search.go and parseHumanSize of internal/search/nyaa.go. */
module Sizes {
  import opened Basics
  import opened Text

  const INT64_LIMIT: nat := 0x8000_0000_0000_0000
  const TWO_53: nat := 0x20_0000_0000_0000
  const TWO_50: nat := 0x4_0000_0000_0000

  // ---------------- printing ----------------

  function Digit(d: nat): char
    requires d < 10
  {
    '0' + d as char
  }

  /** %d of a number that is not negative. */
  function Decimal(n: nat): (s: string)
    ensures s != "" && forall c :: c in s ==> '0' <= c <= '9'
    ensures s[0] == '0' ==> n == 0 && s == "0"
  {
    if n < 10 then [Digit(n)] else Decimal(n / 10) + [Digit(n % 10)]
  }

  /** a / b to the nearest integer, ties to the even one. */
  function RoundHalfEven(a: nat, b: nat): nat
    requires b > 0
  {
    var q, r := a / b, a % b;
    if 2 * r < b || (2 * r == b && q % 2 == 0) then q else q + 1
  }

  /** The distance of the float64 numbers around n. */
  function Ulp(n: nat): (u: nat)
    ensures u > 0
  {
    if n < TWO_53 then 1 else 2 * Ulp(n / 2)
  }

  /** float64(n). */
  function Float64(n: nat): nat {
    RoundHalfEven(n, Ulp(n)) * Ulp(n)
  }

  /** 1024 to the power exp + 1. */
  function Div(exp: nat): (d: nat)
    ensures d >= 1024
  {
    if exp == 0 then 1024 else 1024 * Div(exp - 1)
  }

  /** "KMGTPE"[exp]. */
  function UnitLetter(exp: nat): char
    requires exp < 6
  {
    match exp case 0 => 'K' case 1 => 'M' case 2 => 'G' case 3 => 'T' case 4 => 'P' case _ => 'E'
  }

  /** The unit that leaves between 1 and 1024 of it. */
  predicate Fits(n: nat, exp: nat) {
    Div(exp) <= n < 1024 * Div(exp)
  }

  function Exponent(n: nat): (exp: nat)
    requires n >= 1024
  {
    if n < 1024 * 1024 then 0 else 1 + Exponent(n / 1024)
  }

  /** The tenths that %.1f prints of float64(n) / float64(Div(exp)); dividing by a power of two is exact. */
  function Tenths(n: nat, exp: nat): nat {
    RoundHalfEven(10 * Float64(n), Div(exp))
  }

  function Mantissa(tenths: nat): string {
    Decimal(tenths / 10) + "." + [Digit(tenths % 10)]
  }

  function UnitText(exp: nat): string
    requires exp < 6
  {
    [UnitLetter(exp)] + "B"
  }

  function Printed(tenths: nat, exp: nat): string
    requires exp < 6
  {
    Mantissa(tenths) + " " + UnitText(exp)
  }

  function SizeText(n: int): string
    requires n < INT64_LIMIT
  {
    if n <= 0 then "?"
    else if n < 1024 then Decimal(n) + " B"
    else ExponentFits(n); Printed(Tenths(n, Exponent(n)), Exponent(n))
  }

  lemma DivValues()
    ensures Div(0) == 0x400 && Div(1) == 0x10_0000 && Div(2) == 0x4000_0000 && Div(3) == 0x100_0000_0000
    ensures Div(4) == 0x4_0000_0000_0000 && Div(5) == 0x1000_0000_0000_0000
  {
    assert Div(2) == 1024 * Div(1);
    assert Div(3) == 1024 * Div(2);
    assert Div(4) == 1024 * Div(3);
    assert Div(5) == 1024 * Div(4);
  }

  lemma {:induction false} DivGrows(a: nat, b: nat)
    requires a < b
    ensures 1024 * Div(a) <= Div(b)
  {
    if a + 1 < b {
      DivGrows(a, b - 1);
    }
  }

  lemma FitsOne(n: nat, a: nat, b: nat)
    requires Fits(n, a) && Fits(n, b)
    ensures a == b
  {
    if a < b {
      DivGrows(a, b);
    } else if b < a {
      DivGrows(b, a);
    }
  }

  lemma {:induction false} ExponentScales(n: nat)
    requires n >= 1024
    ensures Fits(n, Exponent(n))
  {
    if n >= 1024 * 1024 {
      ExponentScales(n / 1024);
    }
  }

  /** For every int64 the unit index is in range and the divisor at most 2^60. */
  lemma ExponentFits(n: nat)
    requires 1024 <= n < INT64_LIMIT
    ensures Fits(n, Exponent(n)) && Exponent(n) <= 5 && Div(Exponent(n)) <= 0x1000_0000_0000_0000
  {
    ExponentScales(n);
    DivValues();
    if Exponent(n) > 5 {
      DivGrows(5, Exponent(n));
    }
    assert Exponent(n) in {0, 1, 2, 3, 4, 5};
  }

  /** div stays within int64 in the loop, and the text is that of the one unit that fits. */
  method HumanSize(n: int) returns (text: string)
    requires n < INT64_LIMIT
    ensures text == SizeText(n)
  {
    if n <= 0 {
      return "?";
    }
    if n < 1024 {
      return Decimal(n) + " B";
    }
    DivValues();
    var div, exp := 1024, 0;
    var v := n / 1024;
    while v >= 1024
      invariant exp <= 5 && div == Div(exp) <= 0x1000_0000_0000_0000
      invariant div * v <= n < div * (v + 1) && v >= 1
    {
      ScaledUp(n, exp, v);
      div := div * 1024;
      exp := exp + 1;
      v := v / 1024;
    }
    ScaledFits(n, exp, v);
    ExponentFits(n);
    FitsOne(n, exp, Exponent(n));
    text := Printed(RoundHalfEven(10 * Float64(n), div), exp);
  }

  lemma ScaledUp(n: nat, exp: nat, v: nat)
    requires n < INT64_LIMIT && v >= 1024 && exp <= 5 && Div(exp) * v <= n < Div(exp) * (v + 1)
    ensures exp < 5 && Div(exp + 1) == Div(exp) * 1024 <= 0x1000_0000_0000_0000
    ensures Div(exp + 1) * (v / 1024) <= n < Div(exp + 1) * (v / 1024 + 1)
  {
    DivValues();
    assert exp in {0, 1, 2, 3, 4, 5};
  }

  lemma ScaledFits(n: nat, exp: nat, v: nat)
    requires 1 <= v < 1024 && exp <= 5 && Div(exp) * v <= n < Div(exp) * (v + 1)
    ensures Fits(n, exp)
  {
    DivValues();
    assert exp in {0, 1, 2, 3, 4, 5};
  }

  // ---------------- parsing ----------------

  predicate IsDigit(c: char) {
    '0' <= c <= '9'
  }

  /** [\d.] of the regular expression, and \s. */
  predicate IsNumberRune(c: char) {
    IsDigit(c) || c == '.'
  }

  predicate IsBlank(c: char) {
    c == '\t' || c == '\n' || c == '\U{0C}' || c == '\r' || c == ' '
  }

  function NumberLength(s: string): (n: nat)
    ensures n <= |s|
  {
    if s != "" && IsNumberRune(s[0]) then 1 + NumberLength(s[1..]) else 0
  }

  function Unblanked(s: string): string {
    if s != "" && IsBlank(s[0]) then Unblanked(s[1..]) else s
  }

  /** The value of a string of digits. */
  function DigitsValue(s: string): nat
  {
    if s == "" then 0
    else
      var c := s[|s| - 1];
      10 * DigitsValue(s[..|s| - 1]) + if IsDigit(c) then (c - '0') as nat else 0
  }

  function DotAt(s: string): (i: nat)
    ensures i <= |s| && '.' !in s[..i] && (i < |s| ==> s[i] == '.')
  {
    if s == "" || s[0] == '.' then 0 else 1 + DotAt(s[1..])
  }

  function PowerOfTen(n: nat): (p: real)
    ensures p >= 1.0
  {
    if n == 0 then 1.0 else 10.0 * PowerOfTen(n - 1)
  }

  /** The exact value of digits with at most one dot among them, None where ParseFloat reports a syntax error. */
  function NumberValue(s: string): Option<real> {
    var i := DotAt(s);
    var fraction := if i < |s| then s[i + 1..] else "";
    if '.' in fraction || (i == 0 && fraction == "") then None
    else Some(DigitsValue(s[..i] + fraction) as real / PowerOfTen(|fraction|))
  }

  /** [KMGT] in either case; the Kelvin sign folds to k, but strings.ToUpper leaves it, so it scales nothing. */
  function LetterFactor(c: char): Option<nat> {
    if c == 'K' || c == 'k' then Some(0x400)
    else if c == 'M' || c == 'm' then Some(0x10_0000)
    else if c == 'G' || c == 'g' then Some(0x4000_0000)
    else if c == 'T' || c == 't' then Some(0x100_0000_0000)
    else if c == '\U{212A}' then Some(1)
    else None
  }

  /** The rest of a unit after its prefix, without the i. */
  function Tail(rest: string): string {
    if rest != "" && (rest[0] == 'i' || rest[0] == 'I') then rest[1..] else rest
  }

  /** The factor for `[KMGT]?i?B\s*` in either case, None if that does not match. */
  function UnitFactor(s: string): Option<nat> {
    var letter := if s != "" then LetterFactor(s[0]) else None;
    var rest := if letter.Some? then s[1..] else s;
    var tail := Tail(rest);
    if tail == "" || (tail[0] != 'b' && tail[0] != 'B') || Unblanked(tail[1..]) != "" then None
    else if letter.Some? then letter else Some(1)
  }

  /** The number times the factor of the unit, truncated to bytes; 0 if either does not parse. */
  function Scaled(number: string, unit: string, nearest: real -> Option<real>): int {
    if UnitFactor(unit).None? || NumberValue(number).None? then 0
    else
      Truncated(nearest(NumberValue(number).value), UnitFactor(unit).value)
  }

  /** int64(v * mult). */
  function Truncated(v: Option<real>, c: nat): int {
    if v.None? then 0 else (v.value * c as real).Floor
  }

  /** `nearest` is the float64 strconv.ParseFloat rounds to, None when that is out of range. */
  function ParseHumanSize(s: string, nearest: real -> Option<real>): int {
    var t := Unblanked(Trimmed(s));
    var n := NumberLength(t);
    if n == 0 then 0 else Scaled(t[..n], Unblanked(t[n..]), nearest)
  }

  /**
   * Correct rounding to 53 bits, as far as it matters here: from 1 to 10240, which is all that is printed,
   * half-integers are exact and others almost. Far below 1 strconv.ParseFloat may underflow to 0.
   */
  ghost predicate IsFloat64Rounding(nearest: real -> Option<real>) {
    forall x :: 1.0 <= x <= 10240.0 ==> nearest(x).Some? && CloseTo(nearest(x).value, x)
  }

  predicate CloseTo(v: real, x: real) {
    && -x <= (v - x) * 9007199254740992.0 <= x
    && ((x * 2.0).Floor as real == x * 2.0 ==> v == x)
  }

  /** The nearest integer, ties to the even one. */
  function NearestInt(y: real): int {
    var f := y.Floor;
    var over := y - f as real;
    if over < 0.5 || (over == 0.5 && f % 2 == 0) then f else f + 1
  }

  /**
   * v is the nearest to x of the numbers with `perUnit` to the unit, ties to even. Between 2^e and 2^(e+1) the
   * float64 numbers are those with 2^(52-e) to the unit.
   */
  predicate IsNearest(v: real, x: real, perUnit: nat) {
    && perUnit >= 2 && perUnit % 2 == 0 && x * perUnit as real >= 4503599627370496.0
    && v * perUnit as real == NearestInt(x * perUnit as real) as real
  }

  lemma CancelFactor(a: real, b: real, d: real)
    requires d > 0.0 && a * d <= b * d
    ensures a <= b
  { }

  lemma RoundingError(v: real, x: real, d: real, y: real, k: real)
    requires d >= 1.0 && y == x * d && k == v * d && y >= 4503599627370496.0 && -0.5 <= k - y <= 0.5
    ensures -x <= (v - x) * 9007199254740992.0 <= x
  {
    ScaledError(v - x, x, d);
    ScaledError(x - v, x, d);
  }

  lemma ScaledError(e: real, x: real, d: real)
    requires d >= 1.0 && e * d <= 0.5 && x * d >= 4503599627370496.0
    ensures e * 9007199254740992.0 <= x
  {
    assert e * 9007199254740992.0 * d == e * d * 9007199254740992.0;
    CancelFactor(e * 9007199254740992.0, x, d);
  }

  lemma NearestIntClose(y: real)
    ensures -0.5 <= NearestInt(y) as real - y <= 0.5
  { }

  lemma HalfIntegerExact(v: real, x: real, d: nat)
    requires IsNearest(v, x, d) && (x * 2.0).Floor as real == x * 2.0
    ensures v == x
  {
    var m, h := (x * 2.0).Floor, d / 2;
    assert x * d as real == x * 2.0 * h as real;
    assert x * d as real == (m * h) as real;
    var y := x * d as real;
    assert y.Floor == m * h && NearestInt(y) == m * h;
    assert v * d as real == y;
    CancelFactor(v, x, d as real);
    CancelFactor(x, v, d as real);
  }

  lemma NearestClose(v: real, x: real, d: nat)
    requires IsNearest(v, x, d)
    ensures CloseTo(v, x)
  {
    NearestIntClose(x * d as real);
    RoundingError(v, x, d as real, x * d as real, v * d as real);
    if (x * 2.0).Floor as real == x * 2.0 {
      HalfIntegerExact(v, x, d);
    }
  }

  /** Rounding to nearest, ties to even, meets the hypothesis. */
  lemma CorrectRounding(nearest: real -> Option<real>)
    requires forall x :: 1.0 <= x <= 10240.0 ==> nearest(x).Some? && exists d :: IsNearest(nearest(x).value, x, d)
    ensures IsFloat64Rounding(nearest)
  {
    forall x | 1.0 <= x <= 10240.0 ensures nearest(x).Some? && CloseTo(nearest(x).value, x) {
      var d :| IsNearest(nearest(x).value, x, d);
      NearestClose(nearest(x).value, x, d);
    }
  }

  // ---------------- the round trip ----------------

  lemma {:induction false} NumberLengthOf(a: string, b: string)
    requires forall c :: c in a ==> IsNumberRune(c)
    requires b != "" && !IsNumberRune(b[0])
    ensures NumberLength(a + b) == |a|
  {
    if a == "" {
      assert a + b == b;
    } else {
      assert (a + b)[1..] == a[1..] + b;
      NumberLengthOf(a[1..], b);
    }
  }

  lemma {:induction false} DecimalValue(n: nat)
    ensures DigitsValue(Decimal(n)) == n
  {
    if n >= 10 {
      DecimalValue(n / 10);
      assert Decimal(n)[..|Decimal(n)| - 1] == Decimal(n / 10);
    } else {
      assert Decimal(n)[..0] == "";
    }
  }

  lemma {:induction false} DotAtEnd(a: string, b: string)
    requires '.' !in a
    ensures DotAt(a) == |a| && DotAt(a + "." + b) == |a|
  {
    if a == "" {
      assert a + "." + b == "." + b;
    } else {
      assert (a + "." + b)[1..] == a[1..] + "." + b;
      DotAtEnd(a[1..], b);
    }
  }

  lemma DigitIs(d: nat)
    requires d < 10
    ensures IsDigit(Digit(d)) && (Digit(d) - '0') as nat == d
  { }

  lemma DecimalDigits(n: nat)
    ensures AllDigits(Decimal(n))
  {
    var s := Decimal(n);
    forall k | 0 <= k < |s| ensures IsDigit(s[k]) {
      assert s[k] in s;
    }
  }

  lemma TenthsDigits(q: nat, d: nat)
    requires d < 10
    ensures PointValue(Decimal(q), [Digit(d)]) == (10 * q + d) as real / 10.0
  {
    DigitIs(d);
    DecimalValue(q);
    DigitsAfter(Decimal(q), Digit(d));
    assert PowerOfTen(1) == 10.0 * PowerOfTen(0);
  }

  lemma MantissaValue(tenths: nat)
    ensures NumberValue(Mantissa(tenths)) == Some(tenths as real / 10.0)
    ensures Mantissa(tenths) != "" && forall c :: c in Mantissa(tenths) ==> IsNumberRune(c)
  {
    var a, b := Decimal(tenths / 10), [Digit(tenths % 10)];
    DecimalDigits(tenths / 10);
    DigitIs(tenths % 10);
    PointAt(Mantissa(tenths), a, b);
    TenthsDigits(tenths / 10, tenths % 10);
  }

  predicate AllDigits(s: string) {
    forall k :: 0 <= k < |s| ==> IsDigit(s[k])
  }

  lemma DigitsAfter(s: string, c: char)
    requires IsDigit(c)
    ensures DigitsValue(s + [c]) == 10 * DigitsValue(s) + (c - '0') as nat
  {
    assert (s + [c])[..|s|] == s;
  }

  /** The value of the digits `a` before the point and `f` behind it. */
  function PointValue(a: string, f: string): real {
    DigitsValue(a + f) as real / PowerOfTen(|f|)
  }

  /** That is what a number with a point, or without one and nothing behind it, is read as. */
  lemma PointAt(s: string, a: string, f: string)
    requires AllDigits(a) && AllDigits(f) && a + f != "" && (s == a + "." + f || (f == "" && s == a))
    ensures NumberValue(s) == Some(PointValue(a, f))
  {
    assert '.' !in a && '.' !in f;
    DotAtEnd(a, f);
    assert s[..|a|] == a;
    assert |s| > |a| ==> s[|a| + 1..] == f;
  }

  /** Moving the point one place to the right multiplies by ten.. */
  lemma PointMoves(a: string, d: char, f: string)
    ensures PointValue(a + [d], f) == 10.0 * PointValue(a, [d] + f)
  {
    var digits, p := a + [d] + f, PowerOfTen(|f|);
    assert a + ([d] + f) == digits;
    assert |[d] + f| == |f| + 1 && PowerOfTen(|f| + 1) == 10.0 * p;
    TenTimes(DigitsValue(digits) as real, p);
  }

  /** ..until it is behind the digits of a whole number. */
  lemma PointAtEnd(a: string)
    ensures PointValue(a, "") == DigitsValue(a) as real
  {
    assert a + "" == a;
  }

  lemma TenTimes(x: real, p: real)
    requires p >= 1.0
    ensures x / p == 10.0 * (x / (10.0 * p))
  {
    assert 10.0 * (x / (10.0 * p)) == (10.0 * x) / (10.0 * p);
  }

  lemma WholeNumber(a: string)
    requires AllDigits(a) && a != ""
    ensures NumberValue(a) == Some(DigitsValue(a) as real)
  {
    PointAt(a, a, "");
    PointAtEnd(a);
  }

  /** What is no number: no digit at all, or two points. */
  lemma NumberSyntax(s: string)
    requires forall c :: c in s ==> IsNumberRune(c)
    ensures NumberValue(s).None? <==>
            s == "" || s == "." || exists i, j :: 0 <= i < j < |s| && s[i] == '.' && s[j] == '.'
  {
    var i := DotAt(s);
    if i < |s| {
      assert forall j :: i < j < |s| ==> s[j] == s[i + 1..][j - i - 1];
      if '.' in s[i + 1..] {
        var k :| 0 <= k < |s[i + 1..]| && s[i + 1..][k] == '.';
        assert s[i + 1 + k] == '.';
      }
    }
  }

  lemma PlainNumberValue(n: nat)
    ensures NumberValue(Decimal(n)) == Some(n as real)
  {
    var a := Decimal(n);
    DotAtEnd(a, "");
    DecimalValue(n);
    assert a[..|a|] + "" == a;
  }

  lemma TrimNothing(s: string)
    requires s != "" && !IsSpace(s[0]) && !IsSpace(s[|s| - 1])
    ensures Unblanked(Trimmed(s)) == s
  { }

  /** A number, a blank and a unit of letters parse as such. */
  lemma ParsedParts(number: string, unit: string, nearest: real -> Option<real>)
    requires number != "" && forall c :: c in number ==> IsNumberRune(c)
    requires unit != "" && !IsSpace(unit[0]) && !IsSpace(unit[|unit| - 1])
    ensures ParseHumanSize(number + " " + unit, nearest) == Scaled(number, unit, nearest)
  {
    var s, tail := number + " " + unit, " " + unit;
    assert IsNumberRune(number[0]);
    TrimNothing(s);
    assert s == number + tail;
    NumberLengthOf(number, tail);
    assert s[|number|..] == tail && s[..|number|] == number;
    TailUnblanked(unit);
  }

  lemma TailUnblanked(unit: string)
    requires unit != "" && !IsSpace(unit[0])
    ensures Unblanked(" " + unit) == unit
  {
    assert (" " + unit)[1..] == unit;
  }

  lemma UnitFactors(exp: nat)
    requires exp < 6
    ensures UnitFactor(UnitText(exp)) == if exp < 4 then Some(Div(exp)) else None
  {
    DivValues();
    var u := UnitText(exp);
    assert u[1..] == "B" && "B"[1..] == "";
  }

  /** The prefix of a unit, in letters, and what it stands for. */
  predicate IsPrefix(u: string, factor: nat) {
    || (u == "" && factor == 1)
    || ((u == "K" || u == "k") && factor == 0x400)
    || ((u == "M" || u == "m") && factor == 0x10_0000)
    || ((u == "G" || u == "g") && factor == 0x4000_0000)
    || ((u == "T" || u == "t") && factor == 0x100_0000_0000)
    || (u == "\U{212A}" && factor == 1)
  }

  /** Perhaps an i, and a B that only blanks follow, in either case. */
  predicate IsUnit(i: string, tail: string) {
    && (i == "" || i == "i" || i == "I") && tail != "" && (tail[0] == 'b' || tail[0] == 'B')
    && forall k :: 1 <= k < |tail| ==> IsBlank(tail[k])
  }

  lemma {:induction false} UnblankedAll(s: string)
    ensures Unblanked(s) == "" <==> forall k :: 0 <= k < |s| ==> IsBlank(s[k])
  {
    if s != "" {
      UnblankedAll(s[1..]);
      assert IsBlank(s[0]) ==> forall k :: 0 < k < |s| ==> s[k] == s[1..][k - 1];
    }
  }

  /** With and without the i, in either case, a unit scales by the power of 1024 of its prefix.. */
  lemma UnitScales(u: string, i: string, tail: string, factor: nat)
    requires IsPrefix(u, factor) && IsUnit(i, tail)
    ensures UnitFactor(u + (i + tail)) == Some(factor)
  {
    UnblankedAll(tail[1..]);
    TailOf(i, tail);
    PrefixOf(u, i + tail, factor);
    UnitOfParts(u + (i + tail), u, i + tail, tail, factor);
  }

  lemma UnitOfParts(s: string, u: string, rest: string, tail: string, factor: nat)
    requires s != "" && |u| <= 1 && s[|u|..] == rest && Tail(rest) == tail && tail != ""
    requires if u == "" then LetterFactor(s[0]).None? && factor == 1 else LetterFactor(s[0]) == Some(factor)
    requires (tail[0] == 'b' || tail[0] == 'B') && Unblanked(tail[1..]) == ""
    ensures UnitFactor(s) == Some(factor)
  { }

  lemma TailOf(i: string, tail: string)
    requires (i == "" || i == "i" || i == "I") && tail != "" && tail[0] != 'i' && tail[0] != 'I'
    ensures Tail(i + tail) == tail
  {
    assert (i + tail)[|i|..] == tail;
  }

  lemma PrefixOf(u: string, rest: string, factor: nat)
    requires IsPrefix(u, factor) && rest != "" && LetterFactor(rest[0]).None?
    ensures (u + rest)[|u|..] == rest && u + rest != ""
    ensures if u == "" then LetterFactor((u + rest)[0]).None? else LetterFactor((u + rest)[0]) == Some(factor)
  { }

  /** ..and nothing else is a unit. */
  lemma UnitsOnly(s: string) returns (u: string, i: string, tail: string)
    requires UnitFactor(s).Some?
    ensures s == u + (i + tail) && IsPrefix(u, UnitFactor(s).value) && IsUnit(i, tail)
  {
    u := if LetterFactor(s[0]).Some? then s[..1] else "";
    var rest := s[|u|..];
    i := if rest[0] == 'i' || rest[0] == 'I' then rest[..1] else "";
    tail := rest[|i|..];
    UnblankedAll(tail[1..]);
    assert forall k :: 1 <= k < |tail| ==> tail[k] == tail[1..][k - 1];
  }

  /** A size as nyaa prints it: 1.4 GiB is 1.4 times 2^30 bytes, truncated. */
  lemma TenthsOfUnit(tenths: nat, u: string, factor: nat, nearest: real -> Option<real>)
    requires IsPrefix(u, factor) && u != "" && u[0] != '\U{212A}'
    ensures ParseHumanSize(Mantissa(tenths) + " " + (u + "iB"), nearest) ==
            Truncated(nearest(tenths as real / 10.0), factor)
  {
    MantissaValue(tenths);
    ParsedParts(Mantissa(tenths), u + "iB", nearest);
    UnitScales(u, "i", "B", factor);
    assert "i" + "B" == "iB";
  }

  /** The unit that is printed, by size. */
  lemma PrintedUnit(n: int)
    requires n < INT64_LIMIT
    ensures n <= 0 ==> SizeText(n) == "?"
    ensures n >= 1024 ==>
              SizeText(n) == Mantissa(Tenths(n, Exponent(n))) +
                             (if n < 0x10_0000 then " KB"
                              else if n < 0x4000_0000 then " MB"
                              else if n < 0x100_0000_0000 then " GB"
                              else if n < 0x4_0000_0000_0000 then " TB"
                              else if n < 0x1000_0000_0000_0000 then " PB"
                              else " EB")
  {
    if n >= 1024 {
      ExponentFits(n);
      DivValues();
      var exp := Exponent(n);
      assert exp in {0, 1, 2, 3, 4, 5};
      assert " " + UnitText(exp) == [' ', UnitLetter(exp), 'B'];
      assert SizeText(n) == Mantissa(Tenths(n, exp)) + (" " + UnitText(exp));
    }
  }

  /** The nearest integer, and of two the even one, so there is only one such number. */
  lemma RoundedClose(a: nat, b: nat)
    requires b > 0
    ensures var off := 2 * (RoundHalfEven(a, b) * b) - 2 * a;
            -(b as int) <= off <= b && (off == b || off == -(b as int) ==> RoundHalfEven(a, b) % 2 == 0)
  {
    var q, r := a / b, a % b;
    assert (q + 1) * b == q * b + b && a == q * b + r;
  }

  lemma {:induction false} UlpBound(n: nat, k: nat)
    requires n < TWO_53 * k && k in {1, 2, 4, 8, 16, 32, 64, 128, 256, 512, 1024}
    ensures Ulp(n) <= k
  {
    if n >= TWO_53 {
      UlpBound(n / 2, k / 2);
    }
  }

  /**
   * The tenths printed are those nearest to n, of two the even ones. From 2^53 on float64 may be off by 512 bytes
   * before that.
   */
  lemma TenthsNearest(n: nat)
    requires 1024 <= n < INT64_LIMIT
    ensures var t, d := Tenths(n, Exponent(n)), Div(Exponent(n));
            && -(d as int) - 10_240 <= 2 * (t * d) - 20 * n <= d + 10_240
            && (n < 0x20_0000_0000_0000 ==>
                  && -(d as int) <= 2 * (t * d) - 20 * n <= d
                  && (2 * (t * d) - 20 * n == d || 2 * (t * d) - 20 * n == -(d as int) ==> t % 2 == 0))
  {
    UlpBound(n, 1024);
    RoundedClose(n, Ulp(n));
    RoundedClose(10 * Float64(n), Div(Exponent(n)));
    assert n < 0x20_0000_0000_0000 ==> Float64(n) == n;
  }

  lemma FloorNear(p: nat, y: real)
    requires p % 2 == 0 && -2.0 < 10.0 * y - p as real < 2.0
    requires p % 10 == 0 ==> 10.0 * y == p as real
    ensures y.Floor == p / 10
  {
    assert p == 10 * (p / 10) + p % 10;
  }

  /** The factors of the units K, M, G and T. */
  predicate IsFactor(c: nat) {
    c == 0x400 || c == 0x10_0000 || c == 0x4000_0000 || c == 0x100_0000_0000
  }

  lemma FactorError(x: real, v: real, c: nat)
    requires 0.0 <= x <= 1024.0 && -x <= (v - x) * 9007199254740992.0 <= x && IsFactor(c)
    ensures -2.0 < 10.0 * (v * c as real) - 10.0 * (x * c as real) < 2.0
  { }

  lemma FactorTimesTenths(tenths: nat, c: nat)
    ensures 10.0 * (tenths as real / 10.0 * c as real) == (tenths * c) as real
  { }

  lemma FactorMod(tenths: nat, c: nat)
    requires IsFactor(c)
    ensures tenths * c % 2 == 0 && (tenths * c % 10 == 0 ==> tenths % 5 == 0)
  { }

  lemma HalfIsExact(tenths: nat, v: real)
    requires tenths % 5 == 0 && CloseTo(v, tenths as real / 10.0)
    ensures v == tenths as real / 10.0
  {
    var x, k := tenths as real / 10.0, tenths / 5;
    assert tenths == 5 * k;
    assert x * 2.0 == k as real;
    assert (x * 2.0).Floor == k;
  }

  /** The error of the float64 between the text and the product never moves the truncated product. */
  lemma FloatFloor(tenths: nat, c: nat, v: real, y: real)
    requires tenths <= 10240 && IsFactor(c) && CloseTo(v, tenths as real / 10.0) && y == v * c as real
    ensures y.Floor == tenths * c / 10
  {
    var p := tenths * c;
    assert -2.0 < 10.0 * y - p as real < 2.0 && (tenths % 5 == 0 ==> 10.0 * y == p as real) by {
      FactorError(tenths as real / 10.0, v, c);
      FactorTimesTenths(tenths, c);
      if tenths % 5 == 0 {
        HalfIsExact(tenths, v);
      }
    }
    FactorMod(tenths, c);
    FloorNear(p, y);
  }

  lemma DivIsFactor(exp: nat)
    requires exp < 4
    ensures IsFactor(Div(exp))
  {
    DivValues();
    assert exp in {0, 1, 2, 3};
  }

  lemma PrintedSplits(tenths: nat, exp: nat, nearest: real -> Option<real>)
    requires exp < 6
    ensures ParseHumanSize(Printed(tenths, exp), nearest) == Scaled(Mantissa(tenths), UnitText(exp), nearest)
  {
    MantissaValue(tenths);
    ParsedParts(Mantissa(tenths), UnitText(exp), nearest);
  }

  lemma PrintedParses(tenths: nat, exp: nat, nearest: real -> Option<real>)
    requires exp < 6
    ensures ParseHumanSize(Printed(tenths, exp), nearest) ==
            if exp < 4 then Truncated(nearest(tenths as real / 10.0), Div(exp)) else 0
  {
    PrintedSplits(tenths, exp, nearest);
    UnitFactors(exp);
    MantissaValue(tenths);
  }

  lemma BytesSplit(n: nat, nearest: real -> Option<real>)
    ensures ParseHumanSize(Decimal(n) + " B", nearest) == Scaled(Decimal(n), "B", nearest)
  {
    assert Decimal(n) + " " + "B" == Decimal(n) + " B";
    ParsedParts(Decimal(n), "B", nearest);
  }

  lemma PlainParses(n: nat, nearest: real -> Option<real>)
    ensures ParseHumanSize(Decimal(n) + " B", nearest) == Truncated(nearest(n as real), 1)
  {
    BytesSplit(n, nearest);
    PlainNumberValue(n);
    assert UnitFactor("B") == Some(1) by {
      assert "B"[1..] == "";
    }
  }

  lemma TenthsTruncated(tenths: nat, c: nat, nearest: real -> Option<real>)
    requires 10 <= tenths <= 10240 && IsFactor(c) && IsFloat64Rounding(nearest)
    ensures Truncated(nearest(tenths as real / 10.0), c) == tenths * c / 10
  {
    var x := tenths as real / 10.0;
    assert nearest(x).Some? && CloseTo(nearest(x).value, x);
    FloatFloor(tenths, c, nearest(x).value, nearest(x).value * c as real);
  }

  lemma BytesTruncated(n: nat, nearest: real -> Option<real>)
    requires 0 < n < 1024 && IsFloat64Rounding(nearest)
    ensures Truncated(nearest(n as real), 1) == n
  {
    var x := n as real;
    assert nearest(x).Some? && CloseTo(nearest(x).value, x);
    assert x * 2.0 == (2 * n) as real;
  }

  /** Rounding to tenths moves n by at most a twentieth of the unit, and not over 1024 units. */
  lemma TenthsClose(n: nat, exp: nat)
    requires Fits(n, exp) && exp < 4
    ensures 10 <= Tenths(n, exp) <= 10240
    ensures 20 * n - Div(exp) <= 2 * (Tenths(n, exp) * Div(exp)) <= 20 * n + Div(exp)
  {
    DivValues();
    assert exp in {0, 1, 2, 3};
    assert Float64(n) == n;
  }

  /** What is parsed from the text of a size below 2^50 bytes. */
  function Reparsed(n: nat): nat
    requires 0 < n < TWO_50
  {
    if n < 1024 then n else Tenths(n, Exponent(n)) * Div(Exponent(n)) / 10
  }

  lemma SmallExponent(n: nat)
    requires 1024 <= n < INT64_LIMIT
    ensures Exponent(n) < 4 <==> n < TWO_50
  {
    ExponentFits(n);
    DivValues();
    assert Exponent(n) in {0, 1, 2, 3, 4, 5};
  }

  /** The distance allowed by the unit: a twentieth of it, and the byte that truncation may lose. */
  predicate Near(m: int, n: nat, unit: nat) {
    -20 - unit < 20 * (m - n) <= unit
  }

  lemma ReparsedNear(n: nat)
    requires 1024 <= n < TWO_50
    ensures Near(Reparsed(n), n, Div(Exponent(n)))
  {
    ExponentFits(n);
    SmallExponent(n);
    TenthsClose(n, Exponent(n));
  }

  lemma UnitReparse(n: nat, exp: nat, nearest: real -> Option<real>)
    requires Fits(n, exp) && exp < 4 && IsFloat64Rounding(nearest)
    ensures ParseHumanSize(Printed(Tenths(n, exp), exp), nearest) == Tenths(n, exp) * Div(exp) / 10
  {
    TenthsClose(n, exp);
    PrintedParses(Tenths(n, exp), exp, nearest);
    DivIsFactor(exp);
    TenthsTruncated(Tenths(n, exp), Div(exp), nearest);
  }

  lemma SmallReparse(n: nat, nearest: real -> Option<real>)
    requires 0 < n < TWO_50 && IsFloat64Rounding(nearest)
    ensures ParseHumanSize(SizeText(n), nearest) == Reparsed(n)
  {
    if n < 1024 {
      PlainParses(n, nearest);
      BytesTruncated(n, nearest);
    } else {
      ExponentFits(n);
      SmallExponent(n);
      UnitReparse(n, Exponent(n), nearest);
    }
  }

  /** The units P and E are printed but not parsed. */
  lemma LargeReparse(n: nat, nearest: real -> Option<real>)
    requires TWO_50 <= n < INT64_LIMIT
    ensures ParseHumanSize(SizeText(n), nearest) == 0 && !Near(0, n, Div(Exponent(n)))
  {
    ExponentFits(n);
    SmallExponent(n);
    PrintedParses(Tenths(n, Exponent(n)), Exponent(n), nearest);
  }

  /**
   * The round trip: what is parsed from the printed text of a size is near it exactly for the sizes below 2^50 bytes,
   * and the same below 1024. From 2^50 on nothing is left.
   */
  lemma RoundTrip(n: nat, nearest: real -> Option<real>)
    requires 0 < n < INT64_LIMIT && IsFloat64Rounding(nearest)
    ensures var m := ParseHumanSize(SizeText(n), nearest);
            if n < 1024 then m == n
            else Near(m, n, Div(Exponent(n))) <==> n < TWO_50
    ensures n >= TWO_50 ==> ParseHumanSize(SizeText(n), nearest) == 0
  {
    if n < TWO_50 {
      SmallReparse(n, nearest);
      if n >= 1024 {
        ReparsedNear(n);
      }
    } else {
      LargeReparse(n, nearest);
    }
  }

  lemma TenthsAgain(n: nat, exp: nat)
    requires Fits(n, exp) && exp < 4 && 10 <= Tenths(n, exp) < 10240
    ensures var m := Tenths(n, exp) * Div(exp) / 10; Fits(m, exp) && Tenths(m, exp) == Tenths(n, exp)
  {
    DivValues();
    assert exp in {0, 1, 2, 3};
    var m := Tenths(n, exp) * Div(exp) / 10;
    assert Float64(m) == m;
  }

  lemma TenthsOverflow(exp: nat)
    requires exp < 4
    ensures var m := 10240 * Div(exp) / 10; Fits(m, exp + 1) && Tenths(m, exp + 1) == 10
  {
    DivValues();
    assert exp in {0, 1, 2, 3};
    assert Float64(10240 * Div(exp) / 10) == 10240 * Div(exp) / 10;
  }

  /** Printing what was parsed gives the same text, unless the mantissa had been rounded up to 1024.0. */
  lemma Reprint(n: nat)
    requires 0 < n < TWO_50
    ensures 0 < Reparsed(n) < INT64_LIMIT
    ensures SizeText(Reparsed(n)) == SizeText(n) <==> n < 1024 || Tenths(n, Exponent(n)) != 10240
  {
    if n >= 1024 {
      ExponentFits(n);
      SmallExponent(n);
      var exp, m := Exponent(n), Reparsed(n);
      DivValues();
      assert exp in {0, 1, 2, 3};
      TenthsClose(n, exp);
      if Tenths(n, exp) < 10240 {
        TenthsAgain(n, exp);
        ExponentFits(m);
        FitsOne(m, exp, Exponent(m));
      } else {
        TenthsOverflow(exp);
        ExponentFits(m);
        FitsOne(m, exp + 1, Exponent(m));
        DifferentTexts(exp);
      }
    }
  }

  lemma DifferentTexts(exp: nat)
    requires exp < 4
    ensures Printed(10240, exp) != Printed(10, exp + 1)
  {
    assert Decimal(1024) == Decimal(102) + [Digit(4)];
    assert Decimal(102) == Decimal(10) + [Digit(2)];
    assert |Printed(10240, exp)| == |Decimal(1024)| + 5 && |Printed(10, exp + 1)| == |Decimal(1)| + 5;
  }
}
