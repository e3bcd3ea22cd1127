/** Decimal text: printing, parsing and rescaling of unscaled/scale pairs. */
module Decimal {
  import opened Bytes

  const ZERO: byte := 48
  const MINUS: byte := 45
  const PLUS: byte := 43
  const DOT: byte := 46

  function Abs(x: int): (r: nat)
    ensures r == x || r == -x
  {
    if x < 0 then -x else x
  }

  function Pow10(n: nat): (r: int)
    ensures r > 0
  {
    if n == 0 then 1 else 10 * Pow10(n - 1)
  }

  lemma {:induction false} Pow10Add(a: nat, b: nat)
    ensures Pow10(a + b) == Pow10(a) * Pow10(b)
  {
    if a != 0 {
      Pow10Add(a - 1, b);
      assert Pow10(a + b) == 10 * (Pow10(a - 1) * Pow10(b));
    }
  }

  lemma {:induction false} Pow10Mono(a: nat, b: nat)
    requires a <= b
    ensures Pow10(a) <= Pow10(b)
  {
    if a < b {
      Pow10Mono(a, b - 1);
    }
  }

  // ----- Digit strings

  predicate IsDigit(b: byte) { ZERO <= b <= ZERO + 9 }

  predicate IsDigits(s: seq<byte>) { forall i :: 0 <= i < |s| ==> IsDigit(s[i]) }

  /** The number a digit string denotes; leading zeros are allowed. */
  function DigitsValue(s: seq<byte>): nat
    requires IsDigits(s)
  {
    if s == [] then 0 else 10 * DigitsValue(s[..|s| - 1]) + (s[|s| - 1] - ZERO)
  }

  /** The shortest digit string of n. */
  function Digits(n: nat): (s: seq<byte>)
    ensures |s| > 0 && IsDigits(s)
  {
    if n < 10 then [ZERO + n] else Digits(n / 10) + [ZERO + n % 10]
  }

  function IntString(v: int): (s: seq<byte>) {
    Sign(v) + Digits(Abs(v))
  }

  function Sign(v: int): (s: seq<byte>) {
    if v < 0 then [MINUS] else []
  }

  lemma {:induction false} DigitsValueOfDigits(n: nat)
    ensures DigitsValue(Digits(n)) == n
  {
    if n < 10 {
      assert Digits(n)[..0] == [];
    } else {
      DigitsValueOfDigits(n / 10);
      assert Digits(n)[..|Digits(n)| - 1] == Digits(n / 10);
    }
  }

  // The number of digits is the decimal order of magnitude.
  lemma {:induction false} DigitCount(n: nat)
    requires n > 0
    ensures Pow10(|Digits(n)| - 1) <= n < Pow10(|Digits(n)|)
  {
    if n >= 10 {
      DigitCount(n / 10);
    } else {
      assert Pow10(1) == 10;
    }
  }

  lemma {:induction false} DigitsValueAppend(a: seq<byte>, b: seq<byte>)
    requires IsDigits(a) && IsDigits(b)
    ensures IsDigits(a + b)
    ensures DigitsValue(a + b) == DigitsValue(a) * Pow10(|b|) + DigitsValue(b)
  {
    if b == [] {
      assert a + b == a;
    } else {
      var b' := b[..|b| - 1];
      DigitsValueAppend(a, b');
      assert (a + b)[..|a + b| - 1] == a + b';
      assert DigitsValue(a) * Pow10(|b|) == 10 * (DigitsValue(a) * Pow10(|b'|));
    }
  }

  lemma {:induction false} DigitsValueZeros(n: nat)
    ensures IsDigits(Fill(n, ZERO)) && DigitsValue(Fill(n, ZERO)) == 0
  {
    if n > 0 {
      DigitsValueZeros(n - 1);
      assert Fill(n, ZERO)[..n - 1] == Fill(n - 1, ZERO);
    }
  }

  // ----- decimalString

  /** The text decimalString prints for raw * 10^-scale. */
  function DecimalString(raw: int, scale: int): seq<byte> {
    if scale == 0 then IntString(raw)
    else if scale < 0 then
      if raw == 0 then [ZERO] else IntString(raw) + Fill(-scale, ZERO)
    else
      var d := PaddedDigits(Abs(raw), scale);
      Sign(raw) + (d[..|d| - scale] + [DOT] + d[|d| - scale..])
  }

  /** At least scale + 1 digits of n. */
  function PaddedDigits(n: nat, scale: nat): (d: seq<byte>)
    ensures |d| > scale && IsDigits(d)
  {
    var d := Digits(n);
    if |d| <= scale then Fill(scale - |d| + 1, ZERO) + d else d
  }

  lemma {:induction false} PaddedDigitsValue(n: nat, scale: nat)
    ensures DigitsValue(PaddedDigits(n, scale)) == n
  {
    var d := Digits(n);
    DigitsValueOfDigits(n);
    if |d| <= scale {
      DigitsValueZeros(scale - |d| + 1);
      DigitsValueAppend(Fill(scale - |d| + 1, ZERO), d);
    }
  }

  // ----- String helpers of the Go library

  predicate IsSpace(b: byte) { b == 32 || 9 <= b <= 13 }

  function TrimLeft(s: seq<byte>): seq<byte> {
    if s != [] && IsSpace(s[0]) then TrimLeft(s[1..]) else s
  }

  function TrimRight(s: seq<byte>): seq<byte> {
    if s != [] && IsSpace(s[|s| - 1]) then TrimRight(s[..|s| - 1]) else s
  }

  function TrimSpace(s: seq<byte>): seq<byte> { TrimRight(TrimLeft(s)) }

  /** Index of the first octet of s that is in set, or |s|. */
  function IndexAny(s: seq<byte>, chars: seq<byte>): (i: nat)
    ensures i <= |s|
    ensures forall k :: 0 <= k < i ==> s[k] !in chars
    ensures i < |s| ==> s[i] in chars
  {
    if s == [] || s[0] in chars then 0 else 1 + IndexAny(s[1..], chars)
  }

  /** strings.Cut around the first '.'. */
  function CutDot(s: seq<byte>): (seq<byte>, seq<byte>) {
    var i := IndexAny(s, [DOT]);
    if i < |s| then (s[..i], s[i + 1..]) else (s, [])
  }

  /** An optional sign, as HasPrefix strips it: (negative, rest). */
  function CutSign(s: seq<byte>): (bool, seq<byte>) {
    if s != [] && s[0] == MINUS then (true, s[1..])
    else if s != [] && s[0] == PLUS then (false, s[1..])
    else (false, s)
  }

  function Negated(neg: bool, v: int): int { if neg then -v else v }

  /** big.Int.SetString in base 10: a sign, then at least one digit. */
  function SetString(s: seq<byte>): Result<int> {
    var (neg, d) := CutSign(s);
    if d == [] || !IsDigits(d) then Err else Ok(Negated(neg, DigitsValue(d)))
  }

  /** strconv.Atoi on a 64-bit int. */
  function Atoi(s: seq<byte>): Result<int> {
    match SetString(s)
    case Ok(v) => if InInt64(v) then Ok(v) else Err
    case _ => Err
  }

  // ----- parseNumberString and decimalToScaledInt

  /** What a number text denotes: unscaled * 10^-scale. */
  function ParseExact(text: seq<byte>): Result<(int, int)> {
    var s := TrimSpace(text);
    var i := IndexAny(s, [101, 69]); // "eE"
    if i < |s| then
      match Atoi(s[i + 1..])
      case Ok(exp) => ParseMantissa(s[..i], exp)
      case _ => Err
    else ParseMantissa(s, 0)
  }

  function ParseMantissa(s: seq<byte>, exp: int): Result<(int, int)> {
    var (neg, t) := CutSign(s);
    var (whole, frac) := CutDot(t);
    var digits := whole + frac;
    if digits == [] || !IsDigits(digits) then Err
    else Ok((Negated(neg, DigitsValue(digits)), |frac| - exp))
  }

  /** parseNumberString: the scale is a difference of two ints. */
  function ParseNumber(text: seq<byte>): (r: Result<(int, int)>)
    ensures r.Ok? ==> InInt64(r.value.1)
  {
    match ParseExact(text)
    case Ok((unscaled, scale)) => Ok((unscaled, Wrap64(scale)))
    case _ => Err
  }

  lemma {:induction false} TrimLeftShorter(s: seq<byte>)
    ensures |TrimLeft(s)| <= |s|
  {
    if s != [] {
      TrimLeftShorter(s[1..]);
    }
  }

  lemma {:induction false} TrimRightShorter(s: seq<byte>)
    ensures |TrimRight(s)| <= |s|
  {
    if s != [] {
      TrimRightShorter(s[..|s| - 1]);
    }
  }

  // The scale of a Go string is less than twice an int.
  lemma {:induction false} ParseExactRange(text: GoBytes)
    ensures ParseExact(text).Ok? ==> -TWO63 <= ParseExact(text).value.1 < TWO64
  {
    TrimLeftShorter(text);
    TrimRightShorter(TrimLeft(text));
    hide TrimLeft, TrimRight, DigitsValue, IsDigits;
  }

  lemma {:induction false} DigitsValueBound(s: seq<byte>)
    requires IsDigits(s)
    ensures DigitsValue(s) < Pow10(|s|)
  {
    if s != [] {
      DigitsValueBound(s[..|s| - 1]);
    }
  }

  lemma {:induction false} NoMoreDigits(s: seq<byte>)
    requires IsDigits(s) && s != []
    ensures |Digits(DigitsValue(s))| <= |s|
  {
    var n := DigitsValue(s);
    DigitsValueBound(s);
    if n > 0 {
      DigitCount(n);
      if |Digits(n)| > |s| {
        Pow10Mono(|s|, |Digits(n)| - 1);
      }
    }
  }

  // A text denotes no more digits than it has, at a scale that its length
  // and an exponent bound.
  lemma {:induction false} ParseExactSmall(text: seq<byte>)
    ensures ParseExact(text).Ok? ==>
              |Digits(Abs(ParseExact(text).value.0))| <= |text| && ParseExact(text).value.1 <= |text| + TWO63
  {
    hide TrimLeft, TrimRight, DigitsValue, IsDigits, Digits;
    TrimLeftShorter(text);
    TrimRightShorter(TrimLeft(text));
    var s := TrimSpace(text);
    var i := IndexAny(s, [101, 69]);
    var e := if i < |s| then Atoi(s[i + 1..]) else Ok(0);
    if e.Ok? {
      MantissaSmall(if i < |s| then s[..i] else s, e.value);
    }
  }

  lemma {:induction false} MantissaSmall(s: seq<byte>, exp: int)
    requires -TWO63 <= exp
    ensures ParseMantissa(s, exp).Ok? ==>
              |Digits(Abs(ParseMantissa(s, exp).value.0))| <= |s| && ParseMantissa(s, exp).value.1 <= |s| + TWO63
  {
    hide DigitsValue, Digits;
    var (neg, t) := CutSign(s);
    var (whole, frac) := CutDot(t);
    if ParseMantissa(s, exp).Ok? {
      NoMoreDigits(whole + frac);
    }
  }

  /** The fraction cut or padded to exactly scale digits. */
  function FitFraction(frac: seq<byte>, scale: nat): (r: seq<byte>)
    ensures |r| == scale
  {
    if |frac| >= scale then frac[..scale] else frac + Fill(scale - |frac|, ZERO)
  }

  function ScaledInt(s: seq<byte>, scale: nat): Result<int> {
    var (neg, t) := CutSign(s);
    var (whole, frac) := CutDot(t);
    var digits := whole + FitFraction(frac, scale);
    match SetString(if digits == [] then [ZERO] else digits)
    case Ok(v) => Ok(Negated(neg, v))
    case _ => Err
  }

  /** decimalToScaledInt, with its padding loop. */
  method DecimalToScaledInt(s: seq<byte>, scale: nat) returns (r: Result<int>)
    ensures r == ScaledInt(s, scale)
  {
    var (neg, t) := CutSign(s);
    var (whole, frac) := CutDot(t);
    var fracPart := frac;
    if |fracPart| > scale {
      fracPart := fracPart[..scale];
    }
    while |fracPart| < scale
      invariant |fracPart| <= scale
      invariant FitFraction(fracPart, scale) == FitFraction(frac, scale)
    {
      assert Fill(scale - |fracPart|, ZERO) == [ZERO] + Fill(scale - |fracPart| - 1, ZERO);
      fracPart := fracPart + [ZERO];
    }
    assert fracPart == FitFraction(frac, scale);
    var digits := whole + fracPart;
    if digits == [] {
      digits := [ZERO];
    }
    match SetString(digits) {
      case Ok(v) => r := Ok(Negated(neg, v));
      case _ => r := Err;
    }
  }

  // ----- Printing then parsing

  predicate Plain(s: seq<byte>) {
    forall i :: 0 <= i < |s| ==> IsDigit(s[i]) || s[i] == DOT || s[i] == MINUS
  }

  lemma {:induction false} PlainParse(s: seq<byte>)
    requires Plain(s) && s != []
    ensures ParseExact(s) == ParseMantissa(s, 0)
  {
    assert TrimSpace(s) == s;
    assert IndexAny(s, [101, 69]) == |s|;
  }

  lemma {:induction false} CutDotAt(a: seq<byte>, b: seq<byte>)
    requires IsDigits(a)
    ensures CutDot(a + [DOT] + b) == (a, b)
    ensures CutDot(a) == (a, [])
  {
    var s := a + [DOT] + b;
    var i := IndexAny(s, [DOT]);
    assert s[|a|] == DOT;
    assert forall k :: 0 <= k < |a| ==> s[k] == a[k];
    assert i == |a|;
    assert s[..i] == a && s[i + 1..] == b;
  }

  /** Whole and fraction digits around a point, or the whole digits alone. */
  function Pointed(whole: seq<byte>, frac: seq<byte>): seq<byte> {
    if frac == [] then whole else whole + [DOT] + frac
  }

  // The text is an optional minus, whole digits, and (for scale > 0) a
  // point with exactly scale digits; together the digits are |raw|.
  lemma {:induction false} DecimalStringShape(raw: int, scale: nat)
    returns (whole: seq<byte>, frac: seq<byte>)
    ensures IsDigits(whole) && IsDigits(frac) && whole != [] && |frac| == scale
    ensures IsDigits(whole + frac) && DigitsValue(whole + frac) == Abs(raw)
    ensures DecimalString(raw, scale) == Sign(raw) + Pointed(whole, frac)
  {
    if scale == 0 {
      whole, frac := Digits(Abs(raw)), [];
      DigitsValueOfDigits(Abs(raw));
      assert whole + frac == whole;
    } else {
      var d := PaddedDigits(Abs(raw), scale);
      PaddedDigitsValue(Abs(raw), scale);
      whole, frac := d[..|d| - scale], d[|d| - scale..];
      assert whole + frac == d;
    }
  }

  // Both parsers see the sign, the whole part and the fraction.
  lemma {:induction false} PointedCuts(raw: int, whole: seq<byte>, frac: seq<byte>)
    requires IsDigits(whole) && whole != []
    ensures CutSign(Sign(raw) + Pointed(whole, frac)) == (raw < 0, Pointed(whole, frac))
    ensures CutDot(Pointed(whole, frac)) == (whole, frac)
  {
    SignThenDigits(raw, Pointed(whole, frac));
    CutDotAt(whole, frac);
  }

  lemma {:induction false} SignThenDigits(raw: int, rest: seq<byte>)
    requires rest != [] && IsDigit(rest[0])
    ensures CutSign(Sign(raw) + rest) == (raw < 0, rest)
  {
    var s := Sign(raw) + rest;
    if raw < 0 {
      assert s[1..] == rest;
    } else {
      assert s == rest;
    }
  }

  // Printing then parsing denotes the same number: exactly (raw, scale)
  // when scale >= 0, and raw * 10^-scale with scale 0 otherwise.
  lemma {:induction false} PrintParse(raw: int, scale: int)
    requires -TWO63 < scale < TWO63
    ensures ParseNumber(DecimalString(raw, scale)) ==
            (if scale >= 0 then Ok((raw, scale)) else Ok((raw * Pow10(-scale), 0)))
  {
    if scale >= 0 {
      PrintParseFraction(raw, scale);
    } else if raw == 0 {
      assert DecimalString(0, 0) == DecimalString(0, scale) == [ZERO];
      PrintParseFraction(0, 0);
    } else {
      PrintTrailingZeros(raw, -scale);
      PrintParseFraction(raw * Pow10(-scale), 0);
    }
  }

  lemma {:induction false} PrintParseFraction(raw: int, scale: nat)
    requires scale < TWO63
    ensures ParseNumber(DecimalString(raw, scale)) == Ok((raw, scale))
  {
    hide Wrap64, ParseExact;
    PrintParseExact(raw, scale);
    WrapCases(scale);
  }

  lemma {:induction false} PrintParseExact(raw: int, scale: nat)
    ensures ParseExact(DecimalString(raw, scale)) == Ok((raw, scale))
  {
    var whole, frac := DecimalStringShape(raw, scale);
    PointedPlain(raw, whole, frac);
    PlainParse(Sign(raw) + Pointed(whole, frac));
    PointedCuts(raw, whole, frac);
  }

  lemma {:induction false} PointedPlain(raw: int, whole: seq<byte>, frac: seq<byte>)
    requires IsDigits(whole) && IsDigits(frac)
    ensures Plain(Sign(raw) + Pointed(whole, frac))
  {
    assert Plain(Pointed(whole, frac));
  }

  // One digit, "e" and an exponent denote what they seem to.
  lemma {:induction false} ExponentText(d: byte, exp: int)
    requires IsDigit(d) && InInt64(exp)
    ensures ParseExact([d, 101] + IntString(exp)) == Ok((d as int - ZERO, -exp))
    ensures |[d, 101] + IntString(exp)| < TWO63
  {
    hide Digits, ParseMantissa, Atoi, TrimSpace, IndexAny;
    var e := IntString(exp);
    ExponentReads(exp);
    NoSpaces([d, 101] + e);
    ExponentAt(d, e);
    OneDigit(d, exp);
    assert ([d, 101] + e)[..1] == [d] && ([d, 101] + e)[2..] == e;
  }

  lemma {:induction false} NoSpaces(s: seq<byte>)
    requires s != [] && !IsSpace(s[0]) && !IsSpace(s[|s| - 1])
    ensures TrimSpace(s) == s
  {}

  lemma {:induction false} ExponentAt(d: byte, e: seq<byte>)
    requires IsDigit(d)
    ensures IndexAny([d, 101] + e, [101, 69]) == 1
  {
    var s := [d, 101] + e;
    assert s[1..][0] == 101;
  }

  lemma {:induction false} ExponentReads(exp: int)
    requires InInt64(exp)
    ensures Atoi(IntString(exp)) == Ok(exp)
    ensures IntString(exp) != [] && IsDigit(IntString(exp)[|IntString(exp)| - 1]) && |IntString(exp)| < TWO63 - 2
  {
    hide Digits, DigitsValue;
    var n := Abs(exp);
    DigitsValueOfDigits(n);
    DigitsShort(n);
    SignThenDigits(exp, Digits(n));
  }

  lemma {:induction false} DigitsShort(n: nat)
    ensures |Digits(n)| <= n / 10 + 2
  {
    if n >= 10 {
      DigitsShort(n / 10);
    }
  }

  lemma {:induction false} OneDigit(d: byte, exp: int)
    requires IsDigit(d)
    ensures ParseMantissa([d], exp) == Ok((d as int - ZERO, -exp))
  {
    assert CutSign([d]) == (false, [d]);
    CutDotAt([d], []);
    assert [d] + [] == [d] && [d][..0] == [];
    assert DigitsValue([d]) == d as int - ZERO;
  }

  // A negative scale prints the integer text of the scaled-up value.
  lemma {:induction false} PrintTrailingZeros(raw: int, k: int)
    requires raw != 0 && k > 0
    ensures DecimalString(raw, -k) == DecimalString(raw * Pow10(k), 0)
  {
    DigitsShift(Abs(raw), k);
    ScaledSign(raw, Pow10(k));
    assert Sign(raw) + Digits(Abs(raw)) + Fill(k, ZERO) == Sign(raw) + (Digits(Abs(raw)) + Fill(k, ZERO));
  }

  lemma {:induction false} ScaledSign(v: int, p: int)
    requires p > 0
    ensures Sign(v * p) == Sign(v) && Abs(v * p) == Abs(v) * p
  {
    if v < 0 {
      assert v * p == -((-v) * p) && (-v) * p > 0;
    } else {
      assert v * p >= 0;
    }
  }

  lemma {:induction false} DigitsShift(n: nat, k: nat)
    requires n > 0
    ensures Digits(n * Pow10(k)) == Digits(n) + Fill(k, ZERO)
  {
    if k == 0 {
      assert Digits(n) + Fill(k, ZERO) == Digits(n);
    } else {
      hide Digits, Pow10;
      DigitsShift(n, k - 1);
      OnePowerUp(n, k);
      DigitsTen(n * Pow10(k - 1));
      assert Fill(k, ZERO) == Fill(k - 1, ZERO) + [ZERO];
      assert Digits(n) + Fill(k - 1, ZERO) + [ZERO] == Digits(n) + Fill(k, ZERO);
    }
  }

  lemma {:induction false} DigitsTen(m: nat)
    requires m > 0
    ensures Digits(10 * m) == Digits(m) + [ZERO]
  {}

  lemma {:induction false} OnePowerUp(n: nat, k: nat)
    requires n > 0 && k > 0
    ensures n * Pow10(k - 1) > 0 && n * Pow10(k) == 10 * (n * Pow10(k - 1))
  {}

  // Printing at a scale, then scaling the text back, is the identity.
  lemma {:induction false} PrintScale(raw: int, scale: nat)
    ensures ScaledInt(DecimalString(raw, scale), scale) == Ok(raw)
  {
    var whole, frac := DecimalStringShape(raw, scale);
    PointedCuts(raw, whole, frac);
    assert FitFraction(frac, scale) == frac;
    SetStringDigits(whole + frac);
    hide DecimalString, CutDot, CutSign, FitFraction, Pointed, Sign, SetString, DigitsValue;
  }

  lemma {:induction false} SetStringDigits(d: seq<byte>)
    requires d != [] && IsDigits(d)
    ensures SetString(d) == Ok(DigitsValue(d))
  {
    assert IsDigit(d[0]);
  }

  // ----- Rounding and rescaling

  /** big.Int.Quo: truncated division. */
  function Quo(x: int, y: int): int
    requires y > 0
  {
    if x >= 0 then x / y else -((-x) / y)
  }

  function Rem(x: int, y: int): int
    requires y > 0
  {
    x - Quo(x, y) * y
  }

  function QuoRoundHalfUp(x: int, y: int): int
    requires y > 0
  {
    var q := Quo(x, y);
    if 2 * Abs(Rem(x, y)) >= y then (if x < 0 then q - 1 else q + 1) else q
  }

  /** q is the quotient of x by y nearest to x / y, ties away from zero. */
  predicate NearestAway(x: int, y: int, q: int)
    requires y > 0
  {
    var e := x - q * y;
    && -y <= 2 * e <= y
    && (2 * Abs(e) == y ==> (x >= 0 ==> e < 0) && (x < 0 ==> e > 0))
  }

  lemma {:induction false} QuoSplit(x: int, y: int)
    requires y > 0
    ensures x >= 0 ==> 0 <= Rem(x, y) < y
    ensures x < 0 ==> -y < Rem(x, y) <= 0
  {
    if x >= 0 {
      assert x == y * (x / y) + x % y;
    } else {
      assert -x == y * ((-x) / y) + (-x) % y;
      assert Quo(x, y) * y == -(((-x) / y) * y);
    }
  }

  // quoRoundHalfUp is exactly rounding to nearest with ties away from zero.
  lemma {:induction false} QuoRoundHalfUpNearest(x: int, y: int, q: int)
    requires y > 0
    ensures NearestAway(x, y, q) <==> q == QuoRoundHalfUp(x, y)
  {
    QuoRoundIsNearest(x, y);
    if NearestAway(x, y, q) {
      NearestUnique(x, y, q, QuoRoundHalfUp(x, y));
    }
  }

  lemma {:induction false} QuoRoundIsNearest(x: int, y: int)
    requires y > 0
    ensures NearestAway(x, y, QuoRoundHalfUp(x, y))
  {
    QuoSplit(x, y);
    var t := Quo(x, y);
    assert (t + 1) * y == t * y + y && (t - 1) * y == t * y - y;
  }

  lemma {:induction false} NearestUnique(x: int, y: int, q: int, r: int)
    requires y > 0 && NearestAway(x, y, q) && NearestAway(x, y, r)
    ensures q == r
  {
    NearestOrdered(x, x, y, q, r);
    NearestOrdered(x, x, y, r, q);
  }

  // Nearest quotients keep the order of the dividends.
  lemma {:induction false} NearestOrdered(x: int, x': int, y: int, q: int, q': int)
    requires y > 0 && x <= x' && NearestAway(x, y, q) && NearestAway(x', y, q')
    ensures q <= q'
  {
    if q > q' {
      var k := (q - q') * y;
      assert k == q * y - q' * y;
      MulMono(y, 1, q - q');
    }
  }

  lemma {:induction false} QuoRoundHalfUpOdd(x: int, y: int)
    requires y > 0
    ensures QuoRoundHalfUp(-x, y) == -QuoRoundHalfUp(x, y)
  {
    if x == 0 {
      assert 0 / y == 0 by { ModSmall(0, y); }
    }
    var a, b := Quo(x, y), Quo(-x, y);
    assert b == -a;
    assert b * y == -(a * y);
  }

  lemma {:induction false} QuoRoundHalfUpMonotone(x: int, x': int, y: int)
    requires y > 0 && x <= x'
    ensures QuoRoundHalfUp(x, y) <= QuoRoundHalfUp(x', y)
  {
    QuoRoundIsNearest(x, y);
    QuoRoundIsNearest(x', y);
    NearestOrdered(x, x', y, QuoRoundHalfUp(x, y), QuoRoundHalfUp(x', y));
  }

  // ----- Rescaling

  /** pow10: big.Int.Exp yields 1 for a negative exponent. */
  function GoPow10(n: int): (r: int)
    ensures r > 0
  {
    if n < 0 then 1 else Pow10(n)
  }

  /** rescaleHalfUp: the difference of the scales is an int. */
  function RescaleHalfUp(unscaled: int, from: int64, to: int64): int {
    if to >= from then unscaled * GoPow10(Wrap64(to - from))
    else QuoRoundHalfUp(unscaled, GoPow10(Wrap64(from - to)))
  }

  /** rescaleTruncate. */
  function RescaleTruncate(unscaled: int, from: int64, to: int64): int {
    if to >= from then unscaled * GoPow10(Wrap64(to - from))
    else Quo(unscaled, GoPow10(Wrap64(from - to)))
  }

  /** What they should compute. */
  function ExactHalfUp(unscaled: int, from: int, to: int): int {
    if to >= from then unscaled * Pow10(to - from)
    else QuoRoundHalfUp(unscaled, Pow10(from - to))
  }

  function ExactTruncate(unscaled: int, from: int, to: int): int {
    if to >= from then unscaled * Pow10(to - from)
    else Quo(unscaled, Pow10(from - to))
  }

  /** Neither the scale nor its distance from the target leaves an int. */
  predicate ScaleSafe(unscaled: int, from: int, to: int) {
    unscaled == 0 || (InInt64(from) && -TWO63 < to - from < TWO63)
  }

  // Scaling down by a power of ten makes a nonzero integer smaller.
  lemma {:induction false} DownShrinks(x: int, k: nat)
    requires x != 0 && k > 0
    ensures Abs(Quo(x, Pow10(k))) < Abs(x) && Abs(QuoRoundHalfUp(x, Pow10(k))) < Abs(x)
  {
    Pow10Mono(1, k);
    assert Pow10(1) == 10 * Pow10(0);
    hide Quo, Pow10, QuoRoundHalfUp;
    var p := Pow10(k);
    QuoSmaller(x, p);
    QuoRoundHalfUpNearest(x, p, QuoRoundHalfUp(x, p));
    NearSmaller(x, p, QuoRoundHalfUp(x, p));
  }

  lemma {:induction false} QuoSmaller(x: int, p: int)
    requires x != 0 && p >= 10
    ensures Abs(Quo(x, p)) < Abs(x)
  {
    DivSmaller(Abs(x), p);
  }

  lemma {:induction false} DivSmaller(a: nat, p: int)
    requires a > 0 && p >= 10
    ensures 0 <= a / p < a
  {
    var q := a / p;
    assert a == p * q + a % p;
    if q >= 1 {
      MulMono(q, 10, p);
      assert q * p == p * q;
    }
  }

  lemma {:induction false} NearSmaller(x: int, p: int, q: int)
    requires x != 0 && p >= 10 && 2 * Abs(x - q * p) <= p
    ensures Abs(q) < Abs(x)
  {
    AbsProduct(q, p);
    NearCore(Abs(x), Abs(q), p, Abs(q * p));
  }

  lemma {:induction false} AbsProduct(q: int, p: int)
    requires p > 0
    ensures Abs(q * p) == p * Abs(q)
  {}

  lemma {:induction false} NearCore(a: nat, b: nat, p: int, t: int)
    requires a > 0 && p >= 10 && t == p * b && 2 * t <= 2 * a + p
    ensures b < a
  {
    MulMono(p, 1, a);
    MulMono(a, 10, p);
    if b >= a {
      MulMono(p, a, b);
    }
  }

  // Scaling up makes it larger, or leaves it alone for power zero.
  lemma {:induction false} UpGrows(x: int, k: int)
    ensures Abs(x * GoPow10(k)) >= Abs(x)
    ensures x != 0 && k > 0 ==> x * Pow10(k) != x
  {
    MulMono(Abs(x), 1, GoPow10(k));
    assert Abs(x * GoPow10(k)) == Abs(x) * GoPow10(k);
    if x != 0 && k > 0 {
      Pow10Mono(1, k);
      MulMono(Abs(x), 2, Pow10(k));
    }
  }

  // The code rescales what a text denotes correctly when and only when the
  // value is zero or neither subtraction leaves 64 bits.
  lemma {:induction false} RescaleRight(unscaled: int, scale: int, to: int64)
    requires -TWO63 <= scale < TWO64 && (to >= 0 || InInt64(scale))
    ensures RescaleHalfUp(unscaled, Wrap64(scale), to) == ExactHalfUp(unscaled, scale, to)
            <==> ScaleSafe(unscaled, scale, to)
    ensures RescaleTruncate(unscaled, Wrap64(scale), to) == ExactTruncate(unscaled, scale, to)
            <==> ScaleSafe(unscaled, scale, to)
  {
    hide Quo, Pow10, QuoRoundHalfUp, Wrap64;
    WrapCases(scale);
    WrapCases(to - Wrap64(scale));
    WrapCases(Wrap64(scale) - to);
    if unscaled == 0 {
      ZeroRescales(scale, to);
    } else if !ScaleSafe(unscaled, scale, to) {
      UpGrows(unscaled, Wrap64(to - Wrap64(scale)));
      if to >= scale {
        UpGrows(unscaled, to - scale);
      } else {
        DownShrinks(unscaled, scale - to);
        QuoOne(unscaled);
      }
    }
  }

  lemma {:induction false} QuoOne(x: int)
    ensures Quo(x, 1) == x && QuoRoundHalfUp(x, 1) == x
  {}

  lemma {:induction false} ZeroRescales(scale: int, to: int64)
    ensures RescaleHalfUp(0, Wrap64(scale), to) == ExactHalfUp(0, scale, to) == 0
    ensures RescaleTruncate(0, Wrap64(scale), to) == ExactTruncate(0, scale, to) == 0
  {
    hide Pow10, Wrap64;
    forall y: int | y > 0
      ensures Quo(0, y) == 0 && QuoRoundHalfUp(0, y) == 0
    {
      ModSmall(0, y);
    }
  }

  // Rescaling to a finer scale and back gives the value itself, even when
  // the distance leaves 64 bits.
  lemma {:induction false} RescaleUpDown(unscaled: int, from: int64, to: int64)
    requires to >= from
    ensures RescaleHalfUp(RescaleHalfUp(unscaled, from, to), to, from) == unscaled
  {
    var p := GoPow10(Wrap64(to - from));
    if to == from {
    } else {
      QuoRoundHalfUpNearest(unscaled * p, p, unscaled);
    }
  }

  /** v at scale `to` is within half a unit of unscaled at scale `from`, and
      exact when no digit is lost. */
  predicate WithinHalfUnit(unscaled: int, from: int, v: int, to: int) {
    if to >= from then v == unscaled * Pow10(to - from)
    else 2 * Abs(unscaled - v * Pow10(from - to)) <= Pow10(from - to)
  }

  lemma {:induction false} ExactHalfUnit(unscaled: int, from: int, to: int)
    ensures WithinHalfUnit(unscaled, from, ExactHalfUp(unscaled, from, to), to)
  {
    if to < from {
      QuoRoundHalfUpNearest(unscaled, Pow10(from - to), ExactHalfUp(unscaled, from, to));
    }
  }

  // A rescaled value is within half a unit of the target scale when and
  // only when the rescaling was safe.
  lemma {:induction false} RescaleHalfUnit(unscaled: int, from: int64, to: int64)
    ensures WithinHalfUnit(unscaled, from, RescaleHalfUp(unscaled, from, to), to) <==> ScaleSafe(unscaled, from, to)
  {
    hide Quo, Pow10, QuoRoundHalfUp, Wrap64, WithinHalfUnit;
    WrapCases(from);
    WrapCases(to - from);
    WrapCases(from - to);
    RescaleRight(unscaled, from, to);
    ExactHalfUnit(unscaled, from, to);
    if !ScaleSafe(unscaled, from, to) {
      QuoOne(unscaled);
      SelfIsFar(unscaled, from, to);
    }
  }

  lemma {:induction false} SelfIsFar(unscaled: int, from: int, to: int)
    requires unscaled != 0 && from != to
    ensures !WithinHalfUnit(unscaled, from, unscaled, to)
  {
    if to > from {
      UpGrows(unscaled, to - from);
    } else if WithinHalfUnit(unscaled, from, unscaled, to) {
      Pow10Mono(1, from - to);
      assert Pow10(1) == 10 * Pow10(0);
      NearSmaller(unscaled, Pow10(from - to), unscaled);
    }
  }
}
