/** The NUMBER wire format: at most 40 digits, a 16-bit scale and a minimal
    two's complement integer, behind a length octet. */
module Number {
  import opened Bytes
  import opened Decimal

  const MAX_DIGITS := 40

  // ----- bigIntToTwosComplement

  function BitLen(n: nat): nat {
    if n == 0 then 0 else 1 + BitLen(n / 2)
  }

  function TwosComplementLen(v: int): (n: nat)
    ensures n > 0
  {
    BitLen(if v < 0 then -v - 1 else v) / 8 + 1
  }

  function TwosComplement(v: int): (s: seq<byte>)
    ensures |s| == TwosComplementLen(v)
  {
    var n := TwosComplementLen(v);
    if v >= 0 then Be(v, n) else Be(v + Pow256(n), n)
  }

  lemma {:induction false} BitLenBounds(n: nat, k: nat)
    ensures n < Pow2(k) <==> BitLen(n) <= k
    decreases k
  {
    if k > 0 && n > 0 {
      BitLenBounds(n / 2, k - 1);
    }
  }

  lemma {:induction false} Pow256IsPow2(n: nat)
    ensures Pow256(n) == Pow2(8 * n)
  {
    if n > 0 {
      Pow256IsPow2(n - 1);
      var m := 8 * (n - 1);
      assert Pow2(m + 8) == 2 * Pow2(m + 7) == 4 * Pow2(m + 6) == 8 * Pow2(m + 5) == 16 * Pow2(m + 4);
      assert Pow2(m + 4) == 2 * Pow2(m + 3) == 4 * Pow2(m + 2) == 8 * Pow2(m + 1) == 16 * Pow2(m);
    }
  }

  // Two's complement is exact, and no shorter string could hold the value.
  lemma {:induction false} TwosComplementExact(v: int)
    ensures FromBeSigned(TwosComplement(v)) == v
    ensures forall n :: FitsSigned(v, n) ==> |TwosComplement(v)| <= n
  {
    var m := if v < 0 then -v - 1 else v;
    var len := TwosComplementLen(v);
    TwosComplementFits(v, len);
    SignedRoundTrip(v, len);
    BeMod(v, 1, len);
    forall n | FitsSigned(v, n) ensures len <= n {
      TwosComplementFits(v, n);
    }
  }

  /** bigIntToBE16: sixteen octets, or an error. */
  function BE16(v: int): Result<seq<byte>> {
    if FitsSigned(v, 16) then Ok(if v >= 0 then Be(v, 16) else Be(v + Pow256(16), 16)) else Err
  }

  lemma {:induction false} TwosComplementFits(v: int, n: nat)
    ensures FitsSigned(v, n) <==> TwosComplementLen(v) <= n
  {
    var m := if v < 0 then -v - 1 else v;
    if n > 0 {
      BitLenBounds(m, 8 * n - 1);
      Pow256IsPow2(n);
      assert Pow2(8 * n) == 2 * Pow2(8 * n - 1);
      assert FitsSigned(v, n) <==> m < Pow2(8 * n - 1);
    }
  }

  // ----- encodeNumber

  function DigitCountOf(v: int): nat { |Digits(Abs(v))| }

  /** How many low digits encodeNumber drops. */
  function Dropped(v: int): nat {
    if DigitCountOf(v) > MAX_DIGITS then DigitCountOf(v) - MAX_DIGITS else 0
  }

  /** Dropping integer digits truncates; dropping fraction digits rounds. */
  function Shortened(v: int, scale: int): int {
    var drop := Dropped(v);
    if drop == 0 then v
    else if drop - scale > 0 then Quo(v, Pow10(drop))
    else QuoRoundHalfUp(v, Pow10(drop))
  }

  function TrimZeros(s: seq<byte>): (t: seq<byte>)
    ensures |t| <= |s| && t == s[..|t|]
    ensures t != [] ==> t[|t| - 1] != ZERO
    ensures forall i :: |t| <= i < |s| ==> s[i] == ZERO
  {
    if s != [] && s[|s| - 1] == ZERO then TrimZeros(s[..|s| - 1]) else s
  }

  /** The unscaled value and scale that go on the wire. */
  function Reduced(unscaled: int, scale: int): (int, int) {
    var u := Shortened(unscaled, scale);
    var digits := IntString(u);
    var trimmed := TrimZeros(digits);
    var u' := if |trimmed| < |digits| then (match SetString(trimmed) case Ok(v) => v case _ => u) else u;
    (u', scale - Dropped(unscaled) - (|digits| - |trimmed|))
  }

  predicate Int16(v: int) { -0x8000 <= v < 0x8000 }

  function EncodeNumber(unscaled: int, scale: int): Result<seq<byte>> {
    if unscaled == 0 then Ok([0])
    else
      var (u, s) := Reduced(unscaled, scale);
      NumberBytes(u, s)
  }

  /** How many zeros are stripped from u, and what is left. */
  function Stripped(u: int): nat { |IntString(u)| - |TrimZeros(IntString(u))| }

  function Trimmed(u: int): int {
    if Stripped(u) == 0 then u else (match SetString(TrimZeros(IntString(u))) case Ok(v) => v case _ => u)
  }

  /** encodeNumber with its int arithmetic written out: each subtraction
      from the scale may wrap. */
  function EncodeInt(unscaled: int, scale: int64): Result<seq<byte>> {
    if unscaled == 0 then Ok([0])
    else
      var drop := Dropped(unscaled);
      var u := Shortened(unscaled, if Wrap64(drop - scale) > 0 then drop - 1 else drop);
      NumberBytes(Trimmed(u), Wrap64(Wrap64(scale - drop) - Stripped(u)))
  }

  function NumberBytes(u: int, s: int): Result<seq<byte>> {
    if !Int16(s) then Err
    else
      var tc := TwosComplement(u);
      Ok([(|tc| + 2) % 256] + Be(s, 2) + tc)
  }

  /** What the row decoder reads: the raw integer, its scale and how many
      octets it consumed. */
  function DecodeNumber(b: seq<byte>): Result<(int, int, nat)> {
    if |b| < 1 then Panic
    else
      var n := Signed8(b[0]);
      if n <= 0 then Ok((0, 0, 1))
      else if n < 2 || |b| < 1 + n then Panic
      else Ok((FromBeSigned(b[3..1 + n]), FromBeSigned(b[1..3]), 1 + n))
  }

  function Signed8(b: byte): int { if b >= 128 then b - 256 else b }

  // ----- Accuracy

  // Trimming the zeros of a digit string divides its value by that power
  // of ten, and leaves a last digit that is not zero.
  lemma {:induction false} TrimDigits(d: seq<byte>)
    requires IsDigits(d) && DigitsValue(d) > 0
    ensures var e := TrimZeros(d); var k := |d| - |e|;
      e != [] && IsDigits(e) && DigitsValue(e) * Pow10(k) == DigitsValue(d) && DigitsValue(e) % 10 != 0
  {
    var e := TrimZeros(d);
    var k := |d| - |e|;
    assert d == e + Fill(k, ZERO);
    DigitsValueZeros(k);
    DigitsValueAppend(e, Fill(k, ZERO));
    assert e != [];
  }

  lemma {:induction false} TrimAfterSign(sign: seq<byte>, d: seq<byte>)
    requires sign == [] || sign == [MINUS]
    requires TrimZeros(d) != []
    ensures TrimZeros(sign + d) == sign + TrimZeros(d)
  {
    var s := sign + d;
    assert s[|s| - 1] == d[|d| - 1];
    if d[|d| - 1] == ZERO {
      assert s[..|s| - 1] == sign + d[..|d| - 1];
      TrimAfterSign(sign, d[..|d| - 1]);
    }
  }

  // Stripping trailing zeros moves them into the scale, and leaves none.
  lemma {:induction false} StripExact(u: int)
    requires u != 0
    ensures var t := TrimZeros(IntString(u)); var k := |IntString(u)| - |t|;
      && SetString(t).Ok?
      && SetString(t).value * Pow10(k) == u
      && Abs(SetString(t).value) % 10 != 0
  {
    var d := Digits(Abs(u));
    var sign := Sign(u);
    DigitsValueOfDigits(Abs(u));
    TrimDigits(d);
    var e := TrimZeros(d);
    TrimAfterSign(sign, d);
    assert IntString(u) == sign + d;
    SignThenDigits(u, e);
    assert SetString(sign + e) == Ok(Negated(u < 0, DigitsValue(e)));
    NegatedScaled(u, DigitsValue(e), Pow10(|d| - |e|));
  }

  lemma {:induction false} NegatedScaled(u: int, m: int, p: int)
    requires m * p == Abs(u) && m >= 0
    ensures Negated(u < 0, m) * p == u
    ensures Abs(Negated(u < 0, m)) == m
  {
    assert (-m) * p == -(m * p);
  }

  // The shortened value keeps 40 digits, or is 10^40 after a carry.
  lemma {:induction false} ShortenedBounds(v: int, scale: int)
    requires v != 0
    ensures 0 < Abs(Shortened(v, scale)) <= Pow10(MAX_DIGITS)
  {
    var drop := Dropped(v);
    if drop == 0 {
      DigitCount(Abs(v));
      Pow10Mono(DigitCountOf(v), MAX_DIGITS);
    } else {
      DigitRange(v, MAX_DIGITS, drop);
      QuoAbsBounds(v, Pow10(drop), Pow10(MAX_DIGITS - 1), Pow10(MAX_DIGITS));
    }
  }

  lemma {:induction false} DigitRange(v: int, keep: nat, drop: nat)
    requires v != 0 && keep > 0 && DigitCountOf(v) == keep + drop
    ensures Pow10(keep - 1) * Pow10(drop) <= Abs(v) < Pow10(keep) * Pow10(drop)
  {
    DigitCount(Abs(v));
    Pow10Add(keep - 1, drop);
    Pow10Add(keep, drop);
  }

  lemma {:induction false} QuoAbsBounds(v: int, p: int, lo: int, hi: int)
    requires p > 0 && lo > 0 && lo * p <= Abs(v) < hi * p
    ensures 0 < Abs(Quo(v, p)) <= hi && 0 < Abs(QuoRoundHalfUp(v, p)) <= hi
  {
    QuoBounds(Abs(v), p, lo, hi);
    if v < 0 {
      QuoRoundHalfUpOdd(-v, p);
    }
  }

  lemma {:induction false} QuoBounds(m: nat, p: int, lo: int, hi: int)
    requires p > 0 && lo * p <= m < hi * p
    ensures lo <= Quo(m, p) < hi
    ensures lo <= QuoRoundHalfUp(m, p) <= hi
  {
    var q := m / p;
    assert m == p * q + m % p;
    assert p * (q + 1) == p * q + p;
    if q < lo {
      MulMono(p, q + 1, lo);
    }
    if q >= hi {
      MulMono(p, hi, q);
    }
  }

  // What is lost by shortening, in units of the dropped digits.
  lemma {:induction false} ShortenedError(v: int, scale: int)
    requires v != 0
    ensures var p := Pow10(Dropped(v)); var e := v - Shortened(v, scale) * p;
      && (Dropped(v) == 0 ==> e == 0)
      && (Dropped(v) > 0 && Dropped(v) > scale ==>
            Abs(e) < p && (v > 0 ==> e >= 0) && (v < 0 ==> e <= 0))
      && (Dropped(v) > 0 && Dropped(v) <= scale ==> 2 * Abs(e) <= p)
  {
    var p := Pow10(Dropped(v));
    if Dropped(v) > 0 {
      QuoSplit(v, p);
      QuoRoundIsNearest(v, p);
    }
  }

  /** How (raw, scale') may stand for unscaled * 10^-scale. */
  predicate Represents(unscaled: int, scale: int, raw: int, scale': int) {
    var drop := Dropped(unscaled);
    && scale - scale' >= drop
    && var e := unscaled - raw * Pow10(scale - scale');
      && (drop == 0 ==> e == 0)
      && (drop > 0 && drop > scale ==>
            Abs(e) < Pow10(drop) && (unscaled > 0 ==> e >= 0) && (unscaled < 0 ==> e <= 0))
      && (drop > 0 && drop <= scale ==> 2 * Abs(e) <= Pow10(drop))
  }

  // Reduced in terms of the shortened value and its k trailing zeros.
  lemma {:induction false} ReducedShape(unscaled: int, scale: int) returns (k: nat)
    requires unscaled != 0
    ensures Reduced(unscaled, scale).0 * Pow10(k) == Shortened(unscaled, scale)
    ensures Reduced(unscaled, scale).1 == scale - Dropped(unscaled) - k
    ensures Abs(Reduced(unscaled, scale).0) % 10 != 0
  {
    var v := Shortened(unscaled, scale);
    assert v != 0 by { ShortenedBounds(unscaled, scale); }
    StripExact(v);
    var t := TrimZeros(IntString(v));
    k := |IntString(v)| - |t|;
    if k == 0 {
      assert SetString(t).value == v;
    }
  }

  lemma {:induction false} ReducedRepresents(unscaled: int, scale: int)
    requires unscaled != 0
    ensures Represents(unscaled, scale, Reduced(unscaled, scale).0, Reduced(unscaled, scale).1)
    ensures 0 < Abs(Reduced(unscaled, scale).0) < Pow10(MAX_DIGITS) && Abs(Reduced(unscaled, scale).0) % 10 != 0
  {
    var k := ReducedShape(unscaled, scale);
    var (u, s) := Reduced(unscaled, scale);
    assert 0 < Abs(u) < Pow10(MAX_DIGITS) by {
      ShortenedBounds(unscaled, scale);
      StrippedBelow(u, k, Shortened(unscaled, scale), MAX_DIGITS);
    }
    ScaledTwice(u, k, Dropped(unscaled), Shortened(unscaled, scale));
    ShortenedRepresents(unscaled, scale, u, s);
  }

  lemma {:induction false} ShortenedRepresents(unscaled: int, scale: int, u: int, s: int)
    requires unscaled != 0 && scale - s >= Dropped(unscaled)
    requires u * Pow10(scale - s) == Shortened(unscaled, scale) * Pow10(Dropped(unscaled))
    ensures Represents(unscaled, scale, u, s)
  {
    ShortenedError(unscaled, scale);
  }

  lemma {:induction false} ScaledTwice(u: int, k: nat, drop: nat, v: int)
    requires u * Pow10(k) == v
    ensures u * Pow10(k + drop) == v * Pow10(drop)
  {
    Pow10Add(k, drop);
    assert u * (Pow10(k) * Pow10(drop)) == (u * Pow10(k)) * Pow10(drop);
  }

  lemma {:induction false} StrippedBelow(u: int, k: nat, v: int, m: nat)
    requires u * Pow10(k) == v && v != 0 && Abs(u) % 10 != 0 && Abs(v) <= Pow10(m) && m > 0
    ensures 0 < Abs(u) < Pow10(m)
  {
    var a := Abs(u);
    ScaledSign(u, Pow10(k));
    if k == 0 {
      assert a * 1 == a;
      assert Pow10(m) == 10 * Pow10(m - 1);
    } else {
      MulMono(a, 10, Pow10(k));
    }
  }

  lemma {:induction false} FortyDigits()
    ensures 2 * Pow10(MAX_DIGITS) < Pow256(17)
  {
    assert Pow10(8) == 100000000;
    Pow10Add(8, 8);
    Pow10Add(16, 16);
    Pow10Add(32, 8);
    var a := Pow256(4);
    assert a == 0x1_0000_0000;
    assert Pow256(8) == a * a by {
      assert Pow256(8) == 256 * Pow256(7) == 65536 * Pow256(6) == 65536 * 256 * Pow256(5);
    }
    assert Pow256(12) == 65536 * Pow256(10) == 65536 * 65536 * Pow256(8);
    assert Pow256(16) == 65536 * Pow256(14) == 65536 * 65536 * Pow256(12);
  }

  // 40 digits need at most 17 octets of two's complement.
  lemma {:induction false} FortyDigitsFit(u: int)
    requires Abs(u) < Pow10(MAX_DIGITS)
    ensures TwosComplementLen(u) <= 17
  {
    FortyDigits();
    TwosComplementFits(u, 17);
  }

  /** What decoding b, whatever follows it, must give back. */
  predicate Faithful(unscaled: int, scale: int, b: seq<byte>, decoded: Result<(int, int, nat)>) {
    && 1 <= |b| <= 20
    && decoded.Ok?
    && var (raw, scale', used) := decoded.value;
      && used == |b|
      && (unscaled == 0 ==> raw == 0 && scale' == 0)
      && (unscaled != 0 ==> Represents(unscaled, scale, raw, scale') && Abs(raw) % 10 != 0)
  }

  // The main law of the NUMBER format. For every value: encoding fails
  // exactly when the reduced scale leaves 16 bits; otherwise it emits at
  // most 20 octets, and whatever follows them, decoding consumes exactly
  // them and yields a canonical value that represents the input.
  lemma {:induction false} EncodeNumberMeaning(unscaled: int, scale: int, rest: seq<byte>)
    ensures EncodeNumber(unscaled, scale).Ok? <==>
              unscaled == 0 || Int16(Reduced(unscaled, scale).1)
    ensures !EncodeNumber(unscaled, scale).Panic?
    ensures EncodeNumber(unscaled, scale).Ok? ==>
              var b := EncodeNumber(unscaled, scale).value;
              Faithful(unscaled, scale, b, DecodeNumber(b + rest))
  {
    if EncodeNumber(unscaled, scale).Ok? {
      EncodeNumberDecodes(unscaled, scale, rest);
      if unscaled != 0 {
        ReducedRepresents(unscaled, scale);
      }
    }
  }

  lemma {:induction false} EncodeNumberDecodes(unscaled: int, scale: int, rest: seq<byte>)
    requires EncodeNumber(unscaled, scale).Ok?
    ensures var b := EncodeNumber(unscaled, scale).value;
      && 1 <= |b| <= 20
      && DecodeNumber(b + rest) ==
         (if unscaled == 0 then Ok((0, 0, 1))
          else Ok((Reduced(unscaled, scale).0, Reduced(unscaled, scale).1, |b|)))
  {
    if unscaled == 0 {
      assert ([0] + rest)[0] == 0;
    } else {
      var (u, s) := Reduced(unscaled, scale);
      assert TwosComplementLen(u) <= 17 by {
        ReducedRepresents(unscaled, scale);
        FortyDigitsFit(u);
      }
      DecodeEncoded(u, s, rest);
    }
  }

  lemma {:induction false} DecodeEncoded(u: int, s: int, rest: seq<byte>)
    requires Int16(s) && TwosComplementLen(u) <= 17
    ensures var tc := TwosComplement(u);
      DecodeNumber([(|tc| + 2) % 256] + Be(s, 2) + tc + rest) == Ok((u, s, 3 + |tc|))
  {
    var tc := TwosComplement(u);
    DecodeParts(Be(s, 2), tc, rest);
    assert Pow256(2) == 65536;
    SignedRoundTrip(s, 2);
    TwosComplementExact(u);
  }

  lemma {:induction false} DecodeParts(scale: seq<byte>, tc: seq<byte>, rest: seq<byte>)
    requires |scale| == 2 && |tc| <= 17
    ensures DecodeNumber([(|tc| + 2) % 256] + scale + tc + rest)
            == Ok((FromBeSigned(tc), FromBeSigned(scale), 3 + |tc|))
  {
    hide FromBeSigned;
    var b := [(|tc| + 2) % 256] + scale + tc + rest;
    assert b[0] == |tc| + 2 && b[1..3] == scale && b[3..|tc| + 3] == tc;
  }

  // ----- Wrapping

  lemma {:induction false} FewStripped(u: int)
    requires Abs(u) <= Pow10(MAX_DIGITS)
    ensures Stripped(u) <= MAX_DIGITS + 2
  {
    hide Digits, Pow10, TrimZeros;
    var n := Abs(u);
    if |Digits(n)| > MAX_DIGITS + 1 {
      DigitCount(if n == 0 then 1 else n);
      Pow10Mono(MAX_DIGITS + 1, |Digits(n)| - 1);
      Pow10More(MAX_DIGITS);
      ZeroDigits();
    }
  }

  lemma {:induction false} Pow10More(k: nat)
    ensures Pow10(k) < Pow10(k + 1)
  {}

  lemma {:induction false} ZeroDigits()
    ensures |Digits(0)| == 1
  {}

  lemma {:induction false} WrapNear(scale: int, drop: nat, k: nat)
    requires -TWO63 / 2 <= scale <= TWO63 / 2 && drop < TWO63 / 4 && k <= MAX_DIGITS + 2
    ensures Wrap64(Wrap64(scale - drop) - k) == scale - drop - k
    ensures Wrap64(drop - scale) == drop - scale
  {}

  lemma {:induction false} WrapFar(scale: int64, drop: nat, k: nat)
    requires !(-TWO63 / 2 <= scale <= TWO63 / 2) && drop < TWO63 / 4 && k <= MAX_DIGITS + 2
    ensures !Int16(Wrap64(Wrap64(scale - drop) - k)) && !Int16(scale - drop - k)
  {}

  // No wrap of the scale is ever seen: where one would happen the scale is
  // out of range anyway. The bound on the digits is that of memory.
  lemma {:induction false} WrapsUnseen(unscaled: int, scale: int64)
    requires DigitCountOf(unscaled) < TWO63 / 4
    ensures EncodeInt(unscaled, scale) == EncodeNumber(unscaled, scale)
  {
    hide Wrap64, Shortened, Stripped, Trimmed, Reduced, TwosComplement, DigitCountOf, Be, Pow10;
    if unscaled != 0 {
      var drop := Dropped(unscaled);
      var near := if Wrap64(drop - scale) > 0 then drop - 1 else drop;
      ReducedParts(unscaled, scale);
      ShortenedBounds(unscaled, scale);
      FewStripped(Shortened(unscaled, scale));
      ShortenedBounds(unscaled, near);
      FewStripped(Shortened(unscaled, near));
      if -TWO63 / 2 <= scale <= TWO63 / 2 {
        SameDecision(unscaled, scale, near);
        WrapNear(scale, drop, Stripped(Shortened(unscaled, scale)));
      } else {
        WrapFar(scale, drop, Stripped(Shortened(unscaled, scale)));
        WrapFar(scale, drop, Stripped(Shortened(unscaled, near)));
      }
    }
  }

  // Nor is a wrap of the scale a text denotes, at a distance of fewer
  // digits than memory holds from the ints.
  lemma {:induction false} FarScaleUnseen(unscaled: int, scale: int)
    requires -TWO63 <= scale
    requires InInt64(scale) || (scale < TWO63 + TWO63 / 4 && DigitCountOf(unscaled) < TWO63 / 4)
    ensures EncodeNumber(unscaled, Wrap64(scale)) == EncodeNumber(unscaled, scale)
  {
    hide Shortened, Stripped, Trimmed, Reduced, DigitCountOf, NumberBytes;
    if !InInt64(scale) && unscaled != 0 {
      ReducedParts(unscaled, scale);
      ReducedParts(unscaled, Wrap64(scale));
      ShortenedBounds(unscaled, scale);
      FewStripped(Shortened(unscaled, scale));
      OutOfRange(Trimmed(Shortened(unscaled, scale)), Reduced(unscaled, scale).1);
      OutOfRange(Trimmed(Shortened(unscaled, Wrap64(scale))), Reduced(unscaled, Wrap64(scale)).1);
    }
  }

  lemma {:induction false} OutOfRange(u: int, s: int)
    requires !Int16(s)
    ensures NumberBytes(u, s).Err?
  {}

  lemma {:induction false} SameDecision(v: int, s: int, s': int)
    ensures (Dropped(v) - s > 0 <==> Dropped(v) - s' > 0) ==> Shortened(v, s) == Shortened(v, s')
  {}

  lemma {:induction false} ReducedParts(unscaled: int, scale: int)
    ensures var u := Shortened(unscaled, scale);
      Reduced(unscaled, scale) == (Trimmed(u), scale - Dropped(unscaled) - Stripped(u))
  {}
}
