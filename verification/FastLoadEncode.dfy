/** FastLoad column and row encoding, and the batch buffer rows are pushed
    into. */
module FastLoadEncode {
  import opened Bytes
  import opened Decimal
  import opened NullBitmap
  import opened Buffers
  import Number

  // ----- Columns

  datatype Kind =
    | ByteInt | SmallInt | Integer | BigInt | Float | Date | Decimal | Number
    | Varchar | Varbyte | Time | TimeTZ | Timestamp | TimestampTZ

  /** fastLoadColumnEncoder. width is the fixed text width of a temporal
      column and wide the 16-octet form of DECIMAL. */
  datatype Encoder = Encoder(kind: Kind, maxLen: nat, width: nat, scale: uint16, wide: bool)

  datatype IntType = Int64 | Int | Int32 | Int16 | Int8

  /** A driver value. What the Go library makes of it (float bits, parsed
      dates, formatted text) comes with the value. */
  datatype Value =
    | Nil
    | IntValue(typ: IntType, v: int, asFloat: nat)
    | BoolValue(flag: bool)
    | FloatValue(single: bool, bits: nat, eText: Option<GoBytes>, fText: GoBytes)
    | TextValue(s: GoBytes, parsedFloat: Option<nat>, parsedDate: Option<(int, int, int)>)
    | BytesValue(bytes: GoBytes)
    | TimeValue(year: int, month: int, day: int, columnText: GoBytes, longText: GoBytes)
    | OtherValue

  predicate FixedText(k: Kind) { k.Time? || k.TimeTZ? || k.Timestamp? || k.TimestampTZ? }

  predicate Prefixed(k: Kind) { k.Varchar? || k.Varbyte? }

  function MaxWireBytes(e: Encoder): nat {
    match e.kind
    case ByteInt => 1
    case SmallInt => 2
    case Integer | Date => 4
    case BigInt | Float => 8
    case Decimal => if e.wide then 16 else 8
    case Number => 20
    case Varchar | Varbyte => 2 + e.maxLen
    case _ => e.width
  }

  function NullBytes(e: Encoder): seq<byte> {
    if e.kind.Number? then [0]
    else if Prefixed(e.kind) then Zeros(2)
    else if FixedText(e.kind) then Fill(e.width, 32)
    else Zeros(MaxWireBytes(e))
  }

  // ----- Value conversions

  /** The number a value denotes: unscaled * 10^-scale. */
  function NumericExact(val: Value): Result<(int, int)> {
    match val
    case IntValue(_, v, _) => Ok((v, 0))
    case FloatValue(_, _, Some(t), _) => ParseExact(t)
    case TextValue(s, _, _) => ParseExact(s)
    case BytesValue(b) => ParseExact(b)
    case _ => Err
  }

  /** numberFromValue(fastLoadNumericValue(val)): the scale is an int. */
  function NumericValue(val: Value): (r: Result<(int, int)>)
    ensures r.Ok? ==> InInt64(r.value.1)
    ensures r == (match NumericExact(val)
                  case Ok((unscaled, scale)) => Ok((unscaled, Wrap64(scale)))
                  case _ => Err)
  {
    match val
    case IntValue(_, v, _) => Ok((v, 0))
    case FloatValue(_, _, Some(t), _) => ParseNumber(t)
    case TextValue(s, _, _) => ParseNumber(s)
    case BytesValue(b) => ParseNumber(b)
    case _ => Err
  }

  lemma {:induction false} NumericRange(val: Value)
    ensures NumericExact(val).Ok? ==> -TWO63 <= NumericExact(val).value.1 < TWO64
  {
    hide ParseExact;
    match val
    case FloatValue(_, _, Some(t), _) => ParseExactRange(t);
    case TextValue(s, _, _) => ParseExactRange(s);
    case BytesValue(b) => ParseExactRange(b);
    case _ =>
  }

  /** No rescaling of the value to this scale leaves 64 bits. */
  predicate Rescalable(val: Value, to: uint16) {
    match NumericExact(val)
    case Ok((unscaled, scale)) => ScaleSafe(unscaled, scale, to)
    case _ => true
  }

  /** What fastLoadIntegral makes of a value before its range check. */
  function Whole(val: Value): Result<int> {
    match val
    case IntValue(_, v, _) => Ok(v)
    case BoolValue(b) => Ok(if b then 1 else 0)
    case FloatValue(false, _, _, _) => Truncated(NumericValue(val))
    case TextValue(_, _, _) => Truncated(NumericValue(val))
    case BytesValue(_) => Truncated(NumericValue(val))
    case _ => Err
  }

  function Truncated(n: Result<(int, int)>): Result<int>
    requires n.Ok? ==> InInt64(n.value.1)
  {
    match n
    case Ok((unscaled, scale)) => Ok(RescaleTruncate(unscaled, scale, 0))
    case _ => Err
  }

  /** The whole part of the number a value denotes, cut toward zero. */
  function WholeExact(val: Value): Result<int> {
    match val
    case BoolValue(b) => Ok(if b then 1 else 0)
    case FloatValue(true, _, _, _) => Err
    case _ =>
      (match NumericExact(val)
       case Ok((unscaled, scale)) => Ok(ExactTruncate(unscaled, scale, 0))
       case _ => Err)
  }

  /** fastLoadIntegral. */
  function Integral(val: Value, lo: int, hi: int): Result<int> {
    match Whole(val)
    case Ok(v) => if lo <= v <= hi then Ok(v) else Err
    case _ => Err
  }

  function FloatBits(val: Value): Result<nat> {
    match val
    case FloatValue(_, bits, _, _) => Ok(bits)
    case IntValue(t, _, bits) => if t.Int64? || t.Int? then Ok(bits) else Err
    case TextValue(_, Some(bits), _) => Ok(bits)
    case _ => Err
  }

  /** Year, month and day of a time, or of a text the Go library parses. */
  function DayOf(val: Value): Option<(int, int, int)> {
    match val
    case TimeValue(y, m, d, _, _) => Some((y, m, d))
    case TextValue(_, _, day) => day
    case _ => None
  }

  function DateInt(val: Value): Result<int> {
    match val
    case IntValue(Int64, v, _) => Ok(v)
    case _ =>
      (match DayOf(val)
       case Some((y, m, d)) => Ok((y - 1900) * 10000 + m * 100 + d)
       case None => Err)
  }

  function StringOf(val: Value): Result<seq<byte>> {
    match val
    case TextValue(s, _, _) => Ok(s)
    case BytesValue(b) => Ok(b)
    case IntValue(t, v, _) => if t.Int64? || t.Int? then Ok(IntString(v)) else Err
    case FloatValue(false, _, _, f) => Ok(f)
    case BoolValue(b) => Ok(if b then [116, 114, 117, 101] else [102, 97, 108, 115, 101])
    case TimeValue(_, _, _, _, long) => Ok(long)
    case _ => Err
  }

  predicate HasOffset(s: seq<byte>) {
    |s| >= 6 && (s[|s| - 6] == PLUS || s[|s| - 6] == MINUS)
  }

  predicate Zoned(k: Kind) { k.TimeTZ? || k.TimestampTZ? }

  /** The length of a time or timestamp without fraction and offset. */
  function ClockLen(k: Kind): nat { if k.Timestamp? || k.TimestampTZ? then 19 else 8 }

  /** temporalText: cut or padded to the column's fraction digits. */
  function TemporalText(e: Encoder, val: Value): Result<seq<byte>> {
    match val
    case TimeValue(_, _, _, text, _) => Ok(text)
    case TextValue(v, _, _) =>
      var t := TrimSpace(v);
      var tz := Zoned(e.kind);
      if tz && !HasOffset(t) then Err
      else
        var cut := if tz then |t| - 6 else |t|;
        var (s, offset) := (t[..cut], t[cut..]);
        var base := ClockLen(e.kind);
        if |s| < base then Err
        else
          var frac := if |s| > base && s[base] == DOT then s[base + 1..] else s[base..];
          Ok(s[..base] + (if e.scale > 0 then [DOT] + FitFraction(frac, e.scale) else []) + offset)
    case _ => Err
  }

  // ----- writeValue

  function DecimalBytes(e: Encoder, val: Value): Result<seq<byte>> {
    match NumericValue(val)
    case Ok((unscaled, scale)) => StoredDecimal(RescaleHalfUp(unscaled, scale, e.scale), e.wide)
    case _ => Err
  }

  /** How many octets a DECIMAL column stores. */
  function StoredLen(wide: bool): nat { if wide then 16 else 8 }

  function StoredDecimal(v: int, wide: bool): Result<seq<byte>> {
    if wide then Number.BE16(v) else if FitsSigned(v, 8) then Ok(Be(v, 8)) else Err
  }

  lemma {:induction false} StoredDecimalExact(v: int, wide: bool)
    ensures StoredDecimal(v, wide).Ok? <==> FitsSigned(v, StoredLen(wide))
    ensures StoredDecimal(v, wide).Ok? ==>
              |StoredDecimal(v, wide).value| == StoredLen(wide) && FromBeSigned(StoredDecimal(v, wide).value) == v
  {
    var n := StoredLen(wide);
    if FitsSigned(v, n) {
      SignedRoundTrip(v, n);
      BeMod(v, 1, n);
    }
  }

  function PrefixedBytes(e: Encoder, b: seq<byte>): Result<seq<byte>> {
    if |b| > e.maxLen then Err else Ok(Be(|b|, 2) + b)
  }

  function IntBytes(val: Value, n: nat, lo: int, hi: int): Result<seq<byte>> {
    match Integral(val, lo, hi)
    case Ok(v) => Ok(Be(v, n))
    case _ => Err
  }

  /** The octets of a value that is not nil; an error writes nothing. */
  function ValueBytes(e: Encoder, val: Value): (r: Result<seq<byte>>)
    ensures !r.Panic?
  {
    match e.kind
    case ByteInt => IntBytes(val, 1, -0x80, 0x7F)
    case SmallInt => IntBytes(val, 2, -0x8000, 0x7FFF)
    case Integer => IntBytes(val, 4, -0x8000_0000, 0x7FFF_FFFF)
    case BigInt => IntBytes(val, 8, -0x8000_0000_0000_0000, 0x7FFF_FFFF_FFFF_FFFF)
    case Float => (match FloatBits(val) case Ok(bits) => Ok(Be(bits, 8)) case _ => Err)
    case Date => (match DateInt(val) case Ok(d) => Ok(Be(d, 4)) case _ => Err)
    case Decimal => DecimalBytes(e, val)
    case Number =>
      (match NumericValue(val)
       case Ok((unscaled, scale)) =>
         (match Number.EncodeNumber(unscaled, scale) case Ok(b) => Ok(b) case _ => Err)
       case _ => Err)
    case Varchar => (match StringOf(val) case Ok(s) => PrefixedBytes(e, s) case _ => Err)
    case Varbyte => if val.BytesValue? then PrefixedBytes(e, val.bytes) else Err
    case _ =>
      (match TemporalText(e, val)
       case Ok(s) => if |s| == e.width then Ok(s) else Err
       case _ => Err)
  }

  function ColumnBytes(e: Encoder, val: Value): Result<seq<byte>> {
    if val.Nil? then Ok(NullBytes(e)) else ValueBytes(e, val)
  }

  lemma {:induction false} NumberLen(unscaled: int, scale: int)
    ensures Number.EncodeNumber(unscaled, scale).Ok? ==> |Number.EncodeNumber(unscaled, scale).value| <= 20
  {
    if Number.EncodeNumber(unscaled, scale).Ok? {
      Number.EncodeNumberDecodes(unscaled, scale, []);
    }
  }

  lemma {:induction false} DecimalStoredLen(v: int, wide: bool)
    ensures StoredDecimal(v, wide).Ok? ==> |StoredDecimal(v, wide).value| == StoredLen(wide)
  {}

  // Nothing a column writes, null or not, exceeds its declared maximum.
  lemma {:induction false} ColumnFits(e: Encoder, val: Value)
    ensures ColumnBytes(e, val).Ok? ==> |ColumnBytes(e, val).value| <= MaxWireBytes(e)
  {
    hide Whole, FloatBits, DateInt, StringOf, TemporalText, NumericValue, Number.EncodeNumber,
      RescaleHalfUp, StoredDecimal, Be, Wrap64, NumericExact;
    if NumericValue(val).Ok? {
      var (unscaled, scale) := NumericValue(val).value;
      NumberLen(unscaled, scale);
      DecimalStoredLen(RescaleHalfUp(unscaled, scale, e.scale), e.wide);
    }
  }

  /** The value nearest to the input at the column's scale. */
  function NearestDecimal(e: Encoder, val: Value): int
    requires NumericExact(val).Ok?
  {
    ExactHalfUp(NumericExact(val).value.0, NumericExact(val).value.1, e.scale)
  }

  // A DECIMAL column refuses an input exactly when it is not numeric or the
  // value the code computes does not fit; and that value is the nearest one,
  // at most half a unit away, when and only when no scale left 64 bits.
  lemma {:induction false} DecimalStored(e: Encoder, val: Value)
    requires e.kind.Decimal?
    ensures ValueBytes(e, val).Ok? <==>
              NumericValue(val).Ok?
              && var (unscaled, scale) := NumericValue(val).value;
                FitsSigned(RescaleHalfUp(unscaled, scale, e.scale), StoredLen(e.wide))
    ensures ValueBytes(e, val).Ok? ==>
              NumericExact(val).Ok?
              && (FromBeSigned(ValueBytes(e, val).value) == NearestDecimal(e, val) <==> Rescalable(val, e.scale))
    ensures NumericExact(val).Ok? && Rescalable(val, e.scale) ==>
              && ValueBytes(e, val) == StoredDecimal(NearestDecimal(e, val), e.wide)
              && WithinHalfUnit(NumericExact(val).value.0, NumericExact(val).value.1, NearestDecimal(e, val), e.scale)
  {
    hide NumericValue, NumericExact, StoredDecimal, RescaleHalfUp, RescaleTruncate, ExactHalfUp, ExactTruncate,
      ScaleSafe, WithinHalfUnit, FitsSigned, FromBeSigned, Wrap64;
    if NumericExact(val).Ok? {
      var (unscaled, scale) := NumericExact(val).value;
      NumericRange(val);
      WrapCases(scale);
      RescaleRight(unscaled, scale, e.scale);
      StoredDecimalExact(RescaleHalfUp(unscaled, Wrap64(scale), e.scale), e.wide);
      ExactHalfUnit(unscaled, scale, e.scale);
    }
  }

  /** Octets of an integer column, and 0 for any other. */
  function IntLen(k: Kind): nat {
    match k
    case ByteInt => 1
    case SmallInt => 2
    case Integer => 4
    case BigInt => 8
    case _ => 0
  }

  lemma {:induction false} WholeRight(val: Value)
    ensures Whole(val).Ok? <==> WholeExact(val).Ok?
    ensures WholeExact(val).Ok? && !val.BoolValue? ==> (Whole(val) == WholeExact(val) <==> Rescalable(val, 0))
    ensures val.BoolValue? ==> Rescalable(val, 0)
    ensures Rescalable(val, 0) ==> Whole(val) == WholeExact(val)
  {
    hide NumericExact, RescaleHalfUp, RescaleTruncate, ExactHalfUp, ExactTruncate, ScaleSafe, Wrap64, ParseNumber;
    if NumericExact(val).Ok? {
      NumericRange(val);
      WrapCases(NumericExact(val).value.1);
      RescaleRight(NumericExact(val).value.0, NumericExact(val).value.1, 0);
    }
    IntegersAreWhole(val);
  }

  lemma {:induction false} IntegersAreWhole(val: Value)
    ensures val.IntValue? ==>
              NumericExact(val) == Ok((val.v, 0)) && ExactTruncate(val.v, 0, 0) == val.v && ScaleSafe(val.v, 0, 0)
    ensures val.BoolValue? || val.Nil? || val.TimeValue? || val.OtherValue? ==> NumericExact(val).Err?
  {}

  // An integer column refuses an input exactly when it has no whole part or
  // the one the code computes does not fit; and that is the true whole part
  // when and only when no scale left 64 bits.
  lemma {:induction false} IntegerStored(e: Encoder, val: Value)
    requires IntLen(e.kind) > 0
    ensures var whole := Whole(val); var b := ValueBytes(e, val); var n := IntLen(e.kind);
      && (b.Ok? <==> whole.Ok? && FitsSigned(whole.value, n))
      && (b.Ok? ==> |b.value| == n && FromBeSigned(b.value) == whole.value)
    ensures ValueBytes(e, val).Ok? ==>
              WholeExact(val).Ok?
              && (FromBeSigned(ValueBytes(e, val).value) == WholeExact(val).value <==> Rescalable(val, 0))
    ensures Rescalable(val, 0) ==> Whole(val) == WholeExact(val)
  {
    WholeRight(val);
    hide Whole, WholeExact, Rescalable;
    IntegerOctets(e, val);
    hide FromBeSigned, FitsSigned, ValueBytes;
  }

  lemma {:induction false} IntegerOctets(e: Encoder, val: Value)
    requires IntLen(e.kind) > 0
    ensures var whole := Whole(val); var b := ValueBytes(e, val); var n := IntLen(e.kind);
      && (b.Ok? <==> whole.Ok? && FitsSigned(whole.value, n))
      && (b.Ok? ==> |b.value| == n && FromBeSigned(b.value) == whole.value)
  {
    hide Whole, Be, FromBeSigned;
    assert Pow256(1) == 0x100 && Pow256(2) == 0x1_0000 && Pow256(4) == 0x1_0000_0000;
    assert Pow256(8) == 0x1_0000_0000_0000_0000;
    var whole := Whole(val);
    if whole.Ok? && FitsSigned(whole.value, IntLen(e.kind)) {
      SignedRoundTrip(whole.value, IntLen(e.kind));
    }
  }

  // "1e9223372036854775807" in a DECIMAL column of scale 2: the distance of
  // the scales overflows and 1, which is 0.01, is stored.
  lemma {:induction false} HugeExponentStoresOne(e: Encoder, t: GoBytes)
    requires e.kind.Decimal? && e.scale == 2 && t == [ZERO + 1, 101] + IntString(TWO63 - 1)
    ensures var val := TextValue(t, None, None);
      && NumericExact(val) == Ok((1, 1 - TWO63)) && !Rescalable(val, e.scale)
      && ValueBytes(e, val).Ok? && FromBeSigned(ValueBytes(e, val).value) == 1
  {
    hide ParseExact, FromBeSigned, FitsSigned, StoredDecimal;
    ExponentText(ZERO + 1, TWO63 - 1);
    StoredDecimalExact(1, e.wide);
    OneFits(StoredLen(e.wide));
  }

  lemma {:induction false} OneFits(n: nat)
    requires n > 0
    ensures FitsSigned(1, n) && FitsSigned(5, n)
  {
    assert Pow256(n) >= 256;
  }

  // "5e-9223372036854775808" in an INTEGER column: both subtractions
  // overflow and 5 is stored, where the whole part is 0.
  lemma {:induction false} TinyExponentStoresFive(e: Encoder, t: GoBytes)
    requires e.kind.Integer? && t == [ZERO + 5, 101] + IntString(-TWO63)
    ensures var val := TextValue(t, None, None);
      && NumericExact(val) == Ok((5, TWO63)) && WholeExact(val) == Ok(0) && !Rescalable(val, 0)
      && ValueBytes(e, val).Ok? && FromBeSigned(ValueBytes(e, val).value) == 5
  {
    hide ParseExact, ExactTruncate, RescaleTruncate, FitsSigned, FromBeSigned, ValueBytes, IntString, Pow256;
    ExponentText(ZERO + 5, -TWO63);
    FiveVanishes(TWO63);
    OneFits(4);
    IntegerOctets(e, TextValue(t, None, None));
  }

  lemma {:induction false} FiveVanishes(scale: nat)
    requires scale > 0
    ensures ExactTruncate(5, scale, 0) == 0
    ensures RescaleTruncate(5, -TWO63, 0) == 5
  {
    assert Wrap64(TWO63) == -TWO63;
    Pow10Mono(1, scale);
    assert Pow10(1) == 10 * Pow10(0);
    ModSmall(5, Pow10(scale));
  }

  /** How a DATE column's integer reads as a day. */
  predicate IsDay(v: int, year: int, month: int, day: int) {
    v + 19000000 == year * 10000 + month * 100 + day && 1 <= month <= 12 && 1 <= day <= 31
  }

  lemma {:induction false} DayUnique(v: int, y: int, m: int, d: int, y': int, m': int, d': int)
    requires IsDay(v, y, m, d) && IsDay(v, y', m', d')
    ensures y == y' && m == m' && d == d'
  {}

  // A DATE column refuses exactly what is neither a time, a date text nor
  // an int64. An int64 is stored cut to 32 bits; a time or a text is read
  // back as its own day exactly when its date integer fits them.
  lemma {:induction false} DateStored(e: Encoder, val: Value)
    requires e.kind.Date?
    ensures ValueBytes(e, val).Ok? <==>
              DayOf(val).Some? || (val.IntValue? && val.typ.Int64?)
    ensures ValueBytes(e, val).Ok? ==> |ValueBytes(e, val).value| == 4
    ensures val.IntValue? && val.typ.Int64? ==> FromBeSigned(ValueBytes(e, val).value) == Wrap32(val.v)
    ensures match DayOf(val)
            case Some((y, m, d)) =>
              1 <= m <= 12 && 1 <= d <= 31 ==>
                (IsDay(FromBeSigned(ValueBytes(e, val).value), y, m, d)
                 <==> FitsSigned((y - 1900) * 10000 + m * 100 + d, 4))
            case None => true
  {
    hide Be, FromBeSigned, Wrap32;
    if DateInt(val).Ok? {
      var v := DateInt(val).value;
      CutTo32(v);
      Wrap32Exactly(v);
    }
  }

  // VARCHAR and VARBYTE columns refuse exactly what has no text, or no
  // octets, or more than the column allows; and the octets read back, after
  // a length that is theirs exactly when it fits 16 bits.
  lemma {:induction false} PrefixedStored(e: Encoder, val: Value)
    requires Prefixed(e.kind)
    ensures var s := if e.kind.Varchar? then StringOf(val) else if val.BytesValue? then Ok(val.bytes) else Err;
      var b := ValueBytes(e, val);
      && (b.Ok? <==> s.Ok? && |s.value| <= e.maxLen)
      && (b.Ok? ==> |b.value| == 2 + |s.value| && b.value[2..] == s.value
                    && (FromBe(b.value[..2]) == |s.value| <==> |s.value| < 0x1_0000))
  {
    hide StringOf, Be, FromBe;
    if ValueBytes(e, val).Ok? {
      var b := ValueBytes(e, val).value;
      var s := b[2..];
      assert b == Be(|s|, 2) + s && b[..2] == Be(|s|, 2);
      FromBeBe(|s|, 2);
      assert Pow256(2) == 0x1_0000;
    }
  }

  // A temporal column stores text of exactly its width or refuses. A text
  // keeps its clock and its offset, and gains or loses fraction digits up
  // to the column's count; one with just that many is stored as it is.
  lemma {:induction false} TemporalStored(e: Encoder, val: Value)
    requires FixedText(e.kind) && ValueBytes(e, val).Ok?
    ensures var b := ValueBytes(e, val).value; var n := ClockLen(e.kind);
      && |b| == e.width && (val.TextValue? || b == val.columnText)
      && (val.TextValue? ==>
            var t := TrimSpace(val.s); var cut := if Zoned(e.kind) then |t| - 6 else |t|;
            && n <= cut && b[..n] == t[..n]
            && |b| == n + (if e.scale > 0 then 1 + e.scale else 0) + (|t| - cut)
            && b[|b| - (|t| - cut)..] == t[cut..]
            && (cut == n + 1 + e.scale && e.scale > 0 && t[n] == DOT ==> b == t))
  {
    hide TrimSpace;
    if val.TextValue? {
      var t := TrimSpace(val.s);
      var cut := if Zoned(e.kind) then |t| - 6 else |t|;
      TextKept(t, cut, ClockLen(e.kind), e.scale);
    }
  }

  lemma {:induction false} TextKept(t: seq<byte>, cut: nat, n: nat, scale: nat)
    requires n <= cut <= |t|
    ensures var s := t[..cut];
      var frac := if |s| > n && s[n] == DOT then s[n + 1..] else s[n..];
      var b := s[..n] + (if scale > 0 then [DOT] + FitFraction(frac, scale) else []) + t[cut..];
      && b[..n] == t[..n] && |b| == n + (if scale > 0 then 1 + scale else 0) + (|t| - cut)
      && b[|b| - (|t| - cut)..] == t[cut..]
      && (cut == n + 1 + scale && scale > 0 && t[n] == DOT ==> b == t)
  {
    if cut == n + 1 + scale && scale > 0 && t[n] == DOT {
      var s := t[..cut];
      assert s[n + 1..] == FitFraction(s[n + 1..], scale);
      assert t == s[..n] + [DOT] + s[n + 1..] + t[cut..];
    }
  }

  /** Any text of a number is of a length that memory holds. */
  predicate Storable(val: Value) {
    match val
    case FloatValue(_, _, Some(t), _) => |t| < TWO63 / 4
    case TextValue(s, _, _) => |s| < TWO63 / 4
    case BytesValue(b) => |b| < TWO63 / 4
    case _ => true
  }

  lemma {:induction false} StorableRange(val: Value)
    requires Storable(val) && NumericExact(val).Ok?
    ensures var (unscaled, scale) := NumericExact(val).value;
      && -TWO63 <= scale
      && (InInt64(scale) || (scale < TWO63 + TWO63 / 4 && Number.DigitCountOf(unscaled) < TWO63 / 4))
  {
    hide ParseExact, Digits;
    NumericRange(val);
    match val
    case FloatValue(_, _, Some(t), _) => ParseExactSmall(t);
    case TextValue(s, _, _) => ParseExactSmall(s);
    case BytesValue(b) => ParseExactSmall(b);
    case _ =>
  }

  // A NUMBER column refuses exactly what is not numeric or has, reduced to
  // 40 digits, a scale that leaves 16 bits; what it stores represents the
  // number the input denotes.
  lemma {:induction false} NumberStored(e: Encoder, val: Value, rest: seq<byte>)
    requires e.kind.Number?
    ensures ValueBytes(e, val).Ok? ==>
              NumericValue(val).Ok?
              && var (unscaled, scale) := NumericValue(val).value; var b := ValueBytes(e, val).value;
                Number.Faithful(unscaled, scale, b, Number.DecodeNumber(b + rest))
    ensures Storable(val) ==>
              (ValueBytes(e, val).Ok? <==>
               NumericExact(val).Ok?
               && var (unscaled, scale) := NumericExact(val).value;
                 unscaled == 0 || Number.Int16(Number.Reduced(unscaled, scale).1))
    ensures Storable(val) && ValueBytes(e, val).Ok? ==>
              var (unscaled, scale) := NumericExact(val).value; var b := ValueBytes(e, val).value;
              Number.Faithful(unscaled, scale, b, Number.DecodeNumber(b + rest))
  {
    hide NumericValue, NumericExact, Storable, Wrap64, Number.EncodeNumber, Number.DecodeNumber, Number.Faithful,
      Number.Reduced, Number.DigitCountOf;
    if NumericExact(val).Ok? {
      var (unscaled, scale) := NumericExact(val).value;
      Number.EncodeNumberMeaning(unscaled, Wrap64(scale), rest);
      if Storable(val) {
        StorableRange(val);
        Number.FarScaleUnseen(unscaled, scale);
        Number.EncodeNumberMeaning(unscaled, scale, rest);
      }
    }
  }
}
