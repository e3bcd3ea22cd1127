/** Parameters encoded into an IndicData body, and the row decoder that
    reads the same format. */
module RowCodec {
  import opened Bytes
  import opened Decimal
  import opened DataTypes
  import opened NullBitmap
  import opened Buffers
  import Number

  /** What the statement info says of a parameter or column. */
  datatype Meta = Meta(dataType: int, maxLen: nat, precision: nat, scale: nat)

  /** How values of a type travel. */
  datatype Shape =
    | Int(n: nat) | Double | Varchars | Chars | Varbytes | Octets | Date | Text | Decimal | Number
    | Locator | Unsupported

  predicate IsText(basic: int) {
    basic in {TIME, TIME_TZ, TIMESTAMP, TIMESTAMP_TZ} || (INTERVAL_YEAR <= basic <= INTERVAL_SECOND && basic % 4 == 0)
  }

  predicate IsVarchars(basic: int) { basic in {VARCHAR, LONG_VARCHAR, VAR_GRAPHIC, LONG_VAR_GRAPHIC} }

  /** The switch of encodeParamValue. */
  function EncodeShape(basic: int): Shape {
    if basic == INTEGER then Int(4)
    else if basic == BIG_INT then Int(8)
    else if basic == SMALL_INT then Int(2)
    else if basic == BYTE_INT then Int(1)
    else if basic == FLOAT then Double
    else if IsVarchars(basic) then Varchars
    else if basic in {CHAR, GRAPHIC} then Chars
    else if basic in {VAR_BYTE, LONG_VAR_BYTE} then Varbytes
    else if basic == BYTE then Octets
    else if basic in {DATE_ANSI, DATE_INTEGER} then Date
    else if IsText(basic) then Text
    else if basic == DECIMAL then Decimal
    else if basic == NUMBER then Number
    else Unsupported
  }

  /** The switch of produceColumnValue: no INTERVAL MINUTE TO SECOND. */
  function DecodeShape(basic: int): Shape {
    if basic == INTEGER then Int(4)
    else if basic == BIG_INT then Int(8)
    else if basic == SMALL_INT then Int(2)
    else if basic == BYTE_INT then Int(1)
    else if IsVarchars(basic) then Varchars
    else if basic in {CHAR, GRAPHIC} then Chars
    else if basic == FLOAT then Double
    else if basic == DECIMAL then Decimal
    else if basic == NUMBER then Number
    else if basic in {VAR_BYTE, LONG_VAR_BYTE} then Varbytes
    else if IsText(basic) && basic != INTERVAL_MIN_TO_SEC then Text
    else if basic == BYTE then Octets
    else if basic in {DATE_ANSI, DATE_INTEGER} then Date
    else if basic in {CLOB_LOCATOR, BLOB_LOCATOR} then Locator
    else Unsupported
  }

  // The two switches agree on every type that can be encoded but one.
  lemma {:induction false} ShapesAgree(basic: int)
    requires !EncodeShape(basic).Unsupported?
    ensures DecodeShape(basic) == EncodeShape(basic) <==> basic != INTERVAL_MIN_TO_SEC
    ensures DecodeShape(INTERVAL_MIN_TO_SEC).Unsupported?
  {}

  /** A driver value; what the Go library makes of it comes with it. */
  datatype Param =
    | Null
    | IntParam(v: int, isInt64: bool)
    | FloatParam(bits: nat, eText: Option<seq<byte>>)
    | TextParam(s: seq<byte>)
    | BytesParam(b: seq<byte>)
    | TimeParam(year: int, month: int, day: int)
    | OtherParam

  datatype Cell = NullCell | IntCell(v: int) | FloatCell(bits: nat) | TextCell(s: seq<byte>) | BytesCell(b: seq<byte>)

  // ----- Encoding

  function FixedWidth(d: seq<byte>, width: nat, fill: byte): (r: seq<byte>)
    ensures width > 0 ==> |r| == width
    ensures width == 0 ==> r == d
  {
    if width == 0 || |d| == width then d
    else if |d| > width then d[..width]
    else d + Fill(width - |d|, fill)
  }

  /** fixedWidthBytes, with its padding loop. */
  method FixedWidthBytes(d: seq<byte>, width: nat, fill: byte) returns (r: seq<byte>)
    ensures r == FixedWidth(d, width, fill)
  {
    if width == 0 || |d| == width {
      return d;
    }
    if |d| > width {
      return d[..width];
    }
    var out := new byte[width](i requires 0 <= i < width => if i < |d| then d[i] else 0);
    for i := |d| to width
      invariant out[..i] == d + Fill(i - |d|, fill)
    {
      out[i] := fill;
      assert out[..i + 1] == d + Fill(i - |d|, fill) + [fill];
    }
    assert out[..width] == out[..];
    r := out[..];
  }

  /** How many octets a DECIMAL takes, if its precision is supported. */
  function DecimalLen(precision: nat): Option<nat> {
    if precision <= 2 then Some(1)
    else if precision <= 4 then Some(2)
    else if precision <= 9 then Some(4)
    else if precision <= 18 then Some(8)
    else if precision <= 38 then Some(16)
    else None
  }

  /** The narrow forms keep the low octets; only the widest is checked. */
  function DecimalBytes(raw: int, precision: nat): Result<seq<byte>> {
    match DecimalLen(precision)
    case None => Err
    case Some(n) => if n == 16 then Number.BE16(raw) else Ok(Be(raw, n))
  }

  function NumberOf(p: Param): Result<(int, int)> {
    match p
    case IntParam(v, true) => Ok((v, 0))
    case FloatParam(_, Some(t)) => ParseNumber(t)
    case TextParam(s) => ParseNumber(s)
    case BytesParam(b) => ParseNumber(b)
    case _ => Err
  }

  /** DATE as an integer. */
  function DateNumber(year: int, month: int, day: int): int { (year - 1900) * 10000 + month * 100 + day }

  function Prefixed(s: seq<byte>): Result<seq<byte>> {
    if |s| > 65535 then Err else Ok(Be(|s|, 2) + s)
  }

  /** encodeParamValue of a value that is not nil. */
  function EncodeValue(m: Meta, p: Param): Result<seq<byte>> {
    match EncodeShape(BasicType(m.dataType))
    case Int(n) => if p.IntParam? then Ok(Be(p.v, n)) else Err
    case Double => if p.FloatParam? then Ok(Be(p.bits, 8)) else Err
    case Varchars => if p.TextParam? then Prefixed(p.s) else Err
    case Chars => if p.TextParam? then Ok(FixedWidth(p.s, m.maxLen, 32)) else Err
    case Varbytes => if p.BytesParam? then Prefixed(p.b) else Err
    case Octets => if p.BytesParam? then Ok(FixedWidth(p.b, m.maxLen, 0)) else Err
    case Date =>
      if p.TimeParam? then Ok(Be(DateNumber(p.year, p.month, p.day), 4))
      else if p.IntParam? && p.isInt64 then Ok(Be(p.v, 4))
      else Err
    case Text => if p.TextParam? then Ok(FixedWidth(p.s, m.maxLen, 32)) else Err
    case Decimal =>
      if !p.TextParam? then Err
      else
        (match ScaledInt(p.s, m.scale)
         case Ok(raw) => DecimalBytes(raw, m.precision)
         case _ => Err)
    case Number =>
      (match NumberOf(p)
       case Ok((unscaled, scale)) => Number.EncodeNumber(unscaled, scale)
       case _ => Err)
    case _ => Err
  }

  /** encodeNullParamValue. */
  function EncodeNull(m: Meta): Result<seq<byte>> {
    match EncodeShape(BasicType(m.dataType))
    case Int(n) => Ok(Zeros(n))
    case Double => Ok(Zeros(8))
    case Varchars => Ok(Zeros(2))
    case Varbytes => Ok(Zeros(2))
    case Chars => Ok(Zeros(m.maxLen))
    case Octets => Ok(Zeros(m.maxLen))
    case Text => Ok(Zeros(m.maxLen))
    case Date => Ok(Zeros(4))
    case Decimal => (match DecimalLen(m.precision) case Some(n) => Ok(Zeros(n)) case None => Err)
    case Number => Ok(Zeros(1))
    case _ => Err
  }

  function Encode(m: Meta, p: Param): Result<seq<byte>> {
    if p.Null? then EncodeNull(m) else EncodeValue(m, p)
  }

  // ----- Decoding

  /** A read of n octets at a position; past the end it panics. */
  function ReadAt(data: seq<byte>, pos: nat, n: nat): Option<seq<byte>> {
    if pos + n <= |data| then Some(data[pos..pos + n]) else None
  }

  /** Zero-padded to width, the sign counting, as %0*d prints it. */
  function PadInt(v: int, width: nat): seq<byte> {
    var used := |Sign(v)| + |Digits(Abs(v))|;
    Sign(v) + Fill(if used < width then width - used else 0, ZERO) + Digits(Abs(v))
  }

  function DateText(year: int, month: int, day: int): seq<byte> {
    PadInt(year, 4) + [MINUS] + PadInt(month, 2) + [MINUS] + PadInt(day, 2)
  }

  /** The date that yyyymmdd spells; a negative integer makes every part
      negative or zero. */
  function Spelled(iv: int): seq<byte> { DateText(Quo(iv, 10000), Quo(Rem(iv, 10000), 100), Rem(iv, 100)) }

  /** What the decoder prints for a date integer. */
  function DateCell(v: int): Cell { TextCell(Spelled(Wrap32(v + 19000000))) }

  datatype Decoded = Decoded(cell: Cell, next: nat)

  function Got(isNull: bool, cell: Cell, next: nat): Result<Decoded> {
    Ok(Decoded(if isNull then NullCell else cell, next))
  }

  /** A read of exactly n octets, null or not. */
  function Exactly(data: seq<byte>, pos: nat, n: nat, isNull: bool, make: seq<byte> -> Cell): Result<Decoded> {
    match ReadAt(data, pos, n)
    case None => Panic
    case Some(b) => Got(isNull, make(b), pos + n)
  }

  /** Text of n octets; a null one is skipped unread, however long. */
  function TextAt(data: seq<byte>, pos: nat, n: nat, isNull: bool): Result<Decoded> {
    if isNull then Ok(Decoded(NullCell, pos + n))
    else if n == 0 then Ok(Decoded(TextCell([]), pos))
    else Exactly(data, pos, n, false, b => TextCell(b))
  }

  function OctetsAt(data: seq<byte>, pos: nat, n: nat, isNull: bool): Result<Decoded> {
    if n == 0 then Got(isNull, BytesCell([]), pos) else Exactly(data, pos, n, isNull, b => BytesCell(b))
  }

  function NumberAt(data: seq<byte>, pos: nat, isNull: bool): Result<Decoded> {
    if pos > |data| then Panic
    else
      match Number.DecodeNumber(data[pos..])
      case Ok((raw, scale, used)) => Got(isNull, TextCell(DecimalString(raw, scale)), pos + used)
      case Err => Err
      case Panic => Panic
  }

  /** produceColumnValue at a position. */
  function Decode(m: Meta, isNull: bool, data: seq<byte>, pos: nat): Result<Decoded> {
    match DecodeShape(BasicType(m.dataType))
    case Int(n) => Exactly(data, pos, n, isNull, b => IntCell(FromBeSigned(b)))
    case Double => Exactly(data, pos, 8, isNull, b => FloatCell(FromBe(b)))
    case Varchars =>
      (match ReadAt(data, pos, 2)
       case None => Panic
       case Some(h) => TextAt(data, pos + 2, FromBe(h), isNull))
    case Varbytes =>
      (match ReadAt(data, pos, 2)
       case None => Panic
       case Some(h) => OctetsAt(data, pos + 2, FromBe(h), isNull))
    case Chars => TextAt(data, pos, m.maxLen, isNull)
    case Text => TextAt(data, pos, m.maxLen, isNull)
    case Octets => OctetsAt(data, pos, m.maxLen, isNull)
    case Date => Exactly(data, pos, 4, isNull, b => DateCell(FromBeSigned(b)))
    case Decimal =>
      (match DecimalLen(m.precision)
       case None => Err
       case Some(n) => Exactly(data, pos, n, isNull, b => TextCell(DecimalString(FromBeSigned(b), m.scale))))
    case Number => NumberAt(data, pos, isNull)
    case _ => Err
  }

  // ----- What must come back

  /** The value a parameter is read back as: text padded or cut to its
      width, dates as y-m-d, numbers as they print. */
  function Expected(m: Meta, p: Param): Cell {
    match EncodeShape(BasicType(m.dataType))
    case Int(_) => if p.IntParam? then IntCell(p.v) else NullCell
    case Double => if p.FloatParam? then FloatCell(p.bits) else NullCell
    case Varchars => if p.TextParam? then TextCell(p.s) else NullCell
    case Chars => if p.TextParam? then TextCell(FixedWidth(p.s, m.maxLen, 32)) else NullCell
    case Text => if p.TextParam? then TextCell(FixedWidth(p.s, m.maxLen, 32)) else NullCell
    case Varbytes => if p.BytesParam? then BytesCell(p.b) else NullCell
    case Octets => if p.BytesParam? then BytesCell(FixedWidth(p.b, m.maxLen, 0)) else NullCell
    case Date =>
      if p.TimeParam? then TextCell(DateText(p.year, p.month, p.day))
      else if p.IntParam? then TextCell(Spelled(p.v + 19000000))
      else NullCell
    case Decimal =>
      if p.TextParam? && ScaledInt(p.s, m.scale).Ok? then
        TextCell(DecimalString(ScaledInt(p.s, m.scale).value, m.scale))
      else NullCell
    case Number =>
      (match NumberOf(p)
       case Ok((unscaled, scale)) =>
         if unscaled == 0 then TextCell([ZERO])
         else TextCell(DecimalString(Number.Reduced(unscaled, scale).0, Number.Reduced(unscaled, scale).1))
       case _ => NullCell)
    case _ => NullCell
  }

  /** A time has a month and a day of the calendar, whatever its year. */
  predicate IsTime(p: Param) { p.TimeParam? ==> 1 <= p.month <= 12 && 1 <= p.day <= 31 }

  /** Values the wire form has room for: 32 bits of yyyymmdd for a date. */
  predicate InRange(m: Meta, p: Param) {
    match EncodeShape(BasicType(m.dataType))
    case Int(n) => p.IntParam? && FitsSigned(p.v, n)
    case Double => p.FloatParam? && p.bits < Pow256(8)
    case Varchars => p.TextParam? && |p.s| <= 65535
    case Varbytes => p.BytesParam? && |p.b| <= 65535
    case Chars => p.TextParam? && (m.maxLen > 0 || p.s == [])
    case Text => p.TextParam? && (m.maxLen > 0 || p.s == []) && BasicType(m.dataType) != INTERVAL_MIN_TO_SEC
    case Octets => p.BytesParam? && (m.maxLen > 0 || p.b == [])
    case Date =>
      if p.TimeParam? then IsTime(p) && 0 <= p.year && FitsSigned(p.year * 10000 + p.month * 100 + p.day, 4)
      else p.IntParam? && p.isInt64 && FitsSigned(p.v + 19000000, 4)
    case Decimal =>
      && p.TextParam? && ScaledInt(p.s, m.scale).Ok? && DecimalLen(m.precision).Some?
      && FitsSigned(ScaledInt(p.s, m.scale).value, DecimalLen(m.precision).value)
    case Number => NumberOf(p).Ok? && Number.EncodeNumber(NumberOf(p).value.0, NumberOf(p).value.1).Ok?
    case _ => false
  }

  // ----- Column by column

  lemma {:induction false} ReadsBack(pre: seq<byte>, b: seq<byte>, post: seq<byte>)
    ensures ReadAt(pre + b + post, |pre|, |b|) == Some(b)
  {
    assert (pre + b + post)[|pre|..|pre| + |b|] == b;
  }

  lemma {:induction false} PrefixedReads(pre: seq<byte>, b: seq<byte>, post: seq<byte>)
    requires |b| <= 65535
    ensures var data := pre + (Be(|b|, 2) + b) + post;
      && ReadAt(data, |pre|, 2) == Some(Be(|b|, 2)) && FromBe(Be(|b|, 2)) == |b|
      && ReadAt(data, |pre| + 2, |b|) == Some(b)
  {
    assert Pow256(2) == 65536;
    BeRoundTrip(|b|, 2);
    var h := Be(|b|, 2);
    ReadsBack(pre, h, b + post);
    ReadsBack(pre + h, b, post);
    assert pre + (h + b) + post == pre + h + (b + post);
    assert pre + (h + b) + post == (pre + h) + b + post;
    hide FromBe, Be, ReadAt;
  }

  // ----- Dates

  lemma {:induction false} RunEnds(a: seq<byte>, r: seq<byte>)
    requires IsDigits(a)
    ensures var x := a + [MINUS] + r;
      x[|a|] == MINUS && forall k :: 0 <= k < |a| ==> IsDigit(x[k])
  {}

  lemma {:induction false} DigitRun(a: seq<byte>, b: seq<byte>, r: seq<byte>, t: seq<byte>)
    requires IsDigits(a) && IsDigits(b) && a + [MINUS] + r == b + [MINUS] + t
    ensures a == b && r == t
  {
    var x, y := a + [MINUS] + r, b + [MINUS] + t;
    RunEnds(a, r);
    RunEnds(b, t);
    assert a == x[..|a|] && b == y[..|b|];
    assert r == x[|a| + 1..] && t == y[|b| + 1..];
  }

  /** The digits of a padded integer after its sign. */
  function PadDigits(v: int, width: nat): (d: seq<byte>)
    ensures PadInt(v, width) == Sign(v) + d && d != []
  {
    var used := |Sign(v)| + |Digits(Abs(v))|;
    var d := Fill(if used < width then width - used else 0, ZERO) + Digits(Abs(v));
    assert PadInt(v, width) == Sign(v) + d;
    d
  }

  lemma {:induction false} PadDigitsValue(v: int, width: nat)
    ensures IsDigits(PadDigits(v, width)) && DigitsValue(PadDigits(v, width)) == Abs(v)
  {
    var used := |Sign(v)| + |Digits(Abs(v))|;
    var n: nat := if used < width then width - used else 0;
    DigitsValueOfDigits(Abs(v));
    DigitsValueZeros(n);
    DigitsValueAppend(Fill(n, ZERO), Digits(Abs(v)));
  }

  // A padded integer and what follows its separator can be told apart.
  lemma {:induction false} PadSplits(a: int, b: int, width: nat, r: seq<byte>, t: seq<byte>)
    requires PadInt(a, width) + [MINUS] + r == PadInt(b, width) + [MINUS] + t
    ensures a == b && r == t
  {
    hide PadInt, PadDigits, DigitsValue;
    var c, d := PadDigits(a, width), PadDigits(b, width);
    PadDigitsValue(a, width);
    PadDigitsValue(b, width);
    var x, y := Sign(a) + c + [MINUS] + r, Sign(b) + d + [MINUS] + t;
    assert x[0] == MINUS <==> a < 0;
    assert y[0] == MINUS <==> b < 0;
    assert c + [MINUS] + r == x[|Sign(a)|..] && d + [MINUS] + t == y[|Sign(b)|..];
    DigitRun(c, d, r, t);
  }

  // A printed date determines its three parts, whatever their signs.
  lemma {:induction false} DateTextInjective(y: int, m: int, d: int, y': int, m': int, d': int)
    requires DateText(y, m, d) == DateText(y', m', d')
    ensures y == y' && m == m' && d == d'
  {
    hide PadInt;
    var r, t := PadInt(m, 2) + [MINUS] + PadInt(d, 2), PadInt(m', 2) + [MINUS] + PadInt(d', 2);
    assert DateText(y, m, d) == PadInt(y, 4) + [MINUS] + r;
    assert DateText(y', m', d') == PadInt(y', 4) + [MINUS] + t;
    PadSplits(y, y', 4, r, t);
    PadSplits(m, m', 2, PadInt(d, 2), PadInt(d', 2));
    assert PadInt(d, 2) + [MINUS] + [] == PadInt(d', 2) + [MINUS] + [];
    PadSplits(d, d', 2, [], []);
  }

  // Only its own integer spells a date.
  lemma {:induction false} SpelledInjective(a: int, b: int)
    requires Spelled(a) == Spelled(b)
    ensures a == b
  {
    hide DateText, Quo;
    DateTextInjective(Quo(a, 10000), Quo(Rem(a, 10000), 100), Rem(a, 100),
                      Quo(b, 10000), Quo(Rem(b, 10000), 100), Rem(b, 100));
    Spells(a);
    Spells(b);
  }

  lemma {:induction false} Spells(iv: int)
    ensures iv == 10000 * Quo(iv, 10000) + 100 * Quo(Rem(iv, 10000), 100) + Rem(iv, 100)
  {
    if iv >= 0 {
      SpellsUp(iv);
    } else {
      SpellsUp(-iv);
    }
  }

  lemma {:induction false} SpellsUp(n: nat)
    ensures n % 10000 % 100 == n % 100
    ensures n == 10000 * (n / 10000) + 100 * (n % 10000 / 100) + n % 100
  {
    DivModUnique(n, 100, 100 * (n / 10000) + n % 10000 / 100, n % 10000 % 100);
  }

  // The date of a calendar day is spelled by its own integer exactly from
  // year zero on.
  lemma {:induction false} DaySpelled(year: int, month: int, day: int, iv: int)
    requires 1 <= month <= 12 && 1 <= day <= 31
    ensures DateText(year, month, day) == Spelled(iv)
            <==> 0 <= year && iv == year * 10000 + month * 100 + day
  {
    hide DateText, Quo;
    if DateText(year, month, day) == Spelled(iv) {
      DateTextInjective(year, month, day, Quo(iv, 10000), Quo(Rem(iv, 10000), 100), Rem(iv, 100));
      Spells(iv);
      RemSign(iv);
    }
    if 0 <= year {
      DateParts(year, month, day);
    }
  }

  lemma {:induction false} RemSign(iv: int)
    ensures Rem(iv, 100) > 0 ==> Quo(iv, 10000) >= 0
  {
    QuoSplit(iv, 100);
  }

  // A date integer comes back as the date it spells exactly when moving it
  // to year zero leaves it within 32 bits.
  lemma {:induction false} DateComesBack(v: int)
    ensures DateCell(FromBeSigned(Be(v, 4))) == TextCell(Spelled(Wrap32(v + 19000000)))
    ensures Spelled(Wrap32(v + 19000000)) == Spelled(v + 19000000) <==> FitsSigned(v + 19000000, 4)
  {
    hide Spelled, Be, FromBeSigned, Pow256;
    CutTo32(v);
    WrapThrough(v, 19000000);
    if Spelled(Wrap32(v + 19000000)) == Spelled(v + 19000000) {
      SpelledInjective(Wrap32(v + 19000000), v + 19000000);
    }
    Wrap32Exactly(v + 19000000);
  }

  lemma {:induction false} FourOctets()
    ensures Pow256(4) == 0x1_0000_0000
  {}

  // Cutting a sum to 32 bits forgives cutting one part of it first.
  lemma {:induction false} WrapThrough(a: int, b: int)
    ensures Wrap32(Wrap32(a) + b) == Wrap32(a + b)
  {
    FourOctets();
    hide Pow256;
    var p := Pow256(4);
    DivModUnique(a, p, a / p, a % p);
    var h := if Wrap32(a) < 0 then a / p + 1 else a / p;
    assert a == h * p + Wrap32(a);
    var x := Wrap32(a) + b;
    DivModUnique(a + b, p, h + x / p, x % p);
  }

  lemma {:induction false} DateParts(year: int, month: int, day: int)
    requires 0 <= year && 1 <= month <= 12 && 1 <= day <= 31
    ensures var iv := year * 10000 + month * 100 + day;
      Quo(iv, 10000) == year && Quo(Rem(iv, 10000), 100) == month && Rem(iv, 100) == day
  {
    var iv := year * 10000 + month * 100 + day;
    DivModUnique(iv, 10000, year, month * 100 + day);
    DivModUnique(month * 100 + day, 100, month, day);
    DivModUnique(iv, 100, year * 100 + month, day);
  }

  // Each value in range survives, whatever surrounds it, and exactly its
  // octets are consumed.
  lemma {:induction false} ValueRoundTrip(m: Meta, p: Param, pre: seq<byte>, post: seq<byte>)
    requires InRange(m, p)
    ensures EncodeValue(m, p).Ok?
    ensures var b := EncodeValue(m, p).value;
      Decode(m, false, pre + b + post, |pre|) == Ok(Decoded(Expected(m, p), |pre| + |b|))
  {
    hide FromBe, Be, Pow256, DecimalString, ScaledInt, FixedWidth, DateCell, DateText, NumberOf, BasicType,
      Number.EncodeNumber, Number.DecodeNumber, Number.Reduced, ReadAt;
    match EncodeShape(BasicType(m.dataType))
    case Int(n) =>
      SignedRoundTrip(p.v, n);
      ReadsBack(pre, Be(p.v, n), post);
    case Double =>
      BeRoundTrip(p.bits, 8);
      ReadsBack(pre, Be(p.bits, 8), post);
    case Varchars => PrefixedReads(pre, p.s, post);
    case Varbytes => PrefixedReads(pre, p.b, post);
    case Chars => ReadsBack(pre, FixedWidth(p.s, m.maxLen, 32), post);
    case Text => ReadsBack(pre, FixedWidth(p.s, m.maxLen, 32), post);
    case Octets => ReadsBack(pre, FixedWidth(p.b, m.maxLen, 0), post);
    case Date => DateExactly(m, p, pre, post);
    case Decimal => DecimalRoundTrip(ScaledInt(p.s, m.scale).value, m.precision, pre, post);
    case Number => NumberRoundTrip(NumberOf(p).value.0, NumberOf(p).value.1, pre, post);
    case _ =>
  }

  lemma {:induction false} DecimalRoundTrip(raw: int, precision: nat, pre: seq<byte>, post: seq<byte>)
    requires DecimalLen(precision).Some? && FitsSigned(raw, DecimalLen(precision).value)
    ensures var n := DecimalLen(precision).value;
      && DecimalBytes(raw, precision) == Ok(Be(raw, n)) && FromBeSigned(Be(raw, n)) == raw
      && ReadAt(pre + Be(raw, n) + post, |pre|, n) == Some(Be(raw, n))
  {
    hide FromBeSigned, Be, Pow256, ReadAt, Number.BE16, FitsSigned;
    var n := DecimalLen(precision).value;
    SignedRoundTrip(raw, n);
    if n == 16 {
      WideBytes(raw);
    }
    ReadsBack(pre, Be(raw, n), post);
  }

  lemma {:induction false} WideBytes(raw: int)
    requires FitsSigned(raw, 16)
    ensures Number.BE16(raw) == Ok(Be(raw, 16))
  {
    hide Be, Pow256, FitsSigned;
    BeMod(raw, 1, 16);
  }

  lemma {:induction false} NumberRoundTrip(unscaled: int, scale: int, pre: seq<byte>, post: seq<byte>)
    requires Number.EncodeNumber(unscaled, scale).Ok?
    ensures var b := Number.EncodeNumber(unscaled, scale).value;
      NumberAt(pre + b + post, |pre|, false)
      == Ok(Decoded(TextCell(if unscaled == 0 then [ZERO]
                             else DecimalString(Number.Reduced(unscaled, scale).0, Number.Reduced(unscaled, scale).1)),
                    |pre| + |b|))
  {
    hide Number.EncodeNumber, Number.DecodeNumber, Number.Reduced, DecimalString;
    var b := Number.EncodeNumber(unscaled, scale).value;
    Number.EncodeNumberDecodes(unscaled, scale, post);
    NumberHere(pre, b + post);
    assert pre + b + post == pre + (b + post);
    ZeroPrints();
    ZeroLength(scale);
  }

  lemma {:induction false} NumberHere(pre: seq<byte>, rest: seq<byte>)
    ensures Number.DecodeNumber(rest).Ok? ==>
              var (raw, scale, used) := Number.DecodeNumber(rest).value;
              NumberAt(pre + rest, |pre|, false) == Ok(Decoded(TextCell(DecimalString(raw, scale)), |pre| + used))
  {
    hide Number.DecodeNumber, DecimalString;
    assert (pre + rest)[|pre|..] == rest;
  }

  lemma {:induction false} ZeroLength(scale: int)
    ensures Number.EncodeNumber(0, scale) == Ok([0])
  {}

  lemma {:induction false} ZeroPrints()
    ensures DecimalString(0, 0) == [ZERO]
  {}

  lemma {:induction false} SignedInRange(s: seq<byte>)
    requires s != []
    ensures FitsSigned(FromBeSigned(s), |s|)
  {}

  lemma {:induction false} PrintInjective(a: int, b: int, scale: nat)
    requires DecimalString(a, scale) == DecimalString(b, scale)
    ensures a == b
  {
    PrintScale(a, scale);
    PrintScale(b, scale);
  }

  // A value that can be encoded is read back as itself when and only when
  // it is in range: an integer or decimal too large for its column comes
  // back as another number, a date before year zero or past 32 bits as
  // another date, text for a column of declared width zero is not read at
  // all, and one interval type is refused.
  lemma {:induction false} ValueRoundTripsExactly(m: Meta, p: Param, pre: seq<byte>, post: seq<byte>)
    requires EncodeValue(m, p).Ok? && IsTime(p)
    ensures var b := EncodeValue(m, p).value;
      Decode(m, false, pre + b + post, |pre|) == Ok(Decoded(Expected(m, p), |pre| + |b|)) <==> InRange(m, p)
  {
    hide Decode, Expected, Be, FromBe, Pow256, DecimalString, ScaledInt, FixedWidth, NumberOf, BasicType,
      Number.EncodeNumber, Number.BE16, FitsSigned;
    if InRange(m, p) {
      ValueRoundTrip(m, p, pre, post);
    } else {
      match EncodeShape(BasicType(m.dataType))
      case Int(n) => IntTooLarge(m, p, n, pre, post);
      case Double => DoubleTooLarge(m, p, pre, post);
      case Chars => NoWidth(m, p, pre, post);
      case Text => NoWidth(m, p, pre, post);
      case Octets => NoWidth(m, p, pre, post);
      case Decimal => DecimalTooLarge(m, p, pre, post);
      case Date => DateExactly(m, p, pre, post);
      case _ =>
    }
  }

  // New Year's Day of the year before year zero comes back as no day.
  lemma {:induction false} YearBeforeZero(m: Meta, pre: seq<byte>, post: seq<byte>)
    requires EncodeShape(BasicType(m.dataType)).Date?
    ensures var p := TimeParam(-1, 1, 1); var b := Be(-19009899, 4);
      && EncodeValue(m, p) == Ok(b) && Expected(m, p) == TextCell(DateText(-1, 1, 1))
      && Decode(m, false, pre + b + post, |pre|) == Ok(Decoded(TextCell(DateText(0, -98, -99)), |pre| + 4))
      && DateText(0, -98, -99) != DateText(-1, 1, 1)
  {
    hide Be, FromBeSigned, DateText, Spelled, DateCell, BasicType, ReadAt, Wrap32, FitsSigned;
    ReadsBack(pre, Be(-19009899, 4), post);
    DateComesBack(-19009899);
    Wrap32Exactly(-9899);
    SpellsNothing();
    if DateText(0, -98, -99) == DateText(-1, 1, 1) {
      DateTextInjective(0, -98, -99, -1, 1, 1);
    }
  }

  lemma {:induction false} SpellsNothing()
    ensures Spelled(-9899) == DateText(0, -98, -99) && FitsSigned(-9899, 4)
  {
    hide DateText;
    FourOctets();
  }

  // A letter in a CHAR column of declared width zero is sent and never read.
  lemma {:induction false} WidthZero(m: Meta, pre: seq<byte>, post: seq<byte>)
    requires EncodeShape(BasicType(m.dataType)).Chars? && m.maxLen == 0
    ensures var p := TextParam([65]);
      && EncodeValue(m, p) == Ok([65]) && Expected(m, p) == TextCell([65])
      && Decode(m, false, pre + [65] + post, |pre|) == Ok(Decoded(TextCell([]), |pre|))
  {
    hide BasicType;
  }

  lemma {:induction false} DateExactly(m: Meta, p: Param, pre: seq<byte>, post: seq<byte>)
    requires EncodeShape(BasicType(m.dataType)).Date? && EncodeValue(m, p).Ok? && IsTime(p)
    ensures var b := EncodeValue(m, p).value;
      Decode(m, false, pre + b + post, |pre|) == Ok(Decoded(Expected(m, p), |pre| + |b|)) <==> InRange(m, p)
  {
    hide Be, FromBeSigned, DateText, Spelled, DateCell, BasicType, ReadAt, Wrap32, FitsSigned;
    var v := if p.TimeParam? then DateNumber(p.year, p.month, p.day) else p.v;
    ReadsBack(pre, Be(v, 4), post);
    DateComesBack(v);
    if p.TimeParam? {
      DaySpelled(p.year, p.month, p.day, Wrap32(v + 19000000));
      Wrap32Exactly(v + 19000000);
    }
  }

  lemma {:induction false} IntTooLarge(m: Meta, p: Param, n: nat, pre: seq<byte>, post: seq<byte>)
    requires EncodeShape(BasicType(m.dataType)) == Int(n) && p.IntParam? && !FitsSigned(p.v, n)
    ensures Decode(m, false, pre + Be(p.v, n) + post, |pre|) != Ok(Decoded(Expected(m, p), |pre| + n))
  {
    hide Be, FromBeSigned, FitsSigned, BasicType, ReadAt;
    ReadsBack(pre, Be(p.v, n), post);
    SignedInRange(Be(p.v, n));
  }

  lemma {:induction false} DoubleTooLarge(m: Meta, p: Param, pre: seq<byte>, post: seq<byte>)
    requires EncodeShape(BasicType(m.dataType)) == Double && p.FloatParam? && p.bits >= Pow256(8)
    ensures Decode(m, false, pre + Be(p.bits, 8) + post, |pre|) != Ok(Decoded(Expected(m, p), |pre| + 8))
  {
    hide Be, FromBe, BasicType, ReadAt, Pow256;
    ReadsBack(pre, Be(p.bits, 8), post);
  }

  lemma {:induction false} NoWidth(m: Meta, p: Param, pre: seq<byte>, post: seq<byte>)
    requires EncodeValue(m, p).Ok? && !InRange(m, p)
    requires var shape := EncodeShape(BasicType(m.dataType)); shape.Chars? || shape.Text? || shape.Octets?
    ensures var b := EncodeValue(m, p).value;
      Decode(m, false, pre + b + post, |pre|) != Ok(Decoded(Expected(m, p), |pre| + |b|))
  {
    hide BasicType, ReadAt;
  }

  lemma {:induction false} DecimalTooLarge(m: Meta, p: Param, pre: seq<byte>, post: seq<byte>)
    requires EncodeShape(BasicType(m.dataType)) == Decimal && EncodeValue(m, p).Ok? && !InRange(m, p)
    ensures var b := EncodeValue(m, p).value;
      Decode(m, false, pre + b + post, |pre|) != Ok(Decoded(Expected(m, p), |pre| + |b|))
  {
    hide Be, FromBeSigned, FitsSigned, BasicType, ReadAt, ScaledInt, DecimalString, Number.BE16;
    var raw, n := ScaledInt(p.s, m.scale).value, DecimalLen(m.precision).value;
    NotWide(raw);
    ReadsBack(pre, Be(raw, n), post);
    SignedInRange(Be(raw, n));
    var got := FromBeSigned(Be(raw, n));
    if DecimalString(got, m.scale) == DecimalString(raw, m.scale) {
      PrintInjective(got, raw, m.scale);
    }
  }

  lemma {:induction false} NotWide(raw: int)
    ensures Number.BE16(raw).Ok? ==> FitsSigned(raw, 16)
  {}

  // A null placeholder is read back as a null of the same length.
  lemma {:induction false} NullRoundTrip(m: Meta, pre: seq<byte>, post: seq<byte>)
    requires EncodeNull(m).Ok? && BasicType(m.dataType) != INTERVAL_MIN_TO_SEC
    ensures var b := EncodeNull(m).value;
      Decode(m, true, pre + b + post, |pre|) == Ok(Decoded(NullCell, |pre| + |b|))
  {
    hide FromBe, Be, Pow256, DecimalString, DateCell, BasicType, Number.DecodeNumber, ReadAt, FromBeSigned;
    var b := EncodeNull(m).value;
    ReadsBack(pre, b, post);
    match EncodeShape(BasicType(m.dataType))
    case Varchars => ZeroPrefix();
    case Varbytes => ZeroPrefix();
    case Number => NullNumber(pre, post);
    case _ =>
  }

  lemma {:induction false} ZeroPrefix()
    ensures FromBe(Zeros(2)) == 0
  {
    assert Zeros(2)[..1] == [0] && Zeros(2)[..1][..0] == [];
  }

  lemma {:induction false} NullNumber(pre: seq<byte>, post: seq<byte>)
    ensures NumberAt(pre + Zeros(1) + post, |pre|, true) == Ok(Decoded(NullCell, |pre| + 1))
  {
    var rest := (pre + Zeros(1) + post)[|pre|..];
    assert rest[0] == 0;
    hide DecimalString;
  }

  // ----- Rows

  /** What an encoded parameter is read back as. */
  function ExpectedCell(m: Meta, p: Param): Cell { if p.Null? then NullCell else Expected(m, p) }

  /** Types both sides support, with values in range. */
  predicate Supported(m: Meta, p: Param) {
    if p.Null? then EncodeNull(m).Ok? && BasicType(m.dataType) != INTERVAL_MIN_TO_SEC else InRange(m, p)
  }

  lemma {:induction false} ColumnRoundTrip(m: Meta, p: Param, pre: seq<byte>, post: seq<byte>)
    requires Supported(m, p)
    ensures Encode(m, p).Ok?
    ensures var b := Encode(m, p).value;
      Decode(m, p.Null?, pre + b + post, |pre|) == Ok(Decoded(ExpectedCell(m, p), |pre| + |b|))
  {
    hide InRange, EncodeValue, EncodeNull, Decode, Expected;
    if p.Null? {
      NullRoundTrip(m, pre, post);
    } else {
      ValueRoundTrip(m, p, pre, post);
    }
  }

  /** The octets of the first k parameters. */
  function EncodedFirst(ms: seq<Meta>, ps: seq<Param>, k: nat): Result<seq<byte>>
    requires k <= |ms| == |ps|
  {
    if k == 0 then Ok([])
    else
      match EncodedFirst(ms, ps, k - 1)
      case Ok(b) => (match Encode(ms[k - 1], ps[k - 1]) case Ok(c) => Ok(b + c) case Err => Err case Panic => Panic)
      case Err => Err
      case Panic => Panic
  }

  function NullsOf(ps: seq<Param>): (s: seq<bool>)
    ensures |s| == |ps| && forall i :: 0 <= i < |ps| ==> s[i] == ps[i].Null?
  {
    seq(|ps|, i requires 0 <= i < |ps| => ps[i].Null?)
  }

  /** The body of the IndicData parcel: null bitmap, then the parameters. */
  function RowBytes(ms: seq<Meta>, ps: seq<Param>): Result<seq<byte>>
    requires |ms| == |ps|
  {
    match EncodedFirst(ms, ps, |ms|)
    case Ok(b) => Ok(Bitmap(NullsOf(ps), BitmapLen(|ps|)) + b)
    case Err => Err
    case Panic => Panic
  }

  datatype Row = Row(cells: seq<Cell>, next: nat)

  /** The first k columns from a position. */
  function DecodedFirst(ms: seq<Meta>, indicators: seq<byte>, data: seq<byte>, pos: nat, k: nat): Result<Row>
    requires k <= |ms| <= 8 * |indicators|
  {
    if k == 0 then Ok(Row([], pos))
    else
      match DecodedFirst(ms, indicators, data, pos, k - 1)
      case Ok(r) =>
        (match Decode(ms[k - 1], IsNull(indicators, k - 1), data, r.next)
         case Ok(d) => Ok(Row(r.cells + [d.cell], d.next))
         case Err => Err
         case Panic => Panic)
      case Err => Err
      case Panic => Panic
  }

  /** processRow at a position. */
  function DecodedRow(ms: seq<Meta>, data: seq<byte>, pos: nat): Result<Row> {
    match ReadAt(data, pos, BitmapLen(|ms|))
    case None => Panic
    case Some(indicators) => DecodedFirst(ms, indicators, data, pos + BitmapLen(|ms|), |ms|)
  }

  function ExpectedCells(ms: seq<Meta>, ps: seq<Param>, k: nat): (cells: seq<Cell>)
    requires k <= |ms| == |ps|
    ensures |cells| == k && forall i :: 0 <= i < k ==> cells[i] == ExpectedCell(ms[i], ps[i])
  {
    seq(k, i requires 0 <= i < k => ExpectedCell(ms[i], ps[i]))
  }

  predicate AllSupported(ms: seq<Meta>, ps: seq<Param>) {
    |ms| == |ps| && forall i :: 0 <= i < |ms| ==> Supported(ms[i], ps[i])
  }

  lemma {:induction false} ColumnsRoundTrip(ms: seq<Meta>, ps: seq<Param>, k: nat, indicators: seq<byte>,
                                            head: seq<byte>, post: seq<byte>)
    requires k <= |ms| <= 8 * |indicators| && AllSupported(ms, ps)
    requires forall i :: 0 <= i < k ==> (IsNull(indicators, i) <==> ps[i].Null?)
    ensures EncodedFirst(ms, ps, k).Ok?
    ensures var b := EncodedFirst(ms, ps, k).value;
      DecodedFirst(ms, indicators, head + b + post, |head|, k)
      == Ok(Row(ExpectedCells(ms, ps, k), |head| + |b|))
  {
    hide Supported, Encode, Decode, ExpectedCell, IsNull;
    if k == 0 {
      assert ExpectedCells(ms, ps, 0) == [];
    } else {
      var m, p := ms[k - 1], ps[k - 1];
      ColumnRoundTrip(m, p, [], []);
      var c := Encode(m, p).value;
      ColumnsRoundTrip(ms, ps, k - 1, indicators, head, c + post);
      var b := EncodedFirst(ms, ps, k - 1).value;
      ColumnRoundTrip(m, p, head + b, post);
      assert head + b + (c + post) == head + (b + c) + post == (head + b) + c + post;
      assert ExpectedCells(ms, ps, k) == ExpectedCells(ms, ps, k - 1) + [ExpectedCell(m, p)];
    }
  }

  // For every list of parameters of types both sides support, with values
  // in range and any pattern of nulls, the row decoder gives back the same
  // values in order and stops exactly at the end of the row.
  lemma {:induction false} RowRoundTrip(ms: seq<Meta>, ps: seq<Param>, pre: seq<byte>, post: seq<byte>)
    requires AllSupported(ms, ps)
    ensures RowBytes(ms, ps).Ok?
    ensures var b := RowBytes(ms, ps).value;
      DecodedRow(ms, pre + b + post, |pre|) == Ok(Row(ExpectedCells(ms, ps, |ms|), |pre| + |b|))
  {
    hide Bitmap, IsNull, ReadAt, Supported, EncodedFirst, DecodedFirst, ExpectedCells;
    var m := Bitmap(NullsOf(ps), BitmapLen(|ps|));
    BitmapMarks(ps);
    ColumnsRoundTrip(ms, ps, |ms|, m, pre + m, post);
    var b := EncodedFirst(ms, ps, |ms|).value;
    Regrouped(pre, m, b, post);
    ReadsBack(pre, m, b + post);
  }

  lemma {:induction false} BitmapMarks(ps: seq<Param>)
    ensures var m := Bitmap(NullsOf(ps), BitmapLen(|ps|));
      forall i :: 0 <= i < |ps| ==> (IsNull(m, i) <==> ps[i].Null?)
  {
    hide Bitmap, IsNull;
    var nulls, n := NullsOf(ps), BitmapLen(|ps|);
    forall i | 0 <= i < |ps|
      ensures IsNull(Bitmap(nulls, n), i) <==> ps[i].Null?
    {
      BitmapReads(nulls, n, i);
    }
  }

  lemma {:induction false} Regrouped(pre: seq<byte>, m: seq<byte>, b: seq<byte>, post: seq<byte>)
    ensures pre + (m + b) + post == (pre + m) + b + post
    ensures pre + (m + b) + post == pre + m + (b + post)
  {}

  // ----- The loops

  /** indicDataParcel.write: the bitmap built bit by bit, then the encoded
      parameters, after the parcel header. */
  method WriteIndicData(w: BufferWriter, nulls: seq<bool>, encoded: seq<seq<byte>>, flavor: nat, length: nat)
    requires |nulls| == |encoded| && w.Valid()
    requires w.indx + 4 + BitmapLen(|nulls|) + |Concat(encoded)| <= w.buff.Length
    modifies w`indx, w.buff
    ensures w.Valid()
    ensures var parcel := Be(flavor, 2) + Be(length, 2) + Bitmap(nulls, BitmapLen(|nulls|)) + Concat(encoded);
      && w.indx == old(w.indx) + |parcel|
      && w.buff[..] == Overwrite(old(w.buff[..]), old(w.indx), parcel)
  {
    hide Overwrite, Bitmap, Be;
    ghost var base, at := w.buff[..], w.indx;
    w.Put(flavor, 2);
    w.Put(length, 2);
    ghost var done := Be(flavor, 2) + Be(length, 2);
    OverwriteTwice(base, at, Be(flavor, 2), Be(length, 2));
    var bitmap := BuildBitmap(nulls);
    w.Put0(bitmap);
    OverwriteTwice(base, at, done, bitmap);
    done := done + bitmap;
    WriteAll(w, encoded, base, at, done);
  }

  method WriteAll(w: BufferWriter, encoded: seq<seq<byte>>, ghost base: seq<byte>, ghost at: nat, ghost done: seq<byte>)
    requires w.Valid() && 0 < w.indx && w.indx == at + |done|
    requires at + |done| + |Concat(encoded)| <= |base| == w.buff.Length
    requires w.buff[..] == Overwrite(base, at, done)
    modifies w`indx, w.buff
    ensures w.Valid() && w.indx == at + |done + Concat(encoded)|
    ensures w.buff[..] == Overwrite(base, at, done + Concat(encoded))
  {
    hide Overwrite;
    assert encoded[..0] == [] && done + [] == done;
    for i := 0 to |encoded|
      invariant w.Valid() && 0 < w.indx == at + |done + Concat(encoded[..i])|
      invariant |Concat(encoded[..i])| <= |Concat(encoded)|
      invariant w.buff[..] == Overwrite(base, at, done + Concat(encoded[..i]))
    {
      ConcatPrefix(encoded, i);
      ghost var before := done + Concat(encoded[..i]);
      w.Put0(encoded[i]);
      OverwriteTwice(base, at, before, encoded[i]);
      assert before + encoded[i] == done + (Concat(encoded[..i]) + encoded[i]);
    }
    assert encoded[..|encoded|] == encoded;
  }

  lemma {:induction false} ConcatPrefix(ss: seq<seq<byte>>, i: nat)
    requires i < |ss|
    ensures Concat(ss[..i + 1]) == Concat(ss[..i]) + ss[i]
    ensures |Concat(ss[..i + 1])| <= |Concat(ss)|
  {
    assert ss[..i + 1][..i] == ss[..i];
    ConcatAppend(ss[..i + 1], ss[i + 1..]);
    assert ss == ss[..i + 1] + ss[i + 1..];
  }

  method BuildBitmap(nulls: seq<bool>) returns (m: seq<byte>)
    ensures m == Bitmap(nulls, BitmapLen(|nulls|))
  {
    var n := (|nulls| + 7) / 8;
    var bits := new byte[n](_ => 0);
    assert bits[..] == Bitmap(nulls[..0], n);
    for i := 0 to |nulls|
      invariant bits[..] == Bitmap(nulls[..i], n)
    {
      assert nulls[..i + 1][..i] == nulls[..i];
      if nulls[i] {
        bits[i / 8] := SetBit(bits[i / 8], i % 8);
      }
    }
    assert nulls[..|nulls|] == nulls;
    m := bits[..];
  }

  /** processRow: fills dest from indx on and moves the cursor. */
  method ProcessRow(ms: seq<Meta>, data: seq<byte>, pos: nat, dest: array<Cell>, indx: nat) returns (r: Result<nat>)
    requires indx + |ms| <= dest.Length
    modifies dest
    ensures match DecodedRow(ms, data, pos)
      case Ok(row) => r == Ok(row.next) && |row.cells| == |ms| && dest[indx..indx + |ms|] == row.cells
      case Err => r == Err
      case Panic => r == Panic
    ensures forall k :: 0 <= k < indx || indx + |ms| <= k < dest.Length ==> dest[k] == old(dest[k])
  {
    hide Decode, IsNull, ReadAt;
    var indicators := ReadAt(data, pos, BitmapLen(|ms|));
    if indicators.None? {
      return Panic;
    }
    ReadLen(data, pos, BitmapLen(|ms|));
    var next: nat := pos + BitmapLen(|ms|);
    ghost var start := next;
    assert dest[indx..indx] == [];
    for i := 0 to |ms|
      invariant forall k :: 0 <= k < indx || indx + |ms| <= k < dest.Length ==> dest[k] == old(dest[k])
      invariant DecodedFirst(ms, indicators.value, data, start, i) == Ok(Row(dest[indx..indx + i], next))
    {
      match Decode(ms[i], IsNull(indicators.value, i), data, next) {
        case Ok(d) =>
          ghost var before := dest[indx..indx + i];
          dest[indx + i] := d.cell;
          next := d.next;
          assert dest[indx..indx + i + 1] == before + [d.cell];
        case Err =>
          FirstStops(ms, indicators.value, data, start, i + 1);
          return Err;
        case Panic =>
          FirstStops(ms, indicators.value, data, start, i + 1);
          return Panic;
      }
    }
    r := Ok(next);
  }

  lemma {:induction false} ReadLen(data: seq<byte>, pos: nat, n: nat)
    ensures ReadAt(data, pos, n).Some? ==> |ReadAt(data, pos, n).value| == n
  {}

  lemma {:induction false} FirstStops(ms: seq<Meta>, indicators: seq<byte>, data: seq<byte>, pos: nat, k: nat)
    requires k <= |ms| <= 8 * |indicators| && !DecodedFirst(ms, indicators, data, pos, k).Ok?
    ensures DecodedFirst(ms, indicators, data, pos, |ms|) == DecodedFirst(ms, indicators, data, pos, k)
    decreases |ms| - k
  {
    if k < |ms| {
      FirstStops(ms, indicators, data, pos, k + 1);
    }
  }
}
