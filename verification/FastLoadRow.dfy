/** Rows in a batch: what one push writes, in place, over whatever a reused
    buffer held; and how the batch splits back into its rows. */
module FastLoadRow {
  import opened Bytes
  import opened NullBitmap
  import opened Buffers
  import opened FastLoadEncode

  const PARCEL_HEADER_LEN := 4
  const MAX_PARCEL_LEN := 65535
  const INDIC_DATA := 68

  // ----- What a row looks like

  function IndicatorLen(encoders: seq<Encoder>): nat { BitmapLen(|encoders| + 1) }

  function SumMax(encoders: seq<Encoder>): nat {
    if encoders == [] then 0 else SumMax(encoders[..|encoders| - 1]) + MaxWireBytes(encoders[|encoders| - 1])
  }

  function MaxRowBytes(encoders: seq<Encoder>): nat {
    IndicatorLen(encoders) + 4 + SumMax(encoders)
  }

  /** fastLoadMaxRowBytes, with its accumulating loop: the sum is an int, and
      right exactly when it is one. */
  method ComputeMaxRowBytes(encoders: seq<Encoder>) returns (n: int64)
    ensures n == Wrap64(MaxRowBytes(encoders))
    ensures n == MaxRowBytes(encoders) <==> MaxRowBytes(encoders) < TWO63
  {
    hide Wrap64, MaxWireBytes;
    WrapCases((|encoders| + 1 + 7) / 8 + 4);
    n := Wrap64((|encoders| + 1 + 7) / 8 + 4);
    for i := 0 to |encoders|
      invariant n == Wrap64(IndicatorLen(encoders) + 4 + SumMax(encoders[..i]))
    {
      assert encoders[..i + 1][..i] == encoders[..i];
      Wrap64Through(IndicatorLen(encoders) + 4 + SumMax(encoders[..i]), MaxWireBytes(encoders[i]));
      WrapCases(n + MaxWireBytes(encoders[i]));
      n := Wrap64(n + MaxWireBytes(encoders[i]));
    }
    assert encoders[..|encoders|] == encoders;
    WrapCases(MaxRowBytes(encoders));
  }

  function MaxParcelLen(encoders: seq<Encoder>): nat { PARCEL_HEADER_LEN + MaxRowBytes(encoders) }

  function Nulls(values: seq<Value>, k: nat): (s: seq<bool>)
    requires k <= |values|
    ensures |s| == k && forall i :: 0 <= i < k ==> s[i] == values[i].Nil?
  {
    seq(k, i requires 0 <= i < k => values[i].Nil?)
  }

  /** The octets of the first k columns. */
  function Columns(encoders: seq<Encoder>, values: seq<Value>, k: nat): seq<byte>
    requires k <= |encoders| == |values|
  {
    if k == 0 then []
    else
      Columns(encoders, values, k - 1)
      + (match ColumnBytes(encoders[k - 1], values[k - 1]) case Ok(b) => b case _ => [])
  }

  /** How many leading columns encode without error. */
  function Encodable(encoders: seq<Encoder>, values: seq<Value>, k: nat): (n: nat)
    requires k <= |encoders| == |values|
    ensures k <= n <= |encoders|
    ensures forall i :: k <= i < n ==> ColumnBytes(encoders[i], values[i]).Ok?
    ensures n < |encoders| ==> !ColumnBytes(encoders[n], values[n]).Ok?
    decreases |encoders| - k
  {
    if k == |encoders| || !ColumnBytes(encoders[k], values[k]).Ok? then k
    else Encodable(encoders, values, k + 1)
  }

  predicate RowOk(encoders: seq<Encoder>, values: seq<Value>) {
    |values| == |encoders| && forall i :: 0 <= i < |encoders| ==> ColumnBytes(encoders[i], values[i]).Ok?
  }

  /** The null bitmap and columns once k columns have been written. */
  function Partial(encoders: seq<Encoder>, values: seq<Value>, k: nat): seq<byte>
    requires k <= |encoders| == |values|
  {
    Bitmap(Nulls(values, k), IndicatorLen(encoders)) + Columns(encoders, values, k)
  }

  /** What writeFastLoadRow leaves in the buffer when it fails. */
  function Garbage(encoders: seq<Encoder>, values: seq<Value>): seq<byte> {
    if |values| != |encoders| then [] else Partial(encoders, values, Encodable(encoders, values, 0))
  }

  function RowBody(encoders: seq<Encoder>, values: seq<Value>, rowNumber: int): seq<byte>
    requires RowOk(encoders, values)
  {
    Partial(encoders, values, |encoders|) + Be(rowNumber, 4)
  }

  /** One framed row: flavor, parcel length, body. */
  function Frame(encoders: seq<Encoder>, values: seq<Value>, rowNumber: int): seq<byte>
    requires RowOk(encoders, values)
  {
    var body := RowBody(encoders, values, rowNumber);
    Be(INDIC_DATA, 2) + Be(PARCEL_HEADER_LEN + |body|, 2) + body
  }

  lemma {:induction false} ColumnsFit(encoders: seq<Encoder>, values: seq<Value>, k: nat)
    requires k <= |encoders| == |values|
    requires forall i :: 0 <= i < k ==> ColumnBytes(encoders[i], values[i]).Ok?
    ensures |Columns(encoders, values, k)| <= SumMax(encoders[..k])
  {
    if k > 0 {
      hide ColumnBytes, MaxWireBytes;
      ColumnsFit(encoders, values, k - 1);
      ColumnFits(encoders[k - 1], values[k - 1]);
      assert encoders[..k][..k - 1] == encoders[..k - 1];
    }
  }

  lemma {:induction false} SumMaxMono(encoders: seq<Encoder>, k: nat)
    requires k <= |encoders|
    ensures SumMax(encoders[..k]) <= SumMax(encoders)
    ensures k < |encoders| ==> SumMax(encoders[..k]) + MaxWireBytes(encoders[k]) <= SumMax(encoders)
    decreases |encoders| - k
  {
    hide MaxWireBytes;
    if k < |encoders| {
      SumMaxMono(encoders, k + 1);
      assert encoders[..k + 1][..k] == encoders[..k];
    } else {
      assert encoders[..k] == encoders;
    }
  }

  // A framed row never exceeds the declared maximum, so when that maximum
  // is at most 65535 its length fits the 16-bit field.
  lemma {:induction false} FrameFits(encoders: seq<Encoder>, values: seq<Value>, rowNumber: int)
    requires RowOk(encoders, values)
    ensures |Frame(encoders, values, rowNumber)| <= MaxParcelLen(encoders)
  {
    ColumnsFit(encoders, values, |encoders|);
    assert encoders[..|encoders|] == encoders;
  }

  // ----- Splitting a batch

  /** A parcel whose own length field covers it exactly. */
  predicate IsParcel(p: seq<byte>) {
    |p| >= PARCEL_HEADER_LEN && FromBe(p[2..4]) == |p|
  }

  /** Walking a batch by parcel length. */
  function Split(s: seq<byte>): Result<seq<seq<byte>>> {
    if s == [] then Ok([])
    else if |s| < PARCEL_HEADER_LEN then Err
    else
      var n := FromBe(s[2..4]);
      if n < PARCEL_HEADER_LEN || n > |s| then Err
      else
        match Split(s[n..])
        case Ok(rest) => Ok([s[..n]] + rest)
        case _ => Err
  }

  predicate AllParcels(ps: seq<seq<byte>>) { forall i :: 0 <= i < |ps| ==> IsParcel(ps[i]) }

  lemma {:induction false} SplitConcat(ps: seq<seq<byte>>)
    requires AllParcels(ps)
    ensures Split(Concat(ps)) == Ok(ps)
  {
    if ps != [] {
      ConcatHead(ps);
      SplitConcat(ps[1..]);
      SplitHead(ps[0], Concat(ps[1..]));
      assert [ps[0]] + ps[1..] == ps;
    }
  }

  lemma {:induction false} SplitHead(p: seq<byte>, rest: seq<byte>)
    requires IsParcel(p) && Split(rest).Ok?
    ensures Split(p + rest) == Ok([p] + Split(rest).value)
  {
    var s := p + rest;
    assert s[2..4] == p[2..4];
    assert s[..|p|] == p && s[|p|..] == rest;
  }

  function SplitRows(s: seq<byte>): seq<seq<byte>> { if Split(s).Ok? then Split(s).value else [] }

  lemma {:induction false} SplitAppend(a: seq<byte>, f: seq<byte>)
    requires Split(a).Ok? && IsParcel(f)
    ensures Split(a + f) == Ok(Split(a).value + [f])
    decreases |a|
  {
    if a == [] {
      assert a + f == f + [];
      SplitHead(f, []);
      assert [f] + [] == [] + [f];
    } else {
      var n := FromBe(a[2..4]);
      SplitAppend(a[n..], f);
      assert a + f == a[..n] + (a[n..] + f);
      assert a[..n][2..4] == a[2..4];
      SplitHead(a[..n], a[n..] + f);
      var rest := Split(a[n..]).value;
      assert [a[..n]] + (rest + [f]) == [a[..n]] + rest + [f];
    }
  }

  // Splitting loses nothing: the parcels are the octets.
  lemma {:induction false} SplitTiles(s: seq<byte>)
    requires Split(s).Ok?
    ensures Concat(Split(s).value) == s && AllParcels(Split(s).value)
    decreases |s|
  {
    if s != [] {
      var n := FromBe(s[2..4]);
      SplitTiles(s[n..]);
      ConcatHead(Split(s).value);
      assert s[..n][2..4] == s[2..4];
      assert s == s[..n] + s[n..];
    }
  }

  /** The row number a parcel carries: its last four octets, as the
      error-table query reads them. */
  function RowNumber(p: seq<byte>): int
    requires |p| >= 4
  {
    FromBeSigned(p[|p| - 4..])
  }

  // Every accepted row is a parcel of the right flavor, marks exactly its
  // null columns, and ends with its row number.
  lemma {:induction false} FrameLaws(encoders: seq<Encoder>, values: seq<Value>, rowNumber: int)
    requires RowOk(encoders, values) && MaxParcelLen(encoders) <= MAX_PARCEL_LEN
    ensures var f := Frame(encoders, values, rowNumber);
      && IsParcel(f) && FromBe(f[..2]) == INDIC_DATA
      && (FitsSigned(rowNumber, 4) ==> RowNumber(f) == rowNumber)
    ensures var f := Frame(encoders, values, rowNumber); var n := IndicatorLen(encoders);
      4 + n <= |f| && forall i :: 0 <= i < |encoders| ==> (IsNull(f[4..4 + n], i) <==> values[i].Nil?)
  {
    FrameFits(encoders, values, rowNumber);
    var f := Frame(encoders, values, rowNumber);
    FrameEnds(encoders, values, rowNumber);
    assert Pow256(2) == 65536;
    BeRoundTrip(INDIC_DATA, 2);
    BeRoundTrip(|f|, 2);
    if FitsSigned(rowNumber, 4) {
      SignedRoundTrip(rowNumber, 4);
    }
    var nulls := Nulls(values, |encoders|);
    forall i | 0 <= i < |encoders|
      ensures IsNull(Bitmap(nulls, IndicatorLen(encoders)), i) <==> values[i].Nil?
    {
      BitmapReads(nulls, IndicatorLen(encoders), i);
    }
  }

  lemma {:induction false} FrameEnds(encoders: seq<Encoder>, values: seq<Value>, rowNumber: int)
    requires RowOk(encoders, values)
    ensures var f := Frame(encoders, values, rowNumber); var n := IndicatorLen(encoders);
      && |f| >= 8 + n && f[..2] == Be(INDIC_DATA, 2) && f[2..4] == Be(|f|, 2)
      && f[|f| - 4..] == Be(rowNumber, 4)
      && f[4..4 + n] == Bitmap(Nulls(values, |encoders|), n)
  {
    hide Bitmap, Columns, Be, ColumnBytes, Nulls;
    var n := IndicatorLen(encoders);
    var m := Bitmap(Nulls(values, |encoders|), n);
    var c := Columns(encoders, values, |encoders|);
    FrameSlices(Be(INDIC_DATA, 2), Be(|Frame(encoders, values, rowNumber)|, 2), m, c, Be(rowNumber, 4));
  }

  lemma {:induction false} FrameSlices(a: seq<byte>, b: seq<byte>, m: seq<byte>, c: seq<byte>, d: seq<byte>)
    requires |a| == 2 && |b| == 2 && |d| == 4
    ensures var f := a + b + (m + c + d);
      |f| == 8 + |m| + |c| && f[..2] == a && f[2..4] == b && f[4..4 + |m|] == m && f[|f| - 4..] == d
  {}

  // ----- The batch as a value

  /** fastLoadBatch: the whole buffer, the writer position, the row count. */
  datatype Batch = Batch(body: seq<byte>, pos: nat, rows: nat)

  predicate HasRoom(b: Batch, encoders: seq<Encoder>) {
    b.pos + MaxParcelLen(encoders) <= |b.body|
  }

  /** Everything one push writes, before any rollback of the position. */
  function Attempt(encoders: seq<Encoder>, values: seq<Value>, rowNumber: int): seq<byte> {
    if RowOk(encoders, values) then Frame(encoders, values, rowNumber)
    else Be(INDIC_DATA, 2) + Zeros(2) + Garbage(encoders, values)
  }

  lemma {:induction false} AttemptFits(encoders: seq<Encoder>, values: seq<Value>, rowNumber: int)
    ensures |Attempt(encoders, values, rowNumber)| <= MaxParcelLen(encoders)
  {
    if RowOk(encoders, values) {
      FrameFits(encoders, values, rowNumber);
    } else if |values| == |encoders| {
      var k := Encodable(encoders, values, 0);
      ColumnsFit(encoders, values, k);
      SumMaxMono(encoders, k);
    }
  }

  /** The batch after a push: a rejected row leaves garbage past the
      position, which the next row overwrites. */
  function Pushed(b: Batch, encoders: seq<Encoder>, values: seq<Value>, rowNumber: int): Batch
    requires HasRoom(b, encoders)
  {
    AttemptFits(encoders, values, rowNumber);
    var written := Attempt(encoders, values, rowNumber);
    var body := Overwrite(b.body, b.pos, written);
    if RowOk(encoders, values) then Batch(body, b.pos + |written|, b.rows + 1)
    else Batch(body, b.pos, b.rows)
  }
}
