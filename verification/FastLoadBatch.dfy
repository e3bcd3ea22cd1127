/** The batch buffer itself: rows encoded in place, over stale octets. */
module FastLoadBatch {
  import opened Bytes
  import opened NullBitmap
  import opened Buffers
  import opened FastLoadEncode
  import opened FastLoadRow

  /** writeNull. */
  method WriteNull(w: BufferWriter, e: Encoder)
    requires w.Valid() && 0 < w.indx && w.indx + |NullBytes(e)| <= w.buff.Length
    modifies w`indx, w.buff
    ensures w.Valid() && w.indx == old(w.indx) + |NullBytes(e)|
    ensures w.buff[..] == Overwrite(old(w.buff[..]), old(w.indx), NullBytes(e))
  {
    hide Overwrite;
    if e.kind.Number? {
      w.Copy([0]);
    } else if Prefixed(e.kind) {
      w.Skip(2);
    } else if FixedText(e.kind) {
      w.Put0(Fill(e.width, 32));
    } else {
      w.Skip(MaxWireBytes(e));
    }
  }

  /** writeNull or writeValue. A column that fails has written nothing. */
  method WriteColumn(w: BufferWriter, e: Encoder, val: Value) returns (ok: bool)
    requires w.Valid() && 0 < w.indx && w.indx + MaxWireBytes(e) <= w.buff.Length
    modifies w`indx, w.buff
    ensures w.Valid() && ok == ColumnBytes(e, val).Ok?
    ensures ok ==>
              var b := ColumnBytes(e, val).value;
              && |b| <= MaxWireBytes(e)
              && w.indx == old(w.indx) + |b|
              && w.buff[..] == Overwrite(old(w.buff[..]), old(w.indx), b)
    ensures !ok ==> w.indx == old(w.indx) && w.buff[..] == old(w.buff[..])
  {
    ColumnFits(e, val);
    hide ValueBytes, NullBytes, MaxWireBytes, Overwrite;
    if val.Nil? {
      WriteNull(w, e);
      return true;
    }
    match ValueBytes(e, val) {
      case Ok(b) =>
        w.Put0(b);
        ok := true;
      case Err =>
        ok := false;
    }
  }

  // The octets of a partly written row are the base buffer with the bitmap
  // and the first k columns written over it at bm.
  ghost predicate Placed(s: seq<byte>, indx: nat, base: seq<byte>, bm: nat,
                         encoders: seq<Encoder>, values: seq<Value>, k: nat)
    requires k <= |encoders| == |values|
  {
    var p := Partial(encoders, values, k);
    && bm + |p| <= |base|
    && indx == bm + |p|
    && s == Overwrite(base, bm, p)
  }

  // The same with the mark of column k already made, its octets not yet.
  ghost predicate Marked(s: seq<byte>, indx: nat, base: seq<byte>, bm: nat,
                         encoders: seq<Encoder>, values: seq<Value>, k: nat)
    requires k < |encoders| == |values|
  {
    var p := Bitmap(Nulls(values, k + 1), IndicatorLen(encoders)) + Columns(encoders, values, k);
    && bm + |p| <= |base|
    && indx == bm + |p|
    && s == Overwrite(base, bm, p)
  }

  /** Set bit i of the null bitmap that starts at bm when value i is nil. */
  method MarkNull(w: BufferWriter, bm: nat, encoders: seq<Encoder>, values: seq<Value>, i: nat, ghost base: seq<byte>)
    requires i < |encoders| == |values|
    requires w.Valid() && Placed(w.buff[..], w.indx, base, bm, encoders, values, i)
    modifies w.buff
    ensures Marked(w.buff[..], w.indx, base, bm, encoders, values, i)
  {
    hide Overwrite, Columns, SetBit;
    ghost var n := IndicatorLen(encoders);
    ghost var nulls, m := Nulls(values, i), Bitmap(Nulls(values, i), n);
    ghost var p := Partial(encoders, values, i);
    assert Nulls(values, i + 1)[..i] == nulls;
    if values[i].Nil? {
      assert p[i / 8] == m[i / 8];
      OverwriteAt(base, bm, p, i / 8);
      var b := SetBit(w.buff[bm + i / 8], i % 8);
      w.buff[bm + i / 8] := b;
      OverwriteUpdate(base, bm, p, i / 8, b);
      assert p[i / 8 := b] == m[i / 8 := b] + Columns(encoders, values, i);
    }
  }

  lemma {:induction false} OverwriteAt(s: seq<byte>, at: nat, u: seq<byte>, i: nat)
    requires at + |u| <= |s| && i < |u|
    ensures Overwrite(s, at, u)[at + i] == u[i]
  {}

  // Appending the octets of column k completes it.
  lemma {:induction false} PlacedNext(s: seq<byte>, indx: nat, base: seq<byte>, bm: nat,
                                      encoders: seq<Encoder>, values: seq<Value>, k: nat, s': seq<byte>)
    requires k < |encoders| == |values| && Marked(s, indx, base, bm, encoders, values, k)
    requires ColumnBytes(encoders[k], values[k]).Ok?
    requires var b := ColumnBytes(encoders[k], values[k]).value;
      indx + |b| <= |s| && s' == Overwrite(s, indx, b)
    ensures Placed(s', indx + |ColumnBytes(encoders[k], values[k]).value|, base, bm, encoders, values, k + 1)
  {
    hide Overwrite, Bitmap, ColumnBytes;
    var m, cols := Bitmap(Nulls(values, k + 1), IndicatorLen(encoders)), Columns(encoders, values, k);
    var b := ColumnBytes(encoders[k], values[k]).value;
    OverwriteTwice(base, bm, m + cols, b);
    assert m + cols + b == m + (cols + b);
  }

  // A failed column is not null, so its mark was not made.
  lemma {:induction false} UnplacedNext(s: seq<byte>, indx: nat, base: seq<byte>, bm: nat,
                                        encoders: seq<Encoder>, values: seq<Value>, k: nat)
    requires k < |encoders| == |values| && Marked(s, indx, base, bm, encoders, values, k)
    requires !ColumnBytes(encoders[k], values[k]).Ok?
    ensures Placed(s, indx, base, bm, encoders, values, k)
  {
    assert !values[k].Nil?;
    assert Nulls(values, k + 1)[..k] == Nulls(values, k);
    hide Overwrite, ColumnBytes;
  }

  /** One turn of the column loop. */
  method WriteNext(w: BufferWriter, bm: nat, encoders: seq<Encoder>, values: seq<Value>, i: nat,
                   ghost base: seq<byte>)
    returns (ok: bool)
    requires i < |encoders| == |values| && 0 < w.indx
    requires w.Valid() && Placed(w.buff[..], w.indx, base, bm, encoders, values, i)
    requires w.indx + MaxWireBytes(encoders[i]) <= w.buff.Length
    modifies w`indx, w.buff
    ensures w.Valid() && ok == ColumnBytes(encoders[i], values[i]).Ok?
    ensures Placed(w.buff[..], w.indx, base, bm, encoders, values, if ok then i + 1 else i)
    ensures old(w.indx) <= w.indx <= old(w.indx) + MaxWireBytes(encoders[i])
  {
    hide *;
    MarkNull(w, bm, encoders, values, i, base);
    ghost var s, indx := w.buff[..], w.indx;
    ok := WriteColumn(w, encoders[i], values[i]);
    if ok {
      PlacedNext(s, indx, base, bm, encoders, values, i, w.buff[..]);
    } else {
      UnplacedNext(s, indx, base, bm, encoders, values, i);
    }
  }

  /** The column loop of writeFastLoadRow: how many columns it wrote. */
  method WriteColumns(w: BufferWriter, bm: nat, encoders: seq<Encoder>, values: seq<Value>, ghost base: seq<byte>)
    returns (n: nat)
    requires |encoders| == |values| && 0 < w.indx
    requires w.Valid() && w.indx + SumMax(encoders) <= w.buff.Length
    requires Placed(w.buff[..], w.indx, base, bm, encoders, values, 0)
    modifies w`indx, w.buff
    ensures n == Encodable(encoders, values, 0) && w.Valid()
    ensures Placed(w.buff[..], w.indx, base, bm, encoders, values, n)
    ensures w.indx <= old(w.indx) + SumMax(encoders)
  {
    hide ColumnBytes, MaxWireBytes, Overwrite, Placed;
    ghost var start := w.indx;
    n := 0;
    while n < |encoders|
      invariant 0 <= n <= |encoders| && w.Valid()
      invariant start <= w.indx <= start + SumMax(encoders[..n])
      invariant Placed(w.buff[..], w.indx, base, bm, encoders, values, n)
      invariant forall k :: 0 <= k < n ==> ColumnBytes(encoders[k], values[k]).Ok?
    {
      SumMaxMono(encoders, n);
      assert encoders[..n + 1][..n] == encoders[..n];
      var ok := WriteNext(w, bm, encoders, values, n, base);
      if !ok {
        EncodableAt(encoders, values, n);
        return;
      }
      n := n + 1;
    }
    assert encoders[..|encoders|] == encoders;
  }

  /** writeFastLoadRow. */
  method WriteRow(w: BufferWriter, encoders: seq<Encoder>, values: seq<Value>, rowNumber: int) returns (ok: bool)
    requires w.Valid() && 0 < w.indx && w.indx + MaxRowBytes(encoders) <= w.buff.Length
    modifies w`indx, w.buff
    ensures w.Valid() && ok == RowOk(encoders, values)
    ensures var b := if ok then RowBody(encoders, values, rowNumber) else Garbage(encoders, values);
      && w.indx == old(w.indx) + |b|
      && w.buff[..] == Overwrite(old(w.buff[..]), old(w.indx), b)
  {
    hide Overwrite, ColumnBytes, SumMax, Placed, Partial;
    if |values| != |encoders| {
      OverwriteNothing(w.buff[..], w.indx);
      return false;
    }
    ghost var base, bm := w.buff[..], w.indx;
    var n := WritePrefix(w, encoders, values);
    if n < |encoders| {
      return false;
    }
    w.Put(rowNumber, 4);
    OverwriteTwice(base, bm, Partial(encoders, values, n), Be(rowNumber, 4));
    ok := true;
  }

  /** The bitmap and the columns of a row of the right width. */
  method WritePrefix(w: BufferWriter, encoders: seq<Encoder>, values: seq<Value>) returns (n: nat)
    requires w.Valid() && 0 < w.indx && w.indx + MaxRowBytes(encoders) <= w.buff.Length && |values| == |encoders|
    modifies w`indx, w.buff
    ensures w.Valid() && n == Encodable(encoders, values, 0)
    ensures var p := Partial(encoders, values, n);
      && |p| <= IndicatorLen(encoders) + SumMax(encoders)
      && w.indx == old(w.indx) + |p|
      && w.buff[..] == Overwrite(old(w.buff[..]), old(w.indx), p)
  {
    hide Overwrite, ColumnBytes, SumMax, Placed, Partial;
    var bm := w.indx;
    ghost var base := w.buff[..];
    w.Skip((|encoders| + 1 + 7) / 8);
    PlacedStart(w.buff[..], base, bm, encoders, values);
    n := WriteColumns(w, bm, encoders, values, base);
    PlacedEnd(w.buff[..], w.indx, base, bm, encoders, values, n);
  }

  lemma {:induction false} PlacedStart(s: seq<byte>, base: seq<byte>, bm: nat,
                                       encoders: seq<Encoder>, values: seq<Value>)
    requires |encoders| == |values| && bm + IndicatorLen(encoders) <= |base|
    requires s == Overwrite(base, bm, Zeros(IndicatorLen(encoders)))
    ensures Placed(s, bm + IndicatorLen(encoders), base, bm, encoders, values, 0)
  {
    assert Partial(encoders, values, 0) == Zeros(IndicatorLen(encoders));
  }

  lemma {:induction false} PlacedEnd(s: seq<byte>, indx: nat, base: seq<byte>, bm: nat,
                                     encoders: seq<Encoder>, values: seq<Value>, k: nat)
    requires k <= |encoders| == |values| && Placed(s, indx, base, bm, encoders, values, k)
    ensures var p := Partial(encoders, values, k);
      bm + |p| <= |base| && indx == bm + |p| && s == Overwrite(base, bm, p)
  {}

  lemma {:induction false} EncodableAt(encoders: seq<Encoder>, values: seq<Value>, i: nat)
    requires i < |encoders| == |values|
    requires forall k :: 0 <= k < i ==> ColumnBytes(encoders[k], values[k]).Ok?
    requires !ColumnBytes(encoders[i], values[i]).Ok?
    ensures Encodable(encoders, values, 0) == i
  {
    hide ColumnBytes;
  }

  /** fastLoadBatch and its writer. */
  class BatchBuffer {
    const w: BufferWriter
    var rows: nat

    ghost predicate Valid()
      reads this, w
    {
      w.Valid()
    }

    ghost function View(): Batch
      requires Valid()
      reads this, w, w.buff
    {
      Batch(w.buff[..], w.indx, rows)
    }

    constructor (bodyLen: nat)
      ensures Valid() && fresh(w) && fresh(w.buff)
      ensures |View().body| == bodyLen && View().pos == 0 && View().rows == 0
    {
      var body := new byte[bodyLen];
      w := new BufferWriter(body);
      rows := 0;
    }

    /** reset keeps the octets and forgets the rows. */
    method Reset()
      requires Valid()
      modifies this`rows, w`indx
      ensures Valid() && View() == old(View()).(pos := 0, rows := 0)
    {
      w.SetPosition(0);
      rows := 0;
    }

    /** The encoding half of pushRow: header, row, then either the rollback
        of the position or the length patched into the header. */
    method PushRow(encoders: seq<Encoder>, values: seq<Value>, rowNumber: int) returns (ok: bool)
      requires Valid() && HasRoom(View(), encoders)
      modifies this`rows, w`indx, w.buff
      ensures Valid() && ok == RowOk(encoders, values)
      ensures View() == Pushed(old(View()), encoders, values, rowNumber)
    {
      hide Overwrite, RowOk, Garbage, RowBody, Be, SumMax;
      var start := w.indx;
      ghost var base := w.buff[..];
      AttemptFits(encoders, values, rowNumber);
      w.Put(INDIC_DATA, 2);
      w.Skip(2);
      ghost var head := Be(INDIC_DATA, 2) + Zeros(2);
      OverwriteTwice(base, start, Be(INDIC_DATA, 2), Zeros(2));
      ok := WriteRow(w, encoders, values, rowNumber);
      if !ok {
        OverwriteTwice(base, start, head, Garbage(encoders, values));
        w.SetPosition(start);
        return;
      }
      ghost var body := RowBody(encoders, values, rowNumber);
      OverwriteTwice(base, start, head, body);
      PatchLength(w.buff, start, w.indx - start, base, body);
      rows := rows + 1;
    }
  }

  /** binary.BigEndian.PutUint16(body[start+2:], len). */
  method PatchLength(buff: array<byte>, start: nat, len: nat, ghost base: seq<byte>, ghost body: seq<byte>)
    requires start + 4 + |body| <= buff.Length == |base|
    requires buff[..] == Overwrite(base, start, Be(INDIC_DATA, 2) + Zeros(2) + body)
    modifies buff
    ensures buff[..] == Overwrite(base, start, Be(INDIC_DATA, 2) + Be(len, 2) + body)
  {
    var field := Be(len, 2);
    ghost var f := Be(INDIC_DATA, 2) + Zeros(2) + body;
    ghost var g := f[2 := field[0]];
    OverwriteUpdate(base, start, f, 2, field[0]);
    OverwriteUpdate(base, start, g, 3, field[1]);
    hide Overwrite;
    buff[start + 2] := field[0];
    buff[start + 3] := field[1];
    assert g[3 := field[1]] == Be(INDIC_DATA, 2) + field + body;
  }
}
