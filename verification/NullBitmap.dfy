/** Null indicators: one bit a column, most significant bit first. */
module NullBitmap {
  import opened Bytes

  /** 1 << (7 - i), which is also 0x80 >> i. */
  function Weight(i: int): (w: int)
    requires 0 <= i < 8
    ensures w > 0
  {
    Pow2(7 - i)
  }

  predicate TestBit(b: byte, i: int)
    requires 0 <= i < 8
  {
    b / Weight(i) % 2 == 1
  }

  /** b | weight. */
  function SetBit(b: byte, i: int): (r: byte)
    requires 0 <= i < 8
  {
    if TestBit(b, i) then b
    else
      Pow2Add(i + 1, 7 - i);
      AddBelow(b, Weight(i), Pow2(i + 1));
      b + Weight(i)
  }

  lemma {:induction false} Pow2Add(a: nat, b: nat)
    ensures Pow2(a + b) == Pow2(b) * Pow2(a)
  {
    if a > 0 {
      Pow2Add(a - 1, b);
    }
  }

  // Setting a clear bit leaves the bits above it alone.
  lemma {:induction false} AddBelow(b: nat, w: int, m: int)
    requires w > 0 && m > 0 && m % 2 == 0 && b / w % 2 == 0
    ensures w * m > 0 && (b + w) / (w * m) == b / (w * m)
  {
    DivDiv(b, w, m);
    DivDiv(b + w, w, m);
    AddAbove(b, w, 1);
    EvenStep(b / w, m);
  }

  lemma {:induction false} DivDiv(b: nat, w: int, m: int)
    requires w > 0 && m > 0
    ensures w * m > 0 && b / w / m == b / (w * m)
  {
    var q, r := b / w, b % w;
    var x, y := q / m, q % m;
    assert b == (w * m) * x + (w * y + r) by {
      assert b == w * q + r && q == m * x + y;
      assert w * (m * x + y) == (w * m) * x + w * y;
    }
    MulMono(w, y + 1, m);
    assert w * (y + 1) == w * y + w;
    DivModUnique(b, w * m, x, w * y + r);
  }

  // An even number and its successor have the same even quotient.
  lemma {:induction false} EvenStep(q: nat, m: int)
    requires m > 0 && m % 2 == 0 && q % 2 == 0
    ensures (q + 1) / m == q / m
  {
    var x, y := q / m, q % m;
    var h := m / 2;
    assert m * x == 2 * (h * x) by { assert m == 2 * h; }
    DivModUnique(q + 1, m, x, y + 1);
  }

  // Setting a bit leaves the bits below it alone.
  lemma {:induction false} AddAbove(b: nat, v: int, m: int)
    requires v > 0
    ensures (b + v * m) / v == b / v + m
  {
    assert v * (b / v + m) == v * (b / v) + v * m;
    DivModUnique(b + v * m, v, b / v + m, b % v);
  }

  // One weight is an even multiple of every weight below it.
  lemma {:induction false} WeightRatio(i: int, j: int) returns (m: int)
    requires 0 <= i < j < 8
    ensures m > 0 && m % 2 == 0 && Weight(i) == Weight(j) * m
  {
    m := Pow2(j - i);
    Pow2Add(j - i, 7 - j);
  }

  lemma {:induction false} AddedParity(b: nat, v: int, m: int)
    requires v > 0 && m % 2 == 0
    ensures (b + v * m) / v % 2 == b / v % 2
  {
    AddAbove(b, v, m);
  }

  lemma {:induction false} SetThenTest(b: byte, i: int, j: int)
    requires 0 <= i < 8 && 0 <= j < 8
    ensures TestBit(SetBit(b, i), j) <==> i == j || TestBit(b, j)
  {
    if !TestBit(b, i) {
      if i < j {
        SetHigher(b, i, j);
      } else if i > j {
        SetLower(b, i, j);
      } else {
        AddAbove(b, Weight(i), 1);
      }
    }
  }

  lemma {:induction false} SetHigher(b: byte, i: int, j: int)
    requires 0 <= i < j < 8
    ensures (b + Weight(i)) / Weight(j) % 2 == b / Weight(j) % 2
  {
    var m := WeightRatio(i, j);
    AddedParity(b, Weight(j), m);
  }

  lemma {:induction false} SetLower(b: byte, i: int, j: int)
    requires 0 <= j < i < 8 && !TestBit(b, i)
    ensures (b + Weight(i)) / Weight(j) == b / Weight(j)
  {
    var m := WeightRatio(j, i);
    AddBelow(b, Weight(i), m);
  }

  /** How many octets n indicators take. */
  function BitmapLen(n: nat): nat { (n + 7) / 8 }

  /** The bitmap once the first |nulls| columns have been marked. */
  function Bitmap(nulls: seq<bool>, len: nat): (m: seq<byte>)
    requires |nulls| <= 8 * len
    ensures |m| == len
  {
    if nulls == [] then Zeros(len)
    else
      var i := |nulls| - 1;
      var m := Bitmap(nulls[..i], len);
      if nulls[i] then m[i / 8 := SetBit(m[i / 8], i % 8)] else m
  }

  /** isNull of the row decoder. */
  predicate IsNull(indicators: seq<byte>, col: nat)
    requires col / 8 < |indicators|
  {
    TestBit(indicators[col / 8], col % 8)
  }

  // The decoder sees a null exactly where the encoder marked one; every
  // other bit of the bitmap is clear.
  lemma {:induction false} BitmapReads(nulls: seq<bool>, len: nat, col: nat)
    requires |nulls| <= 8 * len && col < 8 * len
    ensures IsNull(Bitmap(nulls, len), col) <==> col < |nulls| && nulls[col]
  {
    if nulls == [] {
      assert !TestBit(0, col % 8);
    } else {
      var i := |nulls| - 1;
      var m := Bitmap(nulls[..i], len);
      BitmapReads(nulls[..i], len, col);
      if nulls[i] && i / 8 == col / 8 {
        SetThenTest(m[i / 8], i % 8, col % 8);
      }
    }
  }
}
