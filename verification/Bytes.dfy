/** Octets, big-endian integers and two's complement, as every encoder and
    decoder of the driver uses them. */
module Bytes {

  type byte = b: int | 0 <= b < 256

  datatype Option<+T> = None | Some(value: T)

  /** What a Go call can do: return, return an error, or panic. */
  datatype Result<+T> = Ok(value: T) | Err | Panic

  const TWO63 := 0x8000_0000_0000_0000
  const TWO64 := 0x1_0000_0000_0000_0000

  /** A Go int. */
  type int64 = x: int | -TWO63 <= x < TWO63

  /** A Go string or slice: its length is an int. */
  type GoBytes = s: seq<byte> | |s| < TWO63

  type uint16 = x: int | 0 <= x < 0x1_0000

  predicate InInt64(x: int) { -TWO63 <= x < TWO63 }

  /** A Go int after arithmetic that may overflow. */
  function Wrap64(x: int): int { (x + TWO63) % TWO64 - TWO63 }

  lemma {:induction false} WrapCases(x: int)
    ensures InInt64(Wrap64(x))
    ensures InInt64(x) ==> Wrap64(x) == x
    ensures TWO63 <= x < TWO64 + TWO63 ==> Wrap64(x) == x - TWO64
  {}

  /** 256^n. */
  function Pow256(n: nat): (r: int)
    ensures r > 0
  {
    if n == 0 then 1 else 256 * Pow256(n - 1)
  }

  /** 2^n. */
  function Pow2(n: nat): (r: int)
    ensures r > 0
  {
    if n == 0 then 1 else 2 * Pow2(n - 1)
  }

  /** The low n octets of v, most significant first. */
  function Be(v: int, n: nat): (s: seq<byte>)
    ensures |s| == n
    decreases n
  {
    if n == 0 then [] else Be(v / 256, n - 1) + [v % 256]
  }

  /** The unsigned big-endian value of s. */
  function FromBe(s: seq<byte>): (v: nat)
    ensures v < Pow256(|s|)
  {
    if s == [] then 0 else 256 * FromBe(s[..|s| - 1]) + s[|s| - 1]
  }

  /** A big-endian value read as two's complement. */
  function Signed(u: nat, n: nat): int
    requires u < Pow256(n)
  {
    if n > 0 && 2 * u >= Pow256(n) then u - Pow256(n) else u
  }

  function FromBeSigned(s: seq<byte>): int {
    Signed(FromBe(s), |s|)
  }

  predicate FitsSigned(v: int, n: nat) {
    n > 0 && -Pow256(n) <= 2 * v < Pow256(n)
  }

  /** A run of n equal octets. */
  function Fill(n: nat, b: byte): (s: seq<byte>)
    ensures |s| == n && forall i :: 0 <= i < n ==> s[i] == b
  {
    seq(n, _ => b)
  }

  function Zeros(n: nat): (s: seq<byte>)
    ensures |s| == n && forall i :: 0 <= i < n ==> s[i] == 0
  {
    Fill(n, 0)
  }

  /** s with v written over the octets from position at. */
  function Overwrite(s: seq<byte>, at: nat, v: seq<byte>): (r: seq<byte>)
    requires at + |v| <= |s|
    ensures |r| == |s|
  {
    s[..at] + v + s[at + |v|..]
  }

  lemma {:induction false} OverwriteTwice(s: seq<byte>, at: nat, u: seq<byte>, v: seq<byte>)
    requires at + |u| + |v| <= |s|
    ensures Overwrite(Overwrite(s, at, u), at + |u|, v) == Overwrite(s, at, u + v)
  {}

  lemma {:induction false} OverwriteNothing(s: seq<byte>, at: nat)
    requires at <= |s|
    ensures Overwrite(s, at, []) == s
  {}

  lemma {:induction false} OverwriteUpdate(s: seq<byte>, at: nat, u: seq<byte>, i: nat, b: byte)
    requires at + |u| <= |s| && i < |u|
    ensures Overwrite(s, at, u)[at + i := b] == Overwrite(s, at, u[i := b])
  {}

  function Concat(ss: seq<seq<byte>>): seq<byte> {
    if ss == [] then [] else Concat(ss[..|ss| - 1]) + ss[|ss| - 1]
  }

  lemma {:induction false} ConcatAppend(a: seq<seq<byte>>, b: seq<seq<byte>>)
    ensures Concat(a + b) == Concat(a) + Concat(b)
  {
    if b == [] {
      assert a + b == a;
    } else {
      ConcatAppend(a, b[..|b| - 1]);
      assert (a + b)[..|a + b| - 1] == a + b[..|b| - 1];
    }
  }

  lemma {:induction false} ConcatSingle(s: seq<byte>)
    ensures Concat([s]) == s
  {
    assert [s][..0] == [];
  }

  // The first element of a nonempty list, read from the left.
  lemma {:induction false} ConcatHead(ss: seq<seq<byte>>)
    requires ss != []
    ensures Concat(ss) == ss[0] + Concat(ss[1..])
  {
    ConcatAppend([ss[0]], ss[1..]);
    ConcatSingle(ss[0]);
    assert [ss[0]] + ss[1..] == ss;
  }

  // The n low octets of v denote v modulo 256^n.
  lemma {:induction false} FromBeBe(v: int, n: nat)
    ensures FromBe(Be(v, n)) == v % Pow256(n)
    decreases n
  {
    if n == 0 {
    } else {
      var s := Be(v, n);
      assert s[..|s| - 1] == Be(v / 256, n - 1);
      FromBeBe(v / 256, n - 1);
      ModSplit(v, Pow256(n - 1));
    }
  }

  lemma {:induction false} ModSplit(v: int, p: int)
    requires p > 0
    ensures 256 * ((v / 256) % p) + v % 256 == v % (256 * p)
  {
    var q, r := v / 256 / p, v / 256 % p;
    assert v / 256 == p * q + r;
    assert v == (256 * p) * q + (256 * r + v % 256);
    DivModUnique(v, 256 * p, q, 256 * r + v % 256);
  }

  lemma {:induction false} DivModUnique(x: int, d: int, q: int, r: int)
    requires d > 0 && 0 <= r < d && x == d * q + r
    ensures x / d == q && x % d == r
  {
    var q', r' := x / d, x % d;
    var k := q' - q;
    assert d * k == r - r' by {
      assert d * q' + r' == x;
      assert d * (q' - q) == d * q' - d * q;
    }
    if k >= 1 {
      MulMono(d, 1, k);
    } else if k <= -1 {
      MulMono(d, k, -1);
    }
  }

  lemma {:induction false} MulMono(d: int, a: int, b: int)
    requires d >= 0 && a <= b
    ensures d * a <= d * b
  {
    assert d * (b - a) >= 0;
    assert d * (b - a) == d * b - d * a;
  }

  lemma {:induction false} ModSmall(x: int, d: int)
    requires 0 <= x < d
    ensures x % d == x && x / d == 0
  {
    DivModUnique(x, d, 0, x);
  }

  lemma {:induction false} BeRoundTrip(v: int, n: nat)
    requires 0 <= v < Pow256(n)
    ensures FromBe(Be(v, n)) == v
  {
    FromBeBe(v, n);
    ModSmall(v, Pow256(n));
  }

  // Every octet string is the big-endian image of its own value.
  lemma {:induction false} BeFromBe(s: seq<byte>)
    ensures Be(FromBe(s), |s|) == s
  {
    if s == [] {
    } else {
      var hi := s[..|s| - 1];
      BeFromBe(hi);
      DivModUnique(FromBe(s), 256, FromBe(hi), s[|s| - 1]);
    }
  }

  /** An integer cut to 32 bits. */
  function Wrap32(v: int): int { Signed(v % Pow256(4), 4) }

  // Four octets carry an integer cut to 32 bits.
  lemma {:induction false} CutTo32(v: int)
    ensures FromBeSigned(Be(v, 4)) == Wrap32(v)
  {
    FromBeBe(v, 4);
    hide Be, FromBe;
  }

  lemma {:induction false} Wrap32Exactly(v: int)
    ensures Wrap32(v) == v <==> FitsSigned(v, 4)
  {
    assert Pow256(4) == 0x1_0000_0000;
  }

  // Cutting a sum to 64 bits forgives cutting one part of it first.
  lemma {:induction false} Wrap64Through(a: int, b: int)
    ensures Wrap64(Wrap64(a) + b) == Wrap64(a + b)
  {
    var q := (a + TWO63) / TWO64;
    ModShift(a + b + TWO63, q, TWO64);
    assert Wrap64(a) + b + TWO63 == a + b + TWO63 - q * TWO64;
  }

  lemma {:induction false} ModShift(x: int, q: int, d: int)
    requires d > 0
    ensures (x - q * d) % d == x % d
  {
    DivModUnique(x - q * d, d, x / d - q, x % d);
  }

  // Two's complement round trip for every value that fits.
  lemma {:induction false} SignedRoundTrip(v: int, n: nat)
    requires FitsSigned(v, n)
    ensures FromBeSigned(Be(v, n)) == v
  {
    FromBeBe(v, n);
    var p := Pow256(n);
    if v >= 0 {
      ModSmall(v, p);
    } else {
      DivModUnique(v, p, -1, v + p);
    }
  }

  // Be only looks at v modulo 256^n.
  lemma {:induction false} BeMod(v: int, k: int, n: nat)
    ensures Be(v + k * Pow256(n), n) == Be(v, n)
    decreases n
  {
    if n == 0 {
    } else {
      var p := Pow256(n - 1);
      var x := v + k * Pow256(n);
      assert k * Pow256(n) == 256 * (k * p);
      DivModUnique(x, 256, v / 256 + k * p, v % 256);
      BeMod(v / 256, k, n - 1);
    }
  }

  // Leading zero octets do not change the value.
  lemma {:induction false} FromBeLeadingZero(s: seq<byte>)
    ensures FromBe([0] + s) == FromBe(s)
  {
    if s == [] {
      assert ([0] + s)[..0] == [];
    } else {
      var t := [0] + s;
      assert t[..|t| - 1] == [0] + s[..|s| - 1];
      FromBeLeadingZero(s[..|s| - 1]);
    }
  }

  // The top bit of a two's complement string is its sign.
  lemma {:induction false} SignBit(s: seq<byte>)
    requires s != []
    ensures s[0] >= 128 <==> 2 * FromBe(s) >= Pow256(|s|)
  {
    if |s| == 1 {
      assert s[..0] == [];
      assert Pow256(1) == 256;
    } else {
      SignBit(s[..|s| - 1]);
    }
  }
}
