/** The TLV records of der.go: single-octet tags, definite lengths, and the
    integer contents used by the TD2 envelope. */
module Der {
  import opened Bytes

  datatype Tlv = Tlv(tag: int, constructed: bool, content: seq<byte>)

  datatype Record = Record(tlv: Tlv, totalLen: int)

  // ----- Writing

  /** The octets of n without leading zeros. */
  function MinBe(n: nat): (s: seq<byte>)
    ensures s != [] ==> s[0] != 0
    ensures n == 0 <==> s == []
  {
    if n == 0 then [] else MinBe(n / 256) + [n % 256]
  }

  lemma {:induction false} MinBeValue(n: nat)
    ensures FromBe(MinBe(n)) == n
  {
    if n > 0 {
      MinBeValue(n / 256);
      assert MinBe(n)[..|MinBe(n)| - 1] == MinBe(n / 256);
    }
  }

  // MinBe is the shortest string with the value n.
  lemma {:induction false} MinBeShortest(n: nat, k: nat)
    ensures n < Pow256(k) <==> |MinBe(n)| <= k
    decreases k
  {
    if n > 0 && k > 0 {
      MinBeShortest(n / 256, k - 1);
    }
  }

  function LengthOctets(n: nat): (s: seq<byte>)
    ensures s != []
  {
    if n <= 127 then [n] else [(128 + |MinBe(n)|) % 256] + MinBe(n)
  }

  /** encodeDerLength, with its shifting loop. */
  method EncodeLength(n: nat) returns (s: seq<byte>)
    requires n < TWO63
    ensures s == LengthOctets(n)
  {
    if n <= 127 {
      return [n];
    }
    var lb: seq<byte> := [];
    var v := n;
    while v > 0
      invariant MinBe(n) == MinBe(v) + lb
    {
      assert MinBe(v) == MinBe(v / 256) + [v % 256];
      lb := [v % 256] + lb;
      v := v / 256;
    }
    assert MinBe(n) == lb;
    s := [(128 + |lb|) % 256] + lb;
  }

  /** The identifier octet: private class, constructed bit, tag number. */
  function Identifier(t: Tlv): byte
    requires 0 <= t.tag <= 30
  {
    0xC0 + (if t.constructed then 0x20 else 0) + t.tag
  }

  /** encodeDerTLV. The source panics on a larger tag. */
  function EncodeTlv(t: Tlv): (s: seq<byte>)
    requires 0 <= t.tag <= 30
    ensures |s| == 1 + |LengthOctets(|t.content|)| + |t.content|
  {
    [Identifier(t)] + LengthOctets(|t.content|) + t.content
  }

  predicate AllEncodable(ts: seq<Tlv>) { forall i :: 0 <= i < |ts| ==> 0 <= ts[i].tag <= 30 }

  function EncodeAll(ts: seq<Tlv>): seq<byte>
    requires AllEncodable(ts)
  {
    if ts == [] then [] else EncodeTlv(ts[0]) + EncodeAll(ts[1..])
  }

  // ----- Reading

  /** The long-form length in a 64-bit int. */
  function LongLen(s: seq<byte>): int {
    if s == [] then 0 else Wrap64(256 * LongLen(s[..|s| - 1]) + s[|s| - 1])
  }

  function ParseTlv(data: seq<byte>, pos: int): (r: Result<Record>)
    ensures r.Ok? ==> 2 <= r.value.totalLen && 0 <= pos && pos + r.value.totalLen <= |data|
    ensures r.Ok? ==> |r.value.tlv.content| <= r.value.totalLen - 2
                      && data[pos + r.value.totalLen - |r.value.tlv.content|..pos + r.value.totalLen]
                         == r.value.tlv.content
  {
    if pos < 0 || pos >= |data| || data[pos] % 32 == 31 || pos + 1 >= |data| then Err
    else
      var lenByte := data[pos + 1];
      if lenByte >= 128 then
        var n := lenByte - 128;
        if pos + 2 + n > |data| then Err
        else Content(data, pos, 1 + n, LongLen(data[pos + 2..pos + 2 + n]))
      else Content(data, pos, 1, lenByte)
  }

  /** The tail of parseDerTLV once the length is known. A length that
      overflowed the machine int makes the slice expression panic. */
  function Content(data: seq<byte>, pos: nat, lenOctets: nat, contentLen: int): Result<Record>
    requires pos + 1 + lenOctets <= |data|
  {
    var start := pos + 1 + lenOctets;
    var end := Wrap64(start + contentLen);
    if end > |data| then Err
    else if contentLen < 0 || end != start + contentLen then Panic
    else Ok(Record(Tlv(data[pos] % 32, data[pos] / 32 % 2 == 1, data[start..end]), 1 + lenOctets + contentLen))
  }

  /** parseDerTLV, with the loop that accumulates the length. */
  method ParseTlvLoop(data: seq<byte>, pos: int) returns (r: Result<Record>)
    ensures r == ParseTlv(data, pos)
  {
    if pos < 0 || pos >= |data| {
      return Err;
    }
    if data[pos] % 32 == 31 {
      return Err;
    }
    var lenPos := pos + 1;
    if lenPos >= |data| {
      return Err;
    }
    var lenByte := data[lenPos];
    var contentLen, lenOctets := 0, 0;
    if lenByte >= 128 {
      var n := lenByte - 128;
      if lenPos + 1 + n > |data| {
        return Err;
      }
      var i := 0;
      while i < n
        invariant 0 <= i <= n
        invariant contentLen == LongLen(data[lenPos + 1..lenPos + 1 + i])
      {
        assert data[lenPos + 1..lenPos + 2 + i][..i] == data[lenPos + 1..lenPos + 1 + i];
        contentLen := Wrap64(256 * contentLen + data[lenPos + 1 + i]);
        i := i + 1;
      }
      lenOctets := 1 + n;
    } else {
      contentLen := lenByte;
      lenOctets := 1;
    }
    r := Content(data, pos, lenOctets, contentLen);
  }

  /** parseDerChildren as a recursion over positions. */
  function ChildrenFrom(content: seq<byte>, pos: nat): Result<seq<Record>>
    decreases |content| - pos
  {
    if pos >= |content| then Ok([])
    else
      match ParseTlv(content, pos)
      case Ok(rec) =>
        (match ChildrenFrom(content, pos + rec.totalLen)
         case Ok(rs) => Ok([rec] + rs)
         case Err => Err
         case Panic => Panic)
      case Err => Err
      case Panic => Panic
  }

  /** parseDerChildren: the loop ends on every input. */
  method ParseChildren(content: seq<byte>) returns (r: Result<seq<Record>>)
    ensures r == ChildrenFrom(content, 0)
  {
    hide ParseTlv;
    var out: seq<Record> := [];
    var pos := 0;
    assert forall rs: seq<Record> :: [] + rs == rs;
    while pos < |content|
      invariant 0 <= pos <= |content|
      invariant ChildrenFrom(content, 0) ==
                (match ChildrenFrom(content, pos)
                 case Ok(rs) => Ok(out + rs)
                 case Err => Err
                 case Panic => Panic)
    {
      var t := ParseTlvLoop(content, pos);
      match t {
        case Err => return Err;
        case Panic => return Panic;
        case Ok(rec) =>
          assert forall rs: seq<Record> :: out + ([rec] + rs) == out + [rec] + rs;
          out := out + [rec];
          pos := pos + rec.totalLen;
      }
    }
    assert out + [] == out;
    r := Ok(out);
  }

  // ----- Laws

  // On any accepted input the records tile the content: each starts where
  // the previous one ended, and the last ends at the end.
  ghost predicate Tiles(content: seq<byte>, pos: nat, rs: seq<Record>)
    decreases rs
  {
    if rs == [] then pos == |content|
    else
      && ParseTlv(content, pos) == Ok(rs[0])
      && Tiles(content, pos + rs[0].totalLen, rs[1..])
  }

  lemma {:induction false} ChildrenTile(content: seq<byte>, pos: nat, rs: seq<Record>)
    requires pos <= |content|
    ensures ChildrenFrom(content, pos) == Ok(rs) <==> Tiles(content, pos, rs)
    decreases |content| - pos
  {
    hide ParseTlv;
    var first := ParseTlv(content, pos);
    if first.Ok? {
      var next := pos + first.value.totalLen;
      if rs != [] {
        ChildrenTile(content, next, rs[1..]);
        ConsEqual(first.value, ChildrenFrom(content, next), rs);
      }
    }
  }

  lemma {:induction false} ConsEqual(rec: Record, tail: Result<seq<Record>>, rs: seq<Record>)
    requires rs != []
    ensures tail.Ok? ==> ([rec] + tail.value == rs <==> rec == rs[0] && tail.value == rs[1..])
  {
    if tail.Ok? {
      assert ([rec] + tail.value)[0] == rec && ([rec] + tail.value)[1..] == tail.value;
      assert rs == [rs[0]] + rs[1..];
    }
  }

  // The loop that accumulates a length computes its value modulo 2^64.
  lemma {:induction false} LongLenWraps(s: seq<byte>)
    ensures LongLen(s) == Wrap64(FromBe(s))
  {
    if s != [] {
      hide Wrap64;
      LongLenWraps(s[..|s| - 1]);
      WrapStep(FromBe(s[..|s| - 1]), s[|s| - 1]);
    } else {
      assert Wrap64(0) == 0;
    }
  }

  lemma {:induction false} WrapStep(h: int, d: int)
    ensures Wrap64(256 * Wrap64(h) + d) == Wrap64(256 * h + d)
  {
    var k := (h + TWO63) / TWO64;
    WrapPeriod(256 * h + d, 256 * k);
  }

  lemma {:induction false} WrapPeriod(x: int, k: int)
    ensures Wrap64(x - TWO64 * k) == Wrap64(x)
  {
    var y := x + TWO63;
    assert TWO64 * (y / TWO64 - k) == TWO64 * (y / TWO64) - TWO64 * k;
    DivModUnique(y - TWO64 * k, TWO64, y / TWO64 - k, y % TWO64);
  }

  lemma {:induction false} LongLenExact(s: seq<byte>)
    requires FromBe(s) < TWO63
    ensures LongLen(s) == FromBe(s)
  {
    LongLenWraps(s);
    WrapCases(FromBe(s));
  }

  /** How many octets follow the length octet. */
  function ExtraOctets(data: seq<byte>, pos: int): nat
    requires 0 <= pos && pos + 1 < |data|
  {
    if data[pos + 1] >= 128 then data[pos + 1] - 128 else 0
  }

  /** A tag in the low form and all its length octets. */
  predicate HasLength(data: seq<byte>, pos: int) {
    && 0 <= pos && pos + 1 < |data| && data[pos] % 32 != 31
    && pos + 2 + ExtraOctets(data, pos) <= |data|
  }

  /** The length as the Go int they leave. */
  function LengthAt(data: seq<byte>, pos: int): int
    requires HasLength(data, pos)
  {
    if data[pos + 1] < 128 then data[pos + 1]
    else Wrap64(FromBe(data[pos + 2..pos + 2 + ExtraOctets(data, pos)]))
  }

  // Parsing panics exactly when there is a length and it, or the end of the
  // content it announces, is no longer a nonnegative int.
  lemma {:induction false} PanicsExactly(data: seq<byte>, pos: int)
    requires |data| < TWO63
    ensures ParseTlv(data, pos).Panic? <==>
              HasLength(data, pos)
              && (LengthAt(data, pos) < 0 || pos + 2 + ExtraOctets(data, pos) + LengthAt(data, pos) >= TWO63)
  {
    hide Wrap64, FromBe, LongLen;
    if HasLength(data, pos) {
      var n := ExtraOctets(data, pos);
      LongLenWraps(data[pos + 2..pos + 2 + n]);
      WrapCases(FromBe(data[pos + 2..pos + 2 + n]));
      ContentPanics(data, pos, 1 + n, LengthAt(data, pos));
    }
  }

  lemma {:induction false} ContentPanics(data: seq<byte>, pos: nat, lenOctets: nat, contentLen: int64)
    requires pos + 1 + lenOctets <= |data| < TWO63
    ensures Content(data, pos, lenOctets, contentLen).Panic?
            <==> contentLen < 0 || pos + 1 + lenOctets + contentLen >= TWO63
  {
    hide Wrap64;
    WrapCases(pos + 1 + lenOctets + contentLen);
  }

  // With at most seven length octets nothing overflows, so parsing never
  // panics on data a Go slice can hold.
  lemma {:induction false} ShortLengthsNeverPanic(data: seq<byte>, pos: int)
    requires |data| < TWO63 - Pow256(7)
    requires 0 <= pos && pos + 1 < |data| && data[pos + 1] < 128 + 8
    ensures !ParseTlv(data, pos).Panic?
  {
    hide ParseTlv, Wrap64;
    PanicsExactly(data, pos);
    assert Pow256(7) == 0x100_0000_0000_0000;
    if HasLength(data, pos) {
      var n := ExtraOctets(data, pos);
      var s := data[pos + 2..pos + 2 + n];
      Pow256Mono(n, 7);
      WrapCases(FromBe(s));
    }
  }

  lemma {:induction false} Pow256Mono(a: nat, b: nat)
    requires a <= b
    ensures Pow256(a) <= Pow256(b)
  {
    if a < b {
      Pow256Mono(a, b - 1);
    }
  }

  // Eight octets are enough to break it: this length reads as -1.
  lemma {:induction false} EightLengthOctetsPanic()
    ensures ParseTlv([0xC0, 0x88] + Fill(8, 255), 0) == Panic
  {
    hide ParseTlv, Wrap64, Fill;
    var data := [0xC0, 0x88] + Fill(8, 255);
    assert data[2..10] == Fill(8, 255);
    AllOnes(8);
    assert Pow256(8) == TWO64;
    WrapCases(TWO64 - 1);
    PanicsExactly(data, 0);
  }

  lemma {:induction false} AllOnes(k: nat)
    ensures FromBe(Fill(k, 255)) == Pow256(k) - 1
  {
    if k > 0 {
      AllOnes(k - 1);
      assert Fill(k, 255)[..k - 1] == Fill(k - 1, 255);
    }
  }

  // Lengths are definite and minimal: one octet up to 127, otherwise a
  // count of octets, none of them a redundant leading zero.
  lemma {:induction false} LengthMinimal(n: nat)
    requires n < TWO63
    ensures n <= 127 ==> LengthOctets(n) == [n]
    ensures n > 127 ==>
              var s := LengthOctets(n); var k := |s| - 1;
              && 1 <= k <= 8 && s[0] == 128 + k && s[1] != 0
              && FromBe(s[1..]) == n
              && forall j :: n < Pow256(j) ==> k <= j
  {
    assert Pow256(8) == TWO64;
    MinBeShortest(n, 8);
    MinBeValue(n);
    if n > 127 {
      var s := LengthOctets(n);
      assert s[1..] == MinBe(n);
      forall j | n < Pow256(j) ensures |s| - 1 <= j {
        if j >= 0 { MinBeShortest(n, j); }
      }
    }
  }

  // Where the parts of an encoded record lie in a buffer that holds it.
  lemma {:induction false} TlvLayout(pre: seq<byte>, t: Tlv, post: seq<byte>)
    requires 0 <= t.tag <= 30
    ensures var data := pre + EncodeTlv(t) + post; var pos := |pre|; var lo := LengthOctets(|t.content|);
      && data[pos] == Identifier(t)
      && data[pos + 1..pos + 1 + |lo|] == lo
      && data[pos + 1 + |lo|..pos + 1 + |lo| + |t.content|] == t.content
  {
    var lo := LengthOctets(|t.content|);
    assert pre + EncodeTlv(t) + post == pre + [Identifier(t)] + lo + t.content + post;
  }

  // One record, anywhere in a buffer, parses back.
  lemma {:induction false} TlvRoundTrip(pre: seq<byte>, t: Tlv, post: seq<byte>)
    requires 0 <= t.tag <= 30
    requires |pre + EncodeTlv(t) + post| < TWO63
    ensures ParseTlv(pre + EncodeTlv(t) + post, |pre|) == Ok(Record(t, |EncodeTlv(t)|))
  {
    var n := |t.content|;
    assert Denotes(LengthOctets(n), n) by { LengthMinimal(n); }
    TlvLayout(pre, t, post);
    TlvParse(pre + EncodeTlv(t) + post, |pre|, t, LengthOctets(n), n);
  }

  /** lo is a definite-form length that reads as n. */
  predicate Denotes(lo: seq<byte>, n: nat) {
    if n <= 127 then lo == [n]
    else 2 <= |lo| <= 9 && lo[0] == 127 + |lo| && FromBe(lo[1..]) == n
  }

  lemma {:induction false} TlvParse(data: seq<byte>, pos: nat, t: Tlv, lo: seq<byte>, n: nat)
    requires 0 <= t.tag <= 30 && |data| < TWO63 && lo != []
    requires pos + 1 + |lo| + n <= |data|
    requires data[pos] == Identifier(t)
    requires data[pos + 1..pos + 1 + |lo|] == lo
    requires data[pos + 1 + |lo|..pos + 1 + |lo| + n] == t.content
    requires Denotes(lo, n)
    ensures ParseTlv(data, pos) == Ok(Record(t, 1 + |lo| + n))
  {
    var start := pos + 1 + |lo|;
    assert data[pos + 1] == lo[0];
    ModSmall(start + n + TWO63, TWO64);
    assert Content(data, pos, |lo|, n) == Ok(Record(t, 1 + |lo| + n));
    if n > 127 {
      assert data[pos + 2..pos + 2 + (|lo| - 1)] == data[pos + 1..pos + 1 + |lo|][1..] == lo[1..];
      LongLenExact(lo[1..]);
    }
  }

  function Records(ts: seq<Tlv>): (rs: seq<Record>)
    requires AllEncodable(ts)
    ensures |rs| == |ts| && forall i :: 0 <= i < |ts| ==> rs[i].tlv == ts[i]
  {
    if ts == [] then [] else [Record(ts[0], |EncodeTlv(ts[0])|)] + Records(ts[1..])
  }

  // Any list of records survives encode, concatenate and parse.
  lemma {:induction false} ChildrenRoundTrip(data: seq<byte>, pos: nat, ts: seq<Tlv>)
    requires AllEncodable(ts) && |data| < TWO63
    requires pos <= |data| && data[pos..] == EncodeAll(ts)
    ensures ChildrenFrom(data, pos) == Ok(Records(ts))
    decreases |ts|
  {
    hide ParseTlv, EncodeTlv;
    if ts != [] {
      var e := EncodeTlv(ts[0]);
      var rec := Record(ts[0], |e|);
      SplitAt(data, pos, e, EncodeAll(ts[1..]));
      assert ParseTlv(data, pos) == Ok(rec) by {
        TlvRoundTrip(data[..pos], ts[0], EncodeAll(ts[1..]));
      }
      ChildrenRoundTrip(data, pos + |e|, ts[1..]);
      ChildrenStep(data, pos, rec, Records(ts[1..]));
    }
  }

  lemma {:induction false} SplitAt(data: seq<byte>, pos: nat, e: seq<byte>, rest: seq<byte>)
    requires pos <= |data| && data[pos..] == e + rest
    ensures data == data[..pos] + e + rest
    ensures data[pos + |e|..] == rest
  {
    assert data[pos + |e|..] == data[pos..][|e|..];
  }

  lemma {:induction false} ChildrenStep(content: seq<byte>, pos: nat, rec: Record, rs: seq<Record>)
    requires pos < |content| && ParseTlv(content, pos) == Ok(rec)
    requires ChildrenFrom(content, pos + rec.totalLen) == Ok(rs)
    ensures ChildrenFrom(content, pos) == Ok([rec] + rs)
  {}

  // ----- Integer contents

  function DerInt(content: seq<byte>): int64 { Wrap64(FromBeSigned(content)) }

  function DerUint64(content: seq<byte>): nat { FromBe(content) % TWO64 }

  function MinimalInt(v: nat): (s: seq<byte>)
    requires v < TWO64
    ensures s != []
  {
    var b := MinBe(v);
    if b == [] then [0] else if b[0] >= 128 then [0] + b else b
  }

  // Both readers invert derMinimalInt; it never sets the sign bit.
  lemma {:induction false} MinimalIntRoundTrip(v: nat)
    requires v < TWO64
    ensures DerUint64(MinimalInt(v)) == v
    ensures v < TWO63 ==> DerInt(MinimalInt(v)) == v
    ensures MinimalInt(v)[0] < 128 && 1 <= |MinimalInt(v)| <= 9
  {
    MinimalIntValue(v);
    var s := MinimalInt(v);
    SignBit(s);
    ModSmall(v, TWO64);
    if v < TWO63 {
      ModSmall(v + TWO63, TWO64);
    }
  }

  lemma {:induction false} MinimalIntValue(v: nat)
    requires v < TWO64
    ensures FromBe(MinimalInt(v)) == v
    ensures MinimalInt(v)[0] < 128 && |MinimalInt(v)| <= 9
  {
    var b := MinBe(v);
    MinBeValue(v);
    assert Pow256(8) == TWO64;
    MinBeShortest(v, 8);
    FromBeLeadingZero(b);
    if b == [] {
      assert [0] + b == [0];
    }
  }
}
