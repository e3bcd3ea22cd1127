/** The TD2 message envelope: an AES-GCM sealed body inside DER records,
    with a nonce that the receiver rebuilds from the header fields. */
module Td2 {
  import opened Bytes
  import opened Decimal
  import opened Der

  /** td2AlgQop. */
  datatype Alg = Alg(confAlg: string, integAlg: string, keyExchAlg: string, mode: string, padding: string,
                     keyLength: int64, keyLengthP: int64)

  /** AES-GCM with a 96-bit nonce and a 128-bit tag, as a pair of functions. */
  datatype Aead = Aead(
    seal: (seq<byte>, seq<byte>, seq<byte>) -> seq<byte>,
    open: (seq<byte>, seq<byte>, seq<byte>) -> Option<seq<byte>>)

  ghost predicate Ideal(a: Aead) {
    && (forall k, n, p :: |a.seal(k, n, p)| == |p| + 16)
    && (forall k, n, p :: a.open(k, n, a.seal(k, n, p)) == Some(p))
  }

  /** What both ends agreed on. */
  datatype Session = Session(options: seq<Alg>, master: nat, keyLen: nat)

  // ----- Keys

  /** normalizeDHSecretLen: the low octets, or left-aligned with zeros. */
  function NormalizedSecret(n: nat, size: nat): (s: seq<byte>)
    ensures |s| == size
  {
    var b := MinBe(n);
    if |b| > size then b[|b| - size..] else b + Zeros(size - |b|)
  }

  /** The sum of the key lengths in octets, kept in an int. */
  function KeyOffset(options: seq<Alg>): int64 {
    if options == [] then 0
    else Wrap64(KeyOffset(options[..|options| - 1]) + Quo(options[|options| - 1].keyLength, 8))
  }

  function QopKey(s: Session, index: int): Result<seq<byte>> {
    if index < 0 || index >= |s.options| then Err
    else
      var bytes := NormalizedSecret(s.master, s.keyLen);
      var len := Quo(s.options[index].keyLength, 8);
      var offset := KeyOffset(s.options[..index]);
      var end := Wrap64(offset + len);
      if end > |bytes| then Err
      else if offset < 0 || end < offset then Panic
      else Ok(bytes[offset..end])
  }

  /** qopKey, with the loop that sums the offsets of the earlier keys. */
  method QopKeyLoop(s: Session, index: int) returns (r: Result<seq<byte>>)
    ensures r == QopKey(s, index)
  {
    if index < 0 || index >= |s.options| {
      return Err;
    }
    var bytes := NormalizedSecret(s.master, s.keyLen);
    var len := Quo(s.options[index].keyLength, 8);
    var offset: int64 := 0;
    for i := 0 to index
      invariant offset == KeyOffset(s.options[..i])
    {
      assert s.options[..i + 1][..i] == s.options[..i];
      offset := Wrap64(offset + Quo(s.options[i].keyLength, 8));
    }
    var end := Wrap64(offset + len);
    if end > |bytes| {
      return Err;
    }
    if offset < 0 || end < offset {
      return Panic;
    }
    r := Ok(bytes[offset..end]);
  }

  predicate AesKeyLen(n: nat) { n == 16 || n == 24 || n == 32 }

  function HmacLen(alg: string): Option<nat> {
    if alg == "SHA1" then Some(20)
    else if alg == "SHA-256" then Some(32)
    else if alg == "SHA-512" then Some(64)
    else if alg == "MD5" then Some(16)
    else None
  }

  predicate IsGcm96(q: Alg) { q.confAlg == "AES" && q.mode == "GCM96" }

  /** The first usable option. */
  function FirstGcm96(options: seq<Alg>): (i: nat)
    ensures i <= |options|
    ensures i < |options| ==> IsGcm96(options[i])
    ensures forall k :: 0 <= k < i ==> !IsGcm96(options[k])
  {
    if options == [] || IsGcm96(options[0]) then 0 else 1 + FirstGcm96(options[1..])
  }

  // ----- The token and its nonce

  /** token[4:16]: the message length, then the sequence number. */
  function Nonce(msgLength: nat, seqNum: nat): (n: seq<byte>)
    ensures |n| == 12
  {
    Be(msgLength, 4) + Be(seqNum, 8)
  }

  function TokenBytes(version: byte, msgType: byte, flag: byte, qopIndex: byte,
                      msgLength: nat, seqNum: nat): seq<byte> {
    [version, msgType, flag, qopIndex] + Be(msgLength, 4) + Be(seqNum, 8)
  }

  lemma {:induction false} NonceIsTokenTail(version: byte, msgType: byte, flag: byte, qopIndex: byte,
                                            msgLength: nat, seqNum: nat)
    ensures TokenBytes(version, msgType, flag, qopIndex, msgLength, seqNum)[4..16] == Nonce(msgLength, seqNum)
  {}

  predicate UsesSeqNum(nonce: seq<byte>, seqNum: nat) {
    |nonce| == 12 && nonce[4..] == Be(seqNum, 8)
  }

  /** The sequence number of the i-th successful wrap of a context. */
  function SeqAt(i: nat): (s: nat)
    ensures s < TWO64
  {
    (1 + i) % TWO64
  }

  lemma {:induction false} SeqAtNext(i: nat)
    ensures SeqAt(0) == 1 && SeqAt(i + 1) == (SeqAt(i) + 1) % TWO64
  {}

  lemma {:induction false} SeqAtDistinct(i: nat, j: nat)
    requires i < j < i + TWO64
    ensures SeqAt(i) != SeqAt(j)
  {}

  // Different sequence numbers never share a nonce, whatever the lengths.
  lemma {:induction false} NonceInjective(nonce: seq<byte>, seqNum: nat, seqNum': nat)
    requires seqNum < TWO64 && seqNum' < TWO64
    requires UsesSeqNum(nonce, seqNum) && UsesSeqNum(nonce, seqNum')
    ensures seqNum == seqNum'
  {
    assert Pow256(8) == TWO64;
    BeRoundTrip(seqNum, 8);
    BeRoundTrip(seqNum', 8);
  }

  // ----- wrap

  function MsgLength(n: nat, hmacLen: nat): nat { (n + 16 + 16 + hmacLen + 16) % 0x1_0000_0000 }

  function HeaderFields(qopIndex: nat, msgLength: nat, seqNum: nat): (ts: seq<Tlv>)
    requires msgLength < TWO64 && seqNum < TWO64
    ensures AllEncodable(ts)
  {
    [Tlv(0, false, [3]), Tlv(1, false, [7]), Tlv(2, false, [4]), Tlv(3, false, Be(qopIndex, 4)),
     Tlv(4, false, MinimalInt(msgLength)), Tlv(5, false, MinimalInt(seqNum))]
  }

  function EnvelopeParts(body: seq<byte>, header: seq<Tlv>, tag: seq<byte>): (ts: seq<Tlv>)
    requires AllEncodable(header)
    ensures AllEncodable(ts)
  {
    [Tlv(0, false, body), Tlv(1, true, EncodeAll(header)), Tlv(3, false, tag)]
  }

  function Envelope(body: seq<byte>, header: seq<Tlv>, tag: seq<byte>): seq<byte>
    requires AllEncodable(header)
  {
    EncodeTlv(Tlv(0, true, EncodeAll(EnvelopeParts(body, header, tag))))
  }

  /** The plaintext handed to the cipher: the data, the nonce, four zeros. */
  function Padded(data: seq<byte>, nonce: seq<byte>): seq<byte>
    requires |nonce| == 12
  {
    data + nonce + Zeros(4)
  }

  function Wrapped(a: Aead, s: Session, seqNum: nat, data: seq<byte>): Result<seq<byte>>
    requires seqNum < TWO64
  {
    var i := FirstGcm96(s.options);
    if i == |s.options| then Err
    else
      match QopKey(s, i)
      case Err => Err
      case Panic => Panic
      case Ok(key) =>
        var hmac := HmacLen(s.options[i].integAlg);
        if !AesKeyLen(|key|) || hmac.None? then Err
        else
          var len := MsgLength(|data|, hmac.value);
          var nonce := Nonce(len, seqNum);
          var sealed := a.seal(key, nonce, Padded(data, nonce));
          var n := |data| + 16;
          if |sealed| != n + 16 then Err
          else Ok(Envelope(sealed[..n], HeaderFields(i, len, seqNum), sealed[n..]))
  }

  // The envelope is longer than what it carries, by the padding and the tag.
  lemma {:induction false} WrappedLonger(a: Aead, s: Session, seqNum: nat, data: seq<byte>)
    requires seqNum < TWO64
    ensures Wrapped(a, s, seqNum, data).Ok? ==> |Wrapped(a, s, seqNum, data).value| >= |data| + 32
  {
    hide Padded, QopKey, HmacLen, Nonce, Envelope, HeaderFields, FirstGcm96;
    if Wrapped(a, s, seqNum, data).Ok? {
      var i := FirstGcm96(s.options);
      var key := QopKey(s, i).value;
      var len := MsgLength(|data|, HmacLen(s.options[i].integAlg).value);
      var sealed := a.seal(key, Nonce(len, seqNum), Padded(data, Nonce(len, seqNum)));
      EnvelopeLonger(sealed[..|data| + 16], HeaderFields(i, len, seqNum), sealed[|data| + 16..]);
    }
  }

  lemma {:induction false} EnvelopeLonger(body: seq<byte>, header: seq<Tlv>, tag: seq<byte>)
    requires AllEncodable(header)
    ensures |Envelope(body, header, tag)| >= |body| + |tag|
  {
    var parts := EnvelopeParts(body, header, tag);
    assert parts[1..][0] == parts[1] && parts[1..][1..] == parts[2..] && parts[2..][0] == parts[2];
    assert |EncodeAll(parts)| == |EncodeTlv(parts[0])| + |EncodeAll(parts[1..])|;
    assert |EncodeAll(parts[1..])| >= |EncodeAll(parts[2..])|;
    assert |EncodeAll(parts[2..])| >= |EncodeTlv(parts[2])|;
  }

  // ----- unwrap

  function FindChild(rs: seq<Record>, tag: int): Option<seq<byte>> {
    if rs == [] then None
    else if rs[0].tlv.tag == tag then Some(rs[0].tlv.content)
    else FindChild(rs[1..], tag)
  }

  /** The header fields the receiver keeps; a later field overwrites. */
  datatype Token = Token(qopIndex: int, msgLength: nat, seqNum: nat)

  function Field(t: Token, f: Tlv): Token {
    match f.tag
    case 3 => t.(qopIndex := DerInt(f.content))
    case 4 => t.(msgLength := DerInt(f.content) % 0x1_0000_0000)
    case 5 => t.(seqNum := DerUint64(f.content))
    case _ => t
  }

  function Fields(rs: seq<Record>): Token {
    if rs == [] then Token(0, 0, 0) else Field(Fields(rs[..|rs| - 1]), rs[|rs| - 1].tlv)
  }

  /** The loop of unwrap over the header fields. */
  method ReadFields(rs: seq<Record>) returns (t: Token)
    ensures t == Fields(rs)
  {
    t := Token(0, 0, 0);
    for i := 0 to |rs|
      invariant t == Fields(rs[..i])
    {
      assert rs[..i + 1][..i] == rs[..i];
      t := Field(t, rs[i].tlv);
    }
    assert rs[..|rs|] == rs;
  }

  function Unwrapped(a: Aead, s: Session, data: seq<byte>): Result<seq<byte>> {
    match ParseTlv(data, 0)
    case Err => Err
    case Panic => Panic
    case Ok(top) =>
      match ChildrenFrom(top.tlv.content, 0)
      case Err => Err
      case Panic => Panic
      case Ok(children) =>
        var (body, header, tag) := (FindChild(children, 0), FindChild(children, 1), FindChild(children, 3));
        if body.None? || header.None? || tag.None? then Err
        else
          match ChildrenFrom(header.value, 0)
          case Err => Err
          case Panic => Panic
          case Ok(fields) => Opened(a, s, Fields(fields), body.value + tag.value)
  }

  function Opened(a: Aead, s: Session, t: Token, sealed: seq<byte>): Result<seq<byte>> {
    if t.qopIndex < 0 || t.qopIndex >= |s.options| || !IsGcm96(s.options[t.qopIndex]) then Err
    else
      match QopKey(s, t.qopIndex)
      case Err => Err
      case Panic => Panic
      case Ok(key) =>
        if !AesKeyLen(|key|) then Err
        else
          match a.open(key, Nonce(t.msgLength, t.seqNum), sealed)
          case None => Err
          case Some(padded) => if |padded| < 16 then Err else Ok(padded[..|padded| - 16])
  }

  // ----- unwrap undoes wrap

  lemma {:induction false} SixFields(rs: seq<Record>, qop: seq<byte>, len: seq<byte>, num: seq<byte>)
    requires |rs| == 6 && rs[0].tlv.tag == 0 && rs[1].tlv.tag == 1 && rs[2].tlv.tag == 2
    requires rs[3].tlv == Tlv(3, false, qop) && rs[4].tlv == Tlv(4, false, len) && rs[5].tlv == Tlv(5, false, num)
    ensures Fields(rs) == Token(DerInt(qop), DerInt(len) % 0x1_0000_0000, DerUint64(num))
  {
    assert rs[..5][..4] == rs[..4] && rs[..4][..3] == rs[..3] && rs[..3][..2] == rs[..2];
    assert rs[..2][..1] == rs[..1] && rs[..1][..0] == [];
    assert Fields(rs[..2]) == Field(Fields(rs[..1]), rs[1].tlv);
    assert Fields(rs[..4]) == Field(Fields(rs[..3]), rs[3].tlv);
    assert Fields(rs) == Field(Fields(rs[..5]), rs[5].tlv);
  }

  lemma {:induction false} HeaderFieldsRead(i: nat, len: nat, seqNum: nat)
    requires i < 0x8000_0000 && len < 0x1_0000_0000 && seqNum < TWO64
    ensures Fields(Records(HeaderFields(i, len, seqNum))) == Token(i, len, seqNum)
  {
    hide Fields, MinimalInt, DerInt, DerUint64, Be;
    SixFields(Records(HeaderFields(i, len, seqNum)), Be(i, 4), MinimalInt(len), MinimalInt(seqNum));
    MinimalIntRoundTrip(len);
    MinimalIntRoundTrip(seqNum);
    ModSmall(len, 0x1_0000_0000);
    IndexRead(i);
  }

  lemma {:induction false} IndexRead(i: nat)
    requires i < 0x8000_0000
    ensures DerInt(Be(i, 4)) == i
  {
    hide Be;
    assert Pow256(4) == 0x1_0000_0000;
    SignedRoundTrip(i, 4);
    ModSmall(i + TWO63, TWO64);
  }

  lemma {:induction false} EnvelopeOpens(body: seq<byte>, header: seq<Tlv>, tag: seq<byte>)
    requires AllEncodable(header) && |Envelope(body, header, tag)| < TWO63
    ensures var parts := EnvelopeParts(body, header, tag);
      && ParseTlv(Envelope(body, header, tag), 0)
         == Ok(Record(Tlv(0, true, EncodeAll(parts)), |Envelope(body, header, tag)|))
      && ChildrenFrom(EncodeAll(parts), 0) == Ok(Records(parts))
      && FindChild(Records(parts), 0) == Some(body)
      && FindChild(Records(parts), 1) == Some(EncodeAll(header))
      && FindChild(Records(parts), 3) == Some(tag)
  {
    var parts := EnvelopeParts(body, header, tag);
    var top := Tlv(0, true, EncodeAll(parts));
    assert [] + EncodeTlv(top) + [] == EncodeTlv(top);
    TlvRoundTrip([], top, []);
    assert EncodeAll(parts)[0..] == EncodeAll(parts);
    ChildrenRoundTrip(EncodeAll(parts), 0, parts);
    EnvelopeChildren(Records(parts), body, EncodeAll(header), tag);
  }

  lemma {:induction false} EnvelopeChildren(rs: seq<Record>, body: seq<byte>, header: seq<byte>, tag: seq<byte>)
    requires |rs| == 3 && rs[0].tlv == Tlv(0, false, body) && rs[1].tlv == Tlv(1, true, header)
    requires rs[2].tlv == Tlv(3, false, tag)
    ensures FindChild(rs, 0) == Some(body) && FindChild(rs, 1) == Some(header) && FindChild(rs, 3) == Some(tag)
  {
    var (r1, r2) := (rs[1..], rs[2..]);
    assert r1[0] == rs[1] && r2[0] == rs[2] && r1[1..] == r2;
    assert FindChild(r2, 3) == Some(tag);
    assert FindChild(r1, 3) == FindChild(r2, 3);
  }

  // The header of an envelope is shorter than the envelope.
  lemma {:induction false} EnvelopeHeaderFits(body: seq<byte>, header: seq<Tlv>, tag: seq<byte>)
    requires AllEncodable(header)
    ensures |EncodeAll(header)| < |Envelope(body, header, tag)|
  {
    var parts := EnvelopeParts(body, header, tag);
    assert parts[1..][0] == parts[1];
    assert |EncodeTlv(parts[1])| > |EncodeAll(header)|;
    assert |EncodeAll(parts[1..])| >= |EncodeTlv(parts[1])|;
    assert |EncodeAll(parts)| >= |EncodeAll(parts[1..])|;
  }

  // Unwrapping any envelope is opening its parts with its header fields.
  lemma {:induction false} UnwrapEnvelope(a: Aead, s: Session, body: seq<byte>,
                                          i: nat, len: nat, seqNum: nat, tag: seq<byte>)
    requires i < 0x8000_0000 && len < 0x1_0000_0000 && seqNum < TWO64
    requires |Envelope(body, HeaderFields(i, len, seqNum), tag)| < TWO63
    ensures Unwrapped(a, s, Envelope(body, HeaderFields(i, len, seqNum), tag))
            == Opened(a, s, Token(i, len, seqNum), body + tag)
  {
    var header := HeaderFields(i, len, seqNum);
    EnvelopeOpens(body, header, tag);
    EnvelopeHeaderFits(body, header, tag);
    assert ChildrenFrom(EncodeAll(header), 0) == Ok(Records(header)) by {
      assert EncodeAll(header)[0..] == EncodeAll(header);
      ChildrenRoundTrip(EncodeAll(header), 0, header);
    }
    HeaderFieldsRead(i, len, seqNum);
  }

  // For every message, key agreement and sequence number: what wrap
  // produces, unwrap opens to the same message, because the nonce rebuilt
  // from the header records is the nonce it was sealed with.
  lemma {:induction false} UnwrapWrap(a: Aead, s: Session, seqNum: nat, data: seq<byte>)
    requires Ideal(a) && seqNum < TWO64
    requires |s.options| <= 0x8000_0000
    requires Wrapped(a, s, seqNum, data).Ok? && |Wrapped(a, s, seqNum, data).value| < TWO63
    ensures Unwrapped(a, s, Wrapped(a, s, seqNum, data).value) == Ok(data)
  {
    var i := FirstGcm96(s.options);
    var key := QopKey(s, i).value;
    var len := MsgLength(|data|, HmacLen(s.options[i].integAlg).value);
    var nonce := Nonce(len, seqNum);
    var sealed := a.seal(key, nonce, Padded(data, nonce));
    var n := |data| + 16;
    UnwrapEnvelope(a, s, sealed[..n], i, len, seqNum, sealed[n..]);
    OpensSealed(a, s, Token(i, len, seqNum), key, data, sealed, n);
  }

  lemma {:induction false} OpensSealed(a: Aead, s: Session, t: Token, key: seq<byte>,
                                       data: seq<byte>, sealed: seq<byte>, n: nat)
    requires Ideal(a) && 0 <= t.qopIndex < |s.options| && IsGcm96(s.options[t.qopIndex])
    requires QopKey(s, t.qopIndex) == Ok(key) && AesKeyLen(|key|) && n <= |sealed|
    requires var nonce := Nonce(t.msgLength, t.seqNum); sealed == a.seal(key, nonce, Padded(data, nonce))
    ensures Opened(a, s, t, sealed[..n] + sealed[n..]) == Ok(data)
  {
    var nonce := Nonce(t.msgLength, t.seqNum);
    var padded := Padded(data, nonce);
    assert sealed[..n] + sealed[n..] == sealed;
    assert a.open(key, nonce, sealed) == Some(padded);
    assert padded[..|padded| - 16] == data;
  }

  // ----- The context object

  /** td2GssContext: the agreed session and the running sequence number. */
  class Context {
    const session: Session
    var wrapSeqNum: nat
    ghost var nonces: seq<seq<byte>> // one per successful wrap

    ghost predicate Valid()
      reads this
    {
      && wrapSeqNum == SeqAt(|nonces|)
      && InSequence(nonces)
    }

    constructor (session: Session)
      ensures Valid() && nonces == [] && this.session == session
    {
      this.session := session;
      wrapSeqNum := 1;
      nonces := [];
      new;
      SeqAtNext(0);
    }

    // A failed wrap consumes no sequence number; a successful one records
    // a nonce that no earlier wrap of the context used, for the first 2^64.
    method Wrap(a: Aead, data: seq<byte>) returns (r: Result<seq<byte>>)
      requires Valid()
      modifies this
      ensures Valid()
      ensures r == Wrapped(a, session, old(wrapSeqNum), data)
      ensures !r.Ok? ==> nonces == old(nonces) && wrapSeqNum == old(wrapSeqNum)
      ensures r.Ok? ==>
                var nonce := SealedWith(a, session, old(wrapSeqNum), data);
                && nonces == old(nonces) + [nonce]
                && (|old(nonces)| < TWO64 ==> nonce !in old(nonces))
                && wrapSeqNum == (old(wrapSeqNum) + 1) % TWO64
    {
      r := Wrapped(a, session, wrapSeqNum, data);
      if r.Ok? {
        Advance(SealedWith(a, session, wrapSeqNum, data));
      }
    }

    // The increment after a successful seal, wrapping at 64 bits.
    method Advance(ghost nonce: seq<byte>)
      requires Valid() && UsesSeqNum(nonce, wrapSeqNum)
      modifies this
      ensures Valid()
      ensures nonces == old(nonces) + [nonce]
      ensures wrapSeqNum == (old(wrapSeqNum) + 1) % TWO64
      ensures |old(nonces)| < TWO64 ==> nonce !in old(nonces)
    {
      NextNonce(nonces, nonce);
      SeqAtNext(|nonces|);
      nonces := nonces + [nonce];
      wrapSeqNum := (wrapSeqNum + 1) % TWO64;
    }
  }

  /** The nonce a successful wrap seals with. */
  ghost function SealedWith(a: Aead, s: Session, seqNum: nat, data: seq<byte>): (nonce: seq<byte>)
    requires seqNum < TWO64 && Wrapped(a, s, seqNum, data).Ok?
    ensures UsesSeqNum(nonce, seqNum)
  {
    var i := FirstGcm96(s.options);
    var nonce := Nonce(MsgLength(|data|, HmacLen(s.options[i].integAlg).value), seqNum);
    assert nonce[4..] == Be(seqNum, 8);
    nonce
  }

  ghost predicate InSequence(nonces: seq<seq<byte>>) {
    forall i :: 0 <= i < |nonces| ==> UsesSeqNum(nonces[i], SeqAt(i))
  }

  // A run of at most 2^64 successful wraps never repeats a nonce.
  lemma {:induction false} NoncesDistinct(nonces: seq<seq<byte>>, i: nat, j: nat)
    requires InSequence(nonces) && |nonces| <= TWO64 && i < j < |nonces|
    ensures nonces[i] != nonces[j]
  {
    if nonces[i] == nonces[j] {
      NonceInjective(nonces[i], SeqAt(i), SeqAt(j));
      SeqAtDistinct(i, j);
    }
  }

  lemma {:induction false} NextNonce(nonces: seq<seq<byte>>, nonce: seq<byte>)
    requires InSequence(nonces) && UsesSeqNum(nonce, SeqAt(|nonces|))
    ensures InSequence(nonces + [nonce])
    ensures |nonces| < TWO64 ==> nonce !in nonces
  {
    hide UsesSeqNum, SeqAt;
    if |nonces| < TWO64 {
      FreshNonce(nonces, nonce);
    }
  }

  lemma {:induction false} FreshNonce(nonces: seq<seq<byte>>, nonce: seq<byte>)
    requires |nonces| < TWO64 && InSequence(nonces)
    requires UsesSeqNum(nonce, SeqAt(|nonces|))
    ensures nonce !in nonces
  {
    forall i | 0 <= i < |nonces| ensures nonces[i] != nonce {
      if nonces[i] == nonce {
        NonceInjective(nonce, SeqAt(i), SeqAt(|nonces|));
        SeqAtDistinct(i, |nonces|);
      }
    }
  }
}
