/** LAN messages on the wire: the 52-octet header, the WebSocket frame around
    it on TLS connections, the encrypted envelope, and the parcels inside. */
module Framing {
  import opened Bytes
  import opened Buffers
  import opened Der
  import opened ParcelWalk
  import R = ReadBuffer
  import Td2

  const LAN_HEADER_LEN := 52
  const CLEAR_LEN := 24
  const TWO32 := 0x1_0000_0000

  // ----- The LAN header

  /** The fields a request header carries. */
  datatype Header = Header(
    kind: byte, byteVar: byte, wordVar: nat, correlationTag: nat, sessionNo: nat,
    authNonce: seq<byte>, requestNo: nat, unionGTW: byte, hostCharSet: byte)

  /** The fields are uint16, uint32 and [8]byte. */
  predicate ValidHeader(h: Header) {
    && h.wordVar < 0x1_0000 && h.correlationTag < TWO32 && h.sessionNo < TWO32
    && h.requestNo < TWO32 && |h.authNonce| == 8
  }

  /** The first 24 octets, which stay clear on an encrypted message. */
  function ClearBytes(h: Header, msgType: byte, bodyLen: nat): (s: seq<byte>)
    ensures |s| == CLEAR_LEN
  {
    [3, msgType, h.kind] + Be(bodyLen / 0x1_0000, 2) + [h.byteVar] + Be(h.wordVar, 2) + Be(bodyLen % 0x1_0000, 2)
    + Zeros(6) + Be(h.correlationTag, 4) + Be(h.sessionNo, 4)
  }

  /** The other 28. */
  function HiddenBytes(h: Header): (s: seq<byte>)
    requires |h.authNonce| == 8
    ensures |s| == LAN_HEADER_LEN - CLEAR_LEN
  {
    h.authNonce + Be(h.requestNo, 4) + [h.unionGTW, h.hostCharSet] + Zeros(14)
  }

  /** lanHeaderFromBuffer. */
  datatype Received = Received(version: byte, msgType: byte, header: Header, controlLen: nat, bodyLen: nat)

  function ParseHeader(s: seq<byte>): (r: Received)
    requires |s| == LAN_HEADER_LEN
  {
    Received(s[0], s[1],
             Header(s[2], s[5], FromBe(s[6..8]), FromBe(s[16..20]), FromBe(s[20..24]),
                    s[24..32], FromBe(s[32..36]), s[36], s[37]),
             FromBe(s[40..44]), FromBe(s[3..5]) * 0x1_0000 + FromBe(s[8..10]))
  }

  lemma {:induction false} SplitLength(n: nat)
    ensures FromBe(Be(n / 0x1_0000, 2)) * 0x1_0000 + FromBe(Be(n % 0x1_0000, 2)) == n % TWO32
  {
    assert Pow256(2) == 0x1_0000;
    FromBeBe(n / 0x1_0000, 2);
    BeRoundTrip(n % 0x1_0000, 2);
    HalvesMod(n);
    hide FromBe, Be, Pow256;
  }

  lemma {:induction false} HalvesMod(n: nat)
    ensures (n / 0x1_0000) % 0x1_0000 * 0x1_0000 + n % 0x1_0000 == n % TWO32
  {
    var hi := n / 0x1_0000;
    DivModUnique(n, TWO32, hi / 0x1_0000, hi % 0x1_0000 * 0x1_0000 + n % 0x1_0000);
  }

  lemma {:induction false} ClearSlices(h: Header, msgType: byte, bodyLen: nat)
    ensures var s := ClearBytes(h, msgType, bodyLen);
      && s[0] == 3 && s[1] == msgType && s[2] == h.kind && s[5] == h.byteVar
      && s[3..5] == Be(bodyLen / 0x1_0000, 2) && s[8..10] == Be(bodyLen % 0x1_0000, 2)
      && s[6..8] == Be(h.wordVar, 2) && s[16..20] == Be(h.correlationTag, 4) && s[20..24] == Be(h.sessionNo, 4)
  {}

  lemma {:induction false} HiddenSlices(h: Header)
    requires |h.authNonce| == 8
    ensures var s := HiddenBytes(h);
      && s[0..8] == h.authNonce && s[8..12] == Be(h.requestNo, 4)
      && s[12] == h.unionGTW && s[13] == h.hostCharSet && s[16..20] == Zeros(4)
  {}

  // What the clear octets say, whatever follows them. The length is 32 bits.
  lemma {:induction false} ClearParses(h: Header, msgType: byte, bodyLen: nat, tail: seq<byte>)
    requires ValidHeader(h) && |tail| == LAN_HEADER_LEN - CLEAR_LEN
    ensures var r := ParseHeader(ClearBytes(h, msgType, bodyLen) + tail);
      && r.version == 3 && r.msgType == msgType && r.bodyLen == bodyLen % TWO32
      && SameClear(r.header, h)
  {
    var c := ClearBytes(h, msgType, bodyLen);
    var s := c + tail;
    ClearSlices(h, msgType, bodyLen);
    hide ClearBytes;
    assert s[3..5] == c[3..5] && s[8..10] == c[8..10] && s[6..8] == c[6..8];
    assert s[16..20] == c[16..20] && s[20..24] == c[20..24];
    SplitLength(bodyLen);
    assert Pow256(2) == 0x1_0000 && Pow256(4) == TWO32;
    BeRoundTrip(h.wordVar, 2);
    BeRoundTrip(h.correlationTag, 4);
    BeRoundTrip(h.sessionNo, 4);
    hide FromBe, Be;
  }

  /** The header fields an encrypted message shows its receiver. */
  predicate SameClear(a: Header, b: Header) {
    && a.kind == b.kind && a.byteVar == b.byteVar && a.wordVar == b.wordVar
    && a.correlationTag == b.correlationTag && a.sessionNo == b.sessionNo
  }

  lemma {:induction false} HeaderRoundTrip(h: Header, msgType: byte, bodyLen: nat)
    requires ValidHeader(h)
    ensures ParseHeader(ClearBytes(h, msgType, bodyLen) + HiddenBytes(h))
            == Received(3, msgType, h, 0, bodyLen % TWO32)
  {
    var c, t := ClearBytes(h, msgType, bodyLen), HiddenBytes(h);
    ClearParses(h, msgType, bodyLen, t);
    HiddenSlices(h);
    var s := c + t;
    hide ClearBytes, HiddenBytes;
    assert s[24..32] == t[0..8] && s[32..36] == t[8..12] && s[40..44] == t[16..20];
    assert Pow256(4) == TWO32;
    BeRoundTrip(h.requestNo, 4);
    ZeroValue(4);
    hide FromBe, Be;
  }

  lemma {:induction false} ZeroValue(n: nat)
    ensures FromBe(Zeros(n)) == 0
  {
    if n > 0 {
      ZeroValue(n - 1);
      assert Zeros(n)[..n - 1] == Zeros(n - 1);
    }
  }

  // ----- The WebSocket frame header (section 5.2 of RFC 6455)

  function WsHeader(packetLen: nat): (s: seq<byte>)
  {
    if packetLen <= 125 then [0x82, packetLen]
    else if packetLen <= 65535 then [0x82, 126] + Be(packetLen, 2)
    else [0x82, 127, 0, 0, 0, 0] + Be(packetLen, 4)
  }

  /** getWsFrameLength. */
  function WsHeaderLen(packetLen: nat): nat {
    if packetLen <= 125 then 2 else if packetLen <= 65535 then 4 else 10
  }

  /** readWsFrameHeader: how many octets the header takes, and the payload
      length it declares, which the reader does not use. */
  datatype Frame = FrameShort | FrameRefused | Frame(used: nat, declared: nat)

  function ReadWsHeader(s: seq<byte>): Frame {
    if |s| < 2 then FrameShort
    else if s[0] < 0x80 || s[0] % 16 != 2 then FrameRefused
    else
      var len := s[1] % 128;
      if len == 126 then (if |s| < 4 then FrameShort else Frame(4, FromBe(s[2..4])))
      else if len == 127 then (if |s| < 10 then FrameShort else Frame(10, FromBe(s[2..10])))
      else Frame(2, len)
  }

  // The reader steps over exactly the header; its declared length is the
  // packet's, modulo 2^32.
  lemma {:induction false} WsRoundTrip(packetLen: nat, rest: seq<byte>)
    ensures |WsHeader(packetLen)| == WsHeaderLen(packetLen)
    ensures ReadWsHeader(WsHeader(packetLen) + rest) == Frame(WsHeaderLen(packetLen), packetLen % TWO32)
  {
    hide FromBe, Be, Pow256, ReadWsHeader;
    if packetLen <= 125 {
      ReadsShort(packetLen, rest);
    } else if packetLen <= 65535 {
      TwoOctets();
      BeRoundTrip(packetLen, 2);
      ReadsMedium(Be(packetLen, 2), rest);
    } else {
      WsLongLength(packetLen);
      var t := [0, 0, 0, 0] + Be(packetLen, 4);
      ReadsLong(t, rest);
      assert WsHeader(packetLen) == [0x82, 127] + t;
    }
  }

  lemma {:induction false} TwoOctets()
    ensures Pow256(2) == 0x1_0000
  {}

  lemma {:induction false} ReadsShort(n: nat, rest: seq<byte>)
    requires n <= 125
    ensures ReadWsHeader([0x82, n] + rest) == Frame(2, n)
  {}

  lemma {:induction false} ReadsMedium(t: seq<byte>, rest: seq<byte>)
    requires |t| == 2
    ensures ReadWsHeader([0x82, 126] + t + rest) == Frame(4, FromBe(t))
  {
    assert ([0x82, 126] + t + rest)[2..4] == t;
    hide FromBe;
  }

  lemma {:induction false} ReadsLong(t: seq<byte>, rest: seq<byte>)
    requires |t| == 8
    ensures ReadWsHeader([0x82, 127] + t + rest) == Frame(10, FromBe(t))
  {
    assert ([0x82, 127] + t + rest)[2..10] == t;
    hide FromBe;
  }

  lemma {:induction false} WsLongLength(packetLen: nat)
    ensures FromBe([0, 0, 0, 0] + Be(packetLen, 4)) == packetLen % TWO32
  {
    assert Pow256(4) == TWO32;
    FromBeBe(packetLen, 4);
    LeadingZeros(4, Be(packetLen, 4));
    assert Zeros(4) == [0, 0, 0, 0];
  }

  lemma {:induction false} LeadingZeros(n: nat, s: seq<byte>)
    ensures FromBe(Zeros(n) + s) == FromBe(s)
  {
    if n == 0 {
      assert Zeros(0) + s == s;
    } else {
      LeadingZeros(n - 1, s);
      FromBeLeadingZero(Zeros(n - 1) + s);
      assert Zeros(n) + s == [0] + (Zeros(n - 1) + s);
    }
  }

  // ----- Request parcels

  /** A request parcel: the length it declares, and what its write emits
      (None when write fails). */
  datatype Parcel = Parcel(declared: nat, written: Option<seq<byte>>)

  function Declared(ps: seq<Parcel>): nat {
    if ps == [] then 0 else Declared(ps[..|ps| - 1]) + ps[|ps| - 1].declared
  }

  /** One parcel appended to the body, zero-padded to its declared length; a
      write past the end of the buffer panics. */
  function Append(body: seq<byte>, p: Parcel, room: nat): Result<seq<byte>> {
    if p.written.None? then Err
    else
      var end := |body| + (if |p.written.value| < p.declared then p.declared else |p.written.value|);
      if end > room then Panic
      else Ok(body + p.written.value + Zeros(end - |body| - |p.written.value|))
  }

  /** The body after a list of parcels, within room octets. */
  function Laid(ps: seq<Parcel>, room: nat): Result<seq<byte>> {
    if ps == [] then Ok([])
    else
      match Laid(ps[..|ps| - 1], room)
      case Ok(body) => Append(body, ps[|ps| - 1], room)
      case Err => Err
      case Panic => Panic
  }

  predicate Honest(p: Parcel) { p.written.Some? && |p.written.value| <= p.declared }

  /** What an honest parcel occupies. */
  function Image(p: Parcel): (s: seq<byte>)
    requires Honest(p)
    ensures |s| == p.declared
  {
    p.written.value + Zeros(p.declared - |p.written.value|)
  }

  function Images(ps: seq<Parcel>): (s: seq<seq<byte>>)
    requires forall i :: 0 <= i < |ps| ==> Honest(ps[i])
    ensures |s| == |ps| && forall i :: 0 <= i < |ps| ==> s[i] == Image(ps[i])
  {
    seq(|ps|, i requires 0 <= i < |ps| => Image(ps[i]))
  }

  predicate AllHonest(ps: seq<Parcel>) { forall i :: 0 <= i < |ps| ==> Honest(ps[i]) }

  lemma {:induction false} HonestLaid(ps: seq<Parcel>, room: nat)
    requires AllHonest(ps) && Declared(ps) <= room
    ensures Laid(ps, room) == Ok(Concat(Images(ps))) && |Concat(Images(ps))| == Declared(ps)
  {
    if ps != [] {
      var n := |ps| - 1;
      HonestLaid(ps[..n], room);
      assert Images(ps)[..n] == Images(ps[..n]);
      var b, p := Concat(Images(ps[..n])), ps[n];
      assert b + p.written.value + Zeros(p.declared - |p.written.value|) == b + Image(p);
    }
  }

  // An overlong parcel is never made up for by later ones.
  lemma {:induction false} OverlongStays(ps: seq<Parcel>, room: nat)
    requires Laid(ps, room).Ok?
    ensures |Laid(ps, room).value| <= room || ps == []
    ensures |Laid(ps, room).value| >= Declared(ps)
    ensures |Laid(ps, room).value| == Declared(ps) ==> AllHonest(ps)
  {
    if ps != [] {
      OverlongStays(ps[..|ps| - 1], room);
    }
  }

  // In a buffer sized by the declared lengths the parcels are laid exactly
  // when every write succeeds and none exceeds its declared length.
  lemma {:induction false} LaidExactly(ps: seq<Parcel>)
    ensures Laid(ps, Declared(ps)).Ok? <==> AllHonest(ps)
  {
    if Laid(ps, Declared(ps)).Ok? {
      OverlongStays(ps, Declared(ps));
    }
    if AllHonest(ps) {
      HonestLaid(ps, Declared(ps));
    }
  }

  /** The octets parcels occupy, an overlong one more than it declares. */
  function Taken(ps: seq<Parcel>): nat {
    if ps == [] then 0
    else
      var p := ps[|ps| - 1];
      var size := if p.written.Some? && |p.written.value| > p.declared then |p.written.value| else p.declared;
      Taken(ps[..|ps| - 1]) + size
  }

  /** How many leading parcels are written without an error. */
  function Written(ps: seq<Parcel>): (k: nat)
    ensures k <= |ps|
    ensures forall i :: 0 <= i < k ==> ps[i].written.Some?
    ensures k < |ps| ==> ps[k].written.None?
  {
    if ps == [] then 0
    else
      var k := Written(ps[..|ps| - 1]);
      if k == |ps| - 1 && ps[k].written.Some? then |ps| else k
  }

  // A panic comes before an error exactly when the parcels written up to
  // the error already outgrow the buffer.
  lemma {:induction false} LaidHow(ps: seq<Parcel>, room: nat)
    ensures var k := Written(ps);
      && (Laid(ps, room).Panic? <==> Taken(ps[..k]) > room)
      && (Laid(ps, room).Err? <==> k < |ps| && Taken(ps[..k]) <= room)
      && (Laid(ps, room).Ok? ==> |Laid(ps, room).value| == Taken(ps))
  {
    if ps != [] {
      var init, k := ps[..|ps| - 1], Written(ps);
      LaidHow(init, room);
      if k < |ps| {
        assert ps[..k] == init[..k];
      } else {
        assert ps[..k] == ps && init[..|init|] == init;
      }
    }
  }

  // ----- Messages

  function Prefix(tls: bool, bodyLen: nat): seq<byte> {
    if tls then WsHeader(LAN_HEADER_LEN + bodyLen) else []
  }

  /** A message sent in the clear. */
  function PlainMessage(tls: bool, h: Header, body: seq<byte>): seq<byte>
    requires |h.authNonce| == 8
  {
    Prefix(tls, |body|) + ClearBytes(h, 1, |body|) + HiddenBytes(h) + body
  }

  /** What an encrypted message wraps. */
  function Inner(h: Header, body: seq<byte>): seq<byte>
    requires |h.authNonce| == 8
  {
    HiddenBytes(h) + body
  }

  /** An encrypted message: 24 clear octets, then the envelope. */
  function SecretMessage(h: Header, wrapped: seq<byte>): seq<byte>
    requires |wrapped| >= LAN_HEADER_LEN - CLEAR_LEN
  {
    ClearBytes(h, 0x81, |wrapped| - 28) + wrapped
  }

  // ----- Reading a message

  /** What reading one message comes to: more octets are needed, an error is
      returned, the call panics, it never returns, or the parcels lie from
      start to end of some data and used octets of the stream are consumed. */
  datatype Reading =
    | Short
    | Refused
    | Panics
    | Hangs
    | Message(received: Received, data: seq<byte>, start: nat, end: nat, used: nat)

  /** The parcel window. Too long a control length puts its end before its
      start. */
  function Parcels(r: Reading): seq<byte>
    requires r.Message?
  {
    if r.start <= r.end <= |r.data| then r.data[r.start..r.end] else []
  }

  /** readLanMessageRawInto on the octets still to come. */
  function Read(tls: bool, a: Td2.Aead, gss: Option<Td2.Session>, s: seq<byte>): Reading {
    if !tls then ReadLan(a, gss, s, 0)
    else
      match ReadWsHeader(s)
      case FrameShort => Short
      case FrameRefused => Refused
      case Frame(used, _) => if used > |s| then Short else ReadLan(a, gss, s, used)
  }

  function ReadLan(a: Td2.Aead, gss: Option<Td2.Session>, s: seq<byte>, at: nat): Reading
    requires at <= |s|
  {
    if at + LAN_HEADER_LEN > |s| then Short
    else
      var r := ParseHeader(s[at..at + LAN_HEADER_LEN]);
      var used := at + LAN_HEADER_LEN + r.bodyLen;
      if used > |s| then Short
      else Contents(a, gss, r, s[at..used], used)
  }

  /** One whole message, decrypted if it must be. */
  function Contents(a: Td2.Aead, gss: Option<Td2.Session>, r: Received, data: seq<byte>, used: nat): Reading
    requires |data| >= LAN_HEADER_LEN
  {
    if r.msgType < 0x80 then Window(r, data, LAN_HEADER_LEN, used)
    else if gss.None? then Refused
    else
      match Td2.Unwrapped(a, gss.value, data[CLEAR_LEN..])
      case Ok(plain) =>
        if |plain| < LAN_HEADER_LEN - CLEAR_LEN then Refused
        else Window(r.(controlLen := FromBe(plain[16..20])), plain, LAN_HEADER_LEN - CLEAR_LEN, used)
      case Err => Refused
      case Panic => Panics
  }

  /** Parcels from start, control data at the end, whose parcels are read
      first. A control length beyond the data puts that at a negative index. */
  function Window(r: Received, data: seq<byte>, start: nat, used: nat): Reading {
    if r.controlLen > |data| then Panics
    else
      var end := |data| - r.controlLen;
      if r.controlLen == 0 then Message(r, data, start, end, used)
      else
        match ReadFrom(data, end, |data|)
        case Walked(_) => Message(r, data, start, end, used)
        case Overrun => Panics
        case Forever => Hangs
  }

  // A message read consumed its own length and nothing more.
  lemma {:induction false} ContentsUsed(a: Td2.Aead, gss: Option<Td2.Session>, r: Received, data: seq<byte>, used: nat)
    requires |data| >= LAN_HEADER_LEN
    ensures var c := Contents(a, gss, r, data, used); !c.Short? && (c.Message? ==> c.used == used)
  {
    hide Td2.Unwrapped, ReadFrom;
  }

  // ----- Reading undoes writing

  // What a plain message is read as, whatever follows it: its header, and
  // as much of its body as a 32-bit length can say.
  lemma {:induction false} PlainReads(tls: bool, a: Td2.Aead, gss: Option<Td2.Session>,
                                      h: Header, body: seq<byte>, rest: seq<byte>)
    requires ValidHeader(h)
    ensures var m := |body| % TWO32;
      Read(tls, a, gss, PlainMessage(tls, h, body) + rest)
      == Message(Received(3, 1, h, 0, m), ClearBytes(h, 1, |body|) + HiddenBytes(h) + body[..m], LAN_HEADER_LEN,
                 LAN_HEADER_LEN + m, |PlainMessage(tls, h, body)| - |body| + m)
  {
    hide ClearBytes, HiddenBytes, PlainMessage, Prefix, Read, ParseHeader;
    var m := |body| % TWO32;
    var head := ClearBytes(h, 1, |body|) + HiddenBytes(h);
    HeadReads(h, |body|);
    PlainParts(tls, h, body, rest);
    ReadsBody(tls, a, gss, |body|, Received(3, 1, h, 0, m), head, body, m, rest);
  }

  lemma {:induction false} ReadsBody(tls: bool, a: Td2.Aead, gss: Option<Td2.Session>, bodyLen: nat,
                                     r: Received, head: seq<byte>, body: seq<byte>, m: nat, rest: seq<byte>)
    requires |head| == LAN_HEADER_LEN && ParseHeader(head) == r
    requires r.msgType < 0x80 && r.controlLen == 0 && r.bodyLen == m <= |body|
    ensures var pre := Prefix(tls, bodyLen);
      Read(tls, a, gss, pre + (head + body + rest))
      == Message(r, head + body[..m], LAN_HEADER_LEN, LAN_HEADER_LEN + m, |pre| + LAN_HEADER_LEN + m)
  {
    hide *;
    SplitMore(head, body, m, rest);
    ReadsAs(tls, a, gss, bodyLen, r, head, body[..m], body[m..] + rest);
  }

  lemma {:induction false} SplitMore(head: seq<byte>, body: seq<byte>, m: nat, rest: seq<byte>)
    requires m <= |body|
    ensures head + body + rest == head + body[..m] + (body[m..] + rest)
  {
    assert body == body[..m] + body[m..];
  }

  lemma {:induction false} ReadsAs(tls: bool, a: Td2.Aead, gss: Option<Td2.Session>, bodyLen: nat,
                                   r: Received, head: seq<byte>, seen: seq<byte>, more: seq<byte>)
    requires |head| == LAN_HEADER_LEN && ParseHeader(head) == r
    requires r.msgType < 0x80 && r.controlLen == 0 && r.bodyLen == |seen|
    ensures var pre := Prefix(tls, bodyLen);
      Read(tls, a, gss, pre + (head + seen + more))
      == Message(r, head + seen, LAN_HEADER_LEN, LAN_HEADER_LEN + |seen|, |pre| + LAN_HEADER_LEN + |seen|)
  {
    var pre := Prefix(tls, bodyLen);
    hide *;
    ReadsPrefix(tls, a, gss, bodyLen, head + seen + more);
    ReadsLan(a, gss, pre, head, seen, more);
    WholeWindow(r, head + seen, LAN_HEADER_LEN, |pre| + |head + seen|);
    PlainContents(a, gss, r, head + seen, |pre| + |head + seen|);
  }

  /** A message read as these parcels under this header, consuming so much. */
  predicate ReadAs(r: Reading, received: Received, parcels: seq<byte>, used: nat) {
    r.Message? && r.received == received && Parcels(r) == parcels && r.used == used
  }

  // A plain message is read back exactly, header and parcels, and exactly
  // its octets are consumed, framed or not: when and only when its length
  // fits 32 bits.
  lemma {:induction false} PlainRoundTrip(tls: bool, a: Td2.Aead, gss: Option<Td2.Session>,
                                          h: Header, body: seq<byte>, rest: seq<byte>)
    requires ValidHeader(h)
    ensures ReadAs(Read(tls, a, gss, PlainMessage(tls, h, body) + rest),
                   Received(3, 1, h, 0, |body|), body, |PlainMessage(tls, h, body)|)
            <==> |body| < TWO32
  {
    hide Read, PlainMessage, ClearBytes, HiddenBytes;
    PlainReads(tls, a, gss, h, body, rest);
    if |body| < TWO32 {
      ModSmall(|body|, TWO32);
      WholeBody(ClearBytes(h, 1, |body|) + HiddenBytes(h), body);
    }
  }

  lemma {:induction false} WholeBody(head: seq<byte>, body: seq<byte>)
    ensures body[..|body|] == body && (head + body)[|head|..|head| + |body|] == body
  {}

  lemma {:induction false} HeadReads(h: Header, bodyLen: nat)
    requires ValidHeader(h)
    ensures var head := ClearBytes(h, 1, bodyLen) + HiddenBytes(h);
      |head| == LAN_HEADER_LEN && ParseHeader(head) == Received(3, 1, h, 0, bodyLen % TWO32)
  {
    HeaderRoundTrip(h, 1, bodyLen);
    hide ClearBytes, HiddenBytes, ParseHeader;
  }

  lemma {:induction false} PlainParts(tls: bool, h: Header, body: seq<byte>, rest: seq<byte>)
    requires |h.authNonce| == 8
    ensures var pre, head := Prefix(tls, |body|), ClearBytes(h, 1, |body|) + HiddenBytes(h);
      && PlainMessage(tls, h, body) + rest == pre + (head + body + rest)
      && |PlainMessage(tls, h, body)| == |pre| + LAN_HEADER_LEN + |body|
  {
    hide ClearBytes, HiddenBytes, Prefix;
  }

  // The frame header, if any, is stepped over.
  lemma {:induction false} ReadsPrefix(tls: bool, a: Td2.Aead, gss: Option<Td2.Session>, bodyLen: nat, lan: seq<byte>)
    ensures var pre := Prefix(tls, bodyLen); Read(tls, a, gss, pre + lan) == ReadLan(a, gss, pre + lan, |pre|)
  {
    if tls {
      WsRoundTrip(LAN_HEADER_LEN + bodyLen, lan);
    }
    hide ReadLan, WsHeader, ReadWsHeader, WsHeaderLen;
  }

  // ReadLan looks at one message and nothing around it.
  lemma {:induction false} ReadsLan(a: Td2.Aead, gss: Option<Td2.Session>, pre: seq<byte>,
                                    head: seq<byte>, body: seq<byte>, rest: seq<byte>)
    requires |head| == LAN_HEADER_LEN && ParseHeader(head).bodyLen == |body|
    ensures ReadLan(a, gss, pre + (head + body + rest), |pre|)
            == Contents(a, gss, ParseHeader(head), head + body, |pre| + |head + body|)
  {
    hide ParseHeader, Contents;
    var s := pre + (head + body + rest);
    assert s[|pre|..|pre| + LAN_HEADER_LEN] == head;
    assert s[|pre|..|pre| + |head + body|] == head + body;
  }

  lemma {:induction false} WholeWindow(r: Received, data: seq<byte>, start: nat, used: nat)
    requires r.controlLen == 0
    ensures Window(r, data, start, used) == Message(r, data, start, |data|, used)
  {}

  lemma {:induction false} PlainContents(a: Td2.Aead, gss: Option<Td2.Session>, r: Received, data: seq<byte>, used: nat)
    requires r.msgType < 0x80 && |data| >= LAN_HEADER_LEN
    ensures Contents(a, gss, r, data, used) == Window(r, data, LAN_HEADER_LEN, used)
  {}

  /** The message Wrapped would send with this sequence number. */
  function Secret(a: Td2.Aead, sess: Td2.Session, seqNum: nat, h: Header, body: seq<byte>): Result<seq<byte>>
    requires seqNum < TWO64 && |h.authNonce| == 8
  {
    match Td2.Wrapped(a, sess, seqNum, Inner(h, body))
    case Ok(w) =>
      Td2.WrappedLonger(a, sess, seqNum, Inner(h, body));
      Ok(SecretMessage(h, w))
    case Err => Err
    case Panic => Panic
  }

  // An encrypted message is opened to the same parcels, consuming exactly
  // its octets: when and only when its length fits 32 bits. Of the header
  // only the clear octets are believed: the rest of what the receiver
  // parses is ciphertext.
  lemma {:induction false} SecretRoundTrip(a: Td2.Aead, sess: Td2.Session, seqNum: nat,
                                           h: Header, body: seq<byte>, rest: seq<byte>)
    requires Td2.Ideal(a) && seqNum < TWO64 && |sess.options| <= 0x8000_0000 && ValidHeader(h)
    requires Secret(a, sess, seqNum, h, body).Ok? && |Secret(a, sess, seqNum, h, body).value| < TWO63
    ensures var m := Secret(a, sess, seqNum, h, body).value;
      var r := Read(false, a, Some(sess), m + rest);
      && (r.Message? && Parcels(r) == body && r.used == |m| <==> |m| < LAN_HEADER_LEN + TWO32)
      && (|m| < LAN_HEADER_LEN + TWO32 ==>
            && r.data == Inner(h, body) && r.start == 28 && r.end == |r.data|
            && r.received.msgType == 0x81 && SameClear(r.received.header, h))
  {
    hide SecretMessage, Read, Td2.Wrapped, Td2.Unwrapped, Contents, Window, ClearBytes, ParseHeader, SameClear, Inner;
    var w := Td2.Wrapped(a, sess, seqNum, Inner(h, body)).value;
    Td2.WrappedLonger(a, sess, seqNum, Inner(h, body));
    SecretLen(h, w);
    if |w| - 28 < TWO32 {
      Td2.UnwrapWrap(a, sess, seqNum, Inner(h, body));
      SecretReads(a, sess, h, w, rest);
      var head := ClearBytes(h, 0x81, |w| - 28) + w[..28];
      InnerWindow(ParseHeader(head).(controlLen := 0), h, body, LAN_HEADER_LEN + |w| - 28);
      SecretContents(a, sess, ParseHeader(head), head, w, Inner(h, body));
    } else {
      SecretUsed(a, sess, h, w, rest);
    }
  }

  lemma {:induction false} SecretLen(h: Header, w: seq<byte>)
    requires |w| >= 28
    ensures |SecretMessage(h, w)| == LAN_HEADER_LEN + |w| - 28
  {}

  // Too long a message is never consumed whole.
  lemma {:induction false} SecretUsed(a: Td2.Aead, sess: Td2.Session, h: Header, w: seq<byte>, rest: seq<byte>)
    requires ValidHeader(h) && |w| - 28 >= TWO32
    ensures var r := Read(false, a, Some(sess), SecretMessage(h, w) + rest);
      r.Message? ==> r.used < LAN_HEADER_LEN + |w| - 28
  {
    hide ClearBytes, ParseHeader, Contents, SameClear;
    var c := ClearBytes(h, 0x81, |w| - 28);
    var s := SecretMessage(h, w) + rest;
    ClearParses(h, 0x81, |w| - 28, w[..28]);
    assert s[0..LAN_HEADER_LEN] == c + w[..28];
    var n := LAN_HEADER_LEN + (|w| - 28) % TWO32;
    if n <= |s| {
      ContentsUsed(a, Some(sess), ParseHeader(c + w[..28]), s[0..n], n);
    }
  }

  lemma {:induction false} SecretReads(a: Td2.Aead, sess: Td2.Session, h: Header, w: seq<byte>, rest: seq<byte>)
    requires ValidHeader(h) && 28 <= |w| < TWO32 + 28
    ensures var head := ClearBytes(h, 0x81, |w| - 28) + w[..28];
      var r := ParseHeader(head);
      && Read(false, a, Some(sess), SecretMessage(h, w) + rest)
         == Contents(a, Some(sess), r, head + w[28..], LAN_HEADER_LEN + |w| - 28)
      && r.msgType == 0x81 && SameClear(r.header, h)
      && |SecretMessage(h, w)| == LAN_HEADER_LEN + |w| - 28
      && (head + w[28..])[CLEAR_LEN..] == w
  {
    hide ClearBytes, ParseHeader, Contents, ReadLan, Read, SameClear;
    var c := ClearBytes(h, 0x81, |w| - 28);
    ClearParses(h, 0x81, |w| - 28, w[..28]);
    ModSmall(|w| - 28, TWO32);
    SecretParts(c, w, rest);
    ReadsLan(a, Some(sess), [], c + w[..28], w[28..], rest);
    PlainStart(a, Some(sess), SecretMessage(h, w) + rest);
  }

  lemma {:induction false} PlainStart(a: Td2.Aead, gss: Option<Td2.Session>, s: seq<byte>)
    ensures Read(false, a, gss, s) == ReadLan(a, gss, s, 0)
  {}

  lemma {:induction false} SecretParts(c: seq<byte>, w: seq<byte>, rest: seq<byte>)
    requires |c| == CLEAR_LEN && |w| >= 28
    ensures c + w + rest == [] + (c + w[..28] + w[28..] + rest)
    ensures (c + w[..28] + w[28..])[CLEAR_LEN..] == w
  {
    assert w == w[..28] + w[28..];
  }

  lemma {:induction false} SecretContents(a: Td2.Aead, sess: Td2.Session, r: Received, head: seq<byte>, w: seq<byte>,
                                          plain: seq<byte>)
    requires r.msgType == 0x81 && |head| == LAN_HEADER_LEN && |w| >= 28 && (head + w[28..])[CLEAR_LEN..] == w
    requires Td2.Unwrapped(a, sess, w) == Ok(plain) && |plain| >= 28
    ensures Contents(a, Some(sess), r, head + w[28..], LAN_HEADER_LEN + |w| - 28)
            == Window(r.(controlLen := FromBe(plain[16..20])), plain, 28, LAN_HEADER_LEN + |w| - 28)
  {
    hide Td2.Unwrapped, FromBe, Window;
  }

  lemma {:induction false} InnerWindow(r: Received, h: Header, body: seq<byte>, used: nat)
    requires |h.authNonce| == 8 && r.controlLen == 0
    ensures |Inner(h, body)| >= 28 && FromBe(Inner(h, body)[16..20]) == 0
    ensures Window(r, Inner(h, body), 28, used) == Message(r, Inner(h, body), 28, |Inner(h, body)|, used)
    ensures Inner(h, body)[28..] == body
  {
    HiddenSlices(h);
    ZeroValue(4);
    WholeWindow(r, Inner(h, body), 28, used);
    assert Inner(h, body)[16..20] == HiddenBytes(h)[16..20];
    hide HiddenBytes, FromBe, Window;
  }

  // From parcels to parcels: honest parcels that state their own length are
  // laid out, framed, read back from whatever stream they head, and walked
  // as exactly those parcels, contents included where each is self-contained.
  lemma {:induction false} WholeStack(tls: bool, a: Td2.Aead, gss: Option<Td2.Session>, h: Header,
                                      ps: seq<Parcel>, rest: seq<byte>)
    requires ValidHeader(h) && ps != [] && AllHonest(ps) && AllLanParcels(Images(ps)) && Declared(ps) < TWO32
    ensures Laid(ps, Declared(ps)).Ok?
    ensures var body := Laid(ps, Declared(ps)).value;
      var r := Read(tls, a, gss, PlainMessage(tls, h, body) + rest);
      && ReadAs(r, Received(3, 1, h, 0, |body|), Concat(Images(ps)), |PlainMessage(tls, h, body)|)
      && WalkFrom(r.data, r.start, r.end) == Walked(Places(Images(ps), r.start))
      && (AllSelfContained(Images(ps)) ==> ReadFrom(r.data, r.start, r.end) == Walked(Places(Images(ps), r.start)))
  {
    hide ClearBytes, HiddenBytes, PlainMessage, Read, WalkFrom, ReadFrom, AllSelfContained, Laid, Declared, Concat,
      Image, Places, AllLanParcels;
    HonestLaid(ps, Declared(ps));
    var body, head := Concat(Images(ps)), ClearBytes(h, 1, Declared(ps)) + HiddenBytes(h);
    PlainRoundTrip(tls, a, gss, h, body, rest);
    PlainReads(tls, a, gss, h, body, rest);
    ModSmall(|body|, TWO32);
    WalkSeesAll(head, Images(ps), []);
    if AllSelfContained(Images(ps)) {
      ReadSeesAll(head, Images(ps), []);
    }
    AfterHead(head, body);
  }

  lemma {:induction false} AfterHead(head: seq<byte>, body: seq<byte>)
    ensures head + body + [] == head + body && body[..|body|] == body
  {}

  // The same over the encrypted path, in the decrypted window.
  lemma {:induction false} SecretStack(a: Td2.Aead, sess: Td2.Session, seqNum: nat, h: Header,
                                       ps: seq<Parcel>, rest: seq<byte>)
    requires Td2.Ideal(a) && seqNum < TWO64 && |sess.options| <= 0x8000_0000 && ValidHeader(h)
    requires ps != [] && AllHonest(ps) && AllLanParcels(Images(ps))
    requires Secret(a, sess, seqNum, h, Concat(Images(ps))).Ok?
    requires |Secret(a, sess, seqNum, h, Concat(Images(ps))).value| < LAN_HEADER_LEN + TWO32
    ensures Laid(ps, Declared(ps)) == Ok(Concat(Images(ps)))
    ensures var m := Secret(a, sess, seqNum, h, Concat(Images(ps))).value;
      var r := Read(false, a, Some(sess), m + rest);
      && r.Message? && Parcels(r) == Concat(Images(ps)) && r.used == |m| && SameClear(r.received.header, h)
      && WalkFrom(r.data, r.start, r.end) == Walked(Places(Images(ps), r.start))
      && (AllSelfContained(Images(ps)) ==> ReadFrom(r.data, r.start, r.end) == Walked(Places(Images(ps), r.start)))
  {
    hide Secret, HiddenBytes, Read, WalkFrom, ReadFrom, AllSelfContained, Laid, Declared, Concat, Image, Places,
      AllLanParcels, SameClear;
    HonestLaid(ps, Declared(ps));
    var body := Concat(Images(ps));
    SecretRoundTrip(a, sess, seqNum, h, body, rest);
    WalkSeesAll(HiddenBytes(h), Images(ps), []);
    if AllSelfContained(Images(ps)) {
      ReadSeesAll(HiddenBytes(h), Images(ps), []);
    }
    AfterHead(HiddenBytes(h), body);
  }
}
