/** writeLanMessage and readLanMessageRawInto as they run: one buffer laid
    out, its length patched in place, the socket, and the read buffer. */
module Packet {
  import opened Bytes
  import opened Buffers
  import opened Der
  import opened Framing
  import R = ReadBuffer
  import Td2

  // ----- Laying out the buffer

  /** Everything written so far. */
  ghost predicate Holds(w: BufferWriter, done: seq<byte>)
    reads w, w.buff
  {
    w.indx == |done| <= w.buff.Length && w.buff[..w.indx] == done
  }

  lemma {:induction false} OverwriteFront(s: seq<byte>, done: seq<byte>, v: seq<byte>)
    requires |done| + |v| <= |s| && s[..|done|] == done
    ensures Overwrite(s, |done|, v)[..|done| + |v|] == done + v
  {}

  method Emit(w: BufferWriter, v: seq<byte>, ghost done: seq<byte>)
    requires Holds(w, done) && |done| + |v| <= w.buff.Length
    modifies w`indx, w.buff
    ensures Holds(w, done + v)
  {
    OverwriteFront(w.buff[..], done, v);
    hide Overwrite;
    w.Copy(v);
  }

  method EmitZeros(w: BufferWriter, n: nat, ghost done: seq<byte>)
    requires Holds(w, done) && |done| + n <= w.buff.Length
    modifies w`indx, w.buff
    ensures Holds(w, done + Zeros(n))
  {
    OverwriteFront(w.buff[..], done, Zeros(n));
    hide Overwrite;
    w.Skip(n);
  }

  /** writeWsFrameHeader. */
  method WriteWsHeader(w: BufferWriter, packetLen: nat)
    requires Holds(w, []) && |WsHeader(packetLen)| <= w.buff.Length
    modifies w`indx, w.buff
    ensures Holds(w, WsHeader(packetLen))
  {
    hide Holds, Be;
    if packetLen <= 125 {
      Emit(w, [0x82], []);
      assert [] + [0x82] == [0x82];
      Emit(w, [packetLen], [0x82]);
      assert [0x82] + [packetLen] == [0x82, packetLen];
    } else if packetLen <= 65535 {
      Emit(w, [0x82, 126], []);
      assert [] + [0x82, 126] == [0x82, 126];
      Emit(w, Be(packetLen, 2), [0x82, 126]);
    } else {
      Emit(w, [0x82, 127], []);
      assert [] + [0x82, 127] == [0x82, 127];
      Emit(w, [0, 0, 0, 0], [0x82, 127]);
      assert [0x82, 127] + [0, 0, 0, 0] == [0x82, 127, 0, 0, 0, 0];
      Emit(w, Be(packetLen, 4), [0x82, 127, 0, 0, 0, 0]);
    }
  }

  /** lanHeader.write, with the length still zero. */
  method WriteHeader(w: BufferWriter, h: Header, msgType: byte, ghost done: seq<byte>)
    requires Holds(w, done) && |h.authNonce| == 8 && |done| + LAN_HEADER_LEN <= w.buff.Length
    modifies w`indx, w.buff
    ensures Holds(w, done + ClearBytes(h, msgType, 0) + HiddenBytes(h))
  {
    hide Holds, ClearBytes, HiddenBytes;
    WriteClear(w, h, msgType, done);
    WriteHidden(w, h, done + ClearBytes(h, msgType, 0));
  }

  method WriteClear(w: BufferWriter, h: Header, msgType: byte, ghost done: seq<byte>)
    requires Holds(w, done) && |done| + CLEAR_LEN <= w.buff.Length
    modifies w`indx, w.buff
    ensures Holds(w, done + ClearBytes(h, msgType, 0))
  {
    ghost var d := done;
    hide Holds, Be;
    Emit(w, [3, msgType, h.kind], d);
    d := d + [3, msgType, h.kind];
    Emit(w, Be(0, 2), d);
    d := d + Be(0, 2);
    Emit(w, [h.byteVar], d);
    d := d + [h.byteVar];
    Emit(w, Be(h.wordVar, 2), d);
    d := d + Be(h.wordVar, 2);
    Emit(w, Be(0, 2), d);
    d := d + Be(0, 2);
    EmitZeros(w, 6, d);
    d := d + Zeros(6);
    Emit(w, Be(h.correlationTag, 4), d);
    d := d + Be(h.correlationTag, 4);
    Emit(w, Be(h.sessionNo, 4), d);
    d := d + Be(h.sessionNo, 4);
    assert d == done + ClearBytes(h, msgType, 0);
  }

  method WriteHidden(w: BufferWriter, h: Header, ghost done: seq<byte>)
    requires Holds(w, done) && |h.authNonce| == 8 && |done| + LAN_HEADER_LEN - CLEAR_LEN <= w.buff.Length
    modifies w`indx, w.buff
    ensures Holds(w, done + HiddenBytes(h))
  {
    ghost var d := done;
    hide Holds, Be;
    Emit(w, h.authNonce, d);
    d := d + h.authNonce;
    Emit(w, Be(h.requestNo, 4), d);
    d := d + Be(h.requestNo, 4);
    Emit(w, [h.unionGTW, h.hostCharSet], d);
    d := d + [h.unionGTW, h.hostCharSet];
    EmitZeros(w, 14, d);
    d := d + Zeros(14);
    assert d == done + HiddenBytes(h);
  }

  datatype Step = Fine | Failed | Panicked

  function StepOf(r: Result<seq<byte>>): Step {
    match r
    case Ok(_) => Fine
    case Err => Failed
    case Panic => Panicked
  }

  /** One parcel: its own octets, then zeros up to its declared length. The
      slice ends at limit, and writing past it panics. */
  method WriteParcel(w: BufferWriter, p: Parcel, limit: nat, ghost pre: seq<byte>, ghost body: seq<byte>)
    returns (r: Step)
    requires Holds(w, pre + body) && |pre + body| <= limit <= w.buff.Length
    modifies w`indx, w.buff
    ensures r == StepOf(Append(body, p, limit - |pre|))
    ensures r.Fine? ==> Holds(w, pre + Append(body, p, limit - |pre|).value)
  {
    if p.written.None? {
      return Failed;
    }
    var v := p.written.value;
    var pos := w.indx;
    if pos + |v| > limit {
      return Panicked;
    }
    Emit(w, v, pre + body);
    var gap := if w.indx < pos + p.declared then pos + p.declared - w.indx else 0;
    if w.indx + gap > limit {
      return Panicked;
    }
    EmitZeros(w, gap, pre + body + v);
    assert pre + body + v + Zeros(gap) == pre + (body + v + Zeros(gap));
    r := Fine;
  }

  lemma {:induction false} LaidStops(ps: seq<Parcel>, k: nat, room: nat)
    requires k <= |ps| && !Laid(ps[..k], room).Ok?
    ensures Laid(ps, room) == Laid(ps[..k], room)
    decreases |ps| - k
  {
    if k == |ps| {
      assert ps[..k] == ps;
    } else {
      assert ps[..k + 1][..k] == ps[..k];
      LaidStops(ps, k + 1, room);
    }
  }

  lemma {:induction false} LaidNext(ps: seq<Parcel>, k: nat, room: nat)
    requires k < |ps| && Laid(ps[..k], room).Ok?
    ensures Laid(ps[..k + 1], room) == Append(Laid(ps[..k], room).value, ps[k], room)
  {
    assert ps[..k + 1][..k] == ps[..k];
  }

  /** The parcel loop. */
  method WriteParcels(w: BufferWriter, ps: seq<Parcel>, limit: nat, ghost pre: seq<byte>) returns (r: Step)
    requires Holds(w, pre) && |pre| <= limit <= w.buff.Length
    modifies w`indx, w.buff
    ensures r == StepOf(Laid(ps, limit - |pre|))
    ensures r.Fine? ==> Holds(w, pre + Laid(ps, limit - |pre|).value)
  {
    hide Holds, Append, Laid;
    ghost var room := limit - |pre|;
    LaidNone(pre, room);
    assert ps[..0] == [];
    for i := 0 to |ps|
      invariant Laid(ps[..i], room).Ok? && |Laid(ps[..i], room).value| <= room
      invariant Holds(w, pre + Laid(ps[..i], room).value)
    {
      ghost var body := Laid(ps[..i], room).value;
      LaidNext(ps, i, room);
      r := WriteParcel(w, ps[i], limit, pre, body);
      AppendFits(body, ps[i], room);
      if !r.Fine? {
        LaidStops(ps, i + 1, room);
        return;
      }
    }
    assert ps[..|ps|] == ps;
    r := Fine;
  }

  lemma {:induction false} LaidNone(pre: seq<byte>, room: nat)
    ensures Laid([], room) == Ok([]) && pre + [] == pre
  {}

  lemma {:induction false} AppendFits(body: seq<byte>, p: Parcel, room: nat)
    ensures Append(body, p, room).Ok? ==> |Append(body, p, room).value| <= room
  {}

  /** Declared lengths, summed. */
  method SumDeclared(ps: seq<Parcel>) returns (n: nat)
    ensures n == Declared(ps)
  {
    n := 0;
    for i := 0 to |ps|
      invariant n == Declared(ps[..i])
    {
      assert ps[..i + 1][..i] == ps[..i];
      n := n + ps[i].declared;
    }
    assert ps[..|ps|] == ps;
  }

  /** binary.BigEndian.PutUint16 twice: the length into a header at ws. */
  method PatchLength(buf: array<byte>, ws: nat, len: nat, ghost pre: seq<byte>, ghost h: Header,
                     ghost msgType: byte, ghost rest: seq<byte>)
    requires |pre| == ws && ws + CLEAR_LEN + |rest| <= buf.Length
    requires buf[..ws + CLEAR_LEN + |rest|] == pre + ClearBytes(h, msgType, 0) + rest
    modifies buf
    ensures buf[..ws + CLEAR_LEN + |rest|] == pre + ClearBytes(h, msgType, len) + rest
  {
    var hi, lo := Be(len / 0x1_0000, 2), Be(len % 0x1_0000, 2);
    Patched(pre, h, msgType, len, rest);
    hide ClearBytes, Be;
    ghost var n := ws + CLEAR_LEN + |rest|;
    buf[ws + 3] := hi[0];
    buf[ws + 4] := hi[1];
    buf[ws + 8] := lo[0];
    buf[ws + 9] := lo[1];
  }

  lemma {:induction false} Patched(pre: seq<byte>, h: Header, msgType: byte, len: nat, rest: seq<byte>)
    ensures var s, n := pre + ClearBytes(h, msgType, 0) + rest, |pre|;
      var hi, lo := Be(len / 0x1_0000, 2), Be(len % 0x1_0000, 2);
      s[n + 3 := hi[0]][n + 4 := hi[1]][n + 8 := lo[0]][n + 9 := lo[1]] == pre + ClearBytes(h, msgType, len) + rest
  {
    var hi, lo := Be(len / 0x1_0000, 2), Be(len % 0x1_0000, 2);
    ClearPatched(h, msgType, len);
    hide ClearBytes, Be;
  }

  lemma {:induction false} ClearPatched(h: Header, msgType: byte, len: nat)
    ensures var c := ClearBytes(h, msgType, 0);
      var hi, lo := Be(len / 0x1_0000, 2), Be(len % 0x1_0000, 2);
      c[3 := hi[0]][4 := hi[1]][8 := lo[0]][9 := lo[1]] == ClearBytes(h, msgType, len)
  {
    ClearShape(h, msgType, 0);
    ClearShape(h, msgType, len);
    hide ClearBytes, Be;
    PatchPairs([3, msgType, h.kind], Be(0, 2), [h.byteVar] + Be(h.wordVar, 2), Be(0, 2), ClearTail(h),
               Be(len / 0x1_0000, 2), Be(len % 0x1_0000, 2));
  }

  ghost function ClearTail(h: Header): seq<byte> { Zeros(6) + Be(h.correlationTag, 4) + Be(h.sessionNo, 4) }

  lemma {:induction false} ClearShape(h: Header, msgType: byte, len: nat)
    ensures ClearBytes(h, msgType, len) ==
            [3, msgType, h.kind] + Be(len / 0x1_0000, 2) + ([h.byteVar] + Be(h.wordVar, 2)) + Be(len % 0x1_0000, 2)
            + ClearTail(h)
  {
    hide Be;
  }

  lemma {:induction false} PatchPairs(a: seq<byte>, x: seq<byte>, b: seq<byte>, y: seq<byte>, c: seq<byte>,
                                      x': seq<byte>, y': seq<byte>)
    requires |a| == 3 && |x| == 2 == |x'| && |b| == 3 && |y| == 2 == |y'|
    ensures (a + x + b + y + c)[3 := x'[0]][4 := x'[1]][8 := y'[0]][9 := y'[1]] == a + x' + b + y' + c
  {}

  // ----- The connection

  /** The switch in writeLanMessage: which messages are encrypted. */
  function Encrypts(kind: byte, secured: bool, tls: bool, wanted: bool): bool {
    if !secured || tls then false
    else if kind == 3 || kind == 4 then true
    else if kind == 1 || kind == 2 || kind == 10 || kind == 11 || kind == 12 then false
    else wanted
  }

  datatype Reply = Nil | Error | Panics

  lemma {:induction false} LaidFills(ps: seq<Parcel>)
    requires Laid(ps, Declared(ps)).Ok?
    ensures |Laid(ps, Declared(ps)).value| == Declared(ps)
  {
    LaidExactly(ps);
    HonestLaid(ps, Declared(ps));
  }

  class LanConnection {
    const tls: bool
    const aead: Td2.Aead
    const store: WriteBuffer
    const buffer: R.ReadBuffer
    const net: R.Connection
    const gss: Td2.Context?
    var encryptData: bool // the configuration's wish, or the server's policy
    var closed: bool
    var bad: bool
    var transactionInProgress: bool
    var wire: seq<byte>   // every octet the socket has taken

    constructor (tls: bool, aead: Td2.Aead, gss: Td2.Context?, encryptData: bool, net: R.Connection)
      ensures this.tls == tls && this.aead == aead && this.gss == gss && this.net == net
      ensures this.encryptData == encryptData && !closed && !bad && wire == []
      ensures fresh(store) && fresh(buffer) && store.store.Length <= MAX_CACHED && buffer.Valid()
    {
      this.tls, this.aead, this.gss, this.encryptData, this.net := tls, aead, gss, encryptData, net;
      store := new WriteBuffer();
      buffer := new R.ReadBuffer();
      closed, bad, transactionInProgress, wire := false, false, false, [];
    }

    /** The frame header, the LAN header without its length, the parcels. */
    method Lay(h: Header, msgType: byte, ps: seq<Parcel>) returns (buf: array<byte>, r: Step, n: nat)
      requires |h.authNonce| == 8 && store.store.Length <= MAX_CACHED
      modifies store, store.store
      ensures store.store.Length <= MAX_CACHED
      ensures buf == old(store.store) || fresh(buf)
      ensures store.store == old(store.store) || fresh(store.store)
      ensures r == StepOf(Laid(ps, Declared(ps)))
      ensures r.Fine? ==>
                var pre, body := Prefix(tls, Declared(ps)), Laid(ps, Declared(ps)).value;
                && |body| == Declared(ps) && n == |pre| + LAN_HEADER_LEN + |body| <= buf.Length
                && buf[..n] == pre + ClearBytes(h, msgType, 0) + HiddenBytes(h) + body
    {
      var bodyLen := SumDeclared(ps);
      ghost var pre := Prefix(tls, bodyLen);
      hide ClearBytes, HiddenBytes, Laid, Declared;
      var packetLen := LAN_HEADER_LEN + bodyLen;
      n := packetLen + (if tls then WsHeaderLen(packetLen) else 0);
      buf := store.Take(n);
      var w := new BufferWriter(buf);
      if tls {
        WriteWsHeader(w, packetLen);
      }
      assert Holds(w, pre);
      WriteHeader(w, h, msgType, pre);
      r := WriteParcels(w, ps, n, pre + ClearBytes(h, msgType, 0) + HiddenBytes(h));
      if r.Fine? {
        LaidFills(ps);
      }
    }

    /** writeLanMessageRaw: the socket may take only part of the octets, or
        report an error; then the connection is marked bad. */
    method Transmit(data: seq<byte>) returns (ok: bool)
      modifies this`wire, this`bad
      ensures old(wire) <= wire <= old(wire) + data
      ensures ok ==> wire == old(wire) + data && bad == old(bad)
      ensures !ok ==> closed || bad
      ensures old(bad) ==> !ok && bad
    {
      if closed || bad {
        return false;
      }
      var n: nat, fault: bool := *, *;
      if n > |data| {
        n := |data|;
      }
      wire := wire + data[..n];
      ok := !fault && n == |data|;
      if !ok {
        bad := true;
      }
    }

    // On the clear path nil means sent. On the encrypted path the error of
    // the send is assigned to a shadowed variable, so nil means only that
    // the message could be laid out and wrapped; a send that failed shows
    // itself in nothing but a bad connection.
    method WriteLanMessage(h: Header, ps: seq<Parcel>) returns (r: Reply, ghost sent: bool)
      requires ValidHeader(h) && store.store.Length <= MAX_CACHED && (gss != null ==> gss.Valid())
      modifies this`wire, this`bad, store, store.store, gss
      ensures store.store.Length <= MAX_CACHED && (gss != null ==> gss.Valid())
      ensures store.store == old(store.store) || fresh(store.store)
      ensures old(closed || bad) ==> r.Error? && !sent && wire == old(wire)
      ensures var laid := Laid(ps, Declared(ps)); var enc := Encrypts(h.kind, gss != null, tls, encryptData);
        old(!closed && !bad) ==>
          && (laid.Panic? ==> r.Panics?) && (laid.Err? ==> r.Error?) && (!laid.Ok? ==> !sent && wire == old(wire))
          && (laid.Ok? && !enc ==>
                (r.Nil? <==> sent) && (sent ==> wire == old(wire) + PlainMessage(tls, h, laid.value)))
          && (laid.Ok? && enc ==>
                var w := Td2.Wrapped(aead, gss.session, old(gss.wrapSeqNum), Inner(h, laid.value));
                && (r.Nil? <==> w.Ok?) && (w.Panic? ==> r.Panics?)
                && (sent ==> w.Ok? && |w.value| >= 28 && wire == old(wire) + SecretMessage(h, w.value)))
      ensures sent ==> !bad
      ensures r.Nil? ==> (sent <==> !bad)
    {
      sent := false;
      if closed || bad {
        return Error, false;
      }
      if Encrypts(h.kind, gss != null, tls, encryptData) {
        r, sent := WriteSecret(h, ps);
      } else {
        r, sent := WritePlain(h, ps);
      }
    }

    method WritePlain(h: Header, ps: seq<Parcel>) returns (r: Reply, ghost sent: bool)
      requires ValidHeader(h) && store.store.Length <= MAX_CACHED && !closed && !bad
      modifies this`wire, this`bad, store, store.store
      ensures store.store.Length <= MAX_CACHED
      ensures store.store == old(store.store) || fresh(store.store)
      ensures var laid := Laid(ps, Declared(ps));
        && (laid.Panic? ==> r.Panics?) && (laid.Err? ==> r.Error?) && (!laid.Ok? ==> !sent && wire == old(wire))
        && (r.Nil? <==> sent) && (sent ==> !bad)
        && (laid.Ok? && sent ==> wire == old(wire) + PlainMessage(tls, h, laid.value))
    {
      var buf, step, n := Lay(h, 1, ps);
      sent := false;
      if step.Failed? { return Error, false; }
      if step.Panicked? { return Reply.Panics, false; }
      ghost var laid := Laid(ps, Declared(ps)).value;
      hide ClearBytes, HiddenBytes, Laid, Declared, PlainMessage, Prefix;
      var bodyLen := SumDeclared(ps);
      PlainWhole(tls, h, laid);
      var ok := SendPlain(buf, n, bodyLen, Prefix(tls, |laid|), h, HiddenBytes(h) + laid);
      sent := ok;
      r := if ok then Nil else Error;
    }

    method SendPlain(buf: array<byte>, n: nat, bodyLen: nat,
                     ghost pre: seq<byte>, ghost h: Header, ghost rest: seq<byte>)
      returns (ok: bool)
      requires n == |pre| + CLEAR_LEN + |rest| <= buf.Length && n == |pre| + LAN_HEADER_LEN + bodyLen
      requires buf[..n] == pre + ClearBytes(h, 1, 0) + rest
      modifies this`wire, this`bad, buf
      ensures ok ==> wire == old(wire) + (pre + ClearBytes(h, 1, bodyLen) + rest)
      ensures ok ==> bad == old(bad)
    {
      hide ClearBytes;
      PatchLength(buf, n - LAN_HEADER_LEN - bodyLen, bodyLen, pre, h, 1, rest);
      ok := Transmit(buf[..n]);
    }

    method WriteSecret(h: Header, ps: seq<Parcel>) returns (r: Reply, ghost sent: bool)
      requires ValidHeader(h) && store.store.Length <= MAX_CACHED && !closed && !bad
      requires gss != null && gss.Valid() && !tls
      modifies this`wire, this`bad, store, store.store, gss
      ensures store.store.Length <= MAX_CACHED && gss.Valid()
      ensures store.store == old(store.store) || fresh(store.store)
      ensures var laid := Laid(ps, Declared(ps));
        && (laid.Panic? ==> r.Panics?) && (laid.Err? ==> r.Error?) && (!laid.Ok? ==> !sent && wire == old(wire))
        && (laid.Ok? ==>
              var w := Td2.Wrapped(aead, gss.session, old(gss.wrapSeqNum), Inner(h, laid.value));
              && (r.Nil? <==> w.Ok?) && (w.Panic? ==> r.Panics?)
              && (sent ==> w.Ok? && |w.value| >= 28 && wire == old(wire) + SecretMessage(h, w.value)))
      ensures sent ==> !bad
      ensures r.Nil? && !sent ==> bad
    {
      var buf, step, n := Lay(h, 0x81, ps);
      sent := false;
      if step.Failed? { return Error, false; }
      if step.Panicked? { return Reply.Panics, false; }
      ghost var laid := Laid(ps, Declared(ps)).value;
      hide ClearBytes, HiddenBytes, Laid, Declared, Td2.Wrapped, Td2.Context.Valid, SecretMessage;
      SecretHalves([] + ClearBytes(h, 0x81, 0) + HiddenBytes(h) + laid, ClearBytes(h, 0x81, 0), HiddenBytes(h), laid);
      r, sent := SendSecret(buf, n, h, Inner(h, laid));
    }

    /** Wrap everything after octet 24, patch the length before it, send. */
    method SendSecret(buf: array<byte>, n: nat, h: Header, ghost inner: seq<byte>) returns (r: Reply, ghost sent: bool)
      requires ValidHeader(h) && !closed && !bad && gss != null && gss.Valid()
      requires CLEAR_LEN <= n <= buf.Length
      requires buf[..n][..CLEAR_LEN] == ClearBytes(h, 0x81, 0) && buf[..n][CLEAR_LEN..] == inner
      modifies this`wire, this`bad, buf, gss
      ensures gss.Valid()
      ensures var w := Td2.Wrapped(aead, gss.session, old(gss.wrapSeqNum), inner);
        && (r.Nil? <==> w.Ok?) && (w.Panic? ==> r.Panics?)
        && (sent ==> w.Ok? && |w.value| >= 28 && wire == old(wire) + SecretMessage(h, w.value))
      ensures sent ==> !bad
      ensures r.Nil? && !sent ==> bad
    {
      hide ClearBytes, Td2.Wrapped, Td2.InSequence;
      sent := false;
      assert buf[CLEAR_LEN..n] == buf[..n][CLEAR_LEN..];
      Td2.WrappedLonger(aead, gss.session, gss.wrapSeqNum, inner);
      var w := gss.Wrap(aead, buf[CLEAR_LEN..n]);
      if w.Err? { return Error, false; }
      if w.Panic? { return Reply.Panics, false; }
      assert buf[..CLEAR_LEN] == buf[..n][..CLEAR_LEN];
      PatchAlone(buf, |w.value| - 28, h);
      var ok := Transmit(buf[..CLEAR_LEN] + w.value);
      sent := ok;
      r := Nil;
    }

    method PatchAlone(buf: array<byte>, len: nat, ghost h: Header)
      requires buf.Length >= CLEAR_LEN && buf[..CLEAR_LEN] == ClearBytes(h, 0x81, 0)
      modifies buf
      ensures buf[..CLEAR_LEN] == ClearBytes(h, 0x81, len)
    {
      hide ClearBytes;
      assert buf[..CLEAR_LEN] == [] + ClearBytes(h, 0x81, 0) + [];
      PatchLength(buf, 0, len, [], h, 0x81, []);
      assert [] + ClearBytes(h, 0x81, len) + [] == ClearBytes(h, 0x81, len);
    }

    // ----- Reading

    /** Octets that will come before any fault or end of file. */
    ghost function Avail(): seq<byte>
      requires buffer.Valid()
      reads buffer, buffer.window, net
    {
      buffer.Pending() + R.Clean(net.script)
    }

    /** Octets that will ever come. */
    ghost function Total(): seq<byte>
      requires buffer.Valid()
      reads buffer, buffer.window, net
    {
      buffer.Pending() + R.Stream(net.script)
    }

    method Take(n: nat) returns (ok: bool, data: seq<byte>)
      requires buffer.Valid()
      modifies buffer, buffer.store, net
      ensures buffer.Valid()
      ensures buffer.store == old(buffer.store) || fresh(buffer.store)
      ensures ok ==> |data| == n && old(Total()) == data + Total()
      ensures !ok ==> Total() == old(Total())
      ensures n <= |old(Avail())| ==> ok && data == old(Avail())[..n] && old(Avail())[n..] <= Avail()
    {
      var r;
      ghost var avail := Avail();
      r, data := buffer.ReadNext(n, net);
      ok := r == R.Filled;
      if ok {
        assert data + buffer.Pending() + R.Stream(net.script) == data + Total();
        if n <= |avail| {
          FrontOf(avail, data, buffer.Pending(), R.Clean(net.script));
        }
      }
    }

    /** readWsFrameHeader: the declared length is read and not used. */
    method TakeWsHeader() returns (ok: bool, used: nat)
      requires buffer.Valid()
      modifies buffer, buffer.store, net
      ensures buffer.Valid()
      ensures buffer.store == old(buffer.store) || fresh(buffer.store)
      ensures used <= |old(Total())| && Total() == old(Total())[used..]
      ensures ReadWsHeader(old(Avail())).FrameRefused? ==> !ok
      ensures ReadWsHeader(old(Avail())).Frame? ==>
                && ok && used == ReadWsHeader(old(Avail())).used <= |old(Avail())|
                && old(Avail())[used..] <= Avail()
    {
      hide LanConnection.Total, LanConnection.Avail, FromBe;
      ghost var all := Avail();
      used := 0;
      var d;
      ok, d := Take(2);
      if !ok { return; }
      used := 2;
      if d[0] < 0x80 || d[0] % 16 != 2 {
        ok := false;
        return;
      }
      var len := d[1] % 128;
      if len == 126 || len == 127 {
        var more := if len == 126 then 2 else 8;
        ok, d := Take(more);
        if ok {
          used := used + more;
        }
      }
    }

    method PeekHeader() returns (ok: bool, head: seq<byte>)
      requires buffer.Valid()
      modifies buffer, buffer.store, net
      ensures buffer.Valid() && Total() == old(Total())
      ensures buffer.store == old(buffer.store) || fresh(buffer.store)
      ensures ok ==> |head| == LAN_HEADER_LEN
      ensures LAN_HEADER_LEN <= |old(Avail())| ==>
                ok && head == old(Avail())[..LAN_HEADER_LEN] && old(Avail()) <= Avail()
    {
      ghost var avail := Avail();
      var r;
      r, head := buffer.Peek(LAN_HEADER_LEN, net);
      ok := r == R.Filled;
      if ok && LAN_HEADER_LEN <= |avail| {
        FrontSame(avail, head, buffer.Pending(), R.Clean(net.script));
      }
    }

    function Secured(): Option<Td2.Session> { if gss == null then None else Some(gss.session) }

    /** readLanMessageRawInto: whatever the reads deliver, one message is
        taken off the stream, or an error is returned and the connection
        marked bad. A message whose control data cannot be walked panics, or
        never returns, and marks nothing. */
    method ReadLanMessage() returns (r: Reading)
      requires buffer.Valid()
      modifies this`bad, this`transactionInProgress, buffer, buffer.store, net
      ensures buffer.Valid()
      ensures buffer.store == old(buffer.store) || fresh(buffer.store)
      ensures var all := old(Avail()); var whole := Read(tls, aead, Secured(), all);
        && (whole.Message? ==>
              && r == whole && r.used <= |all| && all[r.used..] <= Avail()
              && r.used <= |old(Total())| && Total() == old(Total())[r.used..])
        && (whole.Refused? || whole.Panics? || whole.Hangs? ==> r == whole)
      ensures r.Refused? || r.Short? ==> bad
      ensures r.Message? || r.Panics? || r.Hangs? ==> bad == old(bad)
    {
      hide LanConnection.Total, LanConnection.Avail, ReadLan, ReadWsHeader;
      ghost var all := Avail();
      var ok, used := true, 0;
      if tls {
        ok, used := TakeWsHeader();
        if !ok {
          bad := true;
          return Refused;
        }
      }
      r := ReadAfterFrame(used, all);
    }

    /** The rest of readLanMessageRawInto; all is what could be read before
        the frame header. */
    method ReadAfterFrame(used: nat, ghost all: seq<byte>) returns (r: Reading)
      requires buffer.Valid()
      modifies this`bad, this`transactionInProgress, buffer, buffer.store, net
      ensures buffer.Valid()
      ensures buffer.store == old(buffer.store) || fresh(buffer.store)
      ensures r.Refused? || r.Short? ==> bad
      ensures r.Message? || r.Panics? || r.Hangs? ==> bad == old(bad)
      ensures used <= |all| && all[used..] <= old(Avail()) ==>
                var whole := ReadLan(aead, Secured(), all, used);
                && (whole.Message? ==>
                      && r == whole && used <= r.used <= |all| && all[r.used..] <= Avail()
                      && r.used - used <= |old(Total())| && Total() == old(Total())[r.used - used..])
                && (whole.Refused? || whole.Panics? || whole.Hangs? ==> r == whole)
    {
      hide LanConnection.Total, LanConnection.Avail, Contents, ParseHeader, ReadLan;
      ghost var avail := Avail();
      if used <= |all| && all[used..] <= avail && !ReadLan(aead, Secured(), all, used).Short? {
        LanSlices(aead, Secured(), all, used, avail);
      }
      var ok, head := PeekHeader();
      if !ok {
        bad := true;
        return Short;
      }
      var received := ParseHeader(head);
      var n := LAN_HEADER_LEN + received.bodyLen;
      ghost var peeked := Avail();
      if n <= |avail| <= |peeked| && avail <= peeked {
        PrefixSlices(avail, peeked, n);
      }
      var data;
      ok, data := Take(n);
      if !ok {
        bad := true;
        return Short;
      }
      transactionInProgress := received.header.byteVar % 2 == 1;
      r := Contents(aead, Secured(), received, data, used + n);
      ContentsUsed(aead, Secured(), received, data, used + n);
      if r.Refused? {
        bad := true;
      }
    }
  }

  // ReadLan in terms of what a reader that has come this far can see.
  lemma {:induction false} LanSlices(a: Td2.Aead, gss: Option<Td2.Session>, all: seq<byte>, at: nat, avail: seq<byte>)
    requires at <= |all| && all[at..] <= avail && !ReadLan(a, gss, all, at).Short?
    ensures LAN_HEADER_LEN <= |avail|
    ensures var received := ParseHeader(avail[..LAN_HEADER_LEN]);
      var n := LAN_HEADER_LEN + received.bodyLen;
      && at + n <= |all| && n <= |avail|
      && ReadLan(a, gss, all, at) == Contents(a, gss, received, avail[..n], at + n)
      && all[at + n..] <= avail[n..]
  {
    hide ParseHeader, Contents;
    assert all[at..at + LAN_HEADER_LEN] == avail[..LAN_HEADER_LEN];
    var n := LAN_HEADER_LEN + ParseHeader(avail[..LAN_HEADER_LEN]).bodyLen;
    assert all[at..at + n] == avail[..n];
  }

  lemma {:induction false} PrefixSlices(a: seq<byte>, b: seq<byte>, n: nat)
    requires a <= b && n <= |a|
    ensures b[..n] == a[..n] && a[n..] <= b[n..]
  {}

  lemma {:induction false} FrontSame(all: seq<byte>, data: seq<byte>, pending: seq<byte>, clean: seq<byte>)
    requires all <= pending + clean && |data| <= |pending| && data == pending[..|data|] && |data| <= |all|
    ensures data == all[..|data|]
  {
    assert (pending + clean)[..|data|] == data;
  }

  lemma {:induction false} FrontOf(all: seq<byte>, data: seq<byte>, pending: seq<byte>, clean: seq<byte>)
    requires all <= data + pending + clean && |data| <= |all|
    ensures data == all[..|data|] && all[|data|..] <= pending + clean
  {
    assert data + pending + clean == data + (pending + clean);
    assert all[..|data|] == (data + (pending + clean))[..|data|] == data;
  }

  lemma {:induction false} PlainWhole(tls: bool, h: Header, body: seq<byte>)
    requires |h.authNonce| == 8
    ensures forall c: seq<byte> :: Prefix(tls, |body|) + c + HiddenBytes(h) + body
                                   == Prefix(tls, |body|) + c + (HiddenBytes(h) + body)
    ensures PlainMessage(tls, h, body) == Prefix(tls, |body|) + ClearBytes(h, 1, |body|) + (HiddenBytes(h) + body)
  {
    hide Prefix, ClearBytes, HiddenBytes;
  }

  lemma {:induction false} SecretHalves(s: seq<byte>, c: seq<byte>, d: seq<byte>, body: seq<byte>)
    requires |c| == CLEAR_LEN && s == [] + c + d + body
    ensures s[..CLEAR_LEN] == c && s[CLEAR_LEN..] == d + body
  {}
}
