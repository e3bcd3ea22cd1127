/** The read buffer as a view of the byte stream a connection delivers. */
module ReadBuffer {
  import opened Bytes
  import opened Buffers

  /** How one Read of the connection ended. */
  datatype End = More | Eof | Fault

  /** Octets that arrive together, and the error reported with the last one. */
  datatype Chunk = Chunk(data: seq<byte>, end: End)

  /** Everything a schedule will deliver. */
  function Stream(script: seq<Chunk>): seq<byte> {
    if script == [] then [] else script[0].data + Stream(script[1..])
  }

  /** The octets that arrive before any fault or end of file is reported. */
  function Clean(script: seq<Chunk>): seq<byte> {
    if script == [] || script[0].end == Fault then []
    else if script[0].end == Eof then script[0].data
    else script[0].data + Clean(script[1..])
  }

  function Work(script: seq<Chunk>): nat {
    if script == [] then 0 else |script[0].data| + 1 + Work(script[1..])
  }

  /** One read with the given room: what arrives, how it ends, what is left.
      An exhausted schedule is at end of file. */
  function Deliver(script: seq<Chunk>, room: nat): (seq<byte>, End, seq<Chunk>) {
    if script == [] then ([], Eof, [])
    else
      var c := script[0];
      if |c.data| > room then (c.data[..room], More, [Chunk(c.data[room..], c.end)] + script[1..])
      else (c.data, c.end, script[1..])
  }

  lemma {:induction false} DeliverStream(script: seq<Chunk>, room: nat)
    requires room > 0
    ensures var (got, end, rest) := Deliver(script, room);
      && |got| <= room
      && Stream(script) == got + Stream(rest)
      && (end == More ==> Work(rest) < Work(script))
  {
    if script != [] && |script[0].data| > room {
      var c := script[0];
      var rest := [Chunk(c.data[room..], c.end)] + script[1..];
      assert rest[1..] == script[1..];
      assert c.data == c.data[..room] + c.data[room..];
    }
  }

  lemma {:induction false} DeliverClean(script: seq<Chunk>, room: nat)
    requires room > 0 && Clean(script) != []
    ensures var (got, end, rest) := Deliver(script, room);
      && end != Fault
      && (end == More ==> Clean(script) == got + Clean(rest))
      && (end == Eof ==> Clean(script) == got)
  {
    var c := script[0];
    if |c.data| > room {
      var rest := [Chunk(c.data[room..], c.end)] + script[1..];
      assert rest[1..] == script[1..];
      assert c.data == c.data[..room] + c.data[room..];
    }
  }

  /** Where a read loop stands: have is everything gathered so far. */
  ghost predicate Progress(total: seq<byte>, clean: seq<byte>, need: nat,
                           have: seq<byte>, end: End, script: seq<Chunk>) {
    && have + Stream(script) == total
    && (need <= |clean| && end == More ==> have + Clean(script) == clean)
    && (need <= |clean| && end != More ==> end == Eof && have == clean)
  }

  lemma {:induction false} ProgressStep(total: seq<byte>, clean: seq<byte>, need: nat,
                                        have: seq<byte>, script: seq<Chunk>, room: nat)
    requires Progress(total, clean, need, have, More, script)
    requires |have| < need && room > 0
    ensures var (got, end, rest) := Deliver(script, room);
            Progress(total, clean, need, have + got, end, rest)
  {
    var (got, end, rest) := Deliver(script, room);
    DeliverStream(script, room);
    assert have + (got + Stream(rest)) == have + got + Stream(rest);
    if need <= |clean| {
      DeliverClean(script, room);
      assert have + (got + Clean(rest)) == have + got + Clean(rest);
    }
  }

  /** A connection that plays a schedule of partial reads and errors. */
  class Connection {
    var script: seq<Chunk>

    constructor (script: seq<Chunk>)
      ensures this.script == script
    {
      this.script := script;
    }

    // The destination must not be empty: a reader may report no progress
    // and no error on an empty one, for ever.
    method Read(dest: array<byte>, at: nat) returns (n: nat, end: End)
      requires at < dest.Length
      modifies this, dest
      ensures at + n <= dest.Length
      ensures var (got, e, rest) := Deliver(old(script), dest.Length - at);
        n == |got| && dest[..at + n] == old(dest[..at]) + got && end == e && script == rest
    {
      DeliverStream(script, dest.Length - at);
      var (got, e, rest) := Deliver(script, dest.Length - at);
      n, end, script := |got|, e, rest;
      forall i | 0 <= i < n {
        dest[at + i] := got[i];
      }
    }
  }

  /** The read loop of fill: into dest after the first start octets, until
      need octets are there or the connection reports an end. */
  method ReadUntil(dest: array<byte>, start: nat, need: nat, conn: Connection) returns (have: nat, end: End)
    requires start < need <= dest.Length
    modifies conn, dest
    ensures start <= have <= dest.Length
    ensures end == More ==> have >= need
    ensures Progress(old(dest[..start] + Stream(conn.script)), old(dest[..start] + Clean(conn.script)),
                     need, dest[..have], end, conn.script)
  {
    ghost var total := dest[..start] + Stream(conn.script);
    ghost var clean := dest[..start] + Clean(conn.script);
    have, end := start, More;
    while end == More && have < need
      invariant start <= have <= dest.Length
      invariant Progress(total, clean, need, dest[..have], end, conn.script)
      decreases end == More, Work(conn.script)
    {
      have, end := ReadOnce(dest, have, need, conn, total, clean);
    }
  }

  method ReadOnce(dest: array<byte>, start: nat, need: nat, conn: Connection,
                  ghost total: seq<byte>, ghost clean: seq<byte>)
    returns (have: nat, end: End)
    requires start < need <= dest.Length
    requires Progress(total, clean, need, dest[..start], More, conn.script)
    modifies conn, dest
    ensures start <= have <= dest.Length
    ensures Progress(total, clean, need, dest[..have], end, conn.script)
    ensures end == More ==> Work(conn.script) < old(Work(conn.script))
  {
    hide Progress, Deliver;
    ProgressStep(total, clean, need, dest[..start], conn.script, dest.Length - start);
    DeliverStream(conn.script, dest.Length - start);
    var n, e := conn.Read(dest, start);
    have, end := start + n, e;
  }

  /** copy(dest, src[lo:hi]), which may overlap. */
  method MoveToFront(src: array<byte>, lo: nat, hi: nat, dest: array<byte>)
    requires lo <= hi <= src.Length && hi - lo <= dest.Length
    modifies dest
    ensures dest[..hi - lo] == old(src[lo..hi])
  {
    forall i | 0 <= i < hi - lo {
      dest[i] := src[lo + i];
    }
  }

  datatype FillResult = Filled | UnexpectedEof | ReadFault

  class ReadBuffer {
    var store: array<byte>
    // The pending slice: a window of store, or of an array too large to keep.
    var window: array<byte>
    var lo: nat
    var hi: nat

    ghost predicate Valid()
      reads this
    {
      lo <= hi <= window.Length && store.Length <= MAX_CACHED
    }

    /** Octets read but not yet consumed. */
    ghost function Pending(): seq<byte>
      requires Valid()
      reads this, window
    {
      window[lo..hi]
    }

    constructor ()
      ensures Valid() && Pending() == [] && fresh(store) && fresh(window)
    {
      store := new byte[DEFAULT_SIZE];
      window := new byte[0];
      lo, hi := 0, 0;
    }

    // The first step of fill: room for need octets, with what is pending
    // moved to the front. The copy may overlap its source.
    method Compact(need: nat) returns (dest: array<byte>)
      requires Valid() && need > hi - lo
      modifies this, store
      ensures Valid() && dest.Length >= need && lo == 0 && hi == old(hi - lo)
      ensures window == dest && Pending() == old(Pending())
      ensures dest == old(store) || fresh(dest)
      ensures store == old(store) || store == dest
    {
      dest := store;
      if need > dest.Length {
        dest := new byte[(need / DEFAULT_SIZE + 1) * DEFAULT_SIZE];
        if dest.Length <= MAX_CACHED {
          store := dest;
        }
      }
      MoveToFront(window, lo, hi, dest);
      window, lo, hi := dest, 0, hi - lo;
    }

    // No octet is lost, duplicated or reordered, whatever the schedule and
    // however the call ends: what is pending followed by what the connection
    // still holds never changes. When enough octets come before a fault,
    // the call succeeds.
    method Fill(need: nat, conn: Connection) returns (r: FillResult)
      requires Valid()
      modifies this, store, conn
      ensures Valid()
      ensures Pending() + Stream(conn.script) == old(Pending() + Stream(conn.script))
      ensures |old(Pending())| <= |Pending()|
      ensures r == Filled ==> need <= |Pending()|
      ensures r == UnexpectedEof ==> |Pending()| < need
      ensures need <= |old(Pending())| ==> r == Filled && unchanged(conn)
      ensures need <= |old(Pending() + Clean(conn.script))| ==>
                r == Filled && old(Pending() + Clean(conn.script)) <= Pending() + Clean(conn.script)
      ensures store == old(store) || fresh(store)
      ensures window == old(window) || window == old(store) || fresh(window)
    {
      if need <= hi - lo {
        return Filled;
      }
      var dest := Compact(need);
      var have, end := ReadUntil(dest, hi, need, conn);
      hi := have;
      r := if end == Fault then ReadFault else if have < need then UnexpectedEof else Filled;
    }

    /** peek: the window of the next need octets, nothing consumed. */
    method Peek(need: nat, conn: Connection) returns (r: FillResult, data: seq<byte>)
      requires Valid()
      modifies this, store, conn
      ensures Valid()
      ensures Pending() + Stream(conn.script) == old(Pending() + Stream(conn.script))
      ensures r == Filled ==> need <= |Pending()| && data == Pending()[..need]
      ensures need <= |old(Pending() + Clean(conn.script))| ==>
                r == Filled && old(Pending() + Clean(conn.script)) <= Pending() + Clean(conn.script)
      ensures store == old(store) || fresh(store)
      ensures window == old(window) || window == old(store) || fresh(window)
    {
      data := [];
      r := Fill(need, conn);
      if r == Filled {
        data := window[lo..lo + need];
      }
    }

    /** next: consume need pending octets. */
    method Next(need: nat) returns (data: seq<byte>)
      requires Valid() && need <= |Pending()|
      modifies this
      ensures Valid() && window == old(window) && store == old(store)
      ensures data + Pending() == old(Pending()) && |data| == need
    {
      data := window[lo..lo + need];
      lo := lo + need;
    }

    /** readNext: exactly n octets, or an error and nothing consumed. */
    method ReadNext(n: nat, conn: Connection) returns (r: FillResult, data: seq<byte>)
      requires Valid()
      modifies this, store, conn
      ensures Valid()
      ensures r == Filled ==> |data| == n && data + Pending() + Stream(conn.script) == old(Pending() + Stream(conn.script))
      ensures r != Filled ==> Pending() + Stream(conn.script) == old(Pending() + Stream(conn.script))
      ensures n <= |old(Pending() + Clean(conn.script))| ==>
                r == Filled && old(Pending() + Clean(conn.script)) <= data + Pending() + Clean(conn.script)
      ensures store == old(store) || fresh(store)
      ensures window == old(window) || window == old(store) || fresh(window)
    {
      data := [];
      r := Fill(n, conn);
      if r == Filled {
        data := Next(n);
      }
    }
  }
}
