/** fastLoadConnection and fastLoadTx over control and data sessions that may
    fail at any statement. */
module FastLoadTx {
  import opened Bytes
  import opened FastLoadEncode
  import opened FastLoadRow
  import opened FastLoadChannel
  import opened FastLoadDataChannel
  import opened FastLoadDeal
  import opened FastLoadScript

  /** rowNumber is an int32. */
  const MAX_ROW := 0x7FFF_FFFF

  datatype Reply = Succeeded | Refused | Errored

  datatype EndReply = Ended(rowsSent: nat, clean: bool) | Aborted | EndRefused

  datatype BeginReply = Begun(tx: Transaction) | NoColumns | NotClosed | BeginFailed

  datatype RowReply = Row(number: nat) | RowRefused | RowFailed(why: Outcome)

  /** A control or diagnostic session, with whatever the server answers. */
  class Session {
    var closed: bool
    var transactionInProgress: bool
    // How often in a row the server will still leave a transaction open.
    var patience: nat

    constructor ()
      ensures !closed
    {
      closed := false;
      transactionInProgress := false;
      patience := 0;
    }

    method Close()
      modifies this`closed
      ensures closed
    {
      closed := true;
    }

    method Exec(s: Statement) returns (err: Option<Error>)
      modifies this`transactionInProgress, this`patience
      ensures closed ==> err.Some?
      ensures err.None? && s.EndTransaction? && transactionInProgress ==> patience < old(patience)
    {
      var answered: bool := *;
      if closed || !answered {
        return Some(Transport);
      }
      transactionInProgress := *;
      if !s.EndTransaction? {
        patience := *;
      } else if patience > 0 {
        patience := patience - 1;
      } else {
        transactionInProgress := false;
      }
      err := *;
    }
  }

  /** How many data sessions to open: what CHECK WORKLOAD said, else the AMP
      count, within the configured maximum. */
  function SessionCount(reply: int, amps: int, max: nat): (n: nat)
    requires max > 0
    ensures 1 <= n <= max
    ensures 1 <= reply <= max ==> n == reply
    ensures reply == 0 && 1 <= amps <= max ==> n == amps
  {
    var n := if reply == 0 then amps else reply;
    if n <= 0 || n > max then max else n
  }

  function Elems(chs: seq<DataChannel>): set<DataChannel> { set ch | ch in chs }

  predicate Distinct(chs: seq<DataChannel>) { forall i, j :: 0 <= i < j < |chs| ==> chs[i] != chs[j] }

  /** Distinct open channels with the same columns. */
  ghost predicate Fleet(chs: seq<DataChannel>, encoders: seq<Encoder>)
    reads chs
  {
    Distinct(chs) && forall i :: 0 <= i < |chs| ==> !chs[i].st.closed && chs[i].encoders == encoders
  }

  ghost function StatesOf(chs: seq<DataChannel>): (s: seq<State>)
    reads chs
    ensures |s| == |chs| && forall i :: 0 <= i < |chs| ==> s[i] == chs[i].st
  {
    seq(|chs|, i requires 0 <= i < |chs| reads chs => chs[i].st)
  }

  lemma {:induction false} NoElems()
    ensures Elems([]) == {}
  {}

  lemma {:induction false} TailElems(chs: seq<DataChannel>, i: nat)
    requires i < |chs|
    ensures Elems(chs[i..]) == Elems(chs[i + 1..]) + {chs[i]}
  {
    assert chs[i..] == [chs[i]] + chs[i + 1..];
  }

  class Connection {
    const maxSessions: nat
    var controlSession: Session?
    var diagnosticSession: Session?
    var currentTransaction: Transaction?
    var isOpen: bool
    ghost var log: seq<Entry>
    ghost var channels: set<DataChannel>
    ghost var sessions: set<Session>

    /** Every session still open is the control or diagnostic session. */
    ghost predicate NoLeak()
      reads `controlSession, `diagnosticSession, `sessions, sessions
    {
      && (controlSession != null ==> controlSession in sessions)
      && (diagnosticSession != null ==> diagnosticSession in sessions)
      && (forall s :: s in sessions ==> (s.closed <==> s != controlSession && s != diagnosticSession))
    }

    /** isOpen means that both sessions exist, and neither does otherwise. */
    ghost predicate SessionsOk()
      reads `controlSession, `diagnosticSession, `sessions, `isOpen, sessions
    {
      && NoLeak() && (isOpen <==> controlSession != null) && (isOpen <==> diagnosticSession != null)
      && (isOpen ==> controlSession != diagnosticSession)
    }

    /** Every data channel ever opened is closed, except these. */
    ghost predicate ChannelsOk(live: set<DataChannel>)
      reads `channels, channels
    {
      && live <= channels
      && (forall ch :: ch in channels ==> ch.Valid())
      && (forall ch :: ch in channels ==> ch.st.closed || ch in live)
    }

    /** CHECKPOINT LOADING END was executed only when every row 1..RowsSent
        had been sent. */
    ghost predicate LogOk()
      reads `log
    {
      forall i :: 0 <= i < |log| && log[i].statement.CheckpointEnd? ==> AllSent(log[i].channels, log[i].rows)
    }

    /** Sessions and data channels are only added, freshly allocated. */
    twostate predicate Extends(oldSessions: set<Session>, oldChannels: set<DataChannel>)
      reads `sessions, `channels
    {
      && oldSessions <= sessions && fresh(sessions - oldSessions)
      && oldChannels <= channels && fresh(channels - oldChannels)
    }

    lemma {:induction false} InChannels(chs: seq<DataChannel>)
      requires ChannelsOk(Elems(chs))
      ensures forall ch :: ch in chs ==> ch in channels
    {
      assert forall ch :: ch in chs ==> ch in Elems(chs);
    }

    /** Both sessions are open and the log so far is sound. */
    ghost predicate Ready()
      reads this, sessions
    {
      SessionsOk() && LogOk() && isOpen
    }

    ghost predicate Valid()
      reads this, currentTransaction, channels, sessions
    {
      && SessionsOk() && LogOk()
      && (currentTransaction == null ==> ChannelsOk({}))
      && (currentTransaction != null ==>
            && isOpen && currentTransaction.conn == this
            && ChannelsOk(Elems(currentTransaction.dataChannels))
            && (forall ch :: ch in currentTransaction.dataChannels ==> ch in channels)
            && currentTransaction.Live())
    }

    constructor (maxSessions: int)
      ensures Valid() && currentTransaction == null && !isOpen && log == []
      ensures this.maxSessions > 0 && channels == {} && sessions == {}
    {
      this.maxSessions := if maxSessions < 1 then 8 else maxSessions;
      controlSession := null;
      diagnosticSession := null;
      currentTransaction := null;
      isOpen := false;
      log := [];
      channels := {};
      sessions := {};
    }

    /** openFastLoadConnection: dialling, the handshake or the logon may
        fail; what was dialled is then closed. */
    method OpenSession() returns (s: Session?)
      modifies this`sessions
      ensures old(sessions) <= sessions && fresh(sessions - old(sessions))
      ensures s != null ==> s in sessions && s !in old(sessions)
      ensures forall x :: x in sessions && x !in old(sessions) ==> (x.closed <==> x != s)
    {
      s := null;
      var dialled: bool := *;
      if dialled {
        var c := new Session();
        sessions := sessions + {c};
        var loggedOn: bool := *;
        if loggedOn {
          s := c;
        } else {
          c.Close();
        }
      }
    }

    method CloseSessions()
      requires SessionsOk() || (NoLeak() && diagnosticSession == null)
      modifies this`controlSession, this`diagnosticSession, this`isOpen, controlSession, diagnosticSession
      ensures SessionsOk() && !isOpen
    {
      if diagnosticSession != null {
        diagnosticSession.Close();
      }
      if controlSession != null {
        controlSession.Close();
      }
      diagnosticSession, controlSession := null, null;
      isOpen := false;
    }

    method Open() returns (ok: bool)
      requires SessionsOk() && !isOpen
      modifies this`controlSession, this`diagnosticSession, this`isOpen, this`sessions
      ensures SessionsOk() && (ok <==> isOpen)
      ensures ok ==> fresh(controlSession) && fresh(diagnosticSession)
      ensures old(sessions) <= sessions && fresh(sessions - old(sessions))
    {
      var cc := OpenSession();
      if cc == null {
        return false;
      }
      controlSession := cc;
      var dc := OpenSession();
      if dc == null {
        CloseSessions();
        return false;
      }
      diagnosticSession := dc;
      isOpen := true;
      ok := true;
    }

    /** closeDataChannels. */
    method CloseDataChannels(chs: seq<DataChannel>)
      requires ChannelsOk(Elems(chs))
      modifies chs
      ensures ChannelsOk({})
    {
      hide DataChannel.Valid;
      for i := 0 to |chs|
        invariant forall ch :: ch in channels ==> ch.Valid()
        invariant forall ch :: ch in channels ==> ch.st.closed || ch in Elems(chs[i..])
      {
        assert chs[i] in Elems(chs);
        assert Elems(chs[i..]) == Elems(chs[i + 1..]) + {chs[i]} by { TailElems(chs, i); }
        chs[i].Close();
      }
    }

    /** openDataChannels: n sessions, or none left open. */
    method OpenDataChannels(n: nat, encoders: seq<Encoder>) returns (chs: Option<seq<DataChannel>>)
      requires ChannelsOk({})
      modifies this`channels
      ensures old(channels) <= channels && fresh(channels - old(channels))
      ensures chs.None? ==> ChannelsOk({})
      ensures chs.Some? ==>
                && ChannelsOk(Elems(chs.value)) && |chs.value| == n && Fleet(chs.value, encoders)
                && (forall i :: 0 <= i < |chs.value| ==> fresh(chs.value[i]))
                && Dealt(StatesOf(chs.value), 0)
    {
      var open: seq<DataChannel> := [];
      hide DataChannel.Valid, Startable;
      while |open| < n
        invariant |open| <= n && ChannelsOk(Elems(open)) && Fleet(open, encoders)
        invariant old(channels) <= channels && fresh(channels - old(channels))
        invariant forall i :: 0 <= i < |open| ==> fresh(open[i])
        invariant forall i :: 0 <= i < |open| ==> open[i].st.accepted == []
      {
        var loggedOn: bool := *;
        var bodyLen: int := *;
        if !loggedOn || bodyLen < 0 || !Startable(encoders, bodyLen) {
          CloseDataChannels(open);
          return None;
        }
        var ch := new DataChannel(encoders, bodyLen);
        channels := channels + {ch};
        open := open + [ch];
      }
      chs := Some(open);
      NoneDealt(StatesOf(open));
    }

    /** Statement execution on the control session. */
    method Exec(statement: Statement, ghost rows: nat, ghost states: seq<State>) returns (err: Option<Error>)
      requires SessionsOk() && controlSession != null
      requires LogOk() && (statement.CheckpointEnd? ==> AllSent(states, rows))
      modifies this`log, controlSession`transactionInProgress, controlSession`patience
      ensures SessionsOk() && LogOk() && log == old(log) + [Entry(statement, err, rows, states)]
      ensures err.None? && statement.EndTransaction? && controlSession.transactionInProgress ==>
                controlSession.patience < old(controlSession.patience)
    {
      err := controlSession.Exec(statement);
      log := log + [Entry(statement, err, rows, states)];
    }

    /** The statements before the data channels are opened, and how many of
        those there are to be. */
    method Plan() returns (n: Option<nat>)
      requires Ready() && maxSessions > 0
      modifies this`log, controlSession
      ensures Ready() && Continues(old(log), log)
      ensures n.Some? ==> 1 <= n.value <= maxSessions
    {
      hide AllSent, SessionCount;
      var err := Exec(Prepare, 0, []);
      if err.Some? { return None; }
      var reply, supported: bool := 0, *;
      if supported {
        err := Exec(CheckWorkload, 0, []);
        if err.Some? { return None; }
        err := Exec(CheckWorkloadEnd, 0, []);
        if err.Some? { return None; }
        reply := *;
      }
      var amps: int := *;
      n := Some(SessionCount(reply, amps, maxSessions));
    }

    /** BeginFastLoad: on any failure after BEGIN LOADING the load is
        aborted, before it the data channels are closed. */
    method BeginFastLoad(columns: nat, encoders: Option<seq<Encoder>>, usingInsert: bool) returns (r: BeginReply)
      requires Valid() && maxSessions > 0
      modifies this, controlSession, diagnosticSession
      ensures Valid()
      ensures Extends(old(sessions), old(channels)) && Continues(old(log), log)
      ensures columns == 0 ==> r.NoColumns? && unchanged(this)
      ensures columns > 0 && old(currentTransaction) != null ==> r.NotClosed? && unchanged(this)
      ensures r.Begun? ==> fresh(r.tx) && currentTransaction == r.tx && r.tx.rowNumber == 0 && BegunBy(log)
      ensures r.Begun? ==> 1 <= |r.tx.dataChannels| <= maxSessions
      ensures !r.Begun? ==> currentTransaction == old(currentTransaction)
    {
      hide SessionsOk, LogOk, ChannelsOk, Fleet, Dealt, StatesOf, Elems, BegunBy;
      if columns == 0 {
        return NoColumns;
      }
      if currentTransaction != null {
        return NotClosed;
      }
      if !isOpen {
        var ok := Open();
        if !ok { return BeginFailed; }
      }
      r := StartLoad(encoders, usingInsert);
    }

    /** BeginFastLoad once both sessions are open. */
    method StartLoad(encoders: Option<seq<Encoder>>, usingInsert: bool) returns (r: BeginReply)
      requires Ready() && currentTransaction == null && ChannelsOk({}) && maxSessions > 0
      modifies this, controlSession, diagnosticSession
      ensures Valid()
      ensures Extends(old(sessions), old(channels)) && Continues(old(log), log)
      ensures r.Begun? ==> fresh(r.tx) && currentTransaction == r.tx && r.tx.rowNumber == 0 && BegunBy(log)
      ensures r.Begun? ==> 1 <= |r.tx.dataChannels| <= maxSessions
      ensures r.Begun? || r.BeginFailed?
      ensures !r.Begun? ==> currentTransaction == null
    {
      hide SessionsOk, LogOk, ChannelsOk, Fleet, Dealt, StatesOf, Elems, BegunBy;
      var n := Plan();
      if n.None? || encoders.None? { return BeginFailed; }
      var chs := OpenDataChannels(n.value, encoders.value);
      if chs.None? { return BeginFailed; }
      var tx := new Transaction(this, encoders.value, chs.value);
      var ok := Install(tx, usingInsert);
      r := if ok then Begun(tx) else BeginFailed;
    }

    /** The rest of BeginFastLoad, with its deferred clean-up. */
    method Install(tx: Transaction, usingInsert: bool) returns (ok: bool)
      requires Ready() && currentTransaction == null && ChannelsOk(Elems(tx.dataChannels))
      requires tx.conn == this && tx.Live() && tx.rowNumber == 0
      modifies this, controlSession, diagnosticSession, tx, tx.dataChannels
      ensures Valid()
      ensures Extends(old(sessions), old(channels)) && Continues(old(log), log)
      ensures ok ==> currentTransaction == tx && tx.rowNumber == 0 && BegunBy(log)
      ensures ok ==> tx.dataChannels == old(tx.dataChannels)
      ensures !ok ==> currentTransaction == null
    {
      hide SessionsOk, LogOk, ChannelsOk, Fleet, Dealt, StatesOf, Elems, BegunBy;
      var loading;
      ghost var said;
      ok, loading, said := tx.Setup(usingInsert);
      if ok {
        InChannels(tx.dataChannels);
        currentTransaction := tx;
      } else {
        Discard(tx, loading);
      }
    }

    /** The deferred clean-up of a load that could not be set up. */
    method Discard(tx: Transaction, loading: bool)
      requires Ready() && currentTransaction == null && ChannelsOk(Elems(tx.dataChannels))
      requires tx.conn == this && !tx.done
      modifies this, controlSession, diagnosticSession, tx, tx.dataChannels
      ensures Valid() && currentTransaction == null
      ensures Extends(old(sessions), old(channels)) && Continues(old(log), log)
    {
      hide SessionsOk, LogOk, ChannelsOk, Elems;
      if loading {
        var r := tx.Abort();
      } else {
        CloseDataChannels(tx.dataChannels);
      }
    }

    /** Close aborts any load in progress and closes both sessions. */
    method Close()
      requires Valid()
      modifies this, currentTransaction, channels, sessions
      ensures Valid() && currentTransaction == null && !isOpen
      ensures Extends(old(sessions), old(channels)) && Continues(old(log), log)
      ensures old(currentTransaction) != null ==>
                old(currentTransaction).conn == this && old(currentTransaction).done && old(currentTransaction).Handle()
    {
      if currentTransaction != null {
        CloseCurrent();
      }
      CloseSessions();
    }

    method CloseCurrent()
      requires Valid() && currentTransaction != null
      modifies this, currentTransaction, currentTransaction.dataChannels, controlSession, diagnosticSession
      ensures Valid() && currentTransaction == null
      ensures old(currentTransaction).conn == this && old(currentTransaction).done && old(currentTransaction).Handle()
      ensures Extends(old(sessions), old(channels)) && Continues(old(log), log)
    {
      hide SessionsOk, LogOk, ChannelsOk, Fleet, Dealt, StatesOf, Elems;
      var r := currentTransaction.Close();
    }
  }

  class Transaction {
    const conn: Connection
    const encoders: seq<Encoder>
    const sessionCount: nat
    var dataChannels: seq<DataChannel>
    var rowNumber: nat
    var done: bool

    /** A load in progress: its channels are open and distinct, and hold the
        rows dealt to them. */
    ghost predicate Live()
      reads this, dataChannels
    {
      && !done && |dataChannels| == sessionCount > 0 && rowNumber <= MAX_ROW
      && Fleet(dataChannels, encoders)
      && Dealt(StatesOf(dataChannels), rowNumber)
    }

    /** What a caller holds: the current load or a finished one. */
    ghost predicate Handle()
      reads this, conn
    {
      if done then dataChannels == [] else conn.currentTransaction == this
    }

    constructor (conn: Connection, encoders: seq<Encoder>, dataChannels: seq<DataChannel>)
      ensures this.conn == conn && this.encoders == encoders && this.sessionCount == |dataChannels|
      ensures this.dataChannels == dataChannels && rowNumber == 0 && !done
    {
      this.conn := conn;
      this.encoders := encoders;
      this.sessionCount := |dataChannels|;
      this.dataChannels := dataChannels;
      rowNumber := 0;
      done := false;
    }

    /** AddRow: the next channel in turn gets the next number; a rejected row
        consumes neither. */
    method AddRow(values: seq<Value>) returns (r: RowReply)
      requires conn.Valid() && Handle() && (!done ==> rowNumber < MAX_ROW)
      modifies dataChannels, this`rowNumber
      ensures conn.Valid() && Handle()
      ensures old(done) ==> r.RowRefused? && rowNumber == old(rowNumber)
      ensures r.Row? <==> rowNumber != old(rowNumber)
      ensures r.Row? ==> r.number == rowNumber == old(rowNumber) + 1
      ensures !done ==>
                DealtOne(old(StatesOf(dataChannels)), StatesOf(dataChannels), old(rowNumber), encoders, values, r.Row?)
    {
      hide Connection.SessionsOk, Connection.LogOk, Connection.ChannelsOk, Live, Elems, StatesOf, DealtOne;
      if done {
        return RowRefused;
      }
      r := DealRow(values);
    }

    method DealRow(values: seq<Value>) returns (r: RowReply)
      requires Live() && rowNumber < MAX_ROW && conn.ChannelsOk(Elems(dataChannels))
      modifies dataChannels, this`rowNumber
      ensures Live() && conn.ChannelsOk(Elems(dataChannels))
      ensures r.Row? <==> rowNumber != old(rowNumber)
      ensures r.Row? ==> r.number == rowNumber == old(rowNumber) + 1
      ensures DealtOne(old(StatesOf(dataChannels)), StatesOf(dataChannels), old(rowNumber), encoders, values, r.Row?)
    {
      hide DataChannel.Valid, Dealt, Connection.ChannelsOk, Fleet, StatesOf, RowOk, Frame, Elems, MaxParcelLen;
      var c := rowNumber % |dataChannels|;
      var next := rowNumber + 1;
      ghost var before := StatesOf(dataChannels);
      var o := PushTo(c, next, values);
      if !o.Accepted? {
        DealSame(before, rowNumber, c, dataChannels[c].st);
        return RowFailed(o);
      }
      DealNext(before, rowNumber, dataChannels[c].st, encoders, values);
      rowNumber := next;
      return Row(next);
    }

    /** One channel's pushRow, seen from the whole load. */
    method PushTo(c: nat, number: nat, values: seq<Value>) returns (o: Outcome)
      requires c < |dataChannels| && Fleet(dataChannels, encoders) && conn.ChannelsOk(Elems(dataChannels))
      modifies dataChannels[c]
      ensures conn.ChannelsOk(Elems(dataChannels)) && Fleet(dataChannels, encoders)
      ensures StatesOf(dataChannels) == old(StatesOf(dataChannels))[c := dataChannels[c].st]
      ensures o.Accepted? ==>
                && RowOk(encoders, values) && MaxParcelLen(encoders) <= MAX_PARCEL_LEN
                && dataChannels[c].st.accepted == old(dataChannels[c].st.accepted) + [Frame(encoders, values, number)]
      ensures !o.Accepted? ==> dataChannels[c].st.accepted == old(dataChannels[c].st.accepted)
    {
      var ch := dataChannels[c];
      assert ch in Elems(dataChannels);
      ghost var before := StatesOf(dataChannels);
      ch.Small();
      hide DataChannel.Valid, MaxParcelLen, RowOk, Frame;
      o := ch.PushRow(number, values);
      assert StatesOf(dataChannels) == before[c := ch.st];
    }

    /** Sends pending rows and waits for the server's answers. */
    method Flush() returns (r: Reply)
      requires conn.Valid() && Handle()
      modifies dataChannels
      ensures conn.Valid() && Handle()
      ensures r.Refused? <==> done
      ensures r.Succeeded? ==> AllSent(StatesOf(dataChannels), rowNumber)
    {
      hide Connection.SessionsOk, Connection.LogOk, Connection.ChannelsOk, Fleet, Dealt, Elems, StatesOf, AllSent;
      if done {
        return Refused;
      }
      ghost var before := StatesOf(dataChannels);
      var ok := DispatchAll();
      if !ok {
        SameDealDealt(before, StatesOf(dataChannels), rowNumber);
        return Errored;
      }
      ok := WaitAll();
      SameDealDealt(before, StatesOf(dataChannels), rowNumber);
      if !ok {
        return Errored;
      }
      FlushedSent(StatesOf(dataChannels), rowNumber);
      return Succeeded;
    }

    method DispatchAll() returns (ok: bool)
      requires Fleet(dataChannels, encoders) && conn.ChannelsOk(Elems(dataChannels))
      modifies dataChannels
      ensures Fleet(dataChannels, encoders) && conn.ChannelsOk(Elems(dataChannels))
      ensures SameDeal(old(StatesOf(dataChannels)), StatesOf(dataChannels))
      ensures ok ==> Emptyhanded(StatesOf(dataChannels), |dataChannels|)
    {
      hide Connection.ChannelsOk, Fleet, StatesOf, Elems, CurLoad, Inv;
      for i := 0 to |dataChannels|
        invariant Fleet(dataChannels, encoders) && conn.ChannelsOk(Elems(dataChannels))
        invariant SameDeal(old(StatesOf(dataChannels)), StatesOf(dataChannels))
        invariant Emptyhanded(StatesOf(dataChannels), i)
      {
        var err := DispatchOne(i);
        if err {
          return false;
        }
      }
      ok := true;
    }

    method DispatchOne(i: nat) returns (failed: bool)
      requires i < |dataChannels| && Fleet(dataChannels, encoders) && conn.ChannelsOk(Elems(dataChannels))
      modifies dataChannels[i]
      ensures conn.ChannelsOk(Elems(dataChannels)) && Fleet(dataChannels, encoders)
      ensures StatesOf(dataChannels) == old(StatesOf(dataChannels))[i := dataChannels[i].st]
      ensures dataChannels[i].st.accepted == old(dataChannels[i].st.accepted) && Inv(dataChannels[i].st)
      ensures !failed ==> CurLoad(dataChannels[i].st) == []
    {
      hide DataChannel.Valid, CurLoad, Inv;
      var ch := dataChannels[i];
      assert ch in Elems(dataChannels);
      ghost var before := StatesOf(dataChannels);
      var err := ch.Dispatch();
      failed := err.Some?;
      assert StatesOf(dataChannels) == before[i := ch.st];
    }

    method WaitAll() returns (ok: bool)
      requires Fleet(dataChannels, encoders) && conn.ChannelsOk(Elems(dataChannels))
      modifies dataChannels
      ensures Fleet(dataChannels, encoders) && conn.ChannelsOk(Elems(dataChannels))
      ensures SameDeal(old(StatesOf(dataChannels)), StatesOf(dataChannels))
      ensures ok && Emptyhanded(old(StatesOf(dataChannels)), |dataChannels|) ==>
                Flushed(StatesOf(dataChannels), |dataChannels|)
    {
      hide Connection.ChannelsOk, Fleet, StatesOf, Elems, CurLoad, Inv, Drained;
      ok := true;
      ghost var before := StatesOf(dataChannels);
      for i := 0 to |dataChannels|
        invariant Fleet(dataChannels, encoders) && conn.ChannelsOk(Elems(dataChannels))
        invariant SameDeal(before, StatesOf(dataChannels))
        invariant StatesOf(dataChannels)[i..] == before[i..]
        invariant ok && Emptyhanded(before, |dataChannels|) ==> Flushed(StatesOf(dataChannels), i)
      {
        var err := WaitOne(i);
        if err {
          ok := false;
        }
      }
    }

    method WaitOne(i: nat) returns (failed: bool)
      requires i < |dataChannels| && Fleet(dataChannels, encoders) && conn.ChannelsOk(Elems(dataChannels))
      modifies dataChannels[i]
      ensures conn.ChannelsOk(Elems(dataChannels)) && Fleet(dataChannels, encoders)
      ensures StatesOf(dataChannels) == old(StatesOf(dataChannels))[i := dataChannels[i].st]
      ensures dataChannels[i].st.accepted == old(dataChannels[i].st.accepted)
      ensures Inv(dataChannels[i].st) && CurLoad(dataChannels[i].st) == old(CurLoad(dataChannels[i].st))
      ensures !failed ==> Drained(dataChannels[i].st)
    {
      hide DataChannel.Valid, CurLoad, Inv, Drained;
      var ch := dataChannels[i];
      assert ch in Elems(dataChannels);
      ghost var before := StatesOf(dataChannels);
      var err := ch.Wait();
      failed := err.Some?;
      assert StatesOf(dataChannels) == before[i := ch.st];
    }

    // ----- Control statements

    /** execSessionSQL, execSessionUpdate or execSessionQuery. */
    method Exec(statement: Statement) returns (err: Option<Error>)
      requires conn.Ready() && (statement.CheckpointEnd? ==> AllSent(StatesOf(dataChannels), rowNumber))
      modifies conn`log, conn.controlSession
      ensures conn.Ready()
      ensures conn.log == old(conn.log) + [Entry(statement, err, rowNumber, StatesOf(dataChannels))]
      ensures err.None? && statement.EndTransaction? && conn.controlSession.transactionInProgress ==>
                conn.controlSession.patience < old(conn.controlSession.patience)
    {
      hide AllSent, StatesOf;
      err := conn.Exec(statement, rowNumber, StatesOf(dataChannels));
    }

    /** controlExec refuses once the context is done. */
    method ControlExec(statement: Statement) returns (err: Option<Error>, ghost said: seq<Entry>)
      requires conn.Ready() && (statement.CheckpointEnd? ==> AllSent(StatesOf(dataChannels), rowNumber))
      modifies conn`log, conn.controlSession
      ensures conn.Ready() && conn.log == old(conn.log) + said
      ensures said == [Entry(statement, err, rowNumber, StatesOf(dataChannels))]
              || (said == [] && err == Some(ContextDone))
      ensures err.None? ==> SaidOne(said, statement)
      ensures !statement.CheckpointEnd? ==> NoCheckpoint(said)
    {
      hide AllSent, StatesOf, Connection.Ready;
      var contextDone: bool := *;
      if contextDone {
        return Some(ContextDone), [];
      }
      err := Exec(statement);
      said := [Entry(statement, err, rowNumber, StatesOf(dataChannels))];
    }

    /** fastLoadBegin: BT unless a transaction is in progress. */
    method Begin() returns (ok: bool, ghost said: seq<Entry>)
      requires conn.Ready()
      modifies conn`log, conn.controlSession
      ensures conn.Ready() && conn.log == old(conn.log) + said
      ensures |said| == (if old(conn.controlSession.transactionInProgress) then 0 else 1)
      ensures (ok <==> Said(said, BeginTransaction)) && NoCheckpoint(said)
    {
      hide AllSent, StatesOf, Connection.NoLeak, Connection.LogOk;
      said := [];
      if conn.controlSession.transactionInProgress {
        return true, said;
      }
      var err := Exec(BeginTransaction);
      ok := err.None?;
      said := [Entry(BeginTransaction, err, rowNumber, StatesOf(dataChannels))];
      assert said[0].err == err;
    }

    /** fastLoadCommit: ET until no transaction is in progress. */
    method Commit() returns (ok: bool, ghost said: seq<Entry>)
      requires conn.Ready()
      modifies conn`log, conn.controlSession
      ensures conn.Ready() && conn.log == old(conn.log) + said
      ensures (ok <==> Said(said, EndTransaction)) && NoCheckpoint(said)
      ensures ok ==> !conn.controlSession.transactionInProgress
    {
      hide AllSent, StatesOf, Connection.NoLeak, Connection.LogOk;
      said := [];
      while conn.controlSession.transactionInProgress
        invariant conn.Ready() && conn.log == old(conn.log) + said
        invariant Said(said, EndTransaction) && NoCheckpoint(said)
        decreases if conn.controlSession.transactionInProgress then conn.controlSession.patience + 1 else 0
      {
        var err := Exec(EndTransaction);
        ghost var e := Entry(EndTransaction, err, rowNumber, StatesOf(dataChannels));
        said := said + [e];
        if err.Some? {
          assert said[|said| - 1].err.Some?;
          return false, said;
        }
      }
      ok := true;
    }

    /** dropErrorTables: both tables, or neither any longer than it takes. */
    method DropErrorTables() returns (ok: bool, ghost first: seq<Entry>, ghost second: seq<Entry>)
      requires conn.Ready()
      modifies conn`log, conn.controlSession
      ensures conn.Ready() && conn.log == old(conn.log) + first + second
      ensures Attempts(first, 1) && Attempts(second, 2)
      ensures ok ==> Dropped(first, 1) && Dropped(second, 2)
    {
      hide Connection.Ready, Attempts, Dropped;
      var gone, goOn;
      second := [];
      gone, goOn, first := DropOne(1);
      if !goOn {
        NoAttempts(2);
        return false, first, [];
      }
      ok := gone;
      gone, goOn, second := DropOne(2);
      ok := ok && gone && goOn;
    }

    /** One table: at most five attempts, the next only after a deadlock and
        a pause that the context did not cut short. */
    method DropOne(table: nat) returns (gone: bool, goOn: bool, ghost said: seq<Entry>)
      requires conn.Ready()
      modifies conn`log, conn.controlSession
      ensures conn.Ready() && conn.log == old(conn.log) + said
      ensures Attempts(said, table) && (gone ==> Dropped(said, table))
    {
      hide Connection.Ready, StatesOf;
      said := [];
      var attempt := 1;
      while true
        invariant 1 <= attempt <= 5 && |said| <= attempt - 1
        invariant conn.Ready() && conn.log == old(conn.log) + said
        invariant Attempts(said, table) && forall i :: 0 <= i < |said| ==> said[i].err == Some(Server(DEADLOCK))
        decreases 5 - attempt
      {
        ghost var more;
        var err;
        err, more := ControlExec(DropTable(table));
        said := said + more;
        if err.None? || err == Some(Server(NO_TABLE)) {
          return true, true, said;
        }
        if err != Some(Server(DEADLOCK)) || attempt == 5 {
          return false, true, said;
        }
        var contextDone: bool := *;
        if contextDone {
          return false, false, said;
        }
        attempt := attempt + 1;
      }
    }

    /** releaseLoad: finish the load as it stands, then empty the table. */
    method ReleaseLoad() returns (ok: bool, ghost said: seq<Entry>)
      requires conn.Ready()
      modifies conn`log, conn.controlSession
      ensures conn.Ready() && conn.log == old(conn.log) + said && NoCheckpoint(said)
      ensures ok ==> ReleaseScript(said)
    {
      hide Connection.Ready, StatesOf, ReleaseScript, Said, SaidOne, NoCheckpoint;
      ghost var m, begin, bt, end, n, delete;
      ok, m, begin, bt := ResumeLoad();
      said := m + begin + bt;
      if !ok { return; }
      ok, end, n, delete := CloseLoad();
      NoCheckpointIn(said, end + n + delete);
      assert said + (end + n + delete) == m + begin + bt + end + n + delete;
      said := m + begin + bt + end + n + delete;
      if ok {
        ReleaseWords(m, begin, bt, end, n, delete);
      }
    }

    /** The first half: commit, BEGIN LOADING again, a transaction. */
    method ResumeLoad() returns (ok: bool, ghost m: seq<Entry>, ghost begin: seq<Entry>, ghost bt: seq<Entry>)
      requires conn.Ready()
      modifies conn`log, conn.controlSession
      ensures conn.Ready() && conn.log == old(conn.log) + (m + begin + bt) && NoCheckpoint(m + begin + bt)
      ensures ok ==> Said(m, EndTransaction) && SaidOne(begin, BeginLoading) && Said(bt, BeginTransaction) && |bt| <= 1
    {
      hide Connection.Ready, StatesOf, Said, SaidOne, NoCheckpoint;
      begin, bt := [], [];
      ok, m := Commit();
      assert m + begin + bt == m;
      if !ok { return; }
      var err;
      err, begin := ControlExec(BeginLoading);
      NoCheckpointIn(m, begin);
      assert m + begin + bt == m + begin;
      if err.Some? { return false, m, begin, bt; }
      ok, bt := Begin();
      NoCheckpointIn(m + begin, bt);
    }

    /** The second half: END LOADING, commit, DELETE ALL. */
    method CloseLoad() returns (ok: bool, ghost end: seq<Entry>, ghost n: seq<Entry>, ghost delete: seq<Entry>)
      requires conn.Ready()
      modifies conn`log, conn.controlSession
      ensures conn.Ready() && conn.log == old(conn.log) + (end + n + delete) && NoCheckpoint(end + n + delete)
      ensures ok ==> SaidOne(end, EndLoading) && Said(n, EndTransaction) && SaidOne(delete, DeleteAll)
    {
      hide Connection.Ready, StatesOf, Said, SaidOne, NoCheckpoint;
      n, delete := [], [];
      var err;
      err, end := ControlExec(EndLoading);
      assert end + n + delete == end;
      if err.Some? { return false, end, n, delete; }
      ok, n := Commit();
      NoCheckpointIn(end, n);
      assert end + n + delete == end + n;
      if !ok { return; }
      err, delete := ControlExec(DeleteAll);
      NoCheckpointIn(end + n, delete);
      ok := err.None?;
    }

    /** clearStaleLoad: a table that is still being loaded is released. */
    method ClearStaleLoad() returns (ok: bool, ghost said: seq<Entry>)
      requires conn.Ready()
      modifies conn`log, conn.controlSession
      ensures conn.Ready() && conn.log == old(conn.log) + said && NoCheckpoint(said)
      ensures ok ==> said != [] && said[0].statement.Probe?
      ensures ok && said[0].err.Some? ==>
                said[0].err == Some(Server(BEING_LOADED)) && exists k :: 1 <= k <= |said| && ReleaseScript(said[1..k])
    {
      hide Connection.Ready, StatesOf, ReleaseScript, Attempts, Dropped, NoCheckpoint, SaidOne;
      var err;
      err, said := ControlExec(Probe);
      ghost var release: seq<Entry> := [];
      if err == Some(Server(BEING_LOADED)) {
        ok, release := ReleaseLoad();
        NoCheckpointIn(said, release);
        said := said + release;
        if !ok { return; }
      } else if err.Some? {
        return false, said;
      }
      ghost var first, second;
      ok, first, second := DropErrorTables();
      DropsNoCheckpoint(first, second);
      NoCheckpointIn(said, first);
      NoCheckpointIn(said + first, second);
      ghost var all := said + first + second;
      assert all[1..1 + |release|] == release;
      said := all;
    }

    /** BeginFastLoad from buildFastLoadUsingInsert on; loading says whether
        BEGIN LOADING succeeded. */
    method Setup(usingInsert: bool) returns (ok: bool, loading: bool, ghost said: seq<Entry>)
      requires conn.Ready()
      modifies conn`log, conn.controlSession
      ensures conn.Ready() && conn.log == old(conn.log) + said && NoCheckpoint(said)
      ensures ok ==> loading && BegunBy(conn.log)
      ensures loading ==> exists k :: 0 <= k < |said| && said[k].statement.BeginLoading? && said[k].err.None?
    {
      hide Connection.Ready, StatesOf, ReleaseScript, BeginScript, BegunBy;
      if !usingInsert { return false, false, []; }
      ghost var stale, begun;
      ok, stale := ClearStaleLoad();
      said := stale;
      if !ok { return false, false, said; }
      ok, loading, begun := BeginLoad();
      said := stale + begun;
      if ok {
        BegunAfter(old(conn.log) + stale, begun);
        assert old(conn.log) + said == old(conn.log) + stale + begun;
      }
      if loading {
        assert said[|stale| + 1] == begun[1];
      }
    }

    method BeginLoad() returns (ok: bool, loading: bool, ghost said: seq<Entry>)
      requires conn.Ready()
      modifies conn`log, conn.controlSession
      ensures conn.Ready() && conn.log == old(conn.log) + said && NoCheckpoint(said)
      ensures ok ==> loading && BeginScript(said)
      ensures loading ==> |said| >= 2 && said[1].statement.BeginLoading? && said[1].err.None?
    {
      hide Connection.Ready, StatesOf, BeginScript, Said, NoCheckpoint;
      ghost var form, begin, bt, insert;
      var err;
      err, form := ControlExec(SetDateForm);
      if err.Some? { return false, false, form; }
      err, begin := ControlExec(BeginLoading);
      NoCheckpointIn(form, begin);
      if err.Some? { return false, false, form + begin; }
      ok, bt := Begin();
      NoCheckpointIn(form + begin, bt);
      if !ok { return false, true, form + begin + bt; }
      err, insert := ControlExec(UsingInsert);
      NoCheckpointIn(form + begin + bt, insert);
      ok, loading, said := err.None?, true, form + begin + bt + insert;
      if ok {
        BeginWords(form, begin, bt, insert);
      }
    }

    // ----- Ending and aborting

    /** endLoading: nothing is said to the server about the end before every
        row has been sent. */
    method EndSession() returns (ok: bool, ghost flushed: bool)
      requires conn.Valid() && conn.currentTransaction == this
      modifies dataChannels, conn`log, conn.controlSession
      ensures conn.Valid() && conn.Ready()
      ensures old(conn.log) <= conn.log
      ensures !flushed ==> !ok && conn.log == old(conn.log)
      ensures ok ==> EndedBy(conn.log[|old(conn.log)|..], rowNumber)
    {
      hide Connection.SessionsOk, Connection.LogOk, Connection.ChannelsOk, Fleet, Dealt, Elems, StatesOf, AllSent, EndedBy;
      var r := Flush();
      if !r.Succeeded? {
        return false, false;
      }
      flushed := true;
      ok := EndStatements();
    }

    method EndStatements() returns (ok: bool)
      requires conn.Ready() && AllSent(StatesOf(dataChannels), rowNumber)
      modifies conn`log, conn.controlSession
      ensures conn.Ready() && old(conn.log) <= conn.log
      ensures ok ==> EndedBy(conn.log[|old(conn.log)|..], rowNumber)
    {
      hide Connection.Ready, AllSent, StatesOf, EndScript, Said, SaidOne;
      ghost var cp, m, bt, end, n;
      ok, cp, m, bt := Checkpoint();
      if !ok { return; }
      ok, end, n := EndLoad();
      if ok {
        EndWords(cp, m, bt, end, n);
        ghost var l := cp + m + bt + end + n;
        assert conn.log[|old(conn.log)|..] == l == l[..|l|];
      }
    }

    /** CHECKPOINT LOADING END, commit, and a new transaction. */
    method Checkpoint() returns (ok: bool, ghost cp: seq<Entry>, ghost m: seq<Entry>, ghost bt: seq<Entry>)
      requires conn.Ready() && AllSent(StatesOf(dataChannels), rowNumber)
      modifies conn`log, conn.controlSession
      ensures conn.Ready() && conn.log == old(conn.log) + (cp + m + bt)
      ensures ok ==>
                && SaidOne(cp, CheckpointEnd) && |cp| == 1 && cp[0].rows == rowNumber
                && Said(m, EndTransaction) && Said(bt, BeginTransaction) && |bt| == 1
    {
      hide Connection.LogOk, Connection.NoLeak, AllSent, StatesOf, Said, NoCheckpoint;
      m, bt := [], [];
      var err;
      err, cp := ControlExec(CheckpointEnd);
      if err.Some? { return false, cp, m, bt; }
      ok, m := Commit();
      if !ok { return; }
      ok, bt := Begin();
    }

    /** END LOADING, unless the context is done, and commit. */
    method EndLoad() returns (ok: bool, ghost end: seq<Entry>, ghost n: seq<Entry>)
      requires conn.Ready()
      modifies conn`log, conn.controlSession
      ensures conn.Ready() && conn.log == old(conn.log) + (end + n)
      ensures ok ==> SaidOne(end, EndLoading) && Said(n, EndTransaction)
    {
      hide Connection.Ready, StatesOf, Said, NoCheckpoint;
      end, n := [], [];
      var contextDone: bool := *;
      if contextDone { return false, end, n; }
      var err := Exec(EndLoading);
      end := [Entry(EndLoading, err, rowNumber, StatesOf(dataChannels))];
      if err.Some? { return false, end, n; }
      ok, n := Commit();
    }

    /** finish. */
    method Finish()
      requires conn.SessionsOk() && conn.LogOk() && conn.ChannelsOk(Elems(dataChannels))
      modifies dataChannels, this`dataChannels, this`done, conn`currentTransaction
      ensures conn.Valid() && Handle() && done && conn.currentTransaction == null
    {
      hide Connection.SessionsOk, Connection.LogOk, Connection.ChannelsOk, Elems;
      conn.CloseDataChannels(dataChannels);
      dataChannels := [];
      done := true;
      conn.currentTransaction := null;
    }

    /** Abort: close every session, reopen them all, release the load. */
    method Abort() returns (r: Reply)
      requires done ==> conn.Valid() && Handle()
      requires !done ==> conn.SessionsOk() && conn.LogOk() && conn.ChannelsOk(Elems(dataChannels))
      modifies this, conn, dataChannels, conn.controlSession, conn.diagnosticSession
      ensures conn.Valid() && Handle() && done
      ensures conn.Extends(old(conn.sessions), old(conn.channels)) && Continues(old(conn.log), conn.log)
      ensures old(done) ==> r.Refused? && unchanged(this) && unchanged(conn)
      ensures !old(done) ==> !r.Refused? && conn.currentTransaction == null
      ensures r.Succeeded? ==> fresh(conn.controlSession) && ReleasedBy(conn.log[|old(conn.log)|..])
    {
      hide Connection.SessionsOk, Connection.LogOk, Connection.ChannelsOk, Elems, ReleasedBy, Continues;
      if done {
        NothingSaid(conn.log);
        return Refused;
      }
      var ok := Release();
      Finish();
      r := if ok then Succeeded else Errored;
    }

    /** The body of Abort before its deferred finish. */
    method Release() returns (ok: bool)
      requires conn.SessionsOk() && conn.LogOk() && conn.ChannelsOk(Elems(dataChannels))
      modifies this`dataChannels, conn`controlSession, conn`diagnosticSession, conn`isOpen, conn`sessions,
               conn`channels, conn`log, dataChannels, conn.controlSession, conn.diagnosticSession
      ensures conn.SessionsOk() && conn.LogOk() && conn.ChannelsOk(Elems(dataChannels))
      ensures conn.Extends(old(conn.sessions), old(conn.channels)) && Continues(old(conn.log), conn.log)
      ensures forall i :: 0 <= i < |dataChannels| ==> fresh(dataChannels[i])
      ensures ok ==> fresh(conn.controlSession) && ReleasedBy(conn.log[|old(conn.log)|..])
    {
      hide Connection.SessionsOk, Connection.LogOk, Connection.ChannelsOk, Elems, Fleet, Dealt, StatesOf,
        ReleaseScript, ReleasedBy, Continues, Attempts, Dropped;
      ghost var before, said, first, second := conn.log, [], [], [];
      ok := Reopen();
      if ok {
        ok, said := ReleaseLoad();
      }
      if ok {
        ok, first, second := DropErrorTables();
        DropsNoCheckpoint(first, second);
      }
      assert conn.log == before + said + first + second;
      ReleaseSaid(before, said, first, second, ok);
    }

    method Reopen() returns (ok: bool)
      requires conn.SessionsOk() && conn.LogOk() && conn.ChannelsOk(Elems(dataChannels))
      modifies this`dataChannels, conn`controlSession, conn`diagnosticSession, conn`isOpen, conn`sessions,
               conn`channels, dataChannels, conn.controlSession, conn.diagnosticSession
      ensures conn.SessionsOk() && conn.LogOk() && conn.ChannelsOk(Elems(dataChannels))
      ensures conn.Extends(old(conn.sessions), old(conn.channels))
      ensures forall i :: 0 <= i < |dataChannels| ==> fresh(dataChannels[i])
      ensures ok ==> conn.isOpen && fresh(conn.controlSession)
    {
      hide Connection.SessionsOk, Connection.LogOk, Connection.ChannelsOk, Fleet, Dealt, StatesOf, Elems;
      NoElems();
      conn.CloseDataChannels(dataChannels);
      dataChannels := [];
      conn.CloseSessions();
      ok := conn.Open();
      if !ok { return; }
      var chs := conn.OpenDataChannels(sessionCount, encoders);
      if chs.None? { return false; }
      dataChannels := chs.value;
    }

    /** End: any failure before the load has ended aborts it. */
    method End() returns (r: EndReply, ghost flushed: bool)
      requires conn.Valid() && Handle()
      modifies this, conn, dataChannels, conn.controlSession, conn.diagnosticSession
      ensures conn.Valid() && Handle() && done
      ensures conn.Extends(old(conn.sessions), old(conn.channels)) && old(conn.log) <= conn.log
      ensures old(done) ==> r.EndRefused? && unchanged(this) && unchanged(conn)
      ensures !old(done) ==> !r.EndRefused? && conn.currentTransaction == null
      ensures !old(done) && !flushed ==> r.Aborted? && Continues(old(conn.log), conn.log)
      ensures r.Ended? ==> r.rowsSent == old(rowNumber) && EndedBy(conn.log[|old(conn.log)|..], r.rowsSent)
    {
      hide Connection.SessionsOk, Connection.LogOk, Connection.ChannelsOk, Fleet, Dealt, StatesOf, Elems, EndedBy;
      flushed := false;
      if done {
        return EndRefused, false;
      }
      var sent := rowNumber;
      var ok;
      ok, flushed := EndSession();
      if !ok {
        var aborted := Abort();
        r := Aborted;
        return;
      }
      ghost var ended := conn.log;
      var clean := ReadErrorTables();
      EndedGrows(ended, conn.log, |old(conn.log)|, sent);
      Finish();
      r := Ended(sent, clean);
    }

    /** What End reads after the load has ended; the first table may not
        exist, and nothing here undoes the load. */
    method ReadErrorTables() returns (clean: bool)
      requires conn.Ready()
      modifies conn`log, conn.controlSession
      ensures conn.Ready() && old(conn.log) <= conn.log
      ensures clean ==> ReadBy(conn.log[|old(conn.log)|..])
    {
      hide Connection.Ready, AllSent, StatesOf, Attempts, Dropped;
      ghost var first, second;
      var err1 := Exec(ReadErrors);
      ghost var e1 := conn.log[|conn.log| - 1];
      var err2 := Exec(CountViolations);
      ghost var e2 := conn.log[|conn.log| - 1];
      clean, first, second := DropErrorTables();
      clean := clean && (err1.None? || err1 == Some(Server(NO_TABLE)))
               && (err2.None? || err2 == Some(Server(NO_TABLE)));
      if clean {
        ghost var l := conn.log[|old(conn.log)|..];
        assert l == [e1, e2] + first + second;
        assert l[2..2 + |first|] == first && l[2 + |first|..] == second;
      }
    }

    /** Close aborts a load that has not ended. */
    method Close() returns (r: Reply)
      requires conn.Valid() && Handle()
      modifies this, conn, dataChannels, conn.controlSession, conn.diagnosticSession
      ensures conn.Valid() && Handle() && done
      ensures conn.Extends(old(conn.sessions), old(conn.channels)) && Continues(old(conn.log), conn.log)
      ensures old(done) ==> r.Succeeded? && unchanged(this) && unchanged(conn)
      ensures !old(done) ==> conn.currentTransaction == null
    {
      hide Connection.SessionsOk, Connection.LogOk, Fleet, Dealt, StatesOf;
      if done {
        return Succeeded;
      }
      r := Abort();
    }
  }

  // ----- Every run

  datatype Call =
    | CallBegin(columns: nat, encoders: Option<seq<Encoder>>, usingInsert: bool)
    | CallAddRow(values: seq<Value>) | CallFlush | CallEnd | CallAbort | CallClose
    | CallCloseConnection

  /** A connection and every transaction its caller was ever given. */
  ghost predicate World(conn: Connection, txs: seq<Transaction>)
    reads conn, conn.currentTransaction, conn.channels, conn.sessions, txs
  {
    && conn.Valid() && conn.maxSessions > 0
    && (conn.currentTransaction != null ==> conn.currentTransaction in txs)
    && (forall i :: 0 <= i < |txs| ==> txs[i].conn == conn && txs[i].Handle())
  }

  // At most one load is current, however many there have been.
  lemma {:induction false} AtMostOneLoad(conn: Connection, txs: seq<Transaction>, a: Transaction, b: Transaction)
    requires World(conn, txs) && a in txs && b in txs && !a.done && !b.done
    ensures a == b && conn.isOpen
  {
    hide Connection.SessionsOk, Connection.LogOk, Connection.ChannelsOk, Fleet, Dealt, StatesOf;
    var i :| 0 <= i < |txs| && txs[i] == a;
    var j :| 0 <= j < |txs| && txs[j] == b;
    assert txs[i].Handle() && txs[j].Handle();
  }

  // Once no load is current, every data channel ever opened is closed,
  // worker stopped and connection closed.
  lemma {:induction false} NothingLeftOpen(conn: Connection, ch: DataChannel)
    requires conn.Valid() && conn.currentTransaction == null && ch in conn.channels
    ensures ch.st.closed && ch.st.worker.Exited? && !ch.connOpen
  {
    hide DataChannel.Reachable, Connection.SessionsOk, Connection.LogOk;
  }

  // All a call on a transaction may touch belongs to its connection.
  lemma {:induction false} Belongs(tx: Transaction)
    requires tx.conn.Valid() && tx.Handle()
    ensures forall i :: 0 <= i < |tx.dataChannels| ==> tx.dataChannels[i] in tx.conn.channels
  {
    hide Connection.SessionsOk, Connection.LogOk, Connection.ChannelsOk, Transaction.Live;
  }

  lemma {:induction false} SessionsBelong(conn: Connection)
    requires conn.Valid()
    ensures conn.controlSession != null ==> conn.controlSession in conn.sessions
    ensures conn.diagnosticSession != null ==> conn.diagnosticSession in conn.sessions
  {
    hide Connection.LogOk, Connection.ChannelsOk, Transaction.Live;
  }

  // Whatever the run, CHECKPOINT LOADING END was only ever executed with
  // every row counted so far in a batch whose send succeeded.
  lemma {:induction false} CheckpointMeansSent(conn: Connection, i: nat, r: int)
    requires conn.Valid() && i < |conn.log| && conn.log[i].statement.CheckpointEnd? && 1 <= r <= conn.log[i].rows
    ensures var chs := conn.log[i].channels;
      chs != [] && r in Numbers(SplitAll(chs[(r - 1) % |chs|].sent))
  {
    hide Connection.SessionsOk, Connection.ChannelsOk, Transaction.Live, Numbers, SplitAll;
    AllSentMeans(conn.log[i].channels, conn.log[i].rows, r);
  }

  // While a load is open channel j of n holds exactly the accepted row
  // numbers congruent to j + 1 modulo n, ascending, and the channels' counts
  // differ by at most one.
  lemma {:induction false} LoadIsDealt(tx: Transaction, j: nat, k: nat)
    requires tx.Live() && j < |tx.dataChannels| && k < |tx.dataChannels|
    ensures var h := Numbers(tx.dataChannels[j].st.accepted);
      && (forall r :: r in h <==> 1 <= r <= tx.rowNumber && (r - 1) % |tx.dataChannels| == j)
      && (forall a, b :: 0 <= a < b < |h| ==> h[a] < h[b])
      && |h| <= |tx.dataChannels[k].st.accepted| + 1
  {
    hide Fleet, Hand, Numbers;
    var n := |tx.dataChannels|;
    var states := StatesOf(tx.dataChannels);
    var h := Numbers(tx.dataChannels[j].st.accepted);
    assert DealtTo(states[j], tx.rowNumber, n, j) && DealtTo(states[k], tx.rowNumber, n, k);
    forall r ensures r in h <==> 1 <= r <= tx.rowNumber && (r - 1) % n == j {
      HandMember(tx.rowNumber, n, j, r);
    }
    forall a, b | 0 <= a < b < |h| ensures h[a] < h[b] {
      HandAscending(tx.rowNumber, n, j, a, b);
    }
    HandsEven(tx.rowNumber, n, j, k);
  }

  /** One call, on any transaction the caller was ever given. */
  method Step(conn: Connection, txs: seq<Transaction>, which: nat, call: Call) returns (all: seq<Transaction>)
    requires World(conn, txs)
    modifies conn, txs, conn.channels, conn.sessions
    ensures World(conn, all) && txs <= all && forall i :: |txs| <= i < |all| ==> fresh(all[i])
    ensures conn.Extends(old(conn.sessions), old(conn.channels)) && old(conn.log) <= conn.log
  {
    hide Connection.Valid, Transaction.Handle;
    all := txs;
    match call {
      case CallBegin(columns, encoders, usingInsert) =>
        all := StepBegin(conn, txs, columns, encoders, usingInsert);
      case CallCloseConnection =>
        StepClose(conn, txs);
      case _ =>
        if txs != [] {
          StepOn(conn, txs, which % |txs|, call);
        }
    }
  }

  method StepBegin(conn: Connection, txs: seq<Transaction>, columns: nat, encoders: Option<seq<Encoder>>,
                   usingInsert: bool)
    returns (all: seq<Transaction>)
    requires World(conn, txs)
    modifies conn, conn.sessions
    ensures World(conn, all) && txs <= all && forall i :: |txs| <= i < |all| ==> fresh(all[i])
    ensures conn.Extends(old(conn.sessions), old(conn.channels)) && old(conn.log) <= conn.log
  {
    hide Connection.SessionsOk, Connection.LogOk, Connection.ChannelsOk, Fleet, Dealt, StatesOf, Elems;
    SessionsBelong(conn);
    all := txs;
    var r := conn.BeginFastLoad(columns, encoders, usingInsert);
    if r.Begun? {
      all := txs + [r.tx];
    }
  }

  method StepClose(conn: Connection, txs: seq<Transaction>)
    requires World(conn, txs)
    modifies conn, txs, conn.channels, conn.sessions
    ensures World(conn, txs)
    ensures conn.Extends(old(conn.sessions), old(conn.channels)) && old(conn.log) <= conn.log
  {
    hide Connection.Valid;
    conn.Close();
  }

  method StepOn(conn: Connection, txs: seq<Transaction>, i: nat, call: Call)
    requires World(conn, txs) && i < |txs|
    modifies conn, txs, conn.channels, conn.sessions
    ensures World(conn, txs)
    ensures conn.Extends(old(conn.sessions), old(conn.channels)) && old(conn.log) <= conn.log
  {
    hide Connection.Valid;
    SessionsBelong(conn);
    Belongs(txs[i]);
    CallOn(txs[i], call);
  }

  method CallOn(tx: Transaction, call: Call)
    requires tx.conn.Valid() && tx.Handle()
    modifies tx, tx.conn, tx.dataChannels, tx.conn.controlSession, tx.conn.diagnosticSession
    ensures tx.conn.Valid() && tx.Handle()
    ensures tx.conn.Extends(old(tx.conn.sessions), old(tx.conn.channels)) && old(tx.conn.log) <= tx.conn.log
    ensures old(tx.done) ==> unchanged(tx) && unchanged(tx.conn)
    ensures tx.conn.currentTransaction == null || tx.conn.currentTransaction == old(tx.conn.currentTransaction)
  {
    hide Connection.SessionsOk, Connection.LogOk, Fleet, Dealt, StatesOf, Connection.ChannelsOk, Elems;
    match call {
      case CallAddRow(values) =>
        if tx.done || tx.rowNumber < MAX_ROW {
          var r := tx.AddRow(values);
        }
      case CallFlush =>
        var r := tx.Flush();
      case CallEnd =>
        var r, flushed := tx.End();
      case CallAbort =>
        var r := tx.Abort();
      case CallClose =>
        var r := tx.Close();
      case _ =>
    }
  }

  /** Any sequence of calls, on any of the transactions handed out so far,
      with failures anywhere. */
  method Drive(maxSessions: int, calls: seq<(nat, Call)>) returns (conn: Connection, txs: seq<Transaction>)
    ensures World(conn, txs)
  {
    conn := new Connection(maxSessions);
    txs := [];
    hide Connection.Valid, Transaction.Handle;
    for i := 0 to |calls|
      invariant World(conn, txs)
      invariant fresh(conn) && fresh(conn.channels) && fresh(conn.sessions)
      invariant forall k :: 0 <= k < |txs| ==> fresh(txs[k])
    {
      txs := Step(conn, txs, calls[i].0, calls[i].1);
    }
  }
}
