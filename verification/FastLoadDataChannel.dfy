/** The producer's methods over the step relation. Before every step of its
    own the producer lets the worker goroutine take any number of steps, so a
    method's contract covers every interleaving; ctx may be cancelled at any
    moment. */
module FastLoadDataChannel {
  import opened Bytes
  import opened FastLoadEncode
  import opened FastLoadRow
  import opened FastLoadChannel

  /** What pushRow reports. */
  datatype Outcome = Accepted | Failed(failure: Failure) | Rejected

  // ----- What the producer relies on

  lemma {:induction false} WorkerOnlyTrans(s: State, t: State, u: State)
    requires WorkerOnly(s, t) && WorkerOnly(t, u)
    ensures WorkerOnly(s, u)
  {}

  /** What no producer step outside pushRow and dispatch changes. */
  predicate SameRows(s: State, t: State) {
    && t.encoders == s.encoders && t.accepted == s.accepted && t.dispatched == s.dispatched
    && t.closed == s.closed && (s.failure.Some? ==> t.failure == s.failure)
  }

  /** Everything dispatched has been sent, nothing is left in hand, and
      nothing was lost. */
  predicate Drained(s: State) {
    && s.failure.None? && s.sent == s.dispatched && s.lost == []
    && s.pending == [] && WorkerSeq(s) == []
  }

  // A drained channel with an empty current batch has sent its rows.
  lemma {:induction false} DrainedSentRows(s: State)
    requires Inv(s) && Drained(s) && CurLoad(s) == []
    ensures s.accepted == SplitAll(s.sent)
  {
    EmptySplits();
    hide OwnedOnce, BatchesOk, Emptied, CurLoad, Split, SplitAll, Flow;
    assert SplitAll(s.sent) + [] == SplitAll(s.sent);
  }

  lemma {:induction false} EmptyBatchLoad(s: State)
    requires Inv(s) && s.cur.Some? && s.cur.value < BUFFERS && Rows(s.batches, s.cur.value) == 0
    ensures |s.batches| == BUFFERS && CurLoad(s) == [] && HasRoom(s.batches[s.cur.value], s.encoders)
  {
    hide OwnedOnce, Emptied, Flow, Rowwise;
    EmptyHasRoom(s, s.cur.value);
    hide HasRoom, Startable;
  }

  lemma {:induction false} AcquiredEmpty(s: State)
    requires Inv(s) && Enabled(s, Acquire)
    ensures var t := Apply(s, Acquire);
      t.cur.Some? && t.cur.value < BUFFERS && Rows(t.batches, t.cur.value) == 0
  {
    OwnedIndices(s);
    hide OwnedOnce, BatchesOk, Flow, Rowwise, Rows;
    assert s.free[0] in s.free;
  }

  lemma {:induction false} DispatchEnabled(s: State)
    requires Inv(s) && s.cur.Some? && Rows(s.batches, s.cur.value) > 0 && !s.closed
    ensures Enabled(s, Dispatch)
  {
    NeverBlocks(s);
    hide Inv, Rows;
  }

  lemma {:induction false} WorkerOnlyRefl(s: State)
    requires Inv(s)
    ensures WorkerOnly(s, s)
  {
    WorkerIndex(s);
    hide Inv;
  }

  lemma {:induction false} SameHands(s: State, t: State)
    requires WorkerOnly(s, t)
    ensures CurSeq(t) == CurSeq(s) && t.cur == s.cur && t.held == s.held
    ensures SameRows(s, t) && CurLoad(t) == CurLoad(s)
  {}

  lemma {:induction false} InterruptSame(s: State)
    ensures Enabled(s, Interrupt)
    ensures var t := Apply(s, Interrupt);
      SameRows(s, t) && t.cur == s.cur && t.held == s.held && t.failure.Some? && t.batches == s.batches
      && t.worker == s.worker && t.pending == s.pending
  {}

  lemma {:induction false} AcquireSame(s: State)
    requires Enabled(s, Acquire)
    ensures SameRows(s, Apply(s, Acquire)) && Apply(s, Acquire).held == s.held
  {}

  lemma {:induction false} SameRowsTrans(s: State, t: State, u: State)
    requires SameRows(s, t) && SameRows(t, u)
    ensures SameRows(s, u)
  {}

  lemma {:induction false} DispatchStep(s: State)
    requires Enabled(s, Dispatch)
    ensures var t := Apply(s, Dispatch);
      && t.cur.None? && t.held == s.held && t.accepted == s.accepted && t.closed == s.closed
      && t.failure == s.failure && t.encoders == s.encoders
  {
    hide Load;
  }

  lemma {:induction false} EmptyBatchHasRoom(s: State)
    requires Inv(s) && s.cur.Some? && s.cur.value < BUFFERS && |s.batches| == BUFFERS
    requires !HasRoom(s.batches[s.cur.value], s.encoders)
    ensures Rows(s.batches, s.cur.value) > 0
  {
    if Rows(s.batches, s.cur.value) == 0 {
      EmptyBatchLoad(s);
    }
  }

  lemma {:induction false} PushStep(s: State, values: seq<Value>, rowNumber: int)
    requires s.cur.Some? && s.cur.value < |s.batches| && HasRoom(s.batches[s.cur.value], s.encoders)
    ensures Enabled(s, Push(values, rowNumber))
    ensures var t := Apply(s, Push(values, rowNumber));
      && t.cur == s.cur && t.held == s.held && t.closed == s.closed && t.failure == s.failure
      && t.accepted == if RowOk(s.encoders, values) then s.accepted + [Frame(s.encoders, values, rowNumber)]
                       else s.accepted
  {
    hide HasRoom, Pushed, RowOk, Frame;
  }

  /** What wait and close leave alone. */
  predicate SameWait(s: State, t: State) {
    SameRows(s, t) && t.cur == s.cur && CurLoad(t) == CurLoad(s)
  }

  lemma {:induction false} SameWaitTrans(s: State, t: State, u: State)
    requires SameWait(s, t) && SameWait(t, u)
    ensures SameWait(s, u)
  {
    hide CurLoad;
  }

  lemma {:induction false} WorkerOnlySameWait(s: State, t: State)
    requires WorkerOnly(s, t)
    ensures SameWait(s, t)
  {}

  lemma {:induction false} InterruptSameWait(s: State)
    ensures SameWait(s, Apply(s, Interrupt))
  {}

  lemma {:induction false} HoldStep(s: State)
    requires s.free != []
    ensures Enabled(s, Hold) && SameWait(s, Apply(s, Hold)) && |Apply(s, Hold).held| == |s.held| + 1
  {}

  lemma {:induction false} ReleaseStep(s: State)
    requires s.held != [] && |s.free| < BUFFERS
    ensures Enabled(s, Release) && SameWait(s, Apply(s, Release)) && |Apply(s, Release).held| == |s.held| - 1
    ensures Drained(s) ==> Drained(Apply(s, Release))
  {
    hide Load;
  }

  lemma {:induction false} DrainedStops(s: State)
    requires Drained(s) && !s.closed
    ensures Stopped(s)
  {}

  lemma {:induction false} InHandDrained(s: State)
    requires Inv(s) && |CurSeq(s)| + |s.held| >= BUFFERS && s.failure.None?
    ensures Drained(s)
  {
    OwnedIndices(s);
    WaitMeansSent(s);
    hide Inv;
  }

  /** t is s once close has begun. */
  predicate SameClosing(s: State, t: State) {
    t.closed && t.held == s.held && t.accepted == s.accepted && t.dispatched == s.dispatched && t.encoders == s.encoders
  }

  lemma {:induction false} CloseStep(s: State)
    requires !s.closed
    ensures Enabled(s, Close) && SameClosing(s, Apply(s, Close))
  {}

  lemma {:induction false} ClosedRuns(s: State)
    requires s.closed && !s.worker.Exited?
    ensures !Stopped(s)
  {}

  lemma {:induction false} ExitedEmpty(s: State)
    requires Inv(s) && s.worker.Exited?
    ensures s.pending == []
  {
    hide OwnedOnce, BatchesOk, Emptied, Rowwise, InFlight;
  }

  class DataChannel {
    const encoders: seq<Encoder>
    const bodyLen: nat
    var st: State
    var connOpen: bool
    ghost var trace: seq<Event>

    /** st is where some run of the step relation leads. */
    ghost predicate Reachable()
      reads this
    {
      && Startable(encoders, bodyLen) && st.encoders == encoders
      && After(Start(encoders, bodyLen), trace) == Some(st)
    }

    /** Between the producer's calls nothing is held, and a closed channel
        has stopped its worker and closed its connection. */
    ghost predicate Valid()
      reads this
    {
      && Reachable() && st.held == []
      && (st.closed ==> st.worker.Exited? && !connOpen)
    }

    lemma {:induction false} Invariant()
      requires Reachable()
      ensures Inv(st)
    {
      hide Inv, Startable, After, Start;
      RunInv(encoders, bodyLen, trace);
    }

    lemma {:induction false} Small()
      requires Reachable()
      ensures MaxParcelLen(encoders) <= MAX_PARCEL_LEN
    {
      hide After, Start;
    }

    /** startFastLoadDataChannel. */
    constructor (encoders: seq<Encoder>, bodyLen: nat)
      requires Startable(encoders, bodyLen)
      ensures Valid() && connOpen && !st.closed
      ensures this.encoders == encoders && st == Start(encoders, bodyLen)
    {
      this.encoders := encoders;
      this.bodyLen := bodyLen;
      st := Start(encoders, bodyLen);
      connOpen := true;
      trace := [];
    }

    /** One atomic step. */
    method Do(e: Event)
      requires Reachable() && Enabled(st, e)
      modifies this`st, this`trace
      ensures Reachable() && Inv(st)
      ensures st == Apply(old(st), e) && trace == old(trace) + [e]
    {
      ghost var t := trace + [e];
      assert t[..|t| - 1] == trace;
      EncodersKept(st, e);
      hide Apply, Enabled, Start, Startable, Inv;
      st := Apply(st, e);
      trace := t;
      Invariant();
    }

    static lemma {:induction false} EncodersKept(s: State, e: Event)
      requires Enabled(s, e)
      ensures Apply(s, e).encoders == s.encoders
    {
      hide Load, Rows, Pushed, RowOk, Frame, HasRoom;
    }

    /** The worker's next step, however a send in progress ends. */
    method WorkerTurn()
      requires Reachable() && !Stopped(st)
      modifies this`st, this`trace
      ensures Reachable() && WorkerOnly(old(st), st) && Work(st) < Work(old(st))
    {
      Invariant();
      var outcome: Option<Failure> := *;
      WorkerSteps(st, outcome);
      WorkerStepOnly(st, NextStep(st, outcome));
      hide *;
      Do(NextStep(st, outcome));
    }

    /** Any number of worker steps. */
    method Interleave()
      requires Reachable()
      modifies this`st, this`trace
      ensures Reachable() && Inv(st) && WorkerOnly(old(st), st)
      ensures Stopped(old(st)) ==> st == old(st)
    {
      hide *;
      Invariant();
      WorkerOnlyRefl(st);
      var more: bool := *;
      while more && !Stopped(st)
        invariant Reachable() && WorkerOnly(old(st), st)
        invariant Stopped(old(st)) ==> st == old(st)
        decreases Work(st)
      {
        ghost var s := st;
        WorkerTurn();
        WorkerOnlyTrans(old(st), s, st);
        more := *;
      }
      Invariant();
    }

    /** Wait for a free batch or for ctx, as both select statements do. It
        ends without a cancellation too, because the worker runs out of
        work only after freeing a batch. */
    method Select() returns (cancelled: bool)
      requires Reachable() && |CurSeq(st)| + |st.held| < BUFFERS
      modifies this`st, this`trace
      ensures Reachable() && Inv(st) && WorkerOnly(old(st), st)
      ensures !cancelled ==> st.free != []
    {
      hide *;
      Interleave();
      SameHands(old(st), st);
      cancelled := *;
      while st.free == [] && !cancelled
        invariant Reachable() && Inv(st) && WorkerOnly(old(st), st)
        invariant |CurSeq(st)| + |st.held| < BUFFERS
        decreases Work(st)
      {
        ghost var s := st;
        NoDeadlock(st);
        WorkerTurn();
        WorkerOnlyTrans(old(st), s, st);
        Invariant();
        SameHands(s, st);
        cancelled := *;
      }
    }

    /** acquire. */
    method Acquire() returns (err: Option<Failure>)
      requires Reachable() && st.cur.None? && st.held == []
      modifies this`st, this`trace
      ensures Reachable() && Inv(st) && SameRows(old(st), st) && st.held == []
      ensures err.None? ==> st.cur.Some? && st.cur.value < BUFFERS && Rows(st.batches, st.cur.value) == 0
      ensures err.Some? ==> st.cur.None? && st.failure.Some? && err == Some(Cancelled)
    {
      hide Reachable, Inv, Rows, WorkerOnly, SameRows, Apply;
      var cancelled := Select();
      ghost var s := st;
      SameHands(old(st), s);
      if cancelled {
        InterruptSame(st);
        Do(Interrupt);
        err := Some(Cancelled);
      } else {
        AcquiredEmpty(st);
        AcquireSame(st);
        Do(Event.Acquire);
        err := None;
      }
      SameRowsTrans(old(st), s, st);
    }

    /** dispatch sends the batch in hand on its way and takes a free one. It
        does not look at the failure. */
    method Dispatch() returns (err: Option<Failure>)
      requires Valid() && !st.closed
      modifies this`st, this`trace
      ensures Valid() && Inv(st) && !st.closed && st.accepted == old(st.accepted)
      ensures err.None? ==> CurLoad(st) == [] && (old(st.cur).Some? ==> st.cur.Some?)
      ensures err.None? && st.cur.Some? ==> st.cur.value < BUFFERS && Rows(st.batches, st.cur.value) == 0
      ensures err.Some? ==> st.failure.Some? && err == Some(Cancelled)
      ensures old(st.failure).Some? ==> st.failure == old(st.failure)
    {
      hide Reachable, Inv, Rows, WorkerOnly, Apply, Enabled, Load;
      Interleave();
      SameHands(old(st), st);
      WorkerIndex(st);
      if st.cur.None? {
        return None;
      }
      if Rows(st.batches, st.cur.value) == 0 {
        EmptyBatchLoad(st);
        return None;
      }
      DispatchEnabled(st);
      DispatchStep(st);
      Do(Event.Dispatch);
      err := Acquire();
      if err.None? {
        EmptyBatchLoad(st);
      }
    }

    /** pushRow: a row is accepted whole or not at all. */
    method PushRow(rowNumber: int, values: seq<Value>) returns (r: Outcome)
      requires Valid() && !st.closed
      modifies this`st, this`trace
      ensures Valid() && !st.closed
      ensures r.Accepted? ==> RowOk(encoders, values)
                              && st.accepted == old(st.accepted) + [Frame(encoders, values, rowNumber)]
      ensures !r.Accepted? ==> st.accepted == old(st.accepted)
      ensures r.Rejected? ==> !RowOk(encoders, values)
      ensures r.Failed? ==> st.failure.Some?
      ensures old(st.failure).Some? ==> r.Failed? && r.failure == old(st.failure).value
    {
      hide After, Start, Startable, Inv, Rows, WorkerOnly, Apply, Enabled, RowOk, Frame, HasRoom, Load;
      Interleave();
      SameHands(old(st), st);
      if st.failure.Some? {
        return Failed(st.failure.value);
      }
      if st.cur.None? {
        var err := Acquire();
        if err.Some? {
          return Failed(err.value);
        }
      }
      Invariant();
      WorkerIndex(st);
      if !HasRoom(st.batches[st.cur.value], st.encoders) {
        EmptyBatchHasRoom(st);
        var err := Dispatch();
        if err.Some? {
          return Failed(err.value);
        }
        EmptyBatchLoad(st);
      }
      PushStep(st, values, rowNumber);
      Do(Push(values, rowNumber));
      r := if RowOk(encoders, values) then Accepted else Rejected;
    }

    /** wait: nil means that every batch dispatched has been sent. */
    method Wait() returns (err: Option<Failure>)
      requires Valid() && !st.closed
      modifies this`st, this`trace
      ensures Valid() && !st.closed && Inv(st)
      ensures st.accepted == old(st.accepted) && CurLoad(st) == CurLoad(old(st))
      ensures err.None? ==> Drained(st)
      ensures err.Some? ==> st.failure.Some?
      ensures old(st.failure).Some? ==> err.Some?
    {
      hide After, Start, Startable, Inv, WorkerOnly, Apply, Enabled, CurLoad, Drained, CurSeq;
      Invariant();
      while |CurSeq(st)| + |st.held| < BUFFERS
        invariant Reachable() && Inv(st) && SameWait(old(st), st)
        decreases BUFFERS - |st.held|
      {
        err := HoldOne();
        if err.Some? {
          ReleaseAll();
          return;
        }
      }
      ghost var s := st;
      Interleave();
      SameHands(s, st);
      err := st.failure;
      if err.None? {
        InHandDrained(st);
      }
      ReleaseAll();
    }

    /** One turn of wait's loop: take a free batch aside, or give up. */
    method HoldOne() returns (err: Option<Failure>)
      requires Reachable() && |CurSeq(st)| + |st.held| < BUFFERS
      modifies this`st, this`trace
      ensures Reachable() && Inv(st) && SameWait(old(st), st)
      ensures err.None? ==> |st.held| == |old(st.held)| + 1
      ensures err.Some? ==> st.held == old(st.held) && st.failure.Some?
    {
      hide Reachable, Inv, WorkerOnly, SameWait, Apply, CurSeq;
      var cancelled := Select();
      ghost var s := st;
      SameHands(old(st), s);
      WorkerOnlySameWait(old(st), s);
      if cancelled {
        InterruptSame(st);
        InterruptSameWait(st);
        Do(Interrupt);
        err := Some(Cancelled);
      } else {
        HoldStep(st);
        Do(Hold);
        err := None;
      }
      SameWaitTrans(old(st), s, st);
    }

    /** The deferred loop that puts the held batches back. */
    method ReleaseAll()
      requires Reachable() && Inv(st) && !st.closed
      modifies this`st, this`trace
      ensures Reachable() && Inv(st) && SameWait(old(st), st) && st.held == []
      ensures Drained(old(st)) ==> Drained(st)
    {
      hide Reachable, Inv, WorkerOnly, Apply, Enabled, Drained, CurLoad, Stopped;
      while st.held != []
        invariant Reachable() && Inv(st) && SameWait(old(st), st)
        invariant Drained(old(st)) ==> Drained(st)
        decreases |st.held|
      {
        ghost var s := st;
        if Drained(st) {
          DrainedStops(st);
        }
        Interleave();
        SameHands(s, st);
        WorkerOnlySameWait(s, st);
        ghost var u := st;
        NeverBlocks(st);
        ReleaseStep(st);
        Do(Release);
        SameWaitTrans(s, u, st);
        SameWaitTrans(old(st), s, st);
      }
    }

    /** close, once: no more batches, let any send finish, close the
        connection. A cancellation only hastens the worker. */
    method Close()
      requires Valid()
      modifies this
      ensures Valid() && st.closed && st.worker.Exited? && st.pending == [] && !connOpen
      ensures st.accepted == old(st.accepted) && st.dispatched == old(st.dispatched)
    {
      hide After, Start, Startable, Inv, WorkerOnly, Apply, Enabled, CurLoad, Work, Stopped;
      if st.closed {
        Invariant();
        ExitedEmpty(st);
        return;
      }
      CloseStep(st);
      Do(Event.Close);
      var cancelled: bool := *;
      while !st.worker.Exited? && !cancelled
        invariant Reachable() && SameClosing(old(st), st)
        decreases Work(st)
      {
        ClosedRuns(st);
        ghost var s := st;
        WorkerTurn();
        SameHands(s, st);
        cancelled := *;
      }
      if cancelled {
        InterruptSame(st);
        Do(Interrupt);
      }
      while !st.worker.Exited?
        invariant Reachable() && SameClosing(old(st), st)
        decreases Work(st)
      {
        ClosedRuns(st);
        ghost var s := st;
        WorkerTurn();
        SameHands(s, st);
      }
      connOpen := false;
      Invariant();
      ExitedEmpty(st);
    }
  }
}
