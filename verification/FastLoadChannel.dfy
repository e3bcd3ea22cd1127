/** The data channel as a step relation: a producer and a worker goroutine
    pass two reusable batches over two bounded channels, with a sticky first
    failure and cancellation. Every interleaving is a sequence of events. */
module FastLoadChannel {
  import opened Bytes
  import opened FastLoadEncode
  import opened FastLoadRow

  /** fastLoadBuffersPerSession: batches, and the capacity of each channel. */
  const BUFFERS := 2

  datatype Failure = Cancelled | SendError(code: int)

  /** Where the worker goroutine is in its loop, and the batch it holds. */
  datatype Worker =
    | Idle
    | Received(b: nat)
    | Sending(b: nat)
    | SendFailed(b: nat, error: Failure)
    | Finished(b: nat)
    | Cleared(b: nat)
    | Exited

  /** The channel, and four histories: rows accepted (framed), batches
      dispatched, sent, and received but not sent. */
  datatype State = State(
    encoders: seq<Encoder>,
    batches: seq<Batch>,
    cur: Option<nat>,
    pending: seq<nat>,
    free: seq<nat>,
    held: seq<nat>,
    worker: Worker,
    failure: Option<Failure>,
    closed: bool,
    accepted: seq<seq<byte>>,
    dispatched: seq<seq<byte>>,
    sent: seq<seq<byte>>,
    lost: seq<seq<byte>>)

  /** startFastLoadDataChannel refuses rows that may outgrow a parcel or the
      message body. */
  predicate Startable(encoders: seq<Encoder>, bodyLen: nat) {
    MaxParcelLen(encoders) <= MAX_PARCEL_LEN && MaxParcelLen(encoders) <= bodyLen
  }

  /** The two comparisons of startFastLoadDataChannel, over ints. */
  predicate Checked(encoders: seq<Encoder>, bodyLen: nat) {
    var maxParcelLen := Wrap64(PARCEL_HEADER_LEN + Wrap64(MaxRowBytes(encoders)));
    maxParcelLen <= MAX_PARCEL_LEN && maxParcelLen <= bodyLen
  }

  // The check is right exactly for declared widths whose sum is an int.
  lemma {:induction false} CheckedRight(encoders: seq<Encoder>, bodyLen: nat)
    ensures Startable(encoders, bodyLen) <==> Checked(encoders, bodyLen) && MaxParcelLen(encoders) < TWO63
  {
    hide Wrap64, MaxRowBytes;
    Wrap64Through(MaxRowBytes(encoders), PARCEL_HEADER_LEN);
    WrapCases(MaxParcelLen(encoders));
  }

  // Two columns that each declare the largest int pass it, in eleven octets.
  lemma {:induction false} TwoHugeColumns(bodyLen: nat)
    requires bodyLen >= 11
    ensures var e := Encoder(Varchar, TWO63 - 1, 0, 0, false);
      Checked([e, e], bodyLen) && !Startable([e, e], bodyLen)
  {
    var e := Encoder(Varchar, TWO63 - 1, 0, 0, false);
    assert [e, e][..1] == [e] && [e][..0] == [];
    assert SumMax([e, e]) == SumMax([e]) + (TWO63 + 1) && SumMax([e]) == TWO63 + 1;
    assert MaxRowBytes([e, e]) == TWO64 + 7;
  }

  function Start(encoders: seq<Encoder>, bodyLen: nat): State {
    var empty := Batch(Zeros(bodyLen), 0, 0);
    State(encoders, [empty, empty], Some(0), [], [1], [], Idle, None, false, [], [], [], [])
  }

  datatype Event =
    | Push(values: seq<Value>, rowNumber: int)
    | Dispatch | Acquire | Hold | Release | Interrupt | Close
    | Receive | Begin | Skip | Sent | SendFails(error: Failure) | SetFailure | Reset | Free | Exit

  predicate IsWorkerEvent(e: Event) {
    e.Receive? || e.Begin? || e.Skip? || e.Sent? || e.SendFails? || e.SetFailure? || e.Reset? || e.Free? || e.Exit?
  }

  function Load(batches: seq<Batch>, b: nat): seq<byte> {
    if b < |batches| && batches[b].pos <= |batches[b].body| then batches[b].body[..batches[b].pos] else []
  }

  function Rows(batches: seq<Batch>, b: nat): nat {
    if b < |batches| then batches[b].rows else 0
  }

  function FirstFailure(f: Option<Failure>, error: Failure): Option<Failure> {
    if f.Some? then f else Some(error)
  }

  // A channel operation that would block, or a send on the closed pending
  // channel, which would panic, is not enabled.
  predicate Enabled(s: State, e: Event) {
    match e
    case Push(_, _) => s.cur.Some? && s.cur.value < |s.batches| && HasRoom(s.batches[s.cur.value], s.encoders)
    case Dispatch => s.cur.Some? && Rows(s.batches, s.cur.value) > 0 && |s.pending| < BUFFERS && !s.closed
    case Acquire => s.cur.None? && s.free != []
    case Hold => s.free != []
    case Release => s.held != [] && |s.free| < BUFFERS
    case Interrupt => true
    case Close => !s.closed
    case Receive => s.worker.Idle? && s.pending != []
    case Begin => s.worker.Received? && s.failure.None?
    case Skip => s.worker.Received? && s.failure.Some?
    case Sent => s.worker.Sending?
    case SendFails(_) => s.worker.Sending?
    case SetFailure => s.worker.SendFailed?
    case Reset => s.worker.Finished? && s.worker.b < |s.batches|
    case Free => s.worker.Cleared? && |s.free| < BUFFERS
    case Exit => s.worker.Idle? && s.pending == [] && s.closed
  }

  function Apply(s: State, e: Event): State
    requires Enabled(s, e)
  {
    match e
    case Push(values, rowNumber) =>
      var c := s.cur.value;
      s.(batches := s.batches[c := Pushed(s.batches[c], s.encoders, values, rowNumber)],
         accepted := if RowOk(s.encoders, values) then s.accepted + [Frame(s.encoders, values, rowNumber)]
                     else s.accepted)
    case Dispatch =>
      s.(cur := None, pending := s.pending + [s.cur.value],
         dispatched := s.dispatched + [Load(s.batches, s.cur.value)])
    case Acquire => s.(cur := Some(s.free[0]), free := s.free[1..])
    case Hold => s.(held := s.held + [s.free[0]], free := s.free[1..])
    case Release => s.(free := s.free + [s.held[0]], held := s.held[1..])
    case Interrupt => s.(failure := FirstFailure(s.failure, Cancelled))
    case Close => s.(closed := true)
    case Receive => s.(worker := Received(s.pending[0]), pending := s.pending[1..])
    case Begin => s.(worker := Sending(s.worker.b))
    case Skip => s.(worker := Finished(s.worker.b), lost := s.lost + [Load(s.batches, s.worker.b)])
    case Sent => s.(worker := Finished(s.worker.b), sent := s.sent + [Load(s.batches, s.worker.b)])
    case SendFails(error) =>
      s.(worker := SendFailed(s.worker.b, error), lost := s.lost + [Load(s.batches, s.worker.b)])
    case SetFailure => s.(worker := Finished(s.worker.b), failure := FirstFailure(s.failure, s.worker.error))
    case Reset =>
      s.(worker := Cleared(s.worker.b), batches := s.batches[s.worker.b := s.batches[s.worker.b].(pos := 0, rows := 0)])
    case Free => s.(worker := Idle, free := s.free + [s.worker.b])
    case Exit => s.(worker := Exited)
  }

  // ----- Runs

  /** The state after a run, or None when some event was not enabled. */
  function After(s: State, run: seq<Event>): Option<State> {
    if run == [] then Some(s)
    else
      match After(s, run[..|run| - 1])
      case Some(t) => if Enabled(t, run[|run| - 1]) then Some(Apply(t, run[|run| - 1])) else None
      case None => None
  }

  // ----- The invariant

  function CurSeq(s: State): seq<nat> { if s.cur.Some? then [s.cur.value] else [] }

  function WorkerSeq(s: State): seq<nat> { if s.worker.Idle? || s.worker.Exited? then [] else [s.worker.b] }

  /** Every batch reference there is. */
  ghost function Owned(s: State): multiset<nat> {
    multiset(CurSeq(s)) + multiset(s.pending) + multiset(WorkerSeq(s)) + multiset(s.free) + multiset(s.held)
  }

  /** Each of the two batches has exactly one owner. */
  ghost predicate OwnedOnce(s: State) {
    Owned(s) == multiset{0, 1}
  }

  predicate BatchOk(b: Batch, bodyLen: nat) {
    |b.body| == bodyLen && b.pos <= bodyLen && (b.rows == 0 <==> b.pos == 0)
  }

  predicate BatchesOk(s: State) {
    && |s.batches| == BUFFERS
    && Startable(s.encoders, |s.batches[0].body|)
    && BatchOk(s.batches[0], |s.batches[0].body|) && BatchOk(s.batches[1], |s.batches[0].body|)
  }

  /** Free, held and cleared batches are empty; pending ones are not. */
  predicate Emptied(s: State) {
    && (forall i :: 0 <= i < |s.free| ==> Rows(s.batches, s.free[i]) == 0)
    && (forall i :: 0 <= i < |s.held| ==> Rows(s.batches, s.held[i]) == 0)
    && (s.worker.Cleared? ==> Rows(s.batches, s.worker.b) == 0)
  }

  function Loads(batches: seq<Batch>, ids: seq<nat>): (r: seq<seq<byte>>)
    ensures |r| == |ids| && forall i :: 0 <= i < |ids| ==> r[i] == Load(batches, ids[i])
  {
    seq(|ids|, i requires 0 <= i < |ids| => Load(batches, ids[i]))
  }

  /** Dispatched batches the worker has not finished with. */
  function InFlight(s: State): seq<seq<byte>> {
    (if s.worker.Received? || s.worker.Sending? then [Load(s.batches, s.worker.b)] else [])
    + Loads(s.batches, s.pending)
  }

  function CurLoad(s: State): seq<byte> { if s.cur.Some? then Load(s.batches, s.cur.value) else [] }

  predicate Flow(s: State) {
    && s.dispatched == s.sent + s.lost + InFlight(s)
    && (s.lost != [] ==> s.failure.Some? || s.worker.SendFailed?)
    && (s.worker.Sending? ==> s.lost == [])
    && (s.worker.Exited? ==> s.closed && s.pending == [])
  }

  /** The rows of a list of batch bodies, split by parcel length. */
  function SplitAll(bodies: seq<seq<byte>>): seq<seq<byte>> {
    if bodies == [] then [] else SplitAll(bodies[..|bodies| - 1]) + SplitRows(bodies[|bodies| - 1])
  }

  predicate Splittable(bodies: seq<seq<byte>>) { forall i :: 0 <= i < |bodies| ==> Split(bodies[i]).Ok? }

  /** The dispatched bodies and the current batch, split into parcels, are
      exactly the accepted rows, in order. */
  predicate Rowwise(s: State) {
    && Splittable(s.dispatched) && Split(CurLoad(s)).Ok?
    && s.accepted == SplitAll(s.dispatched) + SplitRows(CurLoad(s))
  }

  ghost predicate Inv(s: State) {
    OwnedOnce(s) && BatchesOk(s) && Emptied(s) && Flow(s) && Rowwise(s)
  }

  // What single ownership means for indices.
  lemma {:induction false} OwnedIndices(s: State)
    requires OwnedOnce(s)
    ensures forall b :: b in CurSeq(s) || b in s.pending || b in WorkerSeq(s) || b in s.free || b in s.held ==> b < 2
    ensures |CurSeq(s)| + |s.pending| + |WorkerSeq(s)| + |s.free| + |s.held| == 2
  {
    forall b | b in CurSeq(s) || b in s.pending || b in WorkerSeq(s) || b in s.free || b in s.held
      ensures b < 2
    {
      assert b in Owned(s);
    }
    assert |Owned(s)| == 2;
  }

  lemma {:induction false} OwnedDisjoint(s: State, b: nat)
    requires OwnedOnce(s)
    ensures b in CurSeq(s) ==> b !in s.pending && b !in WorkerSeq(s) && b !in s.free && b !in s.held
    ensures b in WorkerSeq(s) ==> b !in s.pending && b !in s.free && b !in s.held
  {
    OwnerCounts(multiset(CurSeq(s)), multiset(s.pending), multiset(WorkerSeq(s)), multiset(s.free), multiset(s.held), b);
  }

  lemma {:induction false} OwnerCounts(c: multiset<nat>, p: multiset<nat>, w: multiset<nat>,
                                       f: multiset<nat>, h: multiset<nat>, b: nat)
    requires c + p + w + f + h == multiset{0, 1}
    ensures c[b] + p[b] + w[b] + f[b] + h[b] <= 1
  {
    assert c[b] + p[b] + w[b] + f[b] + h[b] == (c + p + w + f + h)[b];
  }

  // The producer's batch is nobody else's.
  ghost predicate CurApart(s: State) {
    s.cur.Some? ==>
      s.cur.value !in s.pending && s.cur.value !in WorkerSeq(s) && s.cur.value !in s.free && s.cur.value !in s.held
  }

  // The worker's batch is nobody else's.
  ghost predicate WorkerApart(s: State) {
    WorkerSeq(s) != [] ==>
      && s.worker.b !in s.pending && s.worker.b !in s.free && s.worker.b !in s.held
      && s.cur != Some(s.worker.b)
  }

  lemma {:induction false} OwnersApart(s: State)
    requires OwnedOnce(s)
    ensures CurApart(s) && WorkerApart(s)
  {
    if s.cur.Some? {
      OwnedDisjoint(s, s.cur.value);
      assert s.cur.value in CurSeq(s);
    }
    if WorkerSeq(s) != [] {
      OwnedDisjoint(s, s.worker.b);
      assert s.worker.b in WorkerSeq(s);
    }
  }

  // ----- Ownership is passed, never copied

  lemma {:induction false} HeadMultiset(q: seq<nat>)
    requires q != []
    ensures multiset(q) == multiset([q[0]]) + multiset(q[1..])
  {
    assert q == [q[0]] + q[1..];
  }

  lemma {:induction false} OwnedKept(s: State, e: Event)
    requires OwnedOnce(s) && Enabled(s, e)
    ensures OwnedOnce(Apply(s, e))
  {
    match e
    case Dispatch => DispatchMoves(s);
    case Acquire => AcquireMoves(s);
    case Hold => HoldMoves(s);
    case Release => ReleaseMoves(s);
    case Receive => ReceiveMoves(s);
    case Free => FreeMoves(s);
    case _ => OthersMoveNothing(s, e);
  }

  lemma {:induction false} OthersMoveNothing(s: State, e: Event)
    requires Enabled(s, e)
    requires !(e.Dispatch? || e.Acquire? || e.Hold? || e.Release? || e.Receive? || e.Free?)
    ensures Owned(Apply(s, e)) == Owned(s)
  {
    hide Load, Rows, Pushed, RowOk, Frame, HasRoom;
  }

  lemma {:induction false} DispatchMoves(s: State)
    requires Enabled(s, Dispatch)
    ensures Owned(Apply(s, Dispatch)) == Owned(s)
  {
    hide Load, Rows;
  }

  lemma {:induction false} AcquireMoves(s: State)
    requires Enabled(s, Acquire)
    ensures Owned(Apply(s, Acquire)) == Owned(s)
  {
    HeadMultiset(s.free);
  }

  lemma {:induction false} HoldMoves(s: State)
    requires Enabled(s, Hold)
    ensures Owned(Apply(s, Hold)) == Owned(s)
  {
    HeadMultiset(s.free);
  }

  lemma {:induction false} ReleaseMoves(s: State)
    requires Enabled(s, Release)
    ensures Owned(Apply(s, Release)) == Owned(s)
  {
    HeadMultiset(s.held);
  }

  lemma {:induction false} ReceiveMoves(s: State)
    requires Enabled(s, Receive)
    ensures Owned(Apply(s, Receive)) == Owned(s)
  {
    HeadMultiset(s.pending);
  }

  lemma {:induction false} FreeMoves(s: State)
    requires Enabled(s, Free)
    ensures Owned(Apply(s, Free)) == Owned(s)
  {}

  // ----- Batches

  lemma {:induction false} PushedOk(b: Batch, encoders: seq<Encoder>, values: seq<Value>, rowNumber: int)
    requires BatchOk(b, |b.body|) && HasRoom(b, encoders)
    ensures var p := Pushed(b, encoders, values, rowNumber);
      && BatchOk(p, |b.body|)
      && p.body[..p.pos] == b.body[..b.pos] + (if RowOk(encoders, values) then Frame(encoders, values, rowNumber) else [])
  {
    AttemptFits(encoders, values, rowNumber);
    assert |Attempt(encoders, values, rowNumber)| >= 4;
    hide RowOk, Frame, Garbage;
  }

  // Only Push and Reset write a batch: the producer's own, or the worker's.
  lemma {:induction false} BatchesKept(s: State, e: Event)
    requires BatchesOk(s) && Enabled(s, e)
    ensures BatchesOk(Apply(s, e))
  {
    match e
    case Push(values, rowNumber) => PushWrites(s, values, rowNumber);
    case Reset => ResetWrites(s);
    case _ => OthersWriteNothing(s, e);
  }

  lemma {:induction false} PushWrites(s: State, values: seq<Value>, rowNumber: int)
    requires BatchesOk(s) && Enabled(s, Push(values, rowNumber))
    ensures BatchesOk(Apply(s, Push(values, rowNumber)))
  {
    PushedOk(s.batches[s.cur.value], s.encoders, values, rowNumber);
    hide RowOk, Frame, Pushed, HasRoom, Startable;
  }

  lemma {:induction false} ResetWrites(s: State)
    requires BatchesOk(s) && Enabled(s, Reset)
    ensures BatchesOk(Apply(s, Reset))
  {}

  lemma {:induction false} OthersWriteNothing(s: State, e: Event)
    requires Enabled(s, e) && !e.Push? && !e.Reset?
    ensures Apply(s, e).batches == s.batches && Apply(s, e).encoders == s.encoders
  {
    hide Load, Rows;
  }

  // Writing one batch leaves the rows and octets of every other alone.
  lemma {:induction false} OtherLoads(batches: seq<Batch>, b: nat, x: Batch, ids: seq<nat>)
    requires b < |batches| && b !in ids
    ensures Loads(batches[b := x], ids) == Loads(batches, ids)
    ensures forall i :: 0 <= i < |ids| ==> Rows(batches[b := x], ids[i]) == Rows(batches, ids[i])
  {
    assert forall i :: 0 <= i < |ids| ==> ids[i] in ids;
  }

  lemma {:induction false} EmptiedKept(s: State, e: Event)
    requires OwnedOnce(s) && Emptied(s) && Enabled(s, e)
    ensures Emptied(Apply(s, e))
  {
    OwnersApart(s);
    hide OwnedOnce, Emptied, Apply, CurApart, WorkerApart;
    match e
    case Push(values, rowNumber) => PushKeepsEmptied(s, values, rowNumber);
    case Reset => ResetKeepsEmptied(s);
    case _ => OthersKeepEmptied(s, e);
  }

  lemma {:induction false} PushKeepsEmptied(s: State, values: seq<Value>, rowNumber: int)
    requires CurApart(s) && Emptied(s) && Enabled(s, Push(values, rowNumber))
    ensures Emptied(Apply(s, Push(values, rowNumber)))
  {
    hide Pushed, RowOk, Frame, HasRoom;
    var c := s.cur.value;
    var x := Pushed(s.batches[c], s.encoders, values, rowNumber);
    OtherLoads(s.batches, c, x, s.free);
    OtherLoads(s.batches, c, x, s.held);
    assert s.worker.Cleared? ==> s.worker.b in WorkerSeq(s);
  }

  lemma {:induction false} ResetKeepsEmptied(s: State)
    requires WorkerApart(s) && Emptied(s) && Enabled(s, Reset)
    ensures Emptied(Apply(s, Reset))
  {
    var b := s.worker.b;
    var x := s.batches[b].(pos := 0, rows := 0);
    OtherLoads(s.batches, b, x, s.free);
    OtherLoads(s.batches, b, x, s.held);
    hide Load;
  }

  lemma {:induction false} OthersKeepEmptied(s: State, e: Event)
    requires Emptied(s) && Enabled(s, e) && !e.Push? && !e.Reset?
    ensures Emptied(Apply(s, e))
  {
    hide Load, Rows;
  }

  // ----- Flow

  lemma {:induction false} FlowKept(s: State, e: Event)
    requires OwnedOnce(s) && Flow(s) && Enabled(s, e)
    ensures Flow(Apply(s, e))
  {
    OwnersApart(s);
    hide OwnedOnce, Flow, Apply, CurApart, WorkerApart;
    match e
    case Push(values, rowNumber) => PushKeepsFlow(s, values, rowNumber);
    case Dispatch => DispatchKeepsFlow(s);
    case Receive => ReceiveKeepsFlow(s);
    case Skip => SkipKeepsFlow(s);
    case Sent => SentKeepsFlow(s);
    case SendFails(error) => SendFailsKeepsFlow(s, error);
    case Reset => ResetKeepsFlow(s);
    case _ => OthersKeepFlow(s, e);
  }

  lemma {:induction false} PushKeepsFlow(s: State, values: seq<Value>, rowNumber: int)
    requires CurApart(s) && Flow(s) && Enabled(s, Push(values, rowNumber))
    ensures Flow(Apply(s, Push(values, rowNumber)))
  {
    hide Pushed, RowOk, Frame, HasRoom;
    var c := s.cur.value;
    var x := Pushed(s.batches[c], s.encoders, values, rowNumber);
    OtherLoads(s.batches, c, x, s.pending);
    assert s.worker.Received? || s.worker.Sending? ==> s.worker.b in WorkerSeq(s);
  }

  lemma {:induction false} DispatchKeepsFlow(s: State)
    requires Flow(s) && Enabled(s, Dispatch) && !s.closed
    ensures Flow(Apply(s, Dispatch))
  {
    hide Load, Rows;
    var c := s.cur.value;
    assert Loads(s.batches, s.pending + [c]) == Loads(s.batches, s.pending) + [Load(s.batches, c)];
  }

  lemma {:induction false} ReceiveKeepsFlow(s: State)
    requires Flow(s) && Enabled(s, Receive)
    ensures Flow(Apply(s, Receive))
  {
    LoadsHead(s.batches, s.pending);
    hide Load, Loads;
  }

  lemma {:induction false} LoadsHead(batches: seq<Batch>, ids: seq<nat>)
    requires ids != []
    ensures [] + Loads(batches, ids) == [Load(batches, ids[0])] + Loads(batches, ids[1..])
  {
    hide Load;
  }

  lemma {:induction false} SkipKeepsFlow(s: State)
    requires Flow(s) && Enabled(s, Skip)
    ensures Flow(Apply(s, Skip))
  {
    hide Load, Loads;
  }

  lemma {:induction false} SentKeepsFlow(s: State)
    requires Flow(s) && Enabled(s, Sent)
    ensures Flow(Apply(s, Sent))
  {
    hide Load, Loads;
  }

  lemma {:induction false} SendFailsKeepsFlow(s: State, error: Failure)
    requires Flow(s) && Enabled(s, SendFails(error))
    ensures Flow(Apply(s, SendFails(error)))
  {
    hide Load, Loads;
  }

  lemma {:induction false} ResetKeepsFlow(s: State)
    requires WorkerApart(s) && Flow(s) && Enabled(s, Reset)
    ensures Flow(Apply(s, Reset))
  {
    var b := s.worker.b;
    OtherLoads(s.batches, b, s.batches[b].(pos := 0, rows := 0), s.pending);
    hide Load, Loads;
  }

  lemma {:induction false} OthersKeepFlow(s: State, e: Event)
    requires Flow(s) && Enabled(s, e)
    requires !(e.Push? || e.Dispatch? || e.Receive? || e.Skip? || e.Sent? || e.SendFails? || e.Reset?)
    ensures Flow(Apply(s, e))
  {
    hide Load, Loads, Rows;
  }

  // ----- Rows

  lemma {:induction false} RowwiseKept(s: State, e: Event)
    requires Inv(s) && Enabled(s, e)
    ensures Rowwise(Apply(s, e))
  {
    OwnersApart(s);
    FirstFreeEmpty(s);
    hide OwnedOnce, Emptied, Flow, BatchesOk, Rowwise, Apply, CurApart, WorkerApart;
    match e
    case Push(values, rowNumber) => PushAcceptsRow(s, values, rowNumber);
    case Dispatch => DispatchKeepsRows(s);
    case Acquire => AcquireKeepsRows(s);
    case Reset => ResetKeepsRows(s);
    case _ => OthersKeepRows(s, e);
  }

  lemma {:induction false} PushAcceptsRow(s: State, values: seq<Value>, rowNumber: int)
    requires BatchesOk(s) && Rowwise(s) && Enabled(s, Push(values, rowNumber))
    ensures Rowwise(Apply(s, Push(values, rowNumber)))
  {
    PushLoad(s, values, rowNumber);
    var t := Apply(s, Push(values, rowNumber));
    assert t.dispatched == s.dispatched;
    if RowOk(s.encoders, values) {
      FrameLaws(s.encoders, values, rowNumber);
      var f := Frame(s.encoders, values, rowNumber);
      assert t.accepted == s.accepted + [f];
      SplitAppend(CurLoad(s), f);
    } else {
      assert CurLoad(s) + [] == CurLoad(s);
    }
    hide RowOk, Frame, Pushed, HasRoom, Split, SplitAll, IsParcel, FromBe, RowNumber, CurLoad, Apply;
  }

  lemma {:induction false} PushLoad(s: State, values: seq<Value>, rowNumber: int)
    requires BatchesOk(s) && Enabled(s, Push(values, rowNumber))
    ensures CurLoad(Apply(s, Push(values, rowNumber))) ==
            CurLoad(s) + (if RowOk(s.encoders, values) then Frame(s.encoders, values, rowNumber) else [])
    ensures MaxParcelLen(s.encoders) <= MAX_PARCEL_LEN
  {
    PushedOk(s.batches[s.cur.value], s.encoders, values, rowNumber);
    hide RowOk, Frame, Pushed, HasRoom, MaxParcelLen;
  }

  lemma {:induction false} DispatchKeepsRows(s: State)
    requires Rowwise(s) && Enabled(s, Dispatch)
    ensures Rowwise(Apply(s, Dispatch))
  {
    hide Load, Rows, Split;
    var x := Load(s.batches, s.cur.value);
    assert (s.dispatched + [x])[..|s.dispatched|] == s.dispatched;
    assert Split([]) == Ok([]) by { EmptySplits(); }
  }

  lemma {:induction false} EmptySplits()
    ensures Split([]) == Ok([])
  {}

  lemma {:induction false} AcquireKeepsRows(s: State)
    requires s.free != [] ==> Load(s.batches, s.free[0]) == []
    requires Rowwise(s) && Enabled(s, Acquire)
    ensures Rowwise(Apply(s, Acquire))
  {
    hide Split, SplitAll, Load;
    EmptySplits();
  }

  lemma {:induction false} FirstFreeEmpty(s: State)
    requires OwnedOnce(s) && BatchesOk(s) && Emptied(s)
    ensures s.free != [] ==> Load(s.batches, s.free[0]) == []
  {
    OwnedIndices(s);
    hide OwnedOnce, Startable;
    if s.free != [] {
      assert s.free[0] in s.free;
      assert s.free[0] == 0 || s.free[0] == 1;
    }
  }

  lemma {:induction false} ResetKeepsRows(s: State)
    requires WorkerApart(s) && Rowwise(s) && Enabled(s, Reset)
    ensures Rowwise(Apply(s, Reset))
  {
    hide Split, SplitAll;
  }

  lemma {:induction false} OthersKeepRows(s: State, e: Event)
    requires Rowwise(s) && Enabled(s, e)
    requires !(e.Push? || e.Dispatch? || e.Acquire? || e.Reset?)
    ensures Rowwise(Apply(s, e))
  {
    hide Load, Rows, Split, SplitAll;
  }

  // ----- Every run

  lemma {:induction false} StartInv(encoders: seq<Encoder>, bodyLen: nat)
    requires Startable(encoders, bodyLen)
    ensures Inv(Start(encoders, bodyLen))
  {
    var s := Start(encoders, bodyLen);
    assert Owned(s) == multiset{0, 1};
    assert s.sent + s.lost + InFlight(s) == [];
    assert CurLoad(s) == [];
  }

  lemma {:induction false} StepInv(s: State, e: Event)
    requires Inv(s) && Enabled(s, e)
    ensures Inv(Apply(s, e))
  {
    OwnedKept(s, e);
    BatchesKept(s, e);
    EmptiedKept(s, e);
    FlowKept(s, e);
    RowwiseKept(s, e);
    hide Apply, Enabled, OwnedOnce, BatchesOk, Emptied, Flow, Rowwise;
  }

  // In every interleaving of producer, worker and cancellation the
  // invariant holds.
  lemma {:induction false} RunInv(encoders: seq<Encoder>, bodyLen: nat, run: seq<Event>)
    requires Startable(encoders, bodyLen) && After(Start(encoders, bodyLen), run).Some?
    ensures Inv(After(Start(encoders, bodyLen), run).value)
  {
    hide Inv, Apply, Enabled, Start, Startable;
    if run == [] {
      StartInv(encoders, bodyLen);
    } else {
      RunInv(encoders, bodyLen, run[..|run| - 1]);
      StepInv(After(Start(encoders, bodyLen), run[..|run| - 1]).value, run[|run| - 1]);
    }
  }

  // ----- What the invariant buys

  lemma {:induction false} SplitAllTiles(bodies: seq<seq<byte>>)
    requires Splittable(bodies)
    ensures Concat(SplitAll(bodies)) == Concat(bodies)
  {
    if bodies != [] {
      var n := |bodies| - 1;
      SplitAllTiles(bodies[..n]);
      SplitTiles(bodies[n]);
      ConcatAppend(SplitAll(bodies[..n]), SplitRows(bodies[n]));
    }
  }

  // The successfully sent batches are a prefix of the dispatched ones.
  lemma {:induction false} SentIsPrefix(s: State)
    requires Inv(s)
    ensures s.sent <= s.dispatched
  {
    hide OwnedOnce, BatchesOk, Emptied, Rowwise, InFlight;
  }

  // No octet of an accepted row is lost, duplicated or reordered.
  lemma {:induction false} AcceptedOctets(s: State)
    requires Inv(s)
    ensures Concat(s.accepted) == Concat(s.dispatched) + CurLoad(s)
  {
    hide OwnedOnce, BatchesOk, Emptied, Flow, InFlight, Split;
    SplitAllTiles(s.dispatched);
    SplitTiles(CurLoad(s));
    ConcatAppend(SplitAll(s.dispatched), SplitRows(CurLoad(s)));
  }

  // When both batches are in the producer's hands and no failure is set,
  // which is when wait returns nil: every dispatched batch was sent, and
  // the sent bodies and the current batch are the accepted rows.
  lemma {:induction false} WaitMeansSent(s: State)
    requires Inv(s) && s.failure.None? && |CurSeq(s)| + |s.held| == BUFFERS
    ensures s.sent == s.dispatched && s.lost == [] && s.pending == [] && WorkerSeq(s) == []
    ensures s.accepted == SplitAll(s.sent) + SplitRows(CurLoad(s))
    ensures Concat(s.accepted) == Concat(s.sent) + CurLoad(s)
  {
    OwnedIndices(s);
    AcceptedOctets(s);
    hide OwnedOnce, BatchesOk, Emptied, CurLoad, Load;
  }

  // Sends on the two bounded channels never block.
  lemma {:induction false} NeverBlocks(s: State)
    requires Inv(s)
    ensures s.cur.Some? ==> |s.pending| < BUFFERS
    ensures s.worker.Cleared? || s.held != [] ==> |s.free| < BUFFERS
  {
    OwnedIndices(s);
    hide OwnedOnce, BatchesOk, Emptied, Flow, Rowwise;
  }

  // The producer writes only its own batch, never one the worker may be
  // sending or is about to.
  lemma {:induction false} PushIsExclusive(s: State, values: seq<Value>, rowNumber: int, b: nat)
    requires Inv(s) && Enabled(s, Push(values, rowNumber))
    requires b < |s.batches| && (b in s.pending || b in WorkerSeq(s))
    ensures Apply(s, Push(values, rowNumber)).batches[b] == s.batches[b]
  {
    OwnedIndices(s);
    OwnersApart(s);
    hide Inv, OwnedOnce, Pushed, RowOk, Frame, HasRoom;
    assert s.cur.value != b;
    PushOthers(s, values, rowNumber, b);
  }

  lemma {:induction false} PushOthers(s: State, values: seq<Value>, rowNumber: int, b: nat)
    requires Enabled(s, Push(values, rowNumber)) && s.cur != Some(b) && b < |s.batches|
    ensures Apply(s, Push(values, rowNumber)).batches[b] == s.batches[b]
  {
    hide Pushed, RowOk, Frame, HasRoom;
  }

  // An empty batch has room for any row, so after a dispatch one row fits.
  lemma {:induction false} EmptyHasRoom(s: State, c: nat)
    requires BatchesOk(s) && c < |s.batches| && s.batches[c].rows == 0
    ensures HasRoom(s.batches[c], s.encoders)
  {
    hide MaxParcelLen;
  }

  // ----- No deadlock

  function Phase(w: Worker): nat {
    match w
    case Exited => 0
    case Idle => 1
    case Cleared(_) => 2
    case Finished(_) => 3
    case SendFailed(_, _) => 4
    case Sending(_) => 5
    case Received(_) => 6
  }

  /** How much the worker still has to do with what it was given. */
  function Work(s: State): nat { 6 * |s.pending| + Phase(s.worker) }

  /** The worker's next step; outcome says how a send in progress ends. */
  function NextStep(s: State, outcome: Option<Failure>): Event {
    match s.worker
    case Idle => if s.pending != [] then Receive else Exit
    case Received(_) => if s.failure.None? then Begin else Skip
    case Sending(_) => (match outcome case None => Sent case Some(error) => SendFails(error))
    case SendFailed(_, _) => SetFailure
    case Finished(_) => Reset
    case Cleared(_) => Free
    case Exited => Exit
  }

  predicate Stopped(s: State) {
    s.worker.Exited? || (s.worker.Idle? && s.pending == [] && !s.closed)
  }

  // Unless it is idle with nothing to do, the worker can always step,
  // however its sends end; and its steps run out.
  lemma {:induction false} WorkerSteps(s: State, outcome: Option<Failure>)
    requires Inv(s) && !Stopped(s)
    ensures Enabled(s, NextStep(s, outcome)) && IsWorkerEvent(NextStep(s, outcome))
    ensures Work(Apply(s, NextStep(s, outcome))) < Work(s)
  {
    NeverBlocks(s);
    WorkerIndex(s);
    hide Inv;
    StepEnabled(s, outcome);
    WorkDecreases(s, NextStep(s, outcome));
  }

  lemma {:induction false} WorkerIndex(s: State)
    requires Inv(s)
    ensures |s.batches| == BUFFERS && (WorkerSeq(s) != [] ==> s.worker.b < BUFFERS)
    ensures s.cur.Some? ==> s.cur.value < BUFFERS
  {
    OwnedIndices(s);
    hide OwnedOnce, Emptied, Flow, Rowwise;
    assert WorkerSeq(s) != [] ==> s.worker.b in WorkerSeq(s);
    assert s.cur.Some? ==> s.cur.value in CurSeq(s);
  }

  lemma {:induction false} StepEnabled(s: State, outcome: Option<Failure>)
    requires !Stopped(s) && |s.batches| == BUFFERS && (WorkerSeq(s) != [] ==> s.worker.b < BUFFERS)
    requires s.worker.Cleared? ==> |s.free| < BUFFERS
    ensures Enabled(s, NextStep(s, outcome)) && IsWorkerEvent(NextStep(s, outcome))
  {}

  lemma {:induction false} WorkDecreases(s: State, e: Event)
    requires Enabled(s, e) && IsWorkerEvent(e)
    ensures Work(Apply(s, e)) < Work(s)
  {
    hide Load, Rows;
  }

  // A producer that finds the free channel empty while it waits for a
  // batch is waiting for a worker that can step.
  lemma {:induction false} NoDeadlock(s: State)
    requires Inv(s) && s.free == [] && |CurSeq(s)| + |s.held| < BUFFERS
    ensures !Stopped(s)
  {
    OwnedIndices(s);
    hide OwnedOnce, BatchesOk, Emptied, Rowwise, InFlight;
  }

  // ----- What worker steps leave alone

  /** t is s after worker steps only, as the producer sees it. */
  predicate WorkerOnly(s: State, t: State) {
    && t.cur == s.cur && t.held == s.held && t.closed == s.closed && t.encoders == s.encoders
    && t.accepted == s.accepted && t.dispatched == s.dispatched
    && (s.failure.Some? ==> t.failure == s.failure)
    && (s.cur.Some? ==> s.cur.value < |s.batches| && s.cur.value < |t.batches|
                        && t.batches[s.cur.value] == s.batches[s.cur.value])
  }

  lemma {:induction false} WorkerStepOnly(s: State, e: Event)
    requires Inv(s) && Enabled(s, e) && IsWorkerEvent(e)
    ensures WorkerOnly(s, Apply(s, e))
  {
    WorkerIndex(s);
    OwnersApart(s);
    hide Inv, OwnedOnce;
    ApartStepOnly(s, e);
  }

  lemma {:induction false} ApartStepOnly(s: State, e: Event)
    requires WorkerApart(s) && Enabled(s, e) && IsWorkerEvent(e)
    requires s.cur.Some? ==> s.cur.value < |s.batches|
    ensures WorkerOnly(s, Apply(s, e))
  {
    hide Load, Rows;
  }
}
