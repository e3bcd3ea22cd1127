/** The control session's side of a load: the statements, the log of them,
    and the scripts a load follows. */
module FastLoadScript {
  import opened Bytes
  import opened FastLoadChannel

  /** The statements the control session is given. */
  datatype Statement =
    | Prepare | CheckWorkload | CheckWorkloadEnd | Probe | SetDateForm
    | BeginLoading | UsingInsert | CheckpointEnd | EndLoading
    | BeginTransaction | EndTransaction | DeleteAll | DropTable(which: nat)
    | ReadErrors | CountViolations

  /** One statement handed to the control session and what came of it, with
      the rows counted and the data channels as they were then. */
  datatype Entry = Entry(statement: Statement, err: Option<Error>, rows: nat, channels: seq<State>)

  datatype Error = ContextDone | Server(code: nat) | Transport

  // ----- What is said to the server

  function Words(l: seq<Entry>): (ws: seq<Statement>)
    ensures |ws| == |l| && forall i :: 0 <= i < |l| ==> ws[i] == l[i].statement
  {
    seq(|l|, i requires 0 <= i < |l| => l[i].statement)
  }

  function Times(s: Statement, n: nat): (ws: seq<Statement>)
    ensures |ws| == n && forall i :: 0 <= i < n ==> ws[i] == s
  {
    seq(n, _ => s)
  }

  /** Every statement succeeded. */
  predicate Good(l: seq<Entry>) { forall i :: 0 <= i < |l| ==> l[i].err.None? }

  predicate NoCheckpoint(l: seq<Entry>) { forall i :: 0 <= i < |l| ==> !l[i].statement.CheckpointEnd? }

  /** b is a with more statements, none of them CHECKPOINT LOADING END. */
  predicate Continues(a: seq<Entry>, b: seq<Entry>) { a <= b && NoCheckpoint(b[|a|..]) }

  lemma {:induction false} NoCheckpointIn(a: seq<Entry>, b: seq<Entry>)
    requires NoCheckpoint(a) && NoCheckpoint(b)
    ensures NoCheckpoint(a + b)
  {}

  /** How a load ends: checkpoint, commit, a new transaction around END
      LOADING, commit. */
  ghost predicate EndScript(l: seq<Entry>) {
    Good(l) && exists m, n :: Words(l) == [CheckpointEnd] + Times(EndTransaction, m)
                                           + [BeginTransaction, EndLoading] + Times(EndTransaction, n)
  }

  /** Nothing but this statement, each time with success. */
  predicate Said(l: seq<Entry>, s: Statement) { Good(l) && Words(l) == Times(s, |l|) }

  predicate SaidOne(l: seq<Entry>, s: Statement) { |l| == 1 && l[0].statement == s && l[0].err.None? }

  lemma {:induction false} EndWords(cp: seq<Entry>, m: seq<Entry>, bt: seq<Entry>, end: seq<Entry>, n: seq<Entry>)
    requires SaidOne(cp, CheckpointEnd) && Said(m, EndTransaction) && Said(bt, BeginTransaction) && |bt| == 1
    requires SaidOne(end, EndLoading) && Said(n, EndTransaction)
    ensures EndScript(cp + m + bt + end + n)
  {
    var l := cp + m + bt + end + n;
    assert Words(l) == [CheckpointEnd] + Times(EndTransaction, |m|) + [BeginTransaction, EndLoading]
                       + Times(EndTransaction, |n|);
  }

  /** The log l begins with the end of a load of these rows. */
  ghost predicate EndedBy(l: seq<Entry>, rows: nat) {
    l != [] && l[0].rows == rows && exists k :: 0 <= k <= |l| && EndScript(l[..k])
  }

  lemma {:induction false} EndedGrows(a: seq<Entry>, b: seq<Entry>, k: nat, rows: nat)
    requires k <= |a| && a <= b && EndedBy(a[k..], rows)
    ensures EndedBy(b[k..], rows)
  {
    hide EndScript;
    var i :| 0 <= i <= |a[k..]| && EndScript(a[k..][..i]);
    assert b[k..][..i] == a[k..][..i];
  }

  /** How a load left behind is released: commit, BEGIN LOADING again, END
      LOADING in a transaction, commit, DELETE ALL. */
  ghost predicate ReleaseScript(l: seq<Entry>) {
    Good(l) && exists m, t, n :: t <= 1 && Words(l) == Times(EndTransaction, m) + [BeginLoading]
                                                      + Times(BeginTransaction, t) + [EndLoading]
                                                      + Times(EndTransaction, n) + [DeleteAll]
  }

  lemma {:induction false} ReleaseWords(m: seq<Entry>, begin: seq<Entry>, bt: seq<Entry>, end: seq<Entry>, n: seq<Entry>,
                                        delete: seq<Entry>)
    requires Said(m, EndTransaction) && SaidOne(begin, BeginLoading) && Said(bt, BeginTransaction) && |bt| <= 1
    requires SaidOne(end, EndLoading) && Said(n, EndTransaction) && SaidOne(delete, DeleteAll)
    ensures ReleaseScript(m + begin + bt + end + n + delete)
  {
    var l := m + begin + bt + end + n + delete;
    assert Words(l) == Times(EndTransaction, |m|) + [BeginLoading] + Times(BeginTransaction, |bt|) + [EndLoading]
                       + Times(EndTransaction, |n|) + [DeleteAll];
  }

  /** How a load begins, after whatever cleared a stale one. */
  ghost predicate BeginScript(l: seq<Entry>) {
    Good(l) && exists t :: t <= 1 && Words(l) == [SetDateForm, BeginLoading] + Times(BeginTransaction, t) + [UsingInsert]
  }

  /** The log ends with the beginning of a load. */
  ghost predicate BegunBy(l: seq<Entry>) { exists k :: 0 <= k <= |l| && BeginScript(l[k..]) }

  lemma {:induction false} BegunAfter(before: seq<Entry>, begun: seq<Entry>)
    requires BeginScript(begun)
    ensures BegunBy(before + begun)
  {
    hide BeginScript;
    assert (before + begun)[|before|..] == begun;
  }

  lemma {:induction false} BeginWords(form: seq<Entry>, begin: seq<Entry>, bt: seq<Entry>, insert: seq<Entry>)
    requires SaidOne(form, SetDateForm) && SaidOne(begin, BeginLoading)
    requires Said(bt, BeginTransaction) && |bt| <= 1 && SaidOne(insert, UsingInsert)
    ensures BeginScript(form + begin + bt + insert)
  {
    var l := form + begin + bt + insert;
    assert Words(l) == [SetDateForm, BeginLoading] + Times(BeginTransaction, |bt|) + [UsingInsert];
  }

  /** Attempts to drop one table: each but the last met a deadlock. */
  predicate Attempts(l: seq<Entry>, table: nat) {
    && |l| <= 5
    && (forall i :: 0 <= i < |l| ==> l[i].statement == DropTable(table))
    && (forall i :: 0 <= i < |l| - 1 ==> l[i].err == Some(Server(DEADLOCK)))
  }

  lemma {:induction false} DropsNoCheckpoint(first: seq<Entry>, second: seq<Entry>)
    requires Attempts(first, 1) && Attempts(second, 2)
    ensures NoCheckpoint(first) && NoCheckpoint(second)
  {}

  lemma {:induction false} NoAttempts(table: nat)
    ensures Attempts([], table)
  {}

  /** The table is gone: dropped, or never there. */
  predicate Dropped(l: seq<Entry>, table: nat) {
    && Attempts(l, table) && l != []
    && (l[|l| - 1].err.None? || l[|l| - 1].err == Some(Server(NO_TABLE)))
  }

  /** Statement text aside, the codes the driver looks for. */
  const DEADLOCK := 2631
  const BEING_LOADED := 2652
  const NO_TABLE := 3807

  /** Both error tables were read, if they were there, and are gone. */
  ghost predicate ReadBy(l: seq<Entry>) {
    && |l| >= 2 && l[0].statement.ReadErrors? && l[1].statement.CountViolations?
    && (forall i :: 0 <= i < 2 ==> l[i].err.None? || l[i].err == Some(Server(NO_TABLE)))
    && exists j :: 2 <= j <= |l| && Dropped(l[2..j], 1) && Dropped(l[j..], 2)
  }

  /** A released load and both error tables dropped. */
  ghost predicate ReleasedBy(l: seq<Entry>) {
    exists i, j :: 0 <= i <= j <= |l| && ReleaseScript(l[..i]) && Dropped(l[i..j], 1) && Dropped(l[j..], 2)
  }

  lemma {:induction false} NothingSaid(log: seq<Entry>)
    ensures Continues(log, log)
  {}

  lemma {:induction false} ReleaseSaid(before: seq<Entry>, said: seq<Entry>,
                                       first: seq<Entry>, second: seq<Entry>, ok: bool)
    requires NoCheckpoint(said) && NoCheckpoint(first) && NoCheckpoint(second)
    requires ok ==> ReleaseScript(said) && Dropped(first, 1) && Dropped(second, 2)
    ensures Continues(before, before + said + first + second)
    ensures ok ==> ReleasedBy((before + said + first + second)[|before|..])
  {
    hide ReleaseScript, Dropped;
    var l := said + first + second;
    assert (before + said + first + second)[|before|..] == l;
    assert l[..|said|] == said && l[|said|..|said + first|] == first && l[|said + first|..] == second;
  }
}
