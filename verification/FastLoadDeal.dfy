/** Rows dealt round-robin over the data channels. */
module FastLoadDeal {
  import opened Bytes
  import opened FastLoadEncode
  import opened FastLoadRow
  import opened FastLoadChannel
  import opened FastLoadDataChannel

  /** The row numbers of 1..total that channel j of n is due, in order. */
  function Hand(total: nat, n: nat, j: nat): seq<int>
    requires j < n
  {
    if total == 0 then []
    else Hand(total - 1, n, j) + (if (total - 1) % n == j then [total] else [])
  }

  // Every row number belongs to exactly one channel, the one congruent to
  // it, and nothing else does.
  lemma {:induction false} HandMember(total: nat, n: nat, j: nat, r: int)
    requires j < n
    ensures r in Hand(total, n, j) <==> 1 <= r <= total && (r - 1) % n == j
  {
    if total > 0 {
      HandMember(total - 1, n, j, r);
    }
  }

  lemma {:induction false} HandAscending(total: nat, n: nat, j: nat, a: nat, b: nat)
    requires j < n && a < b < |Hand(total, n, j)|
    ensures Hand(total, n, j)[a] < Hand(total, n, j)[b]
  {
    var h := Hand(total - 1, n, j);
    if b < |h| {
      HandAscending(total - 1, n, j, a, b);
    } else {
      HandMember(total - 1, n, j, h[a]);
    }
  }

  lemma {:induction false} HandSize(total: nat, n: nat, j: nat)
    requires j < n
    ensures |Hand(total, n, j)| == (total + n - 1 - j) / n
  {
    if total == 0 {
      ModSmall(n - 1 - j, n);
    } else {
      HandSize(total - 1, n, j);
      ShareStep(total - 1, n, j);
    }
  }

  lemma {:induction false} ShareStep(t: nat, n: nat, j: nat)
    requires j < n
    ensures (t + n - j) / n == (t + n - 1 - j) / n + (if t % n == j then 1 else 0)
  {
    var q, r := t / n, t % n;
    assert t == n * q + r;
    assert n * (q + 1) == n * q + n;
    if r > j {
      DivModUnique(t + n - j, n, q + 1, r - j);
      DivModUnique(t + n - 1 - j, n, q + 1, r - 1 - j);
    } else if r == j {
      DivModUnique(t + n - j, n, q + 1, 0);
      DivModUnique(t + n - 1 - j, n, q, n - 1);
    } else {
      DivModUnique(t + n - j, n, q, r + n - j);
      DivModUnique(t + n - 1 - j, n, q, r + n - 1 - j);
    }
  }

  // Two channels never differ by more than one row.
  lemma {:induction false} HandsEven(total: nat, n: nat, i: nat, j: nat)
    requires i < n && j < n
    ensures |Hand(total, n, i)| <= |Hand(total, n, j)| + 1
  {
    HandSize(total, n, i);
    HandSize(total, n, j);
    var x, y := total + n - 1 - i, total + n - 1 - j;
    DivStep(y, n);
    DivMono(x, y + n, n);
  }

  lemma {:induction false} DivStep(y: nat, n: nat)
    requires n > 0
    ensures (y + n) / n == y / n + 1
  {
    assert n * (y / n + 1) == n * (y / n) + n;
    DivModUnique(y + n, n, y / n + 1, y % n);
  }

  lemma {:induction false} DivMono(x: nat, y: nat, n: nat)
    requires x <= y && n > 0
    ensures x / n <= y / n
  {
    assert n * (y / n + 1) == n * (y / n) + n;
    if x / n > y / n {
      MulMono(n, y / n + 1, x / n);
    }
  }

  // ----- What the channels hold

  /** The row numbers the framed rows carry. */
  function Numbers(frames: seq<seq<byte>>): (s: seq<int>)
    ensures |s| == |frames|
  {
    seq(|frames|, i requires 0 <= i < |frames| => if |frames[i]| >= 4 then RowNumber(frames[i]) else 0)
  }

  /** Channel j of n has accepted exactly the rows it is due. */
  predicate DealtTo(s: State, total: nat, n: nat, j: nat)
    requires j < n
  {
    Numbers(s.accepted) == Hand(total, n, j)
  }

  predicate Dealt(channels: seq<State>, total: nat) {
    forall j :: 0 <= j < |channels| ==> DealtTo(channels[j], total, |channels|, j)
  }

  /** Channel j of n has sent exactly the rows it is due, in order. */
  predicate SentTo(s: State, total: nat, n: nat, j: nat)
    requires j < n
  {
    Numbers(SplitAll(s.sent)) == Hand(total, n, j)
  }

  /** Every row 1..total was in a batch whose send succeeded. */
  predicate AllSent(channels: seq<State>, total: nat) {
    channels != [] && forall j :: 0 <= j < |channels| ==> SentTo(channels[j], total, |channels|, j)
  }

  lemma {:induction false} AllSentMeans(channels: seq<State>, total: nat, r: int)
    requires AllSent(channels, total) && 1 <= r <= total
    ensures r in Numbers(SplitAll(channels[(r - 1) % |channels|].sent))
  {
    var j := (r - 1) % |channels|;
    HandMember(total, |channels|, j, r);
    assert SentTo(channels[j], total, |channels|, j);
  }

  // A row that was not accepted leaves the deal as it was.
  lemma {:induction false} DealSame(channels: seq<State>, total: nat, c: nat, next: State)
    requires c < |channels| && Dealt(channels, total) && next.accepted == channels[c].accepted
    ensures Dealt(channels[c := next], total)
  {
    hide Hand, Numbers;
    var same := channels[c := next];
    forall j | 0 <= j < |same|
      ensures DealtTo(same[j], total, |same|, j)
    {
      assert DealtTo(channels[j], total, |channels|, j);
    }
  }

  // One more row, accepted by the next channel in turn, is dealt.
  lemma {:induction false} DealNext(channels: seq<State>, total: nat, next: State,
                                    encoders: seq<Encoder>, values: seq<Value>)
    requires channels != [] && Dealt(channels, total)
    requires RowOk(encoders, values) && MaxParcelLen(encoders) <= MAX_PARCEL_LEN
    requires total + 1 < 0x8000_0000
    requires next.accepted == channels[total % |channels|].accepted + [Frame(encoders, values, total + 1)]
    ensures Dealt(channels[total % |channels| := next], total + 1)
  {
    var n := |channels|;
    var c := total % n;
    var f := Frame(encoders, values, total + 1);
    NumberOf(encoders, values, total + 1);
    hide RowOk, Frame, RowNumber;
    assert Numbers(channels[c].accepted + [f]) == Numbers(channels[c].accepted) + [total + 1];
    var dealt := channels[c := next];
    forall j | 0 <= j < n
      ensures DealtTo(dealt[j], total + 1, n, j)
    {
      assert DealtTo(channels[j], total, n, j);
    }
  }

  lemma {:induction false} NumberOf(encoders: seq<Encoder>, values: seq<Value>, rowNumber: int)
    requires RowOk(encoders, values) && MaxParcelLen(encoders) <= MAX_PARCEL_LEN
    requires 0 <= rowNumber < 0x8000_0000
    ensures |Frame(encoders, values, rowNumber)| >= 4 && RowNumber(Frame(encoders, values, rowNumber)) == rowNumber
  {
    FrameLaws(encoders, values, rowNumber);
    assert Pow256(4) == 0x1_0000_0000;
    hide RowOk, Frame, RowNumber;
  }

  // Drained channels with nothing in hand have sent all they were dealt.
  lemma {:induction false} DrainedSentAll(s: State, total: nat, n: nat, j: nat)
    requires j < n && DealtTo(s, total, n, j)
    requires Inv(s) && Drained(s) && CurLoad(s) == []
    ensures SentTo(s, total, n, j)
  {
    DrainedSentRows(s);
  }

  lemma {:induction false} NoneDealt(channels: seq<State>)
    requires forall j :: 0 <= j < |channels| ==> channels[j].accepted == []
    ensures Dealt(channels, 0)
  {}

  /** The channels' accepted rows did not change. */
  predicate SameDeal(a: seq<State>, b: seq<State>) {
    |a| == |b| && forall j :: 0 <= j < |a| ==> b[j].accepted == a[j].accepted
  }

  lemma {:induction false} SameDealDealt(a: seq<State>, b: seq<State>, total: nat)
    requires Dealt(a, total) && SameDeal(a, b)
    ensures Dealt(b, total)
  {
    hide Hand, Numbers;
    forall j | 0 <= j < |b|
      ensures DealtTo(b[j], total, |b|, j)
    {
      assert DealtTo(a[j], total, |a|, j);
    }
  }

  /** Only the channel in turn was touched, and it gained the row exactly
      when the row was accepted. */
  predicate DealtOne(a: seq<State>, b: seq<State>, total: nat,
                     encoders: seq<Encoder>, values: seq<Value>, accepted: bool) {
    && |a| == |b| > 0
    && var c := total % |a|;
      && b == a[c := b[c]]
      && (if accepted then
            RowOk(encoders, values) && b[c].accepted == a[c].accepted + [Frame(encoders, values, total + 1)]
          else b[c].accepted == a[c].accepted)
  }

  /** The first k channels have no row in hand. */
  predicate Emptyhanded(channels: seq<State>, k: nat)
    requires k <= |channels|
  {
    forall j :: 0 <= j < k ==> CurLoad(channels[j]) == []
  }

  /** The first k channels have sent everything they accepted. */
  ghost predicate Flushed(channels: seq<State>, k: nat)
    requires k <= |channels|
  {
    forall j :: 0 <= j < k ==> Inv(channels[j]) && Drained(channels[j]) && CurLoad(channels[j]) == []
  }

  lemma {:induction false} FlushedSent(channels: seq<State>, total: nat)
    requires channels != [] && Dealt(channels, total) && Flushed(channels, |channels|)
    ensures AllSent(channels, total)
  {
    hide Hand, Numbers, Inv, Drained, CurLoad;
    forall j | 0 <= j < |channels|
      ensures SentTo(channels[j], total, |channels|, j)
    {
      assert DealtTo(channels[j], total, |channels|, j);
      DrainedSentAll(channels[j], total, |channels|, j);
    }
  }
}
