/** Walking the parcels of a message: the header in two forms, the loop that
    reads them all, and the loop that looks for an error. */
module ParcelWalk {
  import opened Bytes
  import opened ResponseParcels

  /** readParcelHeader: flavor and length, in the short or the long form. */
  function HeadAt(data: seq<byte>, pos: nat): Option<(nat, nat)> {
    if pos + 4 > |data| then None
    else
      var flavor := FromBe(data[pos..pos + 2]);
      if flavor < 0x8000 then Some((flavor, FromBe(data[pos + 2..pos + 4])))
      else if pos + 8 > |data| then None
      else Some((flavor - 0x8000, FromBe(data[pos + 4..pos + 8])))
  }

  datatype Seen = Seen(flavor: nat, start: nat, length: nat)

  /** How a walk over parcels ends: it has seen these, it reads past the
      data, or it never ends. */
  datatype Walk = Walked(seen: seq<Seen>) | Overrun | Forever

  /** From header to header, as every parcel loop moves; a parcel of length
      zero does not advance. */
  function WalkFrom(data: seq<byte>, pos: nat, end: nat): Walk
    decreases |data| - pos
  {
    match HeadAt(data, pos)
    case None => Overrun
    case Some((flavor, len)) =>
      if pos + len >= end then Walked([Seen(flavor, pos, len)])
      else if len == 0 then Forever
      else Seeing([Seen(flavor, pos, len)], WalkFrom(data, pos + len, end))
  }

  /** What reading the parcel at pos does, its contents included. */
  function ReadParcel(data: seq<byte>, pos: nat): Outcome {
    match HeadAt(data, pos)
    case None => Panics
    case Some((flavor, len)) => Contents(flavor, data[BodyAt(data, pos)..], len)
  }

  /** Where the contents of a parcel begin. */
  function BodyAt(data: seq<byte>, pos: nat): (at: nat)
    requires HeadAt(data, pos).Some?
    ensures pos + 4 <= at <= |data|
  {
    if FromBe(data[pos..pos + 2]) < 0x8000 then pos + 4 else pos + 8
  }

  /** The loop that reads every parcel. */
  function ReadFrom(data: seq<byte>, pos: nat, end: nat): Walk
    decreases |data| - pos
  {
    match ReadParcel(data, pos)
    case Panics => Overrun
    case Endless => Forever
    case Returns =>
      var (flavor, len) := HeadAt(data, pos).value;
      if pos + len >= end then Walked([Seen(flavor, pos, len)])
      else if len == 0 then Forever
      else Seeing([Seen(flavor, pos, len)], ReadFrom(data, pos + len, end))
  }

  function Seeing(before: seq<Seen>, w: Walk): Walk {
    match w
    case Walked(seen) => Walked(before + seen)
    case _ => w
  }

  /** The loop of readLanMessage, with its moving cursor. */
  method WalkParcels(data: seq<byte>, start: nat, end: nat) returns (w: Walk)
    ensures w == ReadFrom(data, start, end)
  {
    hide HeadAt, Contents;
    var pos, seen: seq<Seen> := start, [];
    while true
      invariant Seeing(seen, ReadFrom(data, pos, end)) == ReadFrom(data, start, end)
      decreases |data| - pos
    {
      HeadInside(data, pos);
      match ReadParcel(data, pos) {
        case Panics =>
          return Overrun;
        case Endless =>
          return Forever;
        case Returns =>
          var (flavor, len) := HeadAt(data, pos).value;
          ghost var before := seen;
          seen := seen + [Seen(flavor, pos, len)];
          SeeingTwice(before, [Seen(flavor, pos, len)], ReadFrom(data, pos + len, end));
          if pos + len >= end {
            return Walked(seen);
          }
          if len == 0 {
            return Forever;
          }
          pos := pos + len;
      }
    }
  }

  lemma {:induction false} HeadInside(data: seq<byte>, pos: nat)
    ensures HeadAt(data, pos).Some? ==> pos + 4 <= |data|
  {}

  lemma {:induction false} SeeingTwice(a: seq<Seen>, b: seq<Seen>, w: Walk)
    ensures Seeing(a, Seeing(b, w)) == Seeing(a + b, w)
  {
    if w.Walked? {
      assert a + (b + w.seen) == a + b + w.seen;
    }
  }

  /** A response parcel whose header, short or long, states its own length. */
  predicate IsLanParcel(p: seq<byte>) {
    HeadAt(p, 0).Some? && HeadAt(p, 0).value.1 == |p|
  }

  predicate AllLanParcels(ps: seq<seq<byte>>) { forall i :: 0 <= i < |ps| ==> IsLanParcel(ps[i]) }

  /** Where each parcel of a list lies. */
  function Places(ps: seq<seq<byte>>, at: nat): seq<Seen>
    requires AllLanParcels(ps)
  {
    if ps == [] then []
    else [Seen(HeadAt(ps[0], 0).value.0, at, |ps[0]|)] + Places(ps[1..], at + |ps[0]|)
  }

  // A header reads the same wherever it lies.
  lemma {:induction false} HeadAgain(pre: seq<byte>, p: seq<byte>, post: seq<byte>)
    requires HeadAt(p, 0).Some?
    ensures HeadAt(pre + p + post, |pre|) == HeadAt(p, 0)
  {
    var s := pre + p + post;
    hide FromBe;
    assert s[|pre|..|pre| + 2] == p[0..2];
    assert s[|pre| + 2..|pre| + 4] == p[2..4];
    if |p| >= 8 {
      assert s[|pre| + 4..|pre| + 8] == p[4..8];
    }
  }

  lemma {:induction false} WalkStep(data: seq<byte>, pos: nat, end: nat, flavor: nat, len: nat)
    requires HeadAt(data, pos) == Some((flavor, len)) && len > 0
    ensures pos + len >= end ==> WalkFrom(data, pos, end) == Walked([Seen(flavor, pos, len)])
    ensures pos + len < end ==>
              WalkFrom(data, pos, end) == Seeing([Seen(flavor, pos, len)], WalkFrom(data, pos + len, end))
  {}

  lemma {:induction false} Regroup(pre: seq<byte>, p: seq<byte>, rest: seq<byte>, post: seq<byte>)
    ensures pre + (p + rest) + post == pre + p + (rest + post)
    ensures pre + p + (rest + post) == (pre + p) + rest + post
  {}

  // One parcel off the front of the list, wherever the list lies.
  lemma {:induction false} FrontParcel(pre: seq<byte>, ps: seq<seq<byte>>, post: seq<byte>)
    requires ps != [] && AllLanParcels(ps)
    ensures AllLanParcels(ps[1..]) && |ps[0]| > 0 && HeadAt(ps[0], 0).Some?
    ensures pre + Concat(ps) + post == (pre + ps[0]) + Concat(ps[1..]) + post
    ensures HeadAt(pre + Concat(ps) + post, |pre|) == Some((HeadAt(ps[0], 0).value.0, |ps[0]|))
    ensures |Concat(ps)| == |ps[0]| + |Concat(ps[1..])|
  {
    ConcatHead(ps);
    Regroup(pre, ps[0], Concat(ps[1..]), post);
    HeadAgain(pre, ps[0], Concat(ps[1..]) + post);
    HeadInside(ps[0], 0);
    hide HeadAt;
  }

  // Over any nonempty list of parcels, wherever it lies, the walk sees
  // exactly those parcels.
  lemma {:induction false} WalkSeesAll(pre: seq<byte>, ps: seq<seq<byte>>, post: seq<byte>)
    requires ps != [] && AllLanParcels(ps)
    ensures WalkFrom(pre + Concat(ps) + post, |pre|, |pre| + |Concat(ps)|) == Walked(Places(ps, |pre|))
    decreases |ps|
  {
    hide HeadAt, WalkFrom, Concat, IsLanParcel;
    var p, rest := ps[0], ps[1..];
    var s, end := pre + Concat(ps) + post, |pre| + |Concat(ps)|;
    FrontParcel(pre, ps, post);
    WalkStep(s, |pre|, end, HeadAt(p, 0).value.0, |p|);
    if rest == [] {
      NoOctets();
    } else {
      FrontParcel([], rest, []);
      WalkSeesAll(pre + p, rest, post);
    }
  }

  lemma {:induction false} NoOctets()
    ensures Concat([]) == []
  {}

  // ----- Reading contents

  // The loop sees what the headers show exactly when the contents of every
  // parcel they show can be read.
  lemma {:induction false} ReadsWhatIsSeen(data: seq<byte>, pos: nat, end: nat)
    ensures ReadFrom(data, pos, end).Walked? <==>
              var w := WalkFrom(data, pos, end);
              w.Walked? && forall i :: 0 <= i < |w.seen| ==> ReadParcel(data, w.seen[i].start) == Returns
    ensures ReadFrom(data, pos, end).Walked? ==> ReadFrom(data, pos, end) == WalkFrom(data, pos, end)
    decreases |data| - pos
  {
    HeadInside(data, pos);
    NoHeadNoParcel(data, pos);
    hide HeadAt, ReadParcel;
    if HeadAt(data, pos).Some? {
      var (flavor, len) := HeadAt(data, pos).value;
      if pos + len >= end {
        SeenFirst(Seen(flavor, pos, len), Walked([]), data);
        assert [Seen(flavor, pos, len)] + [] == [Seen(flavor, pos, len)];
      } else if 0 < len {
        ReadsWhatIsSeen(data, pos + len, end);
        if WalkFrom(data, pos + len, end).Walked? {
          SeenFirst(Seen(flavor, pos, len), WalkFrom(data, pos + len, end), data);
        }
      }
    }
  }

  lemma {:induction false} NoHeadNoParcel(data: seq<byte>, pos: nat)
    ensures HeadAt(data, pos).None? ==> ReadParcel(data, pos) == Panics
  {}

  lemma {:induction false} SeenFirst(x: Seen, w: Walk, data: seq<byte>)
    requires w.Walked?
    ensures var v := Seeing([x], w);
      (forall i :: 0 <= i < |v.seen| ==> ReadParcel(data, v.seen[i].start) == Returns) <==>
      ReadParcel(data, x.start) == Returns
      && forall i :: 0 <= i < |w.seen| ==> ReadParcel(data, w.seen[i].start) == Returns
  {
    hide ReadParcel;
    var v := Seeing([x], w);
    assert v.seen[0] == x;
    assert forall i :: 0 <= i < |w.seen| ==> w.seen[i] == v.seen[i + 1];
  }

  /** A parcel whose contents are read within its own octets. */
  predicate SelfContained(p: seq<byte>) { ReadParcel(p, 0) == Returns }

  predicate AllSelfContained(ps: seq<seq<byte>>) { forall i :: 0 <= i < |ps| ==> SelfContained(ps[i]) }

  // A parcel that does not run past its octets is read the same wherever it
  // lies and whatever follows it.
  lemma {:induction false} ReadAgain(pre: seq<byte>, p: seq<byte>, post: seq<byte>)
    requires ReadParcel(p, 0) != Panics
    ensures ReadParcel(pre + p + post, |pre|) == ReadParcel(p, 0)
  {
    HeadAgain(pre, p, post);
    BodyAgain(pre, p, post);
    hide Contents, BodyAt, HeadAt;
    var (flavor, len) := HeadAt(p, 0).value;
    ReadsNoFurther(flavor, p[BodyAt(p, 0)..], post, len);
  }

  lemma {:induction false} BodyAgain(pre: seq<byte>, p: seq<byte>, post: seq<byte>)
    requires HeadAt(p, 0).Some? && HeadAt(pre + p + post, |pre|).Some?
    ensures var s := pre + p + post; s[BodyAt(s, |pre|)..] == p[BodyAt(p, 0)..] + post
  {
    hide FromBe;
    assert (pre + p + post)[|pre|..|pre| + 2] == p[0..2];
  }

  // Over any nonempty list of such parcels, wherever it lies, the loop sees
  // exactly those parcels.
  lemma {:induction false} ReadSeesAll(pre: seq<byte>, ps: seq<seq<byte>>, post: seq<byte>)
    requires ps != [] && AllLanParcels(ps) && AllSelfContained(ps)
    ensures ReadFrom(pre + Concat(ps) + post, |pre|, |pre| + |Concat(ps)|) == Walked(Places(ps, |pre|))
    decreases |ps|
  {
    hide HeadAt, ReadFrom, ReadParcel, Concat, IsLanParcel;
    var p, rest := ps[0], ps[1..];
    var s, end := pre + Concat(ps) + post, |pre| + |Concat(ps)|;
    FrontParcel(pre, ps, post);
    Regroup(pre, p, Concat(rest), post);
    ReadAgain(pre, p, Concat(rest) + post);
    ConcatHead(ps);
    ReadStep(s, |pre|, end, HeadAt(p, 0).value.0, |p|);
    if rest == [] {
      NoOctets();
    } else {
      FrontParcel([], rest, []);
      ReadSeesAll(pre + p, rest, post);
    }
  }

  lemma {:induction false} ReadStep(data: seq<byte>, pos: nat, end: nat, flavor: nat, len: nat)
    requires HeadAt(data, pos) == Some((flavor, len)) && len > 0 && ReadParcel(data, pos) == Returns
    ensures pos + len >= end ==> ReadFrom(data, pos, end) == Walked([Seen(flavor, pos, len)])
    ensures pos + len < end ==>
              ReadFrom(data, pos, end) == Seeing([Seen(flavor, pos, len)], ReadFrom(data, pos + len, end))
  {
    hide HeadAt, ReadParcel;
  }

  // ----- When the loop never ends, and when it panics

  /** A parcel of nonzero length that ends before the end. */
  predicate Advances(data: seq<byte>, pos: nat, end: nat) {
    match HeadAt(data, pos)
    case None => false
    case Some((_, len)) => len > 0 && pos + len < end
  }

  /** The loop from pos comes to q, over parcels it reads and passes. */
  predicate Steps(data: seq<byte>, pos: nat, q: nat, end: nat)
    decreases |data| - pos
  {
    pos == q
    || (Advances(data, pos, end) && ReadParcel(data, pos) == Returns
        && Steps(data, pos + HeadAt(data, pos).value.1, q, end))
  }

  /** A header before the end that states length zero. */
  predicate StatesZero(data: seq<byte>, q: nat, end: nat) {
    q < end && HeadAt(data, q).Some? && HeadAt(data, q).value.1 == 0
  }

  /** A parcel that is read and states length zero, or whose own contents
      never end. */
  predicate IsStuck(data: seq<byte>, q: nat, end: nat) {
    ReadParcel(data, q) == Endless || (ReadParcel(data, q) == Returns && StatesZero(data, q, end))
  }

  // The loop never ends exactly when its own steps bring it to a parcel it
  // is stuck in.
  lemma {:induction false} ForeverExactly(data: seq<byte>, pos: nat, end: nat)
    ensures ReadFrom(data, pos, end) == Forever <==> exists q: nat :: Steps(data, pos, q, end) && IsStuck(data, q, end)
  {
    if ReadFrom(data, pos, end) == Forever {
      var q := LastRead(data, pos, end);
    }
    forall q: nat | Steps(data, pos, q, end) && IsStuck(data, q, end)
      ensures ReadFrom(data, pos, end) == Forever
    {
      EndsAsLast(data, pos, q, end);
    }
  }

  // And it panics exactly when they bring it to one it reads past the data.
  lemma {:induction false} OverrunExactly(data: seq<byte>, pos: nat, end: nat)
    ensures ReadFrom(data, pos, end) == Overrun <==>
              exists q: nat :: Steps(data, pos, q, end) && ReadParcel(data, q) == Panics
  {
    if ReadFrom(data, pos, end) == Overrun {
      var q := LastRead(data, pos, end);
    }
    forall q: nat | Steps(data, pos, q, end) && ReadParcel(data, q) == Panics
      ensures ReadFrom(data, pos, end) == Overrun
    {
      EndsAsLast(data, pos, q, end);
    }
  }

  lemma {:induction false} LastRead(data: seq<byte>, pos: nat, end: nat) returns (q: nat)
    ensures Steps(data, pos, q, end)
    ensures ReadFrom(data, pos, end) == Forever ==> IsStuck(data, q, end)
    ensures ReadFrom(data, pos, end) == Overrun ==> ReadParcel(data, q) == Panics
    decreases |data| - pos
  {
    HeadInside(data, pos);
    hide HeadAt, Contents;
    q := pos;
    if Advances(data, pos, end) && ReadParcel(data, pos) == Returns {
      q := LastRead(data, pos + HeadAt(data, pos).value.1, end);
    }
  }

  lemma {:induction false} EndsAsLast(data: seq<byte>, pos: nat, q: nat, end: nat)
    requires Steps(data, pos, q, end)
    ensures ReadFrom(data, q, end) == Forever ==> ReadFrom(data, pos, end) == Forever
    ensures ReadFrom(data, q, end) == Overrun ==> ReadFrom(data, pos, end) == Overrun
    decreases |data| - pos
  {
    HeadInside(data, pos);
    hide HeadAt, Contents;
    if pos != q {
      EndsAsLast(data, pos + HeadAt(data, pos).value.1, q, end);
    }
  }

  // In particular after any self-contained parcels a header that states
  // length zero, before the end, unless reading it panics.
  lemma {:induction false} ZeroLengthForever(pre: seq<byte>, ps: seq<seq<byte>>, zero: seq<byte>,
                                             post: seq<byte>, end: nat)
    requires AllLanParcels(ps) && AllSelfContained(ps)
    requires HeadAt(zero, 0).Some? && HeadAt(zero, 0).value.1 == 0
    requires |pre + Concat(ps)| < end
    ensures var data := pre + Concat(ps) + (zero + post);
      ReadFrom(data, |pre|, end) == if ReadParcel(data, |pre + Concat(ps)|) == Panics then Overrun else Forever
    decreases |ps|
  {
    hide HeadAt, Concat, IsLanParcel, ReadParcel;
    var s := pre + Concat(ps) + (zero + post);
    if ps == [] {
      NoOctets();
      HeadAgain(pre, zero, post);
      assert s == pre + zero + post && |pre + Concat(ps)| == |pre|;
    } else {
      FrontParcel(pre, ps, zero + post);
      Regroup(pre, ps[0], Concat(ps[1..]), zero + post);
      ConcatHead(ps);
      ReadAgain(pre, ps[0], Concat(ps[1..]) + (zero + post));
      ReadStep(s, |pre|, end, HeadAt(ps[0], 0).value.0, |ps[0]|);
      hide ReadFrom;
      ZeroLengthForever(pre + ps[0], ps[1..], zero, post, end);
    }
  }

  // A success parcel that states length zero and lies at the end of the data
  // panics; its header alone would be walked forever.
  lemma {:induction false} ZeroLengthPanics()
    ensures ReadFrom([0, 8, 0, 0], 0, 4) == Overrun && WalkFrom([0, 8, 0, 0], 0, 4) == Forever
  {
    var data := [0, 8, 0, 0];
    TwoValues(data);
    assert HeadAt(data, 0) == Some((SUCCESS, 0));
    assert data[BodyAt(data, 0)..] == [];
  }

  lemma {:induction false} TwoValues(s: seq<byte>)
    requires |s| >= 4
    ensures FromBe(s[0..2]) == s[0] as int * 256 + s[1] && FromBe(s[2..4]) == s[2] as int * 256 + s[3]
  {
    PairValue(s[0..2]);
    PairValue(s[2..4]);
  }

  lemma {:induction false} PairValue(s: seq<byte>)
    requires |s| == 2
    ensures FromBe(s) == s[0] as int * 256 + s[1]
  {
    assert s[..1][..0] == [];
  }

  /** One authentication mechanism with the object identifier 1.2 and an
      attribute of length zero. */
  const STUCK_MECHANISM: seq<byte> := [0, 167, 0, 21, 0, 0, 0, 1, 0, 0, 0, 1, 0x2A, 0, 0, 0, 0, 0, 0, 0, 0]

  // The headers show that one parcel, and the loop never leaves it.
  lemma {:induction false} MechanismForever()
    ensures WalkFrom(STUCK_MECHANISM, 0, 21) == Walked([Seen(AUTH_MECH, 0, 21)])
    ensures ReadFrom(STUCK_MECHANISM, 0, 21) == Forever
  {
    TwoValues(STUCK_MECHANISM);
    assert STUCK_MECHANISM[BodyAt(STUCK_MECHANISM, 0)..] == STUCK_MECHANISM[4..];
    MechanismStuck(STUCK_MECHANISM[4..]);
    hide AuthMech;
  }

  lemma {:induction false} MechanismStuck(s: seq<byte>)
    requires s == [0, 0, 0, 1, 0, 0, 0, 1, 0x2A, 0, 0, 0, 0, 0, 0, 0, 0]
    ensures AuthMech(s, 21) == Endless
  {
    ShortOid(s[8..9]);
    OneInFour();
    assert s[0..4] == [0, 0, 0, 1] == s[4..8];
    PairValue(s[9..11]);
    PairValue(s[11..13]);
    hide IsOid, FromBe;
  }

  lemma {:induction false} ShortOid(s: seq<byte>)
    requires |s| == 1 && s[0] < 128
    ensures IsOid(s)
  {
    assert s[0..1] == s;
    assert Component(s, 0, 0, 0) == Some(1);
  }

  lemma {:induction false} OneInFour()
    ensures FromBe([0, 0, 0, 1]) == 1
  {
    FromBeLeadingZero([0, 0, 1]);
    FromBeLeadingZero([0, 1]);
    FromBeLeadingZero([1]);
    assert [0] + [0, 0, 1] == [0, 0, 0, 1] && [0] + [0, 1] == [0, 0, 1] && [0] + [1] == [0, 1];
    assert [1][..0] == [];
  }

  // ----- Looking for an error parcel

  /** What checkErrorParcel finds: the first failure or error parcel, whose
      contents alone are read. */
  datatype Check = NoError | ErrorAt(start: nat, length: nat) | CheckOverrun | CheckForever

  predicate IsError(flavor: nat) { flavor == FAILURE || flavor == ERROR }

  /** An error parcel found, if its contents can be read. */
  function Found(data: seq<byte>, start: nat, length: nat): Check {
    if ReadParcel(data, start) == Returns then ErrorAt(start, length) else CheckOverrun
  }

  function CheckFrom(data: seq<byte>, pos: nat, end: nat): Check
    decreases |data| - pos
  {
    match HeadAt(data, pos)
    case None => CheckOverrun
    case Some((flavor, len)) =>
      if IsError(flavor) then Found(data, pos, len)
      else if pos + len >= end then NoError
      else if len == 0 then CheckForever
      else CheckFrom(data, pos + len, end)
  }

  /** The loop, which stops at the first error and otherwise leaves the
      cursor where it was. */
  method CheckErrorParcel(data: seq<byte>, start: nat, end: nat) returns (c: Check, cursor: nat)
    ensures c == CheckFrom(data, start, end)
    ensures c == NoError ==> cursor == start
  {
    hide HeadAt, ReadParcel;
    cursor := start;
    while true
      invariant CheckFrom(data, cursor, end) == CheckFrom(data, start, end)
      decreases |data| - cursor
    {
      HeadInside(data, cursor);
      match HeadAt(data, cursor) {
        case None =>
          return CheckOverrun, cursor;
        case Some((flavor, len)) =>
          if IsError(flavor) {
            return Found(data, cursor, len), cursor;
          }
          if cursor + len >= end {
            return NoError, start;
          }
          if len == 0 {
            return CheckForever, cursor;
          }
          cursor := cursor + len;
      }
    }
  }

  function FirstError(seen: seq<Seen>): Check {
    if seen == [] then NoError
    else if IsError(seen[0].flavor) then ErrorAt(seen[0].start, seen[0].length)
    else FirstError(seen[1..])
  }

  // Wherever the headers lead to the end, the check finds the first error
  // parcel among those they show, or none; it panics exactly when that
  // parcel's contents do.
  lemma {:induction false} CheckSeesFirst(data: seq<byte>, pos: nat, end: nat)
    requires WalkFrom(data, pos, end).Walked?
    ensures var first := FirstError(WalkFrom(data, pos, end).seen);
      CheckFrom(data, pos, end) == if first.ErrorAt? then Found(data, first.start, first.length) else first
    decreases |data| - pos
  {
    HeadInside(data, pos);
    hide HeadAt, ReadParcel;
    var (flavor, len) := HeadAt(data, pos).value;
    if pos + len < end {
      CheckSeesFirst(data, pos + len, end);
      var rest := WalkFrom(data, pos + len, end).seen;
      assert ([Seen(flavor, pos, len)] + rest)[1..] == rest;
    }
  }

  // When the loop that reads every parcel ends, the check agrees with it.
  lemma {:induction false} CheckAgrees(data: seq<byte>, pos: nat, end: nat)
    requires ReadFrom(data, pos, end).Walked?
    ensures CheckFrom(data, pos, end) == FirstError(ReadFrom(data, pos, end).seen)
  {
    hide ReadFrom, WalkFrom, CheckFrom, FirstError, ReadParcel;
    ReadsWhatIsSeen(data, pos, end);
    CheckSeesFirst(data, pos, end);
    FirstIsSeen(WalkFrom(data, pos, end).seen);
  }

  lemma {:induction false} FirstIsSeen(seen: seq<Seen>)
    ensures FirstError(seen).NoError?
            || (FirstError(seen).ErrorAt?
                && exists i :: 0 <= i < |seen| && seen[i].start == FirstError(seen).start)
  {
    if seen != [] && !IsError(seen[0].flavor) {
      FirstIsSeen(seen[1..]);
      if FirstError(seen[1..]).ErrorAt? {
        var i :| 0 <= i < |seen[1..]| && seen[1..][i].start == FirstError(seen).start;
        assert seen[i + 1].start == FirstError(seen).start;
      }
    }
  }

  /** The check comes from pos to q, over parcels that are no errors. */
  predicate Passes(data: seq<byte>, pos: nat, q: nat, end: nat)
    decreases |data| - pos
  {
    pos == q
    || (Advances(data, pos, end) && !IsError(HeadAt(data, pos).value.0)
        && Passes(data, pos + HeadAt(data, pos).value.1, q, end))
  }

  // The check never ends exactly when it passes no error and comes to a
  // header that is none and states length zero before the end.
  lemma {:induction false} CheckForeverExactly(data: seq<byte>, pos: nat, end: nat)
    ensures CheckFrom(data, pos, end) == CheckForever <==>
              exists q: nat ::
                Passes(data, pos, q, end) && StatesZero(data, q, end) && !IsError(HeadAt(data, q).value.0)
  {
    hide HeadAt;
    if CheckFrom(data, pos, end) == CheckForever {
      var q := LastChecked(data, pos, end);
    }
    forall q: nat | Passes(data, pos, q, end) && StatesZero(data, q, end) && !IsError(HeadAt(data, q).value.0)
      ensures CheckFrom(data, pos, end) == CheckForever
    {
      ChecksAsLast(data, pos, q, end);
    }
  }

  lemma {:induction false} LastChecked(data: seq<byte>, pos: nat, end: nat) returns (q: nat)
    requires CheckFrom(data, pos, end) == CheckForever
    ensures Passes(data, pos, q, end) && StatesZero(data, q, end) && !IsError(HeadAt(data, q).value.0)
    decreases |data| - pos
  {
    HeadInside(data, pos);
    hide HeadAt, ReadParcel;
    q := pos;
    if HeadAt(data, pos).value.1 > 0 {
      q := LastChecked(data, pos + HeadAt(data, pos).value.1, end);
    }
  }

  lemma {:induction false} ChecksAsLast(data: seq<byte>, pos: nat, q: nat, end: nat)
    requires Passes(data, pos, q, end) && CheckFrom(data, q, end) == CheckForever
    ensures CheckFrom(data, pos, end) == CheckForever
    decreases |data| - pos
  {
    HeadInside(data, pos);
    hide HeadAt, ReadParcel;
    if pos != q {
      ChecksAsLast(data, pos + HeadAt(data, pos).value.1, q, end);
    }
  }
}
