/** What reading the contents of a response parcel does to its reader: it
    returns, it reads past the data and panics, or it never ends. Contents are
    the octets after the parcel header, up to the end of the message. */
module ResponseParcels {
  import opened Bytes

  datatype Outcome = Returns | Panics | Endless

  // ----- Fields

  /** A run of fixed length, or a count in so many octets and that many
      units. */
  datatype Field = Fixed(n: nat) | Counted(octets: nat, unit: nat)

  const TEXT := Counted(2, 1)

  /** Where a field ends; past the data the reader panics. */
  function After(s: seq<byte>, at: nat, f: Field): Option<nat> {
    match f
    case Fixed(n) => if at + n <= |s| then Some(at + n) else None
    case Counted(octets, unit) =>
      if at + octets > |s| then None
      else
        var end := at + octets + FromBe(s[at..at + octets]) * unit;
        if end <= |s| then Some(end) else None
  }

  /** Where the last of some fields ends. */
  function Through(s: seq<byte>, at: nat, fs: seq<Field>): Option<nat>
    decreases |fs|
  {
    if fs == [] then Some(at)
    else
      match After(s, at, fs[0])
      case None => None
      case Some(next) => Through(s, next, fs[1..])
  }

  function U16(s: seq<byte>, at: nat): nat
    requires at + 2 <= |s|
  {
    FromBe(s[at..at + 2])
  }

  // ----- Parcels of fixed layout

  const SUCCESS := 8
  const FAILURE := 9
  const END_STATEMENT := 11
  const END_REQUEST := 12
  const CONFIG_RESPONSE := 43
  const ERROR := 49
  const LSN := 89
  const ASSIGN_RESPONSE := 101
  const SSO_RESPONSE := 134
  const MULTI_PART_END := 145
  const GATEWAY_CONFIG := 165
  const AUTH_MECH := 167
  const STATEMENT_INFO := 169
  const STATEMENT_INFO_END := 170
  const STATEMENT_STATUS := 205
  const SECURITY_POLICY := 206
  const START_SLOB_DATA := 220
  const SLOB_DATA := 221
  const END_SLOB_DATA := 222

  /** The fields of a parcel read straight through. A flavor the driver does
      not know is not read at all. */
  function Layout(flavor: nat): seq<Field> {
    if flavor in {ERROR, FAILURE} then [Fixed(6), TEXT]
    else if flavor == SSO_RESPONSE then [Fixed(4), TEXT]
    else if flavor == ASSIGN_RESPONSE then [Fixed(94)]
    else if flavor == SUCCESS then [Fixed(12)]
    else if flavor == SECURITY_POLICY then [Fixed(8)]
    else if flavor in {LSN, START_SLOB_DATA} then [Fixed(4)]
    else if flavor == END_STATEMENT then [Fixed(2)]
    else []
  }

  // ----- Object identifiers (section 8.19 of X.690)

  /** One component from at on: at most five octets of seven bits, minimal,
      below 2^31. Where it ends. */
  function Component(s: seq<byte>, at: nat, read: nat, value: nat): (r: Option<nat>)
    ensures r.Some? ==> at < r.value <= |s|
    decreases |s| - at
  {
    if at >= |s| || read == 5 || (read == 0 && s[at] == 0x80) then None
    else
      var v := value * 128 + s[at] % 128;
      if s[at] >= 128 then Component(s, at + 1, read + 1, v)
      else if v < 0x8000_0000 then Some(at + 1)
      else None
  }

  predicate Components(s: seq<byte>, at: nat)
    decreases |s| - at
  {
    at == |s|
    || match Component(s, at, 0, 0)
       case None => false
       case Some(next) => Components(s, next)
  }

  /** A long-form length of k more octets: minimal, and below 2^31. */
  function LongLength(s: seq<byte>, at: nat, k: nat, len: nat): Option<nat>
    decreases k
  {
    if k == 0 then (if len < 128 then None else Some(len))
    else if at >= |s| || len >= 0x80_0000 || len * 256 + s[at] == 0 then None
    else LongLength(s, at + 1, k - 1, len * 256 + s[at])
  }

  /** asn1.Unmarshal of an object identifier whose parts follow their count
      cut to one octet, so that a long form may be read out of the parts. */
  predicate IsOid(parts: seq<byte>) {
    var b := |parts| % 256;
    var k := if b < 128 then 0 else b - 128;
    var len := if b < 128 then Some(b) else if k == 0 then None else LongLength(parts, 0, k, 0);
    match len
    case None => false
    case Some(n) => 0 < n && k + n <= |parts| && Components(parts[k..k + n], 0)
  }

  // ----- The authentication mechanism

  /** Attribute types with a value the parcel keeps. */
  predicate Kept(typ: nat) { typ in {16, 17, 112, 129} }

  /** The octets of an attribute that are read. */
  predicate AttributeFits(s: seq<byte>, at: nat) {
    at + 4 <= |s| && (Kept(U16(s, at)) ==> at + 12 <= |s|)
  }

  /** The attribute loop: an attribute of length zero is read again. */
  function Attributes(s: seq<byte>, at: nat, length: nat): Outcome
    decreases |s| - at
  {
    if at + 8 >= length then Returns
    else if !AttributeFits(s, at) then Panics
    else
      var len := U16(s, at + 2);
      if len == 0 then Endless else Attributes(s, at + len, length)
  }

  method ReadAttributes(s: seq<byte>, start: nat, length: nat) returns (r: Outcome)
    ensures r == Attributes(s, start, length)
  {
    var at := start;
    while at + 8 < length
      invariant Attributes(s, at, length) == Attributes(s, start, length)
      decreases |s| - at
    {
      if !AttributeFits(s, at) {
        return Panics;
      }
      var len := U16(s, at + 2);
      if len == 0 {
        return Endless;
      }
      at := at + len;
    }
    r := Returns;
  }

  /** How the contents of an authentication mechanism begin. */
  datatype Mechanism = Cut | Ignored | Listed(at: nat)

  function MechanismOf(s: seq<byte>): Mechanism {
    if |s| < 4 then Cut
    else if FromBe(s[0..4]) != 1 then Ignored
    else if |s| < 8 then Cut
    else
      var n := FromBe(s[4..8]);
      if 8 + n > |s| then Cut
      else if IsOid(s[8..8 + n]) then Listed(8 + n)
      else Ignored
  }

  function AuthMech(s: seq<byte>, length: nat): Outcome {
    match MechanismOf(s)
    case Cut => Panics
    case Ignored => Returns
    case Listed(at) => Attributes(s, at, length)
  }

  // ----- The statement status

  /** The octets of a warning or a count that are read. */
  predicate StatusFits(s: seq<byte>, at: nat) {
    at + 6 <= |s|
    && var (typ, len) := (U16(s, at), FromBe(s[at + 2..at + 6]));
      && (typ == 1 ==> Through(s, at + 6, [Fixed(4), Counted(4, 1)]).Some?)
      && (typ == 10 && len >= 24 ==> at + 30 <= |s|)
  }

  function Extensions(s: seq<byte>, at: nat, length: nat): Outcome
    decreases |s| - at
  {
    if at + 6 >= length then Returns
    else if !StatusFits(s, at) then Panics
    else Extensions(s, at + 6 + FromBe(s[at + 2..at + 6]), length)
  }

  method ReadExtensions(s: seq<byte>, start: nat, length: nat) returns (r: Outcome)
    ensures r == Extensions(s, start, length)
  {
    var at := start;
    while at + 6 < length
      invariant Extensions(s, at, length) == Extensions(s, start, length)
      decreases |s| - at
    {
      if !StatusFits(s, at) {
        return Panics;
      }
      at := at + 6 + FromBe(s[at + 2..at + 6]);
    }
    r := Returns;
  }

  function StatementStatus(s: seq<byte>, length: nat): Outcome {
    if |s| < 24 then Panics else Extensions(s, 28, length)
  }

  // ----- The configuration response

  /** One past the last of the offsets below len, or base. */
  function Reach(base: nat, offsets: seq<nat>, len: nat): nat {
    if offsets == [] then base
    else if offsets[|offsets| - 1] < len then offsets[|offsets| - 1] + 1
    else Reach(base, offsets[..|offsets| - 1], len)
  }

  /** How many octets of a feature of some length are read. */
  function FeatureReach(tag: nat, len: nat): nat {
    if tag == 7 then
      if len > 128 then 132 else if len > 124 then 128 else if len > 120 then 124 else if len > 116 then 120 else 8
    else if tag == 10 then Reach(12, [13, 16, 21, 24, 25, 27, 28, 29], len)
    else if tag == 11 then
      Reach(3, [3, 4, 5, 6, 7, 9, 10, 11, 12, 13, 14, 15, 16, 17, 18, 19, 21, 22, 24, 25, 26, 27, 30, 31, 33], len)
    else if tag == 12 then Reach(0, [1, 2, 4], len)
    else if tag == 13 then 62
    else if tag == 14 then 4
    else 0
  }

  predicate FeatureFits(s: seq<byte>, at: nat) {
    at + 4 <= |s| && at + 4 + FeatureReach(U16(s, at), U16(s, at + 2)) <= |s|
  }

  /** The feature loop; the parcel starts four octets before its contents. */
  function Features(s: seq<byte>, at: nat, length: nat): Outcome
    decreases |s| - at
  {
    if at + 8 >= length then Returns
    else if !FeatureFits(s, at) then Panics
    else Features(s, at + 4 + U16(s, at + 2), length)
  }

  method ReadFeatures(s: seq<byte>, start: nat, length: nat) returns (r: Outcome)
    ensures r == Features(s, start, length)
  {
    hide FeatureReach;
    var at := start;
    while at + 8 < length
      invariant Features(s, at, length) == Features(s, start, length)
      decreases |s| - at
    {
      if !FeatureFits(s, at) {
        return Panics;
      }
      at := at + 4 + U16(s, at + 2);
    }
    r := Returns;
  }

  /** Processors, character sets of 32 octets each, and seven octets more. */
  const CONFIGURATION := [Fixed(10), Counted(2, 4), Counted(2, 2), Fixed(2), Counted(2, 32), Fixed(7)]

  function ConfigResponse(s: seq<byte>, length: nat): Outcome {
    match Through(s, 0, CONFIGURATION)
    case None => Panics
    case Some(at) => Features(s, at, length)
  }

  // ----- The statement info

  const FULL_ITEM := [TEXT, TEXT, TEXT, Fixed(2), TEXT, TEXT, TEXT, TEXT, Fixed(10), TEXT, TEXT, Fixed(30)]

  /** More fields, if there are at least so many octets left for them. */
  function IfLeft(s: seq<byte>, at: Option<nat>, end: nat, least: nat, fs: seq<Field>): Option<nat> {
    if at.Some? && at.value + least <= end then Through(s, at.value, fs) else at
  }

  predicate ItemFits(s: seq<byte>, at: nat, layout: nat, len: nat) {
    if layout == 1 then
      var names := IfLeft(s, Through(s, at, FULL_ITEM), at + len, 7, [Fixed(3), TEXT, Fixed(2)]);
      IfLeft(s, IfLeft(s, names, at + len, 2, [Counted(2, 8)]), at + len, 2, [TEXT]).Some?
    else layout == 2 ==> at + 16 <= |s|
  }

  predicate RecordFits(s: seq<byte>, at: nat) {
    at + 6 <= |s| && ItemFits(s, at + 6, U16(s, at), U16(s, at + 4))
  }

  /** The record loop counts its length down, the parcel header included. */
  function Records(s: seq<byte>, at: nat, left: int): Outcome
    decreases left
  {
    if left <= 0 then Returns
    else if !RecordFits(s, at) then Panics
    else
      var len := U16(s, at + 4) + 6;
      Records(s, at + len, left - len)
  }

  method ReadRecords(s: seq<byte>, start: nat, length: int) returns (r: Outcome)
    ensures r == Records(s, start, length)
  {
    hide ItemFits;
    var at: nat, left := start, length;
    while left > 0
      invariant Records(s, at, left) == Records(s, start, length)
    {
      if !RecordFits(s, at) {
        return Panics;
      }
      var len := U16(s, at + 4) + 6;
      at, left := at + len, left - len;
    }
    r := Returns;
  }

  // ----- Any parcel

  /** responseParcelFactory and fromBuffer. */
  function Contents(flavor: nat, s: seq<byte>, length: nat): Outcome {
    if flavor == CONFIG_RESPONSE then ConfigResponse(s, length)
    else if flavor == AUTH_MECH then AuthMech(s, length)
    else if flavor == STATEMENT_INFO then Records(s, 0, length)
    else if flavor == STATEMENT_STATUS then StatementStatus(s, length)
    else if Through(s, 0, Layout(flavor)).Some? then Returns
    else Panics
  }

  // ----- Which contents never end

  /** The attribute loop comes from at to q. */
  predicate AttributeSteps(s: seq<byte>, at: nat, q: nat, length: nat)
    decreases |s| - at
  {
    at == q
    || (at + 8 < length && AttributeFits(s, at) && U16(s, at + 2) > 0
        && AttributeSteps(s, at + U16(s, at + 2), q, length))
  }

  /** An attribute of length zero that is read, with room left for more. */
  predicate IsStuckAttribute(s: seq<byte>, q: nat, length: nat) {
    q + 8 < length && AttributeFits(s, q) && U16(s, q + 2) == 0
  }

  // Of all response parcels only an authentication mechanism can keep its
  // reader from ending, and exactly when its object identifier is one and
  // its attribute loop comes to a readable attribute of length zero.
  lemma {:induction false} EndlessExactly(flavor: nat, s: seq<byte>, length: nat)
    ensures Contents(flavor, s, length) == Endless <==>
              && flavor == AUTH_MECH && MechanismOf(s).Listed?
              && exists q: nat :: AttributeSteps(s, MechanismOf(s).at, q, length) && IsStuckAttribute(s, q, length)
  {
    hide MechanismOf, Attributes, Features, Extensions, Records, AttributeSteps, IsStuckAttribute, Through;
    if flavor != AUTH_MECH {
      OthersEnd(flavor, s, length);
    } else if MechanismOf(s).Listed? {
      var at := MechanismOf(s).at;
      if Attributes(s, at, length) == Endless {
        var q := EndlessStuck(s, at, length);
      }
      forall q: nat | AttributeSteps(s, at, q, length) && IsStuckAttribute(s, q, length)
        ensures Attributes(s, at, length) == Endless
      {
        StuckEndless(s, at, q, length);
      }
    }
  }

  lemma {:induction false} EndlessStuck(s: seq<byte>, at: nat, length: nat) returns (q: nat)
    requires Attributes(s, at, length) == Endless
    ensures AttributeSteps(s, at, q, length) && IsStuckAttribute(s, q, length)
    decreases |s| - at
  {
    q := at;
    if U16(s, at + 2) > 0 {
      q := EndlessStuck(s, at + U16(s, at + 2), length);
    }
  }

  lemma {:induction false} StuckEndless(s: seq<byte>, at: nat, q: nat, length: nat)
    requires AttributeSteps(s, at, q, length) && IsStuckAttribute(s, q, length)
    ensures Attributes(s, at, length) == Endless
    decreases |s| - at
  {
    if at != q {
      StuckEndless(s, at + U16(s, at + 2), q, length);
    }
  }

  lemma {:induction false} OthersEnd(flavor: nat, s: seq<byte>, length: nat)
    requires flavor != AUTH_MECH
    ensures Contents(flavor, s, length) != Endless
  {
    hide Through;
    if flavor == CONFIG_RESPONSE && Through(s, 0, CONFIGURATION).Some? {
      FeaturesEnd(s, Through(s, 0, CONFIGURATION).value, length);
    } else if flavor == STATEMENT_INFO {
      RecordsEnd(s, 0, length);
    } else if flavor == STATEMENT_STATUS {
      ExtensionsEnd(s, 28, length);
    }
  }

  lemma {:induction false} FeaturesEnd(s: seq<byte>, at: nat, length: nat)
    ensures Features(s, at, length) != Endless
    decreases |s| - at
  {
    hide FeatureReach;
    if at + 8 < length && FeatureFits(s, at) {
      FeaturesEnd(s, at + 4 + U16(s, at + 2), length);
    }
  }

  lemma {:induction false} ExtensionsEnd(s: seq<byte>, at: nat, length: nat)
    ensures Extensions(s, at, length) != Endless
    decreases |s| - at
  {
    if at + 6 < length && StatusFits(s, at) {
      ExtensionsEnd(s, at + 6 + FromBe(s[at + 2..at + 6]), length);
    }
  }

  lemma {:induction false} RecordsEnd(s: seq<byte>, at: nat, left: int)
    ensures Records(s, at, left) != Endless
    decreases left
  {
    hide ItemFits;
    if left > 0 && RecordFits(s, at) {
      var len := U16(s, at + 4) + 6;
      RecordsEnd(s, at + len, left - len);
    }
  }

  // ----- What follows does not matter

  // Contents that do not run past the data are read the same whatever is
  // put behind it.
  lemma {:induction false} ReadsNoFurther(flavor: nat, s: seq<byte>, t: seq<byte>, length: nat)
    requires Contents(flavor, s, length) != Panics
    ensures Contents(flavor, s + t, length) == Contents(flavor, s, length)
  {
    hide Through, Features, Records, Extensions, MechanismOf, Attributes;
    if flavor == CONFIG_RESPONSE {
      ThroughMore(s, t, 0, CONFIGURATION);
      FeaturesMore(s, t, Through(s, 0, CONFIGURATION).value, length);
    } else if flavor == AUTH_MECH {
      MechanismMore(s, t);
      if MechanismOf(s).Listed? {
        AttributesMore(s, t, MechanismOf(s).at, length);
      }
    } else if flavor == STATEMENT_INFO {
      RecordsMore(s, t, 0, length);
    } else if flavor == STATEMENT_STATUS {
      ExtensionsMore(s, t, 28, length);
    } else {
      ThroughMore(s, t, 0, Layout(flavor));
    }
  }

  lemma {:induction false} SliceMore(s: seq<byte>, t: seq<byte>, lo: nat, hi: nat)
    requires lo <= hi <= |s|
    ensures (s + t)[lo..hi] == s[lo..hi]
  {}

  lemma {:induction false} AfterMore(s: seq<byte>, t: seq<byte>, at: nat, f: Field)
    requires After(s, at, f).Some?
    ensures After(s + t, at, f) == After(s, at, f)
  {
    if f.Counted? {
      SliceMore(s, t, at, at + f.octets);
    }
  }

  lemma {:induction false} ThroughMore(s: seq<byte>, t: seq<byte>, at: nat, fs: seq<Field>)
    requires Through(s, at, fs).Some?
    ensures Through(s + t, at, fs) == Through(s, at, fs)
    decreases |fs|
  {
    hide After;
    if fs != [] {
      AfterMore(s, t, at, fs[0]);
      ThroughMore(s, t, After(s, at, fs[0]).value, fs[1..]);
    }
  }

  lemma {:induction false} U16More(s: seq<byte>, t: seq<byte>, at: nat)
    requires at + 2 <= |s|
    ensures U16(s + t, at) == U16(s, at)
  {
    SliceMore(s, t, at, at + 2);
  }

  lemma {:induction false} MechanismMore(s: seq<byte>, t: seq<byte>)
    requires !MechanismOf(s).Cut?
    ensures MechanismOf(s + t) == MechanismOf(s)
  {
    hide IsOid, FromBe;
    SliceMore(s, t, 0, 4);
    if |s| >= 8 {
      SliceMore(s, t, 4, 8);
      if 8 + FromBe(s[4..8]) <= |s| {
        SliceMore(s, t, 8, 8 + FromBe(s[4..8]));
      }
    }
  }

  lemma {:induction false} AttributesMore(s: seq<byte>, t: seq<byte>, at: nat, length: nat)
    requires Attributes(s, at, length) != Panics
    ensures Attributes(s + t, at, length) == Attributes(s, at, length)
    decreases |s| - at
  {
    hide U16;
    if at + 8 < length {
      U16More(s, t, at);
      U16More(s, t, at + 2);
      var len := U16(s, at + 2);
      if len > 0 {
        AttributesMore(s, t, at + len, length);
      }
    }
  }

  lemma {:induction false} FeaturesMore(s: seq<byte>, t: seq<byte>, at: nat, length: nat)
    requires Features(s, at, length) != Panics
    ensures Features(s + t, at, length) == Features(s, at, length)
    decreases |s| - at
  {
    hide U16, FeatureReach;
    if at + 8 < length {
      U16More(s, t, at);
      U16More(s, t, at + 2);
      FeaturesMore(s, t, at + 4 + U16(s, at + 2), length);
    }
  }

  lemma {:induction false} ExtensionsMore(s: seq<byte>, t: seq<byte>, at: nat, length: nat)
    requires Extensions(s, at, length) != Panics
    ensures Extensions(s + t, at, length) == Extensions(s, at, length)
    decreases |s| - at
  {
    hide U16, Through, FromBe;
    if at + 6 < length {
      U16More(s, t, at);
      SliceMore(s, t, at + 2, at + 6);
      if U16(s, at) == 1 {
        ThroughMore(s, t, at + 6, [Fixed(4), Counted(4, 1)]);
      }
      ExtensionsMore(s, t, at + 6 + FromBe(s[at + 2..at + 6]), length);
    }
  }

  lemma {:induction false} IfLeftMore(s: seq<byte>, t: seq<byte>, at: Option<nat>, end: nat, least: nat, fs: seq<Field>)
    requires IfLeft(s, at, end, least, fs).Some?
    ensures IfLeft(s + t, at, end, least, fs) == IfLeft(s, at, end, least, fs)
  {
    hide Through;
    if at.Some? && at.value + least <= end {
      ThroughMore(s, t, at.value, fs);
    }
  }

  lemma {:induction false} ItemMore(s: seq<byte>, t: seq<byte>, at: nat, layout: nat, len: nat)
    requires ItemFits(s, at, layout, len)
    ensures ItemFits(s + t, at, layout, len)
  {
    hide Through, IfLeft;
    if layout == 1 {
      var item, end := Through(s, at, FULL_ITEM), at + len;
      var names := IfLeft(s, item, end, 7, [Fixed(3), TEXT, Fixed(2)]);
      var bounds := IfLeft(s, names, end, 2, [Counted(2, 8)]);
      IfLeftSome(s, bounds, end, 2, [TEXT]);
      IfLeftSome(s, names, end, 2, [Counted(2, 8)]);
      IfLeftSome(s, item, end, 7, [Fixed(3), TEXT, Fixed(2)]);
      ThroughMore(s, t, at, FULL_ITEM);
      IfLeftMore(s, t, item, end, 7, [Fixed(3), TEXT, Fixed(2)]);
      IfLeftMore(s, t, names, end, 2, [Counted(2, 8)]);
      IfLeftMore(s, t, bounds, end, 2, [TEXT]);
    }
  }

  lemma {:induction false} IfLeftSome(s: seq<byte>, at: Option<nat>, end: nat, least: nat, fs: seq<Field>)
    ensures IfLeft(s, at, end, least, fs).Some? ==> at.Some?
  {}

  lemma {:induction false} RecordsMore(s: seq<byte>, t: seq<byte>, at: nat, left: int)
    requires Records(s, at, left) != Panics
    ensures Records(s + t, at, left) == Records(s, at, left)
    decreases left
  {
    hide U16, ItemFits;
    if left > 0 {
      U16More(s, t, at);
      U16More(s, t, at + 4);
      ItemMore(s, t, at + 6, U16(s, at), U16(s, at + 4));
      var len := U16(s, at + 4) + 6;
      RecordsMore(s, t, at + len, left - len);
    }
  }
}
