/** The quality-of-protection options a server offers: a constructed record
    of suites, each a record of tagged integers. */
module Td2Options {
  import opened Bytes
  import opened Decimal
  import opened Der
  import Td2

  type Alg = Td2.Alg

  const ALG_NAMES := ["NONE", "Blowfish", "AES", "MD5", "SHA1", "DH", "SHA-256", "SHA-512"]
  const MODES := ["NONE", "CBC", "CFB", "ECB", "OFB", "GCM", "CCM", "CTR", "AEADGCM", "GCM96"]
  const PADDINGS := ["NoPadding", "OAEPWithDIGESTAndMGFPadding", "", "PKCS1Padding", "PKCS5Padding", "SSL3Padding"]

  function Unknown(idx: int): string {
    var d := IntString(idx);
    "UNKNOWN(" + seq(|d|, i requires 0 <= i < |d| => d[i] as char) + ")"
  }

  /** td2LookupName. */
  function LookupName(table: seq<string>, idx: int): string {
    if idx < 0 || idx >= |table| then Unknown(idx) else table[idx]
  }

  const NO_ALG := Td2.Alg("", "", "", "", "", 0, 0)

  predicate KnownTag(tag: int) { 16 <= tag <= 22 }

  function SetField(alg: Alg, f: Tlv): Result<Alg> {
    var val := DerInt(f.content);
    match f.tag
    case 16 => Ok(alg.(confAlg := LookupName(ALG_NAMES, val)))
    case 17 => Ok(alg.(integAlg := LookupName(ALG_NAMES, val)))
    case 18 => Ok(alg.(keyExchAlg := LookupName(ALG_NAMES, val)))
    case 19 => Ok(alg.(mode := LookupName(MODES, val)))
    case 20 => Ok(alg.(padding := LookupName(PADDINGS, val)))
    case 21 => Ok(alg.(keyLength := val))
    case 22 => Ok(alg.(keyLengthP := val))
    case _ => Err
  }

  function Fields(rs: seq<Record>): (fs: seq<Tlv>)
    ensures |fs| == |rs| && forall i :: 0 <= i < |rs| ==> fs[i] == rs[i].tlv
  {
    seq(|rs|, i requires 0 <= i < |rs| => rs[i].tlv)
  }

  function Suite(fs: seq<Tlv>): Result<Alg> {
    if fs == [] then Ok(NO_ALG)
    else
      match Suite(fs[..|fs| - 1])
      case Ok(alg) => SetField(alg, fs[|fs| - 1])
      case Err => Err
      case Panic => Panic
  }

  function Group(g: Tlv): Result<Alg> {
    if !g.constructed then Err
    else
      match ChildrenFrom(g.content, 0)
      case Ok(fields) => Suite(Fields(fields))
      case Err => Err
      case Panic => Panic
  }

  function Groups(gs: seq<Tlv>): Result<seq<Alg>> {
    if gs == [] then Ok([])
    else
      match Groups(gs[..|gs| - 1])
      case Ok(algs) =>
        (match Group(gs[|gs| - 1]) case Ok(alg) => Ok(algs + [alg]) case Err => Err case Panic => Panic)
      case Err => Err
      case Panic => Panic
  }

  function Options(data: seq<byte>): Result<seq<Alg>> {
    match ParseTlv(data, 0)
    case Ok(top) =>
      if !top.tlv.constructed then Err
      else
        (match ChildrenFrom(top.tlv.content, 0)
         case Ok(groups) => Groups(Fields(groups))
         case Err => Err
         case Panic => Panic)
    case Err => Err
    case Panic => Panic
  }

  // ----- The loops

  /** The loop over the fields of a suite. */
  method ReadSuite(fs: seq<Tlv>) returns (r: Result<Alg>)
    ensures r == Suite(fs)
  {
    hide SetField;
    var alg := NO_ALG;
    for i := 0 to |fs|
      invariant Suite(fs[..i]) == Ok(alg)
    {
      assert fs[..i + 1][..i] == fs[..i];
      match SetField(alg, fs[i]) {
        case Ok(next) =>
          alg := next;
        case Err =>
          SuiteStops(fs, i + 1);
          return Err;
        case Panic =>
          SuiteStops(fs, i + 1);
          return Panic;
      }
    }
    assert fs[..|fs|] == fs;
    r := Ok(alg);
  }

  lemma {:induction false} SuiteStops(fs: seq<Tlv>, k: nat)
    requires k <= |fs| && !Suite(fs[..k]).Ok?
    ensures Suite(fs) == Suite(fs[..k])
    decreases |fs| - k
  {
    if k == |fs| {
      assert fs[..k] == fs;
    } else {
      assert fs[..k + 1][..k] == fs[..k];
      SuiteStops(fs, k + 1);
    }
  }

  /** The loop over the suites. */
  method ReadGroups(gs: seq<Tlv>) returns (r: Result<seq<Alg>>)
    ensures r == Groups(gs)
  {
    var algs: seq<Alg> := [];
    for i := 0 to |gs|
      invariant Groups(gs[..i]) == Ok(algs)
    {
      assert gs[..i + 1][..i] == gs[..i];
      var alg := ReadGroup(gs[i]);
      match alg {
        case Ok(next) =>
          algs := algs + [next];
        case Err =>
          GroupsStop(gs, i + 1);
          return Err;
        case Panic =>
          GroupsStop(gs, i + 1);
          return Panic;
      }
    }
    assert gs[..|gs|] == gs;
    r := Ok(algs);
  }

  method ReadGroup(g: Tlv) returns (r: Result<Alg>)
    ensures r == Group(g)
  {
    if !g.constructed {
      return Err;
    }
    var fields := ParseChildren(g.content);
    match fields {
      case Err => return Err;
      case Panic => return Panic;
      case Ok(rs) => r := ReadSuite(Fields(rs));
    }
  }

  lemma {:induction false} GroupsStop(gs: seq<Tlv>, k: nat)
    requires k <= |gs| && !Groups(gs[..k]).Ok?
    ensures Groups(gs) == Groups(gs[..k])
    decreases |gs| - k
  {
    hide Group;
    if k == |gs| {
      assert gs[..k] == gs;
    } else {
      assert gs[..k + 1][..k] == gs[..k];
      GroupsStop(gs, k + 1);
    }
  }

  /** decodeTd2QOPOptions. */
  method DecodeOptions(data: seq<byte>) returns (r: Result<seq<Alg>>)
    ensures r == Options(data)
  {
    hide Groups;
    var top := ParseTlvLoop(data, 0);
    match top {
      case Err => return Err;
      case Panic => return Panic;
      case Ok(rec) =>
        if !rec.tlv.constructed {
          return Err;
        }
        var groups := ParseChildren(rec.tlv.content);
        match groups {
          case Err => return Err;
          case Panic => return Panic;
          case Ok(rs) => r := ReadGroups(Fields(rs));
        }
    }
  }

  // ----- What a suite says

  /** The last field with this tag decides. */
  function Last(fs: seq<Tlv>, tag: int): Option<int64> {
    if fs == [] then None
    else if fs[|fs| - 1].tag == tag then Some(DerInt(fs[|fs| - 1].content))
    else Last(fs[..|fs| - 1], tag)
  }

  function Named(table: seq<string>, v: Option<int>): string {
    match v case None => "" case Some(idx) => LookupName(table, idx)
  }

  function Number(v: Option<int64>): int64 { match v case None => 0 case Some(n) => n }

  function Meaning(fs: seq<Tlv>): Alg {
    Td2.Alg(Named(ALG_NAMES, Last(fs, 16)), Named(ALG_NAMES, Last(fs, 17)), Named(ALG_NAMES, Last(fs, 18)),
            Named(MODES, Last(fs, 19)), Named(PADDINGS, Last(fs, 20)), Number(Last(fs, 21)), Number(Last(fs, 22)))
  }

  predicate AllKnown(fs: seq<Tlv>) { forall i :: 0 <= i < |fs| ==> KnownTag(fs[i].tag) }

  lemma {:induction false} MeaningStep(fs: seq<Tlv>, f: Tlv)
    ensures SetField(Meaning(fs), f) == (if KnownTag(f.tag) then Ok(Meaning(fs + [f])) else Err)
  {
    hide LookupName, DerInt;
    assert (fs + [f])[..|fs|] == fs;
  }

  // A suite is read exactly when every field is known, and then each
  // setting is what the last field with its tag says.
  lemma {:induction false} SuiteMeaning(fs: seq<Tlv>)
    ensures Suite(fs) == (if AllKnown(fs) then Ok(Meaning(fs)) else Err)
  {
    hide SetField, Last, Named, Number;
    if fs == [] {
      NoMeaning();
    } else {
      var n := |fs| - 1;
      SuiteMeaning(fs[..n]);
      MeaningStep(fs[..n], fs[n]);
      assert fs[..n] + [fs[n]] == fs;
    }
  }

  lemma {:induction false} NoMeaning()
    ensures Meaning([]) == NO_ALG
  {}

  /** The suites as records, each constructed. */
  function Sent(groups: seq<seq<Tlv>>, tags: seq<int>): (ts: seq<Tlv>)
    requires Offered(groups, tags)
    ensures |ts| == |groups|
    ensures forall i :: 0 <= i < |ts| ==> ts[i] == Tlv(tags[i], true, EncodeAll(groups[i]))
  {
    seq(|groups|, i requires 0 <= i < |groups| => Tlv(tags[i], true, EncodeAll(groups[i])))
  }

  function Meanings(groups: seq<seq<Tlv>>): (algs: seq<Alg>)
    ensures |algs| == |groups| && forall i :: 0 <= i < |groups| ==> algs[i] == Meaning(groups[i])
  {
    seq(|groups|, i requires 0 <= i < |groups| => Meaning(groups[i]))
  }

  predicate Offered(groups: seq<seq<Tlv>>, tags: seq<int>) {
    && |tags| == |groups|
    && forall i :: 0 <= i < |groups| ==> AllEncodable(groups[i]) && 0 <= tags[i] <= 30
  }

  predicate AllGroupsKnown(groups: seq<seq<Tlv>>) { forall i :: 0 <= i < |groups| ==> AllKnown(groups[i]) }

  lemma {:induction false} GroupReads(g: Tlv, fs: seq<Tlv>)
    requires AllEncodable(fs) && g.constructed && g.content == EncodeAll(fs) && |g.content| < TWO63
    ensures Group(g) == (if AllKnown(fs) then Ok(Meaning(fs)) else Err)
  {
    hide EncodeAll, ChildrenFrom, Suite, Meaning;
    assert g.content[0..] == g.content;
    ChildrenRoundTrip(g.content, 0, fs);
    assert Fields(Records(fs)) == fs;
    SuiteMeaning(fs);
  }

  lemma {:induction false} GroupsRead(ts: seq<Tlv>, groups: seq<seq<Tlv>>)
    requires |ts| == |groups|
    requires forall i :: 0 <= i < |groups| ==>
               Group(ts[i]) == (if AllKnown(groups[i]) then Ok(Meaning(groups[i])) else Err)
    ensures Groups(ts) == (if AllGroupsKnown(groups) then Ok(Meanings(groups)) else Err)
  {
    hide Group, Meaning, AllKnown;
    if ts == [] {
    } else {
      var n := |ts| - 1;
      GroupsRead(ts[..n], groups[..n]);
      assert AllGroupsKnown(groups) <==> AllGroupsKnown(groups[..n]) && AllKnown(groups[n]);
      if AllGroupsKnown(groups) {
        assert Meanings(groups) == Meanings(groups[..n]) + [Meaning(groups[n])];
      }
    }
  }

  // Whatever suites the server offers, under any tags: the options decoded
  // are what each suite's last fields say, in order, and one unknown field
  // refuses them all.
  lemma {:induction false} OptionsRead(groups: seq<seq<Tlv>>, tags: seq<int>, top: int)
    requires Offered(groups, tags) && 0 <= top <= 30
    requires var data := EncodeTlv(Tlv(top, true, EncodeAll(Sent(groups, tags)))); |data| < TWO63
    ensures Options(EncodeTlv(Tlv(top, true, EncodeAll(Sent(groups, tags)))))
            == (if AllGroupsKnown(groups) then Ok(Meanings(groups)) else Err)
  {
    var ts := Sent(groups, tags);
    var content := EncodeAll(ts);
    var t := Tlv(top, true, content);
    assert [] + EncodeTlv(t) + [] == EncodeTlv(t);
    TlvRoundTrip([], t, []);
    assert content[0..] == content;
    ChildrenRoundTrip(content, 0, ts);
    assert Fields(Records(ts)) == ts;
    forall i | 0 <= i < |groups|
      ensures Group(ts[i]) == (if AllKnown(groups[i]) then Ok(Meaning(groups[i])) else Err)
    {
      ContentWithin(ts, i);
      GroupReads(ts[i], groups[i]);
    }
    GroupsRead(ts, groups);
    hide Groups, Group, EncodeAll, EncodeTlv, ChildrenFrom, ParseTlv, Meanings, Meaning, AllKnown;
  }

  lemma {:induction false} ContentWithin(ts: seq<Tlv>, i: nat)
    requires AllEncodable(ts) && i < |ts|
    ensures |ts[i].content| <= |EncodeAll(ts)|
  {
    hide EncodeTlv;
    if i > 0 {
      ContentWithin(ts[1..], i - 1);
    }
  }
}
