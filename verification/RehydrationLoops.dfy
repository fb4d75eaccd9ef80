/** The loops of `from_signed_records` in crates/adns-dnssec/src/zone.rs, each
    proved against the specification of module Rehydration. */
module RehydrationLoops {
  import opened Basics
  import opened Seqs
  import opened Names
  import opened Records
  import opened Zone
  import opened ZoneFacts
  import opened ZoneLoops
  import opened Rehydration

  lemma FilterStep<T>(p: T -> bool, s: seq<T>, i: nat)
    requires i < |s|
    ensures Filter(p, s[..i + 1]) == if p(s[i]) then Filter(p, s[..i]) + [s[i]] else Filter(p, s[..i])
  {
    assert s[..i + 1][..i] == s[..i];
  }

  lemma StoredKinds(r: RR, origin: Name)
    requires Stored(r, origin)
    ensures IsSig(r) == r.rdata.Rrsig? && NotSig(r) == !r.rdata.Rrsig?
    ensures Visible(r) == (!r.rdata.Rrsig? && r.rtype != TYPE_NSEC3)
    ensures origin <= r.name
  {
  }

  /** Data into RRsets, signatures aside, names from visible owners. */
  method ReadRecords(records: seq<RR>, cuts: set<Name>, origin: Name)
    returns (ok: bool, rrsets: map<SetKey, seq<RR>>, sigs: seq<RR>, names: set<Name>)
    requires forall r :: r in records ==> Stored(r, origin)
    ensures ok <==> forall r :: r in records ==> SignatureAllowed(r, origin)
    ensures ok ==> rrsets == Groups(Filter(NotSig, records)) && sigs == Filter(IsSig, records)
    ensures ok ==> names == ExistingNames(Filter(Visible, records), cuts, origin)
  {
    hide Groups, ExistingNames, Occluded, SignatureAllowed, Stored, IsSig, NotSig, Visible, Filter;
    rrsets, sigs, names := map[], [], {};
    NothingYet(cuts, origin);
    assert records[..0] == [];
    for i := 0 to |records|
      invariant forall j :: 0 <= j < i ==> SignatureAllowed(records[j], origin)
      invariant rrsets == Groups(Filter(NotSig, records[..i])) && sigs == Filter(IsSig, records[..i])
      invariant names == ExistingNames(Filter(Visible, records[..i]), cuts, origin)
    {
      var rr := records[i];
      assert rr in records;
      StoredKinds(rr, origin);
      FilterStep(NotSig, records, i);
      FilterStep(IsSig, records, i);
      FilterStep(Visible, records, i);
      if rr.rdata.Rrsig? {
        if !SignatureAllowed(rr, origin) {
          return false, map[], [], {};
        }
        sigs := sigs + [rr];
      } else {
        assert SignatureAllowed(rr, origin) by { DataIsAllowed(rr, origin); }
        GroupStep(Filter(NotSig, records[..i]), rr);
        var k := KeyOf(rr);
        rrsets := rrsets[k := (if k in rrsets then rrsets[k] else []) + [rr]];
        NamesStep(Filter(Visible, records[..i]), cuts, origin, rr);
        if rr.rtype != TYPE_NSEC3 && !Occluded(cuts, rr.name) {
          names := InsertAncestors(names, rr.name, origin);
        }
      }
    }
    assert records[..|records|] == records;
    return true, rrsets, sigs, names;
  }

  lemma NothingYet(cuts: set<Name>, origin: Name)
    ensures Groups(Filter(NotSig, [])) == map[] && Filter(IsSig, []) == []
    ensures ExistingNames(Filter(Visible, []), cuts, origin) == {}
  {
  }

  lemma DataIsAllowed(r: RR, origin: Name)
    requires !r.rdata.Rrsig?
    ensures SignatureAllowed(r, origin)
  {
  }

  // ----- Attaching signatures -----

  lemma {:induction false} SigsAppend(sigs: seq<RR>, s: RR, k: SetKey)
    requires forall x :: x in sigs + [s] ==> x.rdata.Rrsig?
    requires forall x :: x in sigs ==> x.rdata.Rrsig?
    ensures SelectSigs(sigs + [s], k) == SelectSigs(sigs, k) + (if CoveredKey(s) == k then [s] else [])
  {
    assert (sigs + [s])[..|sigs + [s]| - 1] == sigs;
  }

  lemma {:induction false} SelectSigsMembers(sigs: seq<RR>, k: SetKey)
    requires forall x :: x in sigs ==> x.rdata.Rrsig?
    ensures forall r :: r in SelectSigs(sigs, k) ==> r in sigs && CoveredKey(r) == k
  {
    if sigs != [] {
      assert sigs == sigs[..|sigs| - 1] + [sigs[|sigs| - 1]];
      SelectSigsMembers(sigs[..|sigs| - 1], k);
    }
  }

  /** Checking a signature's TTL against data and earlier signatures is checking it against the data. */
  lemma TtlAgainstSet(data: seq<RR>, sigs: seq<RR>, s: RR)
    requires s.rdata.Rrsig? && forall x :: x in sigs ==> x.rdata.Rrsig? && Attachable(data, x)
    requires CoveredKey(s) in SetKeys(data)
    ensures Attachable(data, s)
            <==> forall r :: r in Select(data, CoveredKey(s)) + SelectSigs(sigs, CoveredKey(s)) ==> r.ttl == s.ttl
  {
    var k := CoveredKey(s);
    SelectSigsMembers(sigs, k);
    SelectMembers(data, k);
    var w :| w in data && KeyOf(w) == k;
    assert w in Select(data, k);
    forall r | Attachable(data, s) && r in SelectSigs(sigs, k) ensures r.ttl == s.ttl {
      assert Attachable(data, r) && w.ttl == r.ttl && w.ttl == s.ttl;
    }
  }

  lemma RebuiltStep(data: seq<RR>, sigs: seq<RR>, s: RR)
    requires (forall x :: x in sigs ==> x.rdata.Rrsig?) && s.rdata.Rrsig? && CoveredKey(s) in SetKeys(data)
    requires forall x :: x in sigs + [s] ==> x.rdata.Rrsig?
    ensures var m := Rebuilt(data, sigs);
            Rebuilt(data, sigs + [s]) == m[CoveredKey(s) := m[CoveredKey(s)] + [s]]
  {
    hide Select, SelectSigs, SetKeys, CoveredKey;
    var m, m' := Rebuilt(data, sigs), Rebuilt(data, sigs + [s]);
    forall k | k in m' ensures m'[k] == m[CoveredKey(s) := m[CoveredKey(s)] + [s]][k] {
      SigsAppend(sigs, s, k);
    }
  }

  lemma RebuiltStart(data: seq<RR>)
    ensures Rebuilt(data, []) == Groups(data)
  {
    assert forall k :: k in SetKeys(data) ==> Select(data, k) + [] == Select(data, k);
  }

  function OptionLater(best: Option<int>, t: int): Option<int> {
    match best
    case None => Some(t)
    case Some(b) => Some(Later(b, t))
  }

  function OptionEarlier(best: Option<int>, t: int): Option<int> {
    match best
    case None => Some(t)
    case Some(b) => Some(Earlier(b, t))
  }

  ghost predicate AllSigs(sigs: seq<RR>) { forall s :: s in sigs ==> s.rdata.Rrsig? }

  ghost predicate AllAttach(data: seq<RR>, sigs: seq<RR>)
    requires AllSigs(sigs)
  {
    forall s :: s in sigs ==> Attachable(data, s)
  }

  /** Each signature joins the RRset it covers; the times are folded on the way. */
  method AttachSignatures(groups: map<SetKey, seq<RR>>, sigs: seq<RR>, ghost data: seq<RR>)
    returns (ok: bool, rrsets: map<SetKey, seq<RR>>, inception: Option<int>, expiration: Option<int>)
    requires groups == Groups(data) && AllSigs(sigs)
    ensures ok <==> AllAttach(data, sigs)
    ensures ok ==> rrsets == Rebuilt(data, sigs)
    ensures ok ==> inception == Latest(Inceptions(sigs)) && expiration == Earliest(Expirations(sigs))
  {
    hide Attachable, Rebuilt, Latest, Earliest, Inceptions, Expirations, OptionLater, OptionEarlier, Groups;
    rrsets, inception, expiration := groups, None, None;
    RebuiltStart(data);
    FoldStart();
    for i := 0 to |sigs|
      invariant AllSigs(sigs[..i]) && AllAttach(data, sigs[..i])
      invariant rrsets == Rebuilt(data, sigs[..i])
      invariant inception == Latest(Inceptions(sigs[..i])) && expiration == Earliest(Expirations(sigs[..i]))
    {
      var s := sigs[i];
      assert sigs[..i + 1] == sigs[..i] + [s] && s in sigs && forall x :: x in sigs[..i] ==> x in sigs;
      FoldTimesStep(sigs[..i], s);
      inception := OptionLater(inception, s.rdata.sig.inception);
      expiration := OptionEarlier(expiration, s.rdata.sig.expiration);
      var k := CoveredKey(s);
      RebuiltLookup(data, sigs[..i], s);
      if k !in rrsets || exists r :: r in rrsets[k] && r.ttl != s.ttl {
        return false, map[], None, None;
      }
      RebuiltStep(data, sigs[..i], s);
      rrsets := rrsets[k := rrsets[k] + [s]];
    }
    assert sigs[..|sigs|] == sigs;
    return true, rrsets, inception, expiration;
  }

  lemma FoldStart()
    ensures Latest(Inceptions([])) == None && Earliest(Expirations([])) == None
  {
  }

  lemma FoldTimesStep(sigs: seq<RR>, s: RR)
    requires (forall x :: x in sigs ==> x.rdata.Rrsig?) && s.rdata.Rrsig?
    requires forall x :: x in sigs + [s] ==> x.rdata.Rrsig?
    ensures Latest(Inceptions(sigs + [s])) == OptionLater(Latest(Inceptions(sigs)), s.rdata.sig.inception)
    ensures Earliest(Expirations(sigs + [s])) == OptionEarlier(Earliest(Expirations(sigs)), s.rdata.sig.expiration)
  {
    assert (sigs + [s])[..|sigs + [s]| - 1] == sigs;
    var i, e := Inceptions(sigs + [s]), Expirations(sigs + [s]);
    assert i[..|i| - 1] == Inceptions(sigs) && e[..|e| - 1] == Expirations(sigs);
  }

  lemma RebuiltLookup(data: seq<RR>, sigs: seq<RR>, s: RR)
    requires s.rdata.Rrsig? && forall x :: x in sigs ==> x.rdata.Rrsig? && Attachable(data, x)
    ensures CoveredKey(s) in Rebuilt(data, sigs) <==> CoveredKey(s) in SetKeys(data)
    ensures Attachable(data, s) <==>
              && CoveredKey(s) in Rebuilt(data, sigs)
              && forall r :: r in Rebuilt(data, sigs)[CoveredKey(s)] ==> r.ttl == s.ttl
  {
    if CoveredKey(s) in SetKeys(data) {
      TtlAgainstSet(data, sigs, s);
    }
  }

  // ----- The checks on RRsets and on the chain -----

  method CheckSets(rrsets: map<SetKey, seq<RR>>, cuts: set<Name>) returns (ok: bool)
    ensures ok <==> SetsAccepted(rrsets, cuts)
  {
    hide SetAccepted, SortedKeys;
    var keys := SortedKeys(rrsets.Keys);
    for i := 0 to |keys|
      invariant forall j :: 0 <= j < i ==> keys[j] in rrsets && SetAccepted(rrsets, cuts, keys[j])
    {
      assert keys[i] in rrsets.Keys;
      if !SetAccepted(rrsets, cuts, keys[i]) {
        return false;
      }
    }
    forall k | k in rrsets ensures SetAccepted(rrsets, cuts, k) {
      assert k in keys;
      var j :| 0 <= j < |keys| && keys[j] == k;
    }
    return true;
  }

  /** The NSEC records of all names, each checked for its successor. */
  method ReadNsecChain(names: set<Name>, rrsets: map<SetKey, seq<RR>>) returns (ok: bool, denial: map<Name, RR>)
    ensures ok <==> forall n :: n in names ==> NsecEntry(rrsets, names, n)
    ensures ok ==> denial == NsecDenial(names, rrsets)
  {
    hide SortedNames, NsecEntry, FirstNsec;
    var ordered := SortedNames(names);
    denial := map[];
    for i := 0 to |ordered|
      invariant forall j :: 0 <= j < i ==>
                  ordered[j] in names && NsecEntry(rrsets, names, ordered[j]) && ordered[j] in denial
      invariant forall n :: n in denial ==> n in names && FirstNsec(rrsets, n, denial[n])
    {
      var n := ordered[i];
      assert n in names;
      if !NsecEntry(rrsets, names, n) {
        return false, map[];
      }
      EntryHasSet(rrsets, names, n);
      denial := denial[n := rrsets[(n, TYPE_NSEC)][0]];
    }
    forall n | n in names ensures NsecEntry(rrsets, names, n) && n in denial {
      assert n in ordered;
      var j :| 0 <= j < |ordered| && ordered[j] == n;
    }
    FirstsAreDenial(names, rrsets, denial);
    return true, denial;
  }

  ghost predicate FirstNsec(rrsets: map<SetKey, seq<RR>>, n: Name, r: RR) {
    (n, TYPE_NSEC) in rrsets && rrsets[(n, TYPE_NSEC)] != [] && r == rrsets[(n, TYPE_NSEC)][0]
  }

  lemma FirstsAreDenial(names: set<Name>, rrsets: map<SetKey, seq<RR>>, denial: map<Name, RR>)
    requires denial.Keys == names && forall n :: n in denial ==> FirstNsec(rrsets, n, denial[n])
    ensures denial == NsecDenial(names, rrsets)
  {
  }

  lemma EntryHasSet(rrsets: map<SetKey, seq<RR>>, names: set<Name>, n: Name)
    requires n in names && NsecEntry(rrsets, names, n)
    ensures (n, TYPE_NSEC) in rrsets && rrsets[(n, TYPE_NSEC)] != [] && FirstNsec(rrsets, n, rrsets[(n, TYPE_NSEC)][0])
  {
  }

  lemma {:induction false} BadLinkStays(rrsets: map<SetKey, seq<RR>>, mode: Mode, origin: Name, hashes: set<Octets>,
          order: seq<Octets>, i: nat)
    requires mode.Nsec3Mode? && (forall h :: h in order ==> h in hashes) && i <= |order|
    requires FirstBadLink(rrsets, mode, origin, hashes, order[..i]).Some?
    ensures FirstBadLink(rrsets, mode, origin, hashes, order) == FirstBadLink(rrsets, mode, origin, hashes, order[..i])
    decreases |order|
  {
    hide Nsec3Entry, Nsec3Owner;
    if i < |order| {
      var front := order[..|order| - 1];
      assert front[..i] == order[..i];
      BadLinkStays(rrsets, mode, origin, hashes, front, i);
    } else {
      assert order[..i] == order;
    }
  }

  lemma BadLinkStep(rrsets: map<SetKey, seq<RR>>, mode: Mode, origin: Name, hashes: set<Octets>, order: seq<Octets>,
          i: nat)
    requires mode.Nsec3Mode? && (forall h :: h in order ==> h in hashes) && i < |order|
    requires FirstBadLink(rrsets, mode, origin, hashes, order[..i]).None?
    ensures FirstBadLink(rrsets, mode, origin, hashes, order[..i + 1])
            == match Nsec3Owner(origin, order[i])
               case None => Some(Wire)
               case Some(owner) => if Nsec3Entry(rrsets, mode, hashes, owner, order[i]) then None else Some(InvalidZone)
    ensures FirstBadLink(rrsets, mode, origin, hashes, order[..i + 1]).Some? ==>
              FirstBadLink(rrsets, mode, origin, hashes, order)
              == FirstBadLink(rrsets, mode, origin, hashes, order[..i + 1])
  {
    hide Nsec3Entry, Nsec3Owner;
    assert order[..i + 1][..i] == order[..i];
    if FirstBadLink(rrsets, mode, origin, hashes, order[..i + 1]).Some? {
      BadLinkStays(rrsets, mode, origin, hashes, order, i + 1);
    }
  }

  ghost predicate HeldLink(env: Env, origin: Name, mode: Mode, rrsets: map<SetKey, seq<RR>>, n: Name, r: RR)
    requires mode.Nsec3Mode?
  {
    var k := Nsec3Key(env, origin, mode, n);
    k in rrsets && rrsets[k] != [] && r == rrsets[k][0]
  }

  /** The NSEC3 records of all hashes, each checked for its successor. */
  method ReadNsec3Chain(env: Env, mode: Mode, origin: Name, names: set<Name>, hashes: map<Octets, Name>,
          rrsets: map<SetKey, seq<RR>>)
    returns (bad: Option<Error>, denial: map<Name, RR>)
    requires mode.Nsec3Mode? && HashesDistinct(env, mode, names) && hashes == HashIndex(env, mode, names)
    ensures bad == FirstBadLink(rrsets, mode, origin, hashes.Keys, SortedHashes(hashes.Keys))
    ensures bad.None? ==> denial == Nsec3Denial(env, origin, mode, names, rrsets)
  {
    hide SortedHashes, HashIndex, HashesDistinct, Nsec3Entry, Nsec3Owner, Nsec3Denial, Nsec3Key, HashOf, HeldLink,
         FirstBadLink;
    HashIndexFacts(env, mode, names);
    var ordered := SortedHashes(hashes.Keys);
    denial := map[];
    NoBadLinkYet(rrsets, mode, origin, hashes.Keys);
    assert ordered[..0] == [];
    for i := 0 to |ordered|
      invariant FirstBadLink(rrsets, mode, origin, hashes.Keys, ordered[..i]) == None
      invariant forall n :: n in denial ==> n in names && HeldLink(env, origin, mode, rrsets, n, denial[n])
      invariant forall j :: 0 <= j < i ==> hashes[ordered[j]] in denial
    {
      var h := ordered[i];
      assert h in hashes.Keys;
      BadLinkStep(rrsets, mode, origin, hashes.Keys, ordered, i);
      var owner := Nsec3Owner(origin, h);
      if owner.None? {
        return Some(Wire), map[];
      }
      if !Nsec3Entry(rrsets, mode, hashes.Keys, owner.value, h) {
        return Some(InvalidZone), map[];
      }
      HeldNow(env, origin, mode, rrsets, hashes.Keys, hashes[h], owner.value);
      denial := denial[hashes[h] := rrsets[(owner.value, TYPE_NSEC3)][0]];
    }
    assert ordered[..|ordered|] == ordered;
    forall n | n in names ensures n in denial {
      assert HashOf(env, mode, n) in ordered;
      var j :| 0 <= j < |ordered| && ordered[j] == HashOf(env, mode, n);
    }
    HeldLinksAreDenial(env, origin, mode, names, rrsets, denial);
    return None, denial;
  }

  lemma NoBadLinkYet(rrsets: map<SetKey, seq<RR>>, mode: Mode, origin: Name, hashes: set<Octets>)
    requires mode.Nsec3Mode?
    ensures FirstBadLink(rrsets, mode, origin, hashes, []) == None
  {
  }

  lemma HeldLinksAreDenial(env: Env, origin: Name, mode: Mode, names: set<Name>, rrsets: map<SetKey, seq<RR>>,
          denial: map<Name, RR>)
    requires mode.Nsec3Mode? && denial.Keys == names
    requires forall n :: n in denial ==> HeldLink(env, origin, mode, rrsets, n, denial[n])
    ensures denial == Nsec3Denial(env, origin, mode, names, rrsets)
  {
    hide Nsec3Key;
  }

  lemma HeldNow(env: Env, origin: Name, mode: Mode, rrsets: map<SetKey, seq<RR>>, hashes: set<Octets>, n: Name,
          owner: Name)
    requires mode.Nsec3Mode? && HashOf(env, mode, n) in hashes
    requires Nsec3Owner(origin, HashOf(env, mode, n)) == Some(owner)
    requires Nsec3Entry(rrsets, mode, hashes, owner, HashOf(env, mode, n))
    ensures (owner, TYPE_NSEC3) in rrsets && rrsets[(owner, TYPE_NSEC3)] != []
    ensures HeldLink(env, origin, mode, rrsets, n, rrsets[(owner, TYPE_NSEC3)][0])
  {
  }

  method ReadChain(env: Env, origin: Name, records: seq<RR>, mode: Mode, names: set<Name>, rrsets: map<SetKey, seq<RR>>)
    returns (r: Result<(map<Name, RR>, map<Octets, Name>)>)
    ensures r == RebuiltDenial(env, origin, records, mode, names, rrsets)
  {
    hide SortedHashes, HashIndex, HashesDistinct, NsecEntry, FirstBadLink, NsecDenial, Nsec3Denial;
    if mode.NsecMode? {
      if exists r :: r in records && IsNsec3(r) {
        return Err(InvalidZone);
      }
      var ok, denial := ReadNsecChain(names, rrsets);
      return if ok then Ok((denial, map[])) else Err(InvalidZone);
    } else {
      if exists r :: r in records && IsNsec(r) {
        return Err(InvalidZone);
      }
      var hashes := IndexHashes(env, mode, names);
      if hashes.Err? {
        return Err(hashes.error);
      }
      var bad, denial := ReadNsec3Chain(env, mode, origin, names, hashes.value, rrsets);
      return if bad.Some? then Err(bad.value) else Ok((denial, hashes.value));
    }
  }

  lemma ApexSerial(records: seq<RR>, origin: Name)
    requires HasApex(records, origin)
    ensures |Filter(IsSoa, records)| == 1
  {
  }

  /** The signatures set aside are the records that hold signatures. */
  lemma SignatureRecords(records: seq<RR>, origin: Name)
    requires forall r :: r in records ==> Stored(r, origin)
    ensures AllSigs(Filter(IsSig, records))
    ensures AllAttach(Filter(NotSig, records), Filter(IsSig, records))
            <==> forall s :: s in records && s.rdata.Rrsig? ==> Attachable(Filter(NotSig, records), s)
  {
    hide Attachable, Stored, Filter;
    FilterMembers(IsSig, records);
    forall r | r in records ensures IsSig(r) == r.rdata.Rrsig? {
      StoredKinds(r, origin);
    }
  }

  /** `from_signed_records`. */
  method FromSignedRecords(env: Env, origin: Name, records: seq<RR>) returns (r: Result<SignedZone>)
    ensures r == Rehydrate(env, origin, records)
  {
    hide ModeOf, Cuts, HasApex, Groups, Rebuilt, ExistingNames, RebuiltDenial, Latest, Earliest, SetsAccepted,
         Attachable, SignatureAllowed, Stored, Filter, Inceptions, Expirations, IsSig, NotSig;
    if records == [] || (exists x :: x in records && !Stored(x, origin)) || !HasApex(records, origin) {
      return Err(InvalidZone);
    }
    var mode := ModeOf(Filter(IsParam, records), origin);
    if mode.Err? {
      return Err(mode.error);
    }
    var cuts := Cuts(records, origin);
    SignatureRecords(records, origin);
    var ok, groups, sigs, names := ReadRecords(records, cuts, origin);
    if !ok {
      return Err(InvalidZone);
    }
    var attached, rrsets, inception, expiration := AttachSignatures(groups, sigs, Filter(NotSig, records));
    if !attached {
      return Err(InvalidZone);
    }
    var accepted := CheckSets(rrsets, cuts);
    if !accepted {
      return Err(InvalidZone);
    }
    var chain := ReadChain(env, origin, records, mode.value, names, rrsets);
    if chain.Err? {
      return Err(chain.error);
    }
    if inception.None? || expiration.None? {
      return Err(InvalidZone);
    }
    ApexSerial(records, origin);
    return Ok(SignedZone(origin, records, SerialOf(records), inception.value, expiration.value, mode.value,
                         names, cuts, rrsets, chain.value.0, chain.value.1));
  }
}
