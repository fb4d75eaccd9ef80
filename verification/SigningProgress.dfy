/** Exactly which zones can be signed, once the library code does not fail. */
module SigningProgress {
  import opened Basics
  import opened Sorting
  import Seqs
  import opened Names
  import opened Base32
  import opened Denial
  import opened Records
  import opened Signing
  import opened Zone
  import opened ZoneFacts

  /** All data has a wire form that fits a record, every key signs and has a tag. */
  ghost predicate Total(env: Env) {
    && (forall d :: env.wire(d).Some? && |env.wire(d).value| < 65536)
    && (forall key, data :: env.sign(key, data).Some? && |env.sign(key, data).value| == 96)
    && (forall key, flags :: env.keyTag(key, flags).Some?)
  }

  // ----- One RRset -----

  ghost predicate OneTtl(rrset: seq<RR>) { forall r, s :: r in rrset && s in rrset ==> r.ttl == s.ttl }

  ghost predicate OneWire(env: Env, rrset: seq<RR>) {
    forall r, s :: r in rrset && s in rrset ==> env.wire(r.rdata) == env.wire(s.rdata)
  }

  lemma {:induction false} WirePairsOk(env: Env, rrset: seq<RR>)
    requires Total(env)
    ensures WirePairs(env, rrset).Ok?
    ensures forall p :: p in WirePairs(env, rrset).value ==> p.1 in rrset && env.wire(p.1.rdata) == Some(p.0)
    ensures forall r :: r in rrset ==> (env.wire(r.rdata).value, r) in WirePairs(env, rrset).value
  {
    if rrset != [] {
      var front, last := rrset[..|rrset| - 1], rrset[|rrset| - 1];
      WirePairsOk(env, front);
      assert rrset == front + [last];
      assert env.wire(last.rdata).Some?;
    }
  }

  /** Sorting by wire form leaves one record exactly when all have the same form. */
  lemma OneLeftIff(env: Env, rrset: seq<RR>)
    requires Total(env) && rrset != []
    ensures WirePairs(env, rrset).Ok?
    ensures |SortDedup(OctetsLess, PairWire, WirePairs(env, rrset).value)| == 1 <==> OneWire(env, rrset)
  {
    hide WirePairs, SortDedup, OctetsLess;
    WirePairsOk(env, rrset);
    OctetsOrder();
    var pairs := WirePairs(env, rrset).value;
    var sorted := SortDedup(OctetsLess, PairWire, pairs);
    SortDedupFacts(OctetsLess, PairWire, pairs);
    assert rrset[0] in rrset && (env.wire(rrset[0].rdata).value, rrset[0]) in pairs;
    assert |sorted| > 1 ==> sorted[0] in pairs && sorted[1] in pairs
                            && OctetsLess(PairWire(sorted[0]), PairWire(sorted[1]));
    if |sorted| == 1 {
      forall r | r in rrset ensures env.wire(r.rdata) == Some(PairWire(sorted[0])) {
        var p := (env.wire(r.rdata).value, r);
        assert p in pairs && HasKey(PairWire, sorted, PairWire(p));
      }
    }
  }

  lemma CanonicalSetIff(env: Env, rtype: RType, rrset: seq<RR>)
    requires Total(env) && rrset != []
    ensures CanonicalSet(env, rtype, rrset).Ok? <==> OneTtl(rrset) && (rtype == TYPE_CNAME ==> OneWire(env, rrset))
  {
    hide WirePairs, SortDedup, OneWire;
    OneLeftIff(env, rrset);
    assert rrset[0] in rrset;
  }

  lemma {:induction false} RecordFormsOk(owner: Name, rtype: RType, ttl: int, datas: seq<Octets>)
    requires forall d :: d in datas ==> |d| < 65536
    ensures RecordForms(owner, rtype, ttl, datas).Ok?
  {
    hide RecordForm;
    if datas != [] {
      var front := datas[..|datas| - 1];
      assert datas == front + [datas[|datas| - 1]];
      RecordFormsOk(owner, rtype, ttl, front);
    }
  }

  lemma SignedOwnerOk(n: Name)
    requires WireLength(n) <= MAX_NAME_LEN
    ensures SignedOwner(n, CountedLabels(n)).Ok?
  {
  }

  /** Data of one key and TTL with an owner that fits a name. */
  ghost predicate Signable(rrset: seq<RR>) {
    && rrset != [] && WireLength(rrset[0].name) <= MAX_NAME_LEN
    && forall r :: r in rrset ==> Consistent(r, rrset[0], rrset[0].rtype)
  }

  lemma SignatureInputOk(env: Env, rrset: seq<RR>, sig: Sig)
    requires Total(env) && Signable(rrset) && sig.labels == CountedLabels(rrset[0].name)
    requires sig.typeCovered == rrset[0].rtype
    ensures SignatureInput(env, rrset, sig).Ok?
  {
    hide SignedOwner, CountedLabels, RdataWires, RecordForms, SortDedup, Consistent;
    assert sig.labels <= |rrset[0].name| by { CountedAtMost(rrset[0].name); }
    SignedOwnerOk(rrset[0].name);
    RdataWiresOk(env, rrset, rrset[0], sig.typeCovered);
    RdataWiresElements(env, rrset, rrset[0], sig.typeCovered);
    var wires := RdataWires(env, rrset, rrset[0], sig.typeCovered).value;
    OctetsOrder();
    SortDedupFacts(OctetsLess, Self, wires);
    forall d | d in SortDedup(OctetsLess, Self, wires) ensures |d| < 65536 {
      assert d in wires;
      var r :| r in rrset && env.wire(r.rdata) == Some(d);
    }
    RecordFormsOk(SignedOwner(rrset[0].name, sig.labels).value, rrset[0].rtype, sig.originalTtl,
                  SortDedup(OctetsLess, Self, wires));
  }

  lemma CountedAtMost(n: Name)
    ensures CountedLabels(n) <= |n|
  {
  }

  predicate ValidityAllowed(validity: int) { 300 < validity < 0x7fff_ffff - 300 }

  lemma SignRrsetOk(env: Env, key: Key, rrset: seq<RR>, signer: Name, flags: int, now: int, validity: int)
    requires Total(env) && Signable(rrset) && ValidityAllowed(validity)
    ensures SignRrset(env, key, rrset, signer, flags, now, validity).Ok?
  {
    hide SignatureInput, CountedLabels, Signable;
    assert rrset != [] by { SignableNonempty(rrset); }
    var first := rrset[0];
    assert env.keyTag(key, flags).Some?;
    var sig := Sig(first.rtype, ALGORITHM, CountedLabels(first.name), first.ttl,
                   (now + validity) % CIRCLE, (now - 300) % CIRCLE, env.keyTag(key, flags).value, signer, []);
    SignatureInputOk(env, rrset, sig);
    assert env.sign(key, SignatureInput(env, rrset, sig).value).Some?;
  }

  lemma SignableNonempty(rrset: seq<RR>)
    requires Signable(rrset)
    ensures rrset != []
  {
  }

  lemma {:induction false} KskSignaturesOk(env: Env, req: Request, ksks: seq<Key>, rrset: seq<RR>)
    requires Total(env) && Signable(rrset) && ValidityAllowed(req.validity)
    ensures KskSignatures(env, req, ksks, rrset).Ok?
  {
    hide SignRrset, Total, Signable;
    if ksks != [] {
      KskSignaturesOk(env, req, ksks[..|ksks| - 1], rrset);
      SignRrsetOk(env, ksks[|ksks| - 1], rrset, req.origin, 257, req.now, req.validity);
    }
  }

  /** Records of one key, of class IN, whose owner fits a name. */
  ghost predicate Grouped(k: SetKey, rrset: seq<RR>) {
    && rrset != [] && WireLength(k.0) <= MAX_NAME_LEN
    && forall r :: r in rrset ==> KeyOf(r) == k && r.rclass == CLASS_IN
  }

  /** A group can be signed exactly when it has one TTL and, for CNAME, one content. */
  lemma SignedSetIff(env: Env, req: Request, cuts: set<Name>, k: SetKey, rrset: seq<RR>)
    requires Total(env) && req.ksks != [] && ValidityAllowed(req.validity) && Grouped(k, rrset)
    ensures SignedSet(env, req, cuts, k, rrset).Ok?
            <==> OneTtl(rrset) && (k.1 == TYPE_CNAME ==> OneWire(env, rrset))
  {
    hide CanonicalSet, KskSignatures, SignRrset, LeftUnsigned, Total, OneWire, OneTtl;
    CanonicalSetIff(env, k.1, rrset);
    if CanonicalSet(env, k.1, rrset).Ok? {
      CanonicalSetMembers(env, k.1, rrset);
      var data := CanonicalSet(env, k.1, rrset).value;
      assert data[0] in data;
      assert Signable(data);
      KskSignaturesOk(env, req, req.ksks, data);
      SignRrsetOk(env, req.zsk, data, req.origin, if SameKey(env, req) then 257 else 256, req.now, req.validity);
    }
  }

  // ----- The whole zone -----

  lemma {:induction false} SignAllIff(env: Env, req: Request, cuts: set<Name>, groups: map<SetKey, seq<RR>>,
          keys: seq<SetKey>)
    requires req.ksks != [] && forall k :: k in keys ==> k in groups
    ensures SignAll(env, req, cuts, groups, keys).Ok?
            <==> forall k :: k in keys ==> SignedSet(env, req, cuts, k, groups[k]).Ok?
  {
    hide SignedSet;
    if keys != [] {
      SignAllIff(env, req, cuts, groups, keys[..|keys| - 1]);
      assert keys == keys[..|keys| - 1] + [keys[|keys| - 1]];
    }
  }

  ghost predicate ValidNames(records: seq<RR>) { forall r :: r in records ==> ValidName(r.name) }

  /** Every RRset has one TTL, and every CNAME set one content. */
  ghost predicate Uniform(env: Env, records: seq<RR>) {
    forall r, s :: r in records && s in records && KeyOf(r) == KeyOf(s) ==>
      r.ttl == s.ttl && (r.rtype == TYPE_CNAME ==> env.wire(r.rdata) == env.wire(s.rdata))
  }

  lemma GroupsUniformIff(env: Env, all: seq<RR>)
    ensures Uniform(env, all)
            <==> forall k :: k in SetKeys(all) ==>
                   OneTtl(Select(all, k)) && (k.1 == TYPE_CNAME ==> OneWire(env, Select(all, k)))
  {
    hide Select;
    forall k ensures forall r :: r in Select(all, k) <==> r in all && KeyOf(r) == k {
      SelectMembers(all, k);
    }
    if !Uniform(env, all) {
      var r, s :| r in all && s in all && KeyOf(r) == KeyOf(s)
                  && !(r.ttl == s.ttl && (r.rtype == TYPE_CNAME ==> env.wire(r.rdata) == env.wire(s.rdata)));
      var k := KeyOf(r);
      assert k in SetKeys(all) && r in Select(all, k) && s in Select(all, k);
    }
  }

  /** Names of published and denial records fit, and denial records are uniform. */
  lemma AllRecordsFit(env: Env, req: Request, plan: Plan, chain: (map<Name, RR>, map<Octets, Name>))
    requires Prepare(env, req) == Ok(plan) && DenialChain(env, req, plan) == Ok(chain) && ValidNames(req.records)
    requires chain.0.Keys == plan.names && forall h :: h in chain.1 ==> chain.1[h] in plan.names
    ensures var all := AllRecords(req, plan, chain);
            && (forall r :: r in all ==> r.rclass == CLASS_IN && WireLength(r.name) <= MAX_NAME_LEN)
            && (Uniform(env, all) <==> Uniform(env, plan.published))
  {
    hide Prepare, DenialChain, AllRecords, WireLength, DenialTtl, TypeOf, TypesAt, SortedNames, SortedHashes, NextAfter,
         Nsec3Bitmap, HashLabel;
    PlanFacts(env, req);
    PublishedNames(env, req);
    AllRecordsMembers(env, req, plan, chain);
    forall n | n in plan.names
      ensures var r := chain.0[n];
              && r.rclass == CLASS_IN && r.ttl == DenialTtl(plan.soa) && WireLength(r.name) <= MAX_NAME_LEN
              && r.rtype in {TYPE_NSEC, TYPE_NSEC3}
    {
      DenialFits(env, req, plan, chain, n);
    }
  }

  lemma PublishedNames(env: Env, req: Request)
    requires Prepare(env, req).Ok? && ValidNames(req.records)
    ensures ValidName(req.origin) && ValidNames(Prepare(env, req).value.published)
    ensures forall n :: n in Prepare(env, req).value.names ==> ValidName(n)
  {
    hide Publish, CnameConflict, Cuts, Seqs.Filter, ParametersAllowed, CutAccepted, ValidName, Occluded;
    var plan := Prepare(env, req).value;
    var kept := Seqs.Filter(NotGenerated, req.records);
    Seqs.FilterMembers(NotGenerated, req.records);
    PlanFacts(env, req);
    PublishMembers(env, req, kept, plan.soa.ttl);
    Seqs.FilterMembers(IsSoa, kept);
    assert plan.soa in kept;
    forall n | n in plan.names ensures ValidName(n) {
      var r, k :| r in plan.published && |req.origin| <= k <= |r.name| && n == r.name[..k];
      ValidPrefix(r.name, k);
    }
  }

  lemma ValidPrefix(n: Name, k: nat)
    requires ValidName(n) && k <= |n|
    ensures ValidName(n[..k])
  {
    WireLengthOfPrefix(n[..k], n);
  }

  lemma DenialFits(env: Env, req: Request, plan: Plan, chain: (map<Name, RR>, map<Octets, Name>), n: Name)
    requires DenialChain(env, req, plan) == Ok(chain) && n in plan.names && chain.0.Keys == plan.names
    requires ValidName(n)
    ensures var r := chain.0[n];
            && r.rclass == CLASS_IN && r.ttl == DenialTtl(plan.soa) && WireLength(r.name) <= MAX_NAME_LEN
            && r.rtype in {TYPE_NSEC, TYPE_NSEC3}
  {
    hide SortedHashes, SortedNames, NextAfter, HashLabel, DenialTtl, TypesAt, Nsec3Bitmap, WireLength;
    if req.mode.Nsec3Mode? {
      var h := HashOf(env, req.mode, n);
      assert Nsec3Owner(req.origin, h).Some?;
      PrependFits(req.origin, HashLabel(h));
    }
  }

  lemma PrependFits(n: Name, l: Label)
    requires PrependLabel(n, l).Some?
    ensures WireLength(PrependLabel(n, l).value) <= MAX_NAME_LEN
  {
    assert (n + [l])[..|n|] == n;
  }

  /** The apex SOA is signed, so signing asks for a validity it allows. */
  lemma ValidityNeeded(env: Env, req: Request)
    requires SignZone(env, req).Ok?
    ensures ValidityAllowed(req.validity)
  {
    hide SignZone, Prepare, DenialChain, AllRecords, Select, Flatten, SortedKeys, CanonicalSet, SetKeys, Occluded;
    var plan, chain, all := SignedParts(env, req);
    PlanFacts(env, req);
    AllRecordsMembers(env, req, plan, chain);
    var k := KeyOf(plan.soa);
    assert k in SetKeys(all) by { KeyPresent(all, plan.soa); }
    assert !LeftUnsigned(plan.cuts, k) by { ApexSigned(env, req); }
    SignedSetNeeds(env, req, plan.cuts, k, Select(all, k));
  }

  lemma KeyPresent(all: seq<RR>, r: RR)
    requires r in all
    ensures KeyOf(r) in SetKeys(all)
  {
  }

  lemma ApexSigned(env: Env, req: Request)
    requires Prepare(env, req).Ok?
    ensures !LeftUnsigned(Prepare(env, req).value.cuts, (req.origin, TYPE_SOA))
  {
    hide Prepare, Occluded;
    PlanNames(env, req);
  }

  lemma SignedSetNeeds(env: Env, req: Request, cuts: set<Name>, k: SetKey, rrset: seq<RR>)
    requires req.ksks != [] && SignedSet(env, req, cuts, k, rrset).Ok? && !LeftUnsigned(cuts, k) && k.1 != TYPE_DNSKEY
    ensures ValidityAllowed(req.validity)
  {
    hide CanonicalSet, LeftUnsigned, SignatureInput;
  }

  /** With library code that does not fail, a zone of valid names can be signed
      exactly when the validity is allowed, its records are admitted, the denial chain
      can be built, and every RRset has one TTL and every CNAME set one content. */
  lemma SigningSucceedsIff(env: Env, req: Request)
    requires Total(env) && ValidNames(req.records)
    ensures SignZone(env, req).Ok?
            <==> && ValidityAllowed(req.validity)
                 && Prepare(env, req).Ok? && DenialChain(env, req, Prepare(env, req).value).Ok?
                 && Uniform(env, Prepare(env, req).value.published)
  {
    hide SignZone, Prepare, DenialChain, Total, Uniform, ValidityAllowed;
    if SignZone(env, req).Ok? {
      ValidityNeeded(env, req);
    }
    if ValidityAllowed(req.validity) {
      SigningSucceedsWithin(env, req);
    }
  }

  lemma SigningSucceedsWithin(env: Env, req: Request)
    requires Total(env) && ValidityAllowed(req.validity) && ValidNames(req.records)
    ensures SignZone(env, req).Ok?
            <==> && Prepare(env, req).Ok? && DenialChain(env, req, Prepare(env, req).value).Ok?
                 && Uniform(env, Prepare(env, req).value.published)
  {
    hide Prepare, DenialChain, AllRecords, SignAll, Select, SortedKeys, Flatten, Total, Uniform, OneTtl, OneWire,
         SignedSet;
    if Prepare(env, req).Ok? && DenialChain(env, req, Prepare(env, req).value).Ok? {
      var plan := Prepare(env, req).value;
      var chain := DenialChain(env, req, plan).value;
      var all := AllRecords(req, plan, chain);
      AllRecordsFit(env, req, plan, chain);
      var keys := SortedKeys(SetKeys(all));
      SignAllIff(env, req, plan.cuts, Groups(all), keys);
      GroupsUniformIff(env, all);
      forall k | k in SetKeys(all)
        ensures SignedSet(env, req, plan.cuts, k, Select(all, k)).Ok?
                <==> OneTtl(Select(all, k)) && (k.1 == TYPE_CNAME ==> OneWire(env, Select(all, k)))
      {
        SelectMembers(all, k);
        var r :| r in all && KeyOf(r) == k;
        assert r in Select(all, k);
        SignedSetIff(env, req, plan.cuts, k, Select(all, k));
      }
    }
  }
}
