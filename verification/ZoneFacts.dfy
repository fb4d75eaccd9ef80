/** What every zone built by signing satisfies: the invariant the resolver and
    rehydration rely on. */
module ZoneFacts {
  import opened Basics
  import opened Seqs
  import opened Sorting
  import opened Names
  import opened Base32
  import opened Denial
  import opened Records
  import opened Signing
  import opened Zone

  // ----- The invariant -----

  /** Existing names lie in the zone and are closed under parent. */
  ghost predicate NamesClosed(origin: Name, names: set<Name>) {
    && origin in names
    && forall n :: n in names ==> origin <= n && (n != origin ==> n[..|n| - 1] in names)
  }

  /** Cuts are existing names below the apex, never nested; no existing name is below one. */
  ghost predicate CutsProper(origin: Name, names: set<Name>, cuts: set<Name>) {
    && (forall c :: c in cuts ==> c in names && origin < c)
    && (forall n :: n in names ==> !Occluded(cuts, n))
  }

  predicate IsSig(r: RR) { r.rtype == TYPE_RRSIG }

  predicate NotSig(r: RR) { r.rtype != TYPE_RRSIG }

  /** A nonempty run of data followed by the signatures over it. */
  ghost predicate Shaped(cuts: set<Name>, k: SetKey, set_: seq<RR>, d: int) {
    && 1 <= d <= |set_|
    && (d == |set_| <==> LeftUnsigned(cuts, k))
    && (forall i :: 0 <= i < d ==> KeyOf(set_[i]) == k && NotSig(set_[i]))
    && (forall i :: d <= i < |set_| ==>
          && IsSig(set_[i]) && set_[i].name == k.0
          && set_[i].rdata.Rrsig? && set_[i].rdata.sig.typeCovered == k.1)
  }

  ghost predicate AllShaped(z: SignedZone) {
    forall k :: k in z.rrsets ==> exists d :: Shaped(z.cuts, k, z.rrsets[k], d)
  }

  ghost predicate ApexPresent(z: SignedZone) {
    && (z.origin, TYPE_SOA) in z.rrsets
    && z.rrsets[(z.origin, TYPE_SOA)] != []
    && z.rrsets[(z.origin, TYPE_SOA)][0].rdata.Soa?
  }

  /** Each name has its denial record, linked to its successor in the chain. */
  ghost predicate ChainBuilt(env: Env, z: SignedZone) {
    && z.denial.Keys == z.names
    && match z.mode
       case NsecMode =>
         forall n :: n in z.names ==>
           && z.denial[n].name == n && z.denial[n].rdata.Nsec?
           && z.denial[n].rdata.nextName == NextAfter(SortedNames(z.names), n)
       case Nsec3Mode(_, _) =>
         && (forall h :: h in z.hashes ==> z.hashes[h] in z.names && HashOf(env, z.mode, z.hashes[h]) == h)
         && (forall n :: n in z.names ==>
               var h := HashOf(env, z.mode, n);
               && h in z.hashes && z.hashes[h] == n
               && z.denial[n].name == z.origin + [HashLabel(h)] && z.denial[n].rdata.Nsec3?
               && z.denial[n].rdata.nextHash == NextAfter(SortedHashes(z.hashes.Keys), h))
  }

  /** Denial records are published, signed RRsets. */
  ghost predicate DenialSigned(z: SignedZone) {
    forall n :: n in z.denial ==>
      && z.denial[n].rtype == (if z.mode.NsecMode? then TYPE_NSEC else TYPE_NSEC3)
      && KeyOf(z.denial[n]) in z.rrsets && !LeftUnsigned(z.cuts, KeyOf(z.denial[n]))
  }

  function Bitmap(r: RR): set<RType>
    requires r.rdata.Nsec? || r.rdata.Nsec3?
  {
    r.rdata.types
  }

  /** The bitmap of one name against what is published there. */
  ghost predicate BitmapExact(mode: Mode, cuts: set<Name>, keys: set<SetKey>, n: Name, b: set<RType>) {
    && (forall t :: t != TYPE_RRSIG && !(mode.Nsec3Mode? && t == TYPE_NSEC3) ==> (t in b <==> (n, t) in keys))
    && (mode.Nsec3Mode? ==> TYPE_NSEC3 !in b)
    && (TYPE_RRSIG in b
        <==> (mode.NsecMode? || ((exists u :: u in b && u != TYPE_RRSIG) && (n !in cuts || TYPE_DS in b))))
  }

  /** Bitmaps list exactly what is published at the name. */
  ghost predicate BitmapsExact(z: SignedZone) {
    forall n :: n in z.denial ==>
      && (z.denial[n].rdata.Nsec? || z.denial[n].rdata.Nsec3?)
      && BitmapExact(z.mode, z.cuts, z.rrsets.Keys, n, Bitmap(z.denial[n]))
  }

  ghost predicate WellFormed(env: Env, z: SignedZone) {
    && NamesClosed(z.origin, z.names)
    && CutsProper(z.origin, z.names, z.cuts)
    && AllShaped(z)
    && ApexPresent(z)
    && ChainBuilt(env, z)
    && DenialSigned(z)
    && BitmapsExact(z)
    && (forall c :: c in z.cuts ==> (c, TYPE_NS) in z.rrsets)
    && (forall k :: k in z.rrsets ==> k.1 !in {TYPE_RRSIG, TYPE_ANY} && 1 <= k.1 <= 65535)
    && ParametersAllowed(z.mode)
  }

  // ----- The published records -----

  ghost predicate PublishedShape(origin: Name, records: seq<RR>) {
    forall r :: r in records ==>
      && r.rclass == CLASS_IN && origin <= r.name && TypeOf(r.rdata) == Some(r.rtype)
      && r.rtype !in {TYPE_OPT, TYPE_TSIG, TYPE_AXFR, TYPE_IXFR, TYPE_ANY, TYPE_RRSIG, TYPE_NSEC, TYPE_NSEC3}
  }

  predicate IsApexExtra(origin: Name, r: RR) {
    && r.name == origin && r.rclass == CLASS_IN && TypeOf(r.rdata) == Some(r.rtype)
    && (r.rtype == TYPE_DNSKEY || r.rtype == TYPE_NSEC3PARAM)
  }

  lemma {:induction false} KeyRecordsShape(env: Env, origin: Name, ttl: int, ksks: seq<Key>)
    ensures forall r :: r in KeyRecords(env, origin, ttl, ksks) ==> IsApexExtra(origin, r)
  {
    if ksks != [] {
      KeyRecordsShape(env, origin, ttl, ksks[..|ksks| - 1]);
    }
  }

  lemma PublishMembers(env: Env, req: Request, kept: seq<RR>, ttl: int)
    requires req.ksks != []
    ensures forall r :: r in kept ==> r in Publish(env, req, kept, ttl)
    ensures forall r :: r in Publish(env, req, kept, ttl) ==> r in kept || IsApexExtra(req.origin, r)
  {
    KeyRecordsShape(env, req.origin, ttl, req.ksks);
  }

  /** Besides the retained input, only apex records of generated types are published. */
  lemma PlanFacts(env: Env, req: Request)
    requires Prepare(env, req).Ok?
    ensures var plan := Prepare(env, req).value;
            && PublishedShape(req.origin, plan.published)
            && plan.soa in plan.published && plan.soa.name == req.origin && plan.soa.rtype == TYPE_SOA
            && (forall r :: r in plan.published && IsSoa(r) ==> r == plan.soa)
  {
    hide Publish, CutAccepted, CnameConflict, ExistingNames, Cuts, Filter, ParametersAllowed;
    var plan := Prepare(env, req).value;
    var kept := Filter(NotGenerated, req.records);
    FilterMembers(NotGenerated, req.records);
    FilterMembers(IsSoa, kept);
    PublishMembers(env, req, kept, plan.soa.ttl);
    assert plan.soa in Filter(IsSoa, kept);
    forall r | r in plan.published && IsSoa(r) ensures r == plan.soa {
      assert r in Filter(IsSoa, kept);
    }
  }

  lemma PlanCuts(env: Env, req: Request)
    requires Prepare(env, req).Ok?
    ensures var plan := Prepare(env, req).value;
            && plan.cuts == Cuts(plan.published, req.origin)
            && (forall c :: c in plan.cuts ==> !Occluded(plan.cuts, c))
  {
    var plan := Prepare(env, req).value;
    var kept := Filter(NotGenerated, req.records);
    PublishMembers(env, req, kept, plan.soa.ttl);
    assert plan.cuts == Cuts(plan.published, req.origin);
    forall c | c in plan.cuts ensures !Occluded(plan.cuts, c) {
      assert CutAccepted(kept, plan.cuts, c);
    }
  }

  /** `n` is a visible owner or an ancestor of one, at or below the apex. */
  ghost predicate Supports(records: seq<RR>, cuts: set<Name>, origin: Name, n: Name, r: RR) {
    r in records && !Occluded(cuts, r.name) && |origin| <= |n| && n <= r.name
  }

  lemma ExistsIffSupported(records: seq<RR>, cuts: set<Name>, origin: Name, n: Name)
    ensures n in ExistingNames(records, cuts, origin) <==> exists r :: Supports(records, cuts, origin, n, r)
  {
    if n in ExistingNames(records, cuts, origin) {
      var r, k :| r in records && !Occluded(cuts, r.name) && |origin| <= k <= |r.name| && n == r.name[..k];
      assert Supports(records, cuts, origin, n, r);
    }
    if r :| Supports(records, cuts, origin, n, r) {
      assert n == r.name[..|n|];
    }
  }

  lemma ExistingName(records: seq<RR>, cuts: set<Name>, origin: Name, n: Name)
    requires n in ExistingNames(records, cuts, origin)
    requires forall r :: r in records ==> origin <= r.name
    ensures origin <= n && (n != origin ==> n[..|n| - 1] in ExistingNames(records, cuts, origin))
    ensures !Occluded(cuts, n)
  {
    ExistsIffSupported(records, cuts, origin, n);
    var r :| Supports(records, cuts, origin, n, r);
    if n != origin {
      assert Supports(records, cuts, origin, n[..|n| - 1], r);
      ExistsIffSupported(records, cuts, origin, n[..|n| - 1]);
    }
    assert forall c :: StrictlyBelow(n, c) ==> StrictlyBelow(r.name, c);
  }

  lemma OwnersExist(records: seq<RR>, cuts: set<Name>, origin: Name, r: RR)
    requires r in records && !Occluded(cuts, r.name) && origin <= r.name
    ensures r.name in ExistingNames(records, cuts, origin)
  {
    assert Supports(records, cuts, origin, r.name, r);
    ExistsIffSupported(records, cuts, origin, r.name);
  }

  lemma NamesAreClosed(origin: Name, records: seq<RR>, cuts: set<Name>, apex: RR)
    requires forall r :: r in records ==> origin <= r.name
    requires apex in records && apex.name == origin
    requires forall c :: c in cuts ==> origin < c
    ensures NamesClosed(origin, ExistingNames(records, cuts, origin))
    ensures forall n :: n in ExistingNames(records, cuts, origin) ==> !Occluded(cuts, n)
    ensures forall r :: r in records && !Occluded(cuts, r.name) ==> r.name in ExistingNames(records, cuts, origin)
  {
    var names := ExistingNames(records, cuts, origin);
    forall r | r in records && !Occluded(cuts, r.name) ensures r.name in names {
      OwnersExist(records, cuts, origin, r);
    }
    forall n | n in names ensures origin <= n && (n != origin ==> n[..|n| - 1] in names) && !Occluded(cuts, n) {
      ExistingName(records, cuts, origin, n);
    }
    OwnersExist(records, cuts, origin, apex);
  }

  lemma PlanExists(env: Env, req: Request)
    requires Prepare(env, req).Ok?
    ensures var plan := Prepare(env, req).value;
            plan.names == ExistingNames(plan.published, plan.cuts, req.origin)
  {
    hide Publish, Admitted, CnameConflict, ParametersAllowed, ExistingNames, Filter;
  }

  lemma PlanNames(env: Env, req: Request)
    requires Prepare(env, req).Ok?
    ensures var plan := Prepare(env, req).value;
            && NamesClosed(req.origin, plan.names)
            && CutsProper(req.origin, plan.names, plan.cuts)
            && (forall r :: r in plan.published && !Occluded(plan.cuts, r.name) ==> r.name in plan.names)
  {
    hide Prepare, ExistingNames, Occluded, NamesClosed;
    PlanFacts(env, req);
    PlanCuts(env, req);
    PlanExists(env, req);
    var plan := Prepare(env, req).value;
    assert forall c :: c in plan.cuts ==> exists r :: r in plan.published && r.name == c && c != req.origin;
    NamesAreClosed(req.origin, plan.published, plan.cuts, plan.soa);
  }

  // ----- The signed RRsets -----

  lemma {:induction false} SelectMembers(records: seq<RR>, k: SetKey)
    ensures forall r :: r in Select(records, k) <==> r in records && KeyOf(r) == k
  {
    if records != [] {
      SelectMembers(records[..|records| - 1], k);
      assert records == records[..|records| - 1] + [records[|records| - 1]];
    }
  }

  lemma {:induction false} FlattenMembers(rrsets: map<SetKey, seq<RR>>, keys: seq<SetKey>)
    requires forall k :: k in keys ==> k in rrsets
    ensures forall r :: r in Flatten(rrsets, keys) <==> exists k :: k in keys && r in rrsets[k]
  {
    if keys != [] {
      var front, last := keys[..|keys| - 1], keys[|keys| - 1];
      assert keys == front + [last];
      FlattenMembers(rrsets, front);
      forall r ensures r in Flatten(rrsets, keys) <==> exists k :: k in keys && r in rrsets[k] {
        if r in Flatten(rrsets, front) {
          var k :| k in front && r in rrsets[k];
          assert k in keys;
        } else if r in rrsets[last] {
          assert last in keys;
        }
      }
    }
  }

  lemma {:induction false} WirePairsMembers(env: Env, rrset: seq<RR>)
    requires WirePairs(env, rrset).Ok?
    ensures |WirePairs(env, rrset).value| == |rrset|
    ensures forall p :: p in WirePairs(env, rrset).value ==> p.1 in rrset
  {
    if rrset != [] {
      WirePairsMembers(env, rrset[..|rrset| - 1]);
      assert rrset == rrset[..|rrset| - 1] + [rrset[|rrset| - 1]];
    }
  }

  lemma CanonicalSetMembers(env: Env, rtype: RType, rrset: seq<RR>)
    requires rrset != [] && CanonicalSet(env, rtype, rrset).Ok?
    ensures CanonicalSet(env, rtype, rrset).value != []
    ensures forall r :: r in CanonicalSet(env, rtype, rrset).value ==> r in rrset && r.ttl == rrset[0].ttl
  {
    var pairs := WirePairs(env, rrset).value;
    WirePairsMembers(env, rrset);
    OctetsOrder();
    SortDedupFacts(OctetsLess, PairWire, pairs);
    var sorted := SortDedup(OctetsLess, PairWire, pairs);
    forall r | r in Seconds(sorted) ensures r in rrset {
      var i :| 0 <= i < |sorted| && sorted[i].1 == r;
      assert sorted[i] in pairs;
    }
  }

  /** A signature over one owner and type. */
  ghost predicate SignatureOver(req: Request, k: SetKey, r: RR) {
    && IsSig(r) && r.name == k.0 && r.rclass == CLASS_IN && r.rdata.Rrsig? && r.rdata.sig.typeCovered == k.1
    && r.rdata.sig.algorithm == ALGORITHM && |r.rdata.sig.signature| == 96 && r.rdata.sig.signer == req.origin
    && r.rdata.sig.labels == CountedLabels(k.0)
    && r.rdata.sig.inception == (req.now - 300) % CIRCLE
    && r.rdata.sig.expiration == (req.now + req.validity) % CIRCLE
  }

  lemma SignRrsetShape(env: Env, req: Request, key: Key, k: SetKey, rrset: seq<RR>, flags: int)
    requires rrset != [] && KeyOf(rrset[0]) == k
    requires SignRrset(env, key, rrset, req.origin, flags, req.now, req.validity).Ok?
    ensures var r := SignRrset(env, key, rrset, req.origin, flags, req.now, req.validity).value;
            SignatureOver(req, k, r) && r.ttl == rrset[0].ttl && Verified(env, key, rrset, r.rdata.sig)
  {
    hide CountedLabels, RdataWires, RecordForms, SignedOwner;
  }

  /** The signature is the key's over the RRset's signature input. */
  ghost predicate Verified(env: Env, key: Key, rrset: seq<RR>, sig: Sig) {
    && SignatureInput(env, rrset, sig).Ok?
    && env.sign(key, SignatureInput(env, rrset, sig).value) == Some(sig.signature)
  }

  ghost predicate SignedBy(env: Env, req: Request, k: SetKey, rrset: seq<RR>, r: RR) {
    && SignatureOver(req, k, r) && rrset != [] && r.ttl == rrset[0].ttl
    && exists key :: (key == req.zsk || key in req.ksks) && Verified(env, key, rrset, r.rdata.sig)
  }

  lemma {:induction false} KskSignaturesShape(env: Env, req: Request, ksks: seq<Key>, k: SetKey, rrset: seq<RR>)
    requires rrset != [] && KeyOf(rrset[0]) == k && KskSignatures(env, req, ksks, rrset).Ok?
    requires forall key :: key in ksks ==> key in req.ksks
    ensures |KskSignatures(env, req, ksks, rrset).value| == |ksks|
    ensures forall r :: r in KskSignatures(env, req, ksks, rrset).value ==> SignedBy(env, req, k, rrset, r)
  {
    hide SignRrset, SignatureOver, Verified;
    if ksks != [] {
      var front, last := ksks[..|ksks| - 1], ksks[|ksks| - 1];
      assert last in ksks;
      KskSignaturesShape(env, req, front, k, rrset);
      SignRrsetShape(env, req, last, k, rrset, 257);
    }
  }

  lemma SignaturesShape(env: Env, req: Request, cuts: set<Name>, k: SetKey, rrset: seq<RR>)
    requires req.ksks != [] && rrset != [] && KeyOf(rrset[0]) == k && Signatures(env, req, cuts, k, rrset).Ok?
    ensures Signatures(env, req, cuts, k, rrset).value == [] <==> LeftUnsigned(cuts, k)
    ensures forall r :: r in Signatures(env, req, cuts, k, rrset).value ==> SignedBy(env, req, k, rrset, r)
  {
    hide SignRrset, SignatureOver, Verified, LeftUnsigned;
    if !LeftUnsigned(cuts, k) {
      if k.1 == TYPE_DNSKEY {
        KskSignaturesShape(env, req, req.ksks, k, rrset);
      } else {
        SignRrsetShape(env, req, req.zsk, k, rrset, if SameKey(env, req) then 257 else 256);
      }
    }
  }

  lemma ConcatShaped(req: Request, cuts: set<Name>, k: SetKey, data: seq<RR>, sigs: seq<RR>)
    requires data != [] && (sigs == [] <==> LeftUnsigned(cuts, k))
    requires forall r :: r in data ==> KeyOf(r) == k && NotSig(r)
    requires forall r :: r in sigs ==> SignatureOver(req, k, r)
    ensures Shaped(cuts, k, data + sigs, |data|) && (data + sigs)[..|data|] == data
  {
    var s := data + sigs;
    forall i | 0 <= i < |data| ensures KeyOf(s[i]) == k && NotSig(s[i]) {
      assert s[i] == data[i] && data[i] in data;
    }
    forall i | |data| <= i < |s| ensures SignatureOver(req, k, s[i]) {
      assert s[i] == sigs[i - |data|] && sigs[i - |data|] in sigs;
    }
  }

  /** Signing a group gives its data in canonical form, then the signatures. */
  lemma SignedSetShape(env: Env, req: Request, cuts: set<Name>, k: SetKey, rrset: seq<RR>)
    requires req.ksks != [] && rrset != [] && SignedSet(env, req, cuts, k, rrset).Ok?
    requires forall r :: r in rrset ==> KeyOf(r) == k && NotSig(r)
    ensures var data := CanonicalSet(env, k.1, rrset).value;
            var sigs := Signatures(env, req, cuts, k, data).value;
            && SignedSet(env, req, cuts, k, rrset).value == data + sigs
            && Shaped(cuts, k, data + sigs, |data|) && (data + sigs)[..|data|] == data
  {
    CanonicalSetMembers(env, k.1, rrset);
    var data := CanonicalSet(env, k.1, rrset).value;
    assert data[0] in data;
    SignaturesShape(env, req, cuts, k, data);
    ConcatShaped(req, cuts, k, data, Signatures(env, req, cuts, k, data).value);
  }

  // ----- From signing to the invariant -----

  /** The pieces a successful signing went through. */
  lemma SignedParts(env: Env, req: Request)
    returns (plan: Plan, chain: (map<Name, RR>, map<Octets, Name>), all: seq<RR>)
    requires SignZone(env, req).Ok?
    ensures Prepare(env, req) == Ok(plan) && DenialChain(env, req, plan) == Ok(chain)
    ensures chain.0.Keys == plan.names && forall h :: h in chain.1 ==> chain.1[h] in plan.names
    ensures all == AllRecords(req, plan, chain) && req.ksks != []
    ensures var z := SignZone(env, req).value;
            && z.origin == req.origin && z.mode == req.mode && z.names == plan.names && z.cuts == plan.cuts
            && z.denial == chain.0 && z.hashes == chain.1 && z.serial == plan.soa.rdata.serial
            && z.inception == (req.now - 300) % CIRCLE && z.expiration == (req.now + req.validity) % CIRCLE
            && z.rrsets.Keys == SetKeys(all)
            && (forall k :: k in z.rrsets ==> SignedSet(env, req, plan.cuts, k, Select(all, k)) == Ok(z.rrsets[k]))
            && z.records == Flatten(z.rrsets, SortedKeys(z.rrsets.Keys))
  {
    hide Prepare, DenialChain, SignedSet, DenialNames, SignAll, Flatten, Select, AllRecords, KeyOf, SortedKeys;
    plan := Prepare(env, req).value;
    chain := DenialChain(env, req, plan).value;
    all := AllRecords(req, plan, chain);
    var keys := SortedKeys(SetKeys(all));
    SignAllKeys(env, req, plan.cuts, Groups(all), keys);
    assert SignAll(env, req, plan.cuts, Groups(all), keys).value.Keys == SetKeys(all);
  }

  lemma LookupsMembers<K, V(!new)>(m: map<K, V>, keys: seq<K>)
    requires forall k :: k in keys ==> k in m
    ensures forall v :: v in Lookups(m, keys) <==> exists k :: k in keys && m[k] == v
  {
    var list := Lookups(m, keys);
    forall v ensures v in list <==> exists k :: k in keys && m[k] == v {
      if v in list {
        var i :| 0 <= i < |list| && list[i] == v;
        assert m[keys[i]] == v;
      }
      if k :| k in keys && m[k] == v {
        var i :| 0 <= i < |keys| && keys[i] == k;
        assert list[i] == v;
      }
    }
  }

  lemma DenialNamesCover(env: Env, req: Request, plan: Plan, chain: (map<Name, RR>, map<Octets, Name>))
    requires DenialChain(env, req, plan) == Ok(chain)
    ensures forall n :: n in DenialNames(req.mode, plan.names, chain.1) <==> n in plan.names
  {
    hide SortedHashes, SortedNames, TypesAt, Nsec3Bitmap, HashLabel, NsecRecord, Nsec3At, DenialNames, Nsec3Owner;
    if req.mode.Nsec3Mode? {
      forall n | n in plan.names ensures n in DenialNames(req.mode, plan.names, chain.1) {
        assert chain.1[HashOf(env, req.mode, n)] == n;
      }
    }
  }

  lemma AllRecordsMembers(env: Env, req: Request, plan: Plan, chain: (map<Name, RR>, map<Octets, Name>))
    requires DenialChain(env, req, plan) == Ok(chain)
    requires chain.0.Keys == plan.names && forall h :: h in chain.1 ==> chain.1[h] in plan.names
    ensures forall r :: r in AllRecords(req, plan, chain)
                        <==> r in plan.published || exists n :: n in plan.names && r == chain.0[n]
  {
    hide DenialChain, DenialNames;
    DenialNamesCover(env, req, plan, chain);
    LookupsMembers(chain.0, DenialNames(req.mode, plan.names, chain.1));
  }

  lemma NsecRecordFacts(names: set<Name>, types: set<RType>, ttl: int, n: Name)
    requires n in names
    ensures var r := NsecRecord(names, types, ttl, n);
            && r.name == n && r.rclass == CLASS_IN && r.rtype == TYPE_NSEC && TypeOf(r.rdata) == Some(r.rtype)
            && r.ttl == ttl
            && r.rdata == Nsec(NextAfter(SortedNames(names), n), types + {TYPE_NSEC, TYPE_RRSIG})
  {
    hide SortedNames, NextAfter;
  }

  lemma Nsec3RecordFacts(env: Env, req: Request, plan: Plan, hashes: set<Octets>, n: Name)
    requires req.mode.Nsec3Mode? && HashOf(env, req.mode, n) in hashes
    requires Nsec3Owner(req.origin, HashOf(env, req.mode, n)).Some?
    ensures var r, h := Nsec3At(env, req, plan, hashes, n), HashOf(env, req.mode, n);
            && r.name == req.origin + [HashLabel(h)] && r.rclass == CLASS_IN && r.rtype == TYPE_NSEC3
            && TypeOf(r.rdata) == Some(r.rtype) && r.ttl == DenialTtl(plan.soa)
            && r.rdata == Nsec3(1, 0, req.mode.iterations, req.mode.salt, NextAfter(SortedHashes(hashes), h),
                                Nsec3Bitmap(TypesAt(plan.published, plan.cuts, n), n in plan.cuts))
  {
    hide SortedHashes, NextAfter, TypesAt, Nsec3Bitmap, HashLabel;
  }

  /** The denial record of one name, as signing makes it. */
  ghost predicate DenialRecordOf(env: Env, req: Request, plan: Plan, hashes: map<Octets, Name>, n: Name, r: RR) {
    && n in plan.names && r.rclass == CLASS_IN && TypeOf(r.rdata) == Some(r.rtype) && r.ttl == DenialTtl(plan.soa)
    && var types := TypesAt(plan.published, plan.cuts, n);
       match req.mode
       case NsecMode =>
         && r.name == n && r.rtype == TYPE_NSEC
         && r.rdata == Nsec(NextAfter(SortedNames(plan.names), n), types + {TYPE_NSEC, TYPE_RRSIG})
       case Nsec3Mode(iterations, salt) =>
         var h := HashOf(env, req.mode, n);
         && h in hashes && hashes[h] == n
         && r.name == req.origin + [HashLabel(h)] && r.rtype == TYPE_NSEC3
         && r.rdata == Nsec3(1, 0, iterations, salt, NextAfter(SortedHashes(hashes.Keys), h),
                             Nsec3Bitmap(types, n in plan.cuts))
  }

  lemma DenialChainFacts(env: Env, req: Request, plan: Plan, chain: (map<Name, RR>, map<Octets, Name>), n: Name)
    requires DenialChain(env, req, plan) == Ok(chain) && n in plan.names && chain.0.Keys == plan.names
    ensures DenialRecordOf(env, req, plan, chain.1, n, chain.0[n])
  {
    hide SortedHashes, SortedNames, NextAfter, TypesAt, Nsec3Bitmap, HashLabel, NsecRecord, Nsec3At, DenialTtl, TypeOf;
    if req.mode.NsecMode? {
      NsecRecordFacts(plan.names, TypesAt(plan.published, plan.cuts, n), DenialTtl(plan.soa), n);
    } else {
      Nsec3RecordFacts(env, req, plan, chain.1.Keys, n);
    }
  }

  lemma BuiltChain(env: Env, req: Request)
    requires SignZone(env, req).Ok?
    ensures ChainBuilt(env, SignZone(env, req).value)
  {
    hide Prepare, DenialChain, SignZone, SignedSet, AllRecords, CanonicalSet, SortedHashes, SortedNames, NextAfter,
         TypesAt, Nsec3Bitmap, HashLabel, DenialTtl, TypeOf, SetKeys, Select, Flatten;
    var plan, chain, all := SignedParts(env, req);
    var z := SignZone(env, req).value;
    forall n | n in z.names ensures DenialRecordOf(env, req, plan, chain.1, n, chain.0[n]) {
      DenialChainFacts(env, req, plan, chain, n);
    }
    if z.mode.Nsec3Mode? {
      forall h | h in z.hashes ensures z.hashes[h] in z.names && HashOf(env, z.mode, z.hashes[h]) == h {
        HashIndexInverse(env, req, plan, chain, h);
      }
    }
  }

  lemma HashIndexInverse(env: Env, req: Request, plan: Plan, chain: (map<Name, RR>, map<Octets, Name>), h: Octets)
    requires DenialChain(env, req, plan) == Ok(chain) && req.mode.Nsec3Mode? && h in chain.1
    ensures chain.1[h] in plan.names && HashOf(env, req.mode, chain.1[h]) == h
  {
    hide TypesAt, Nsec3Bitmap, HashLabel, NsecRecord, Nsec3At, Nsec3Owner;
  }

  lemma BuiltSets(env: Env, req: Request)
    requires SignZone(env, req).Ok?
    ensures var z := SignZone(env, req).value;
            && AllShaped(z) && ApexPresent(z)
            && (forall c :: c in z.cuts ==> (c, TYPE_NS) in z.rrsets)
            && (forall k :: k in z.rrsets ==> k.1 !in {TYPE_RRSIG, TYPE_ANY} && 1 <= k.1 <= 65535)
  {
    hide Prepare, DenialChain, SignZone, SignedSet, AllRecords, CanonicalSet;
    var plan, chain, all := SignedParts(env, req);
    var z := SignZone(env, req).value;
    PlanFacts(env, req);
    PlanCuts(env, req);
    AllRecordsMembers(env, req, plan, chain);
    forall r | r in all ensures r.rtype !in {TYPE_RRSIG, TYPE_ANY} && 1 <= r.rtype <= 65535 {
      if n :| n in plan.names && r == chain.0[n] {
        DenialChainFacts(env, req, plan, chain, n);
      }
    }
    forall k | k in z.rrsets ensures exists d :: Shaped(z.cuts, k, z.rrsets[k], d) {
      BuiltSet(env, req, all, k);
    }
    var apex := (z.origin, TYPE_SOA);
    assert KeyOf(plan.soa) == apex && plan.soa in all;
    BuiltSet(env, req, all, apex);
    assert z.rrsets[apex][0] == plan.soa by {
      var r := z.rrsets[apex][0];
      assert r in all && IsSoa(r);
      assert r in plan.published by {
        if n :| n in plan.names && r == chain.0[n] {
          DenialChainFacts(env, req, plan, chain, n);
        }
      }
    }
    forall c | c in z.cuts ensures (c, TYPE_NS) in z.rrsets {
      var r :| r in plan.published && r.rtype == TYPE_NS && r.name == c;
      assert KeyOf(r) == (c, TYPE_NS) && r in all;
    }
  }

  lemma BuiltSet(env: Env, req: Request, all: seq<RR>, k: SetKey)
    requires k in SetKeys(all) && req.ksks != [] && SignZone(env, req).Ok?
    requires forall r :: r in all ==> NotSig(r)
    requires k in SignZone(env, req).value.rrsets
    requires SignedSet(env, req, SignZone(env, req).value.cuts, k, Select(all, k))
             == Ok(SignZone(env, req).value.rrsets[k])
    ensures var z := SignZone(env, req).value;
            var data := CanonicalSet(env, k.1, Select(all, k)).value;
            && Shaped(z.cuts, k, z.rrsets[k], |data|)
            && (forall i :: 0 <= i < |data| ==> z.rrsets[k][i] in all)
  {
    SelectMembers(all, k);
    var group := Select(all, k);
    var r :| r in all && KeyOf(r) == k;
    assert r in group;
    SignedSetShape(env, req, SignZone(env, req).value.cuts, k, group);
    CanonicalSetMembers(env, k.1, group);
    var data := CanonicalSet(env, k.1, group).value;
    forall i | 0 <= i < |data| ensures SignZone(env, req).value.rrsets[k][i] in all {
      assert data[i] in data && data[i] in group;
    }
  }

  lemma BuiltDenial(env: Env, req: Request)
    requires SignZone(env, req).Ok?
    ensures DenialSigned(SignZone(env, req).value)
  {
    hide Prepare, DenialChain, SignZone, SignedSet, AllRecords, CanonicalSet;
    var plan, chain, all := SignedParts(env, req);
    var z := SignZone(env, req).value;
    AllRecordsMembers(env, req, plan, chain);
    PlanNames(env, req);
    forall n | n in z.denial ensures
      && z.denial[n].rtype == (if z.mode.NsecMode? then TYPE_NSEC else TYPE_NSEC3)
      && KeyOf(z.denial[n]) in z.rrsets && !LeftUnsigned(z.cuts, KeyOf(z.denial[n]))
    {
      DenialChainFacts(env, req, plan, chain, n);
      assert z.denial[n] in all;
    }
  }

  function ExpectedBitmap(mode: Mode, types: set<RType>, isCut: bool): set<RType> {
    if mode.NsecMode? then types + {TYPE_NSEC, TYPE_RRSIG} else Nsec3Bitmap(types, isCut)
  }

  lemma DenialBitmap(env: Env, req: Request, plan: Plan, chain: (map<Name, RR>, map<Octets, Name>), n: Name)
    requires DenialChain(env, req, plan) == Ok(chain) && n in plan.names && chain.0.Keys == plan.names
    ensures var r := chain.0[n];
            && (r.rdata.Nsec? || r.rdata.Nsec3?)
            && Bitmap(r) == ExpectedBitmap(req.mode, TypesAt(plan.published, plan.cuts, n), n in plan.cuts)
            && r.rtype == (if req.mode.NsecMode? then TYPE_NSEC else TYPE_NSEC3)
            && (req.mode.NsecMode? ==> r.name == n)
  {
    hide DenialChain, SortedHashes, SortedNames, NextAfter, HashLabel, DenialTtl, TypeOf, TypesAt, Nsec3Bitmap;
    DenialChainFacts(env, req, plan, chain, n);
  }

  lemma ExpectedIsExact(mode: Mode, cuts: set<Name>, keys: set<SetKey>, n: Name, types: set<RType>)
    requires {TYPE_RRSIG, TYPE_NSEC, TYPE_NSEC3} !! types
    requires forall t :: t !in {TYPE_NSEC, TYPE_NSEC3} ==> (t in types <==> (n, t) in keys)
    requires mode.NsecMode? ==> (n, TYPE_NSEC) in keys && (n, TYPE_NSEC3) !in keys
    requires mode.Nsec3Mode? ==> (n, TYPE_NSEC) !in keys
    ensures BitmapExact(mode, cuts, keys, n, ExpectedBitmap(mode, types, n in cuts))
  {
    var b := ExpectedBitmap(mode, types, n in cuts);
    if types != {} {
      var u := SomeElement(types);
      assert u in b && u != TYPE_RRSIG;
    }
  }

  lemma BuiltBitmaps(env: Env, req: Request)
    requires SignZone(env, req).Ok?
    ensures BitmapsExact(SignZone(env, req).value)
  {
    hide Prepare, DenialChain, SignZone, SignedSet, AllRecords, Flatten, TypesAt, Select, SetKeys, ExistingNames,
         NamesClosed, PublishedShape, ExpectedBitmap, BitmapExact, SortedKeys;
    var plan, chain, all := SignedParts(env, req);
    var z := SignZone(env, req).value;
    PlanFacts(env, req);
    PlanNames(env, req);
    AllRecordsMembers(env, req, plan, chain);
    forall n | n in z.denial
      ensures z.denial[n].rdata.Nsec? || z.denial[n].rdata.Nsec3?
      ensures BitmapExact(z.mode, z.cuts, z.rrsets.Keys, n, Bitmap(z.denial[n]))
    {
      DenialBitmap(env, req, plan, chain, n);
      var types := TypesAt(plan.published, plan.cuts, n);
      forall t | t !in {TYPE_NSEC, TYPE_NSEC3} ensures t in types <==> (n, t) in z.rrsets.Keys {
        PublishedTypes(env, req, plan, chain, all, n, t);
      }
      ChainTypes(env, req, plan, chain, all, n);
      ExpectedIsExact(z.mode, z.cuts, z.rrsets.Keys, n, types);
    }
  }

  lemma ChainTypes(env: Env, req: Request, plan: Plan, chain: (map<Name, RR>, map<Octets, Name>), all: seq<RR>, n: Name)
    requires DenialChain(env, req, plan) == Ok(chain) && chain.0.Keys == plan.names && n in plan.names
    requires forall r :: r in all <==> r in plan.published || exists m :: m in plan.names && r == chain.0[m]
    requires PublishedShape(req.origin, plan.published)
    ensures {TYPE_RRSIG, TYPE_NSEC, TYPE_NSEC3} !! TypesAt(plan.published, plan.cuts, n)
    ensures req.mode.NsecMode? ==> (n, TYPE_NSEC) in SetKeys(all) && (n, TYPE_NSEC3) !in SetKeys(all)
    ensures req.mode.Nsec3Mode? ==> (n, TYPE_NSEC) !in SetKeys(all)
  {
    hide DenialChain, TypeOf, Bitmap, ExpectedBitmap;
    forall m | m in plan.names ensures chain.0[m].rtype == (if req.mode.NsecMode? then TYPE_NSEC else TYPE_NSEC3) {
      DenialBitmap(env, req, plan, chain, m);
    }
    if req.mode.NsecMode? {
      DenialBitmap(env, req, plan, chain, n);
      assert chain.0[n] in all && KeyOf(chain.0[n]) == (n, TYPE_NSEC);
    }
  }

  lemma PublishedTypes(env: Env, req: Request, plan: Plan, chain: (map<Name, RR>, map<Octets, Name>), all: seq<RR>,
          n: Name, t: RType)
    requires DenialChain(env, req, plan) == Ok(chain) && chain.0.Keys == plan.names && n in plan.names
    requires forall r :: r in all <==> r in plan.published || exists m :: m in plan.names && r == chain.0[m]
    requires !Occluded(plan.cuts, n) && t !in {TYPE_NSEC, TYPE_NSEC3}
    ensures t in TypesAt(plan.published, plan.cuts, n) <==> (n, t) in SetKeys(all)
  {
    if t in TypesAt(plan.published, plan.cuts, n) {
      var r :| r in plan.published && r.name == n && r.rtype == t;
      assert r in all && KeyOf(r) == (n, t);
    }
    if (n, t) in SetKeys(all) {
      var r :| r in all && KeyOf(r) == (n, t);
      if m :| m in plan.names && r == chain.0[m] {
        DenialChainFacts(env, req, plan, chain, m);
      }
    }
  }

  lemma PlanParameters(env: Env, req: Request)
    requires Prepare(env, req).Ok?
    ensures ParametersAllowed(req.mode)
  {
  }

  /** Every zone that signing returns satisfies the index invariant. */
  lemma SignedIsWellFormed(env: Env, req: Request)
    requires SignZone(env, req).Ok?
    ensures WellFormed(env, SignZone(env, req).value)
  {
    hide SignZone, Prepare, DenialChain, AllRecords, SignedSet, Select, Flatten, SortedKeys, SetKeys, ParametersAllowed,
         NamesClosed, CutsProper, AllShaped, ApexPresent, ChainBuilt, DenialSigned, BitmapsExact;
    var plan, chain, all := SignedParts(env, req);
    PlanParameters(env, req);
    PlanNames(env, req);
    BuiltChain(env, req);
    BuiltSets(env, req);
    BuiltDenial(env, req);
    BuiltBitmaps(env, req);
  }
}
