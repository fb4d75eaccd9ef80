/** Rehydration undoes flattening: it accepts the records of a signed zone and
    rebuilds the same index. */
module RehydrationProofs {
  import opened Basics
  import opened Seqs
  import opened Sorting
  import opened Names
  import opened Base32
  import opened Denial
  import opened Records
  import opened Signing
  import opened Zone
  import opened ZoneFacts
  import opened SignatureProofs
  import opened Rehydration

  // ----- Regrouping a flattened zone -----

  /** Data of its own key, then signatures covering that key. */
  ghost predicate KeyedSet(k: SetKey, s: seq<RR>) {
    && Filter(NotSig, s) != [] && s == Filter(NotSig, s) + Filter(IsSig, s)
    && (forall r :: r in s && NotSig(r) ==> KeyOf(r) == k)
    && (forall r :: r in s && IsSig(r) ==> r.rdata.Rrsig? && CoveredKey(r) == k)
  }

  ghost predicate Keyed(rrsets: map<SetKey, seq<RR>>) {
    forall k :: k in rrsets ==> KeyedSet(k, rrsets[k])
  }

  lemma {:induction false} SelectConcat(a: seq<RR>, b: seq<RR>, k: SetKey)
    ensures Select(a + b, k) == Select(a, k) + Select(b, k)
    decreases |b|
  {
    if b == [] {
      assert a + b == a;
    } else {
      var front := b[..|b| - 1];
      SelectConcat(a, front, k);
      assert (a + b)[..|a + b| - 1] == a + front;
    }
  }

  lemma {:induction false} SelectUniform(s: seq<RR>, own: SetKey, k: SetKey)
    requires forall r :: r in s ==> KeyOf(r) == own
    ensures Select(s, k) == if own == k then s else []
  {
    if s != [] {
      var front, last := s[..|s| - 1], s[|s| - 1];
      assert s == front + [last] && last in s && forall r :: r in front ==> r in s;
      SelectUniform(front, own, k);
    }
  }

  lemma {:induction false} SigsConcat(a: seq<RR>, b: seq<RR>, k: SetKey)
    requires forall r :: r in a + b ==> r.rdata.Rrsig?
    requires (forall r :: r in a ==> r.rdata.Rrsig?) && forall r :: r in b ==> r.rdata.Rrsig?
    ensures SelectSigs(a + b, k) == SelectSigs(a, k) + SelectSigs(b, k)
    decreases |b|
  {
    if b == [] {
      assert a + b == a;
    } else {
      var front := b[..|b| - 1];
      assert (a + b)[..|a + b| - 1] == a + front;
      assert forall r :: r in a + front ==> r in a + b;
      SigsConcat(a, front, k);
    }
  }

  lemma {:induction false} SigsUniform(s: seq<RR>, own: SetKey, k: SetKey)
    requires forall r :: r in s ==> r.rdata.Rrsig? && CoveredKey(r) == own
    ensures SelectSigs(s, k) == if own == k then s else []
  {
    if s != [] {
      var front, last := s[..|s| - 1], s[|s| - 1];
      assert s == front + [last] && last in s && forall r :: r in front ==> r in s;
      SigsUniform(front, own, k);
    }
  }

  lemma {:induction false} RegroupData(rrsets: map<SetKey, seq<RR>>, keys: seq<SetKey>, k: SetKey)
    requires Keyed(rrsets) && Distinct(keys) && forall x :: x in keys ==> x in rrsets
    ensures Select(Filter(NotSig, Flatten(rrsets, keys)), k) == if k in keys then Filter(NotSig, rrsets[k]) else []
  {
    if keys != [] {
      var front, last := keys[..|keys| - 1], keys[|keys| - 1];
      assert keys == front + [last] && last in keys && forall x :: x in front ==> x in keys;
      assert last !in front;
      RegroupData(rrsets, front, k);
      var s := rrsets[last];
      assert KeyedSet(last, s);
      FilterConcat(NotSig, Flatten(rrsets, front), s);
      SelectConcat(Filter(NotSig, Flatten(rrsets, front)), Filter(NotSig, s), k);
      FilterMembers(NotSig, s);
      SelectUniform(Filter(NotSig, s), last, k);
    }
  }

  lemma {:induction false} RegroupSigs(rrsets: map<SetKey, seq<RR>>, keys: seq<SetKey>, k: SetKey)
    requires Keyed(rrsets) && Distinct(keys) && forall x :: x in keys ==> x in rrsets
    ensures forall r :: r in Filter(IsSig, Flatten(rrsets, keys)) ==> r.rdata.Rrsig?
    ensures SelectSigs(Filter(IsSig, Flatten(rrsets, keys)), k) == if k in keys then Filter(IsSig, rrsets[k]) else []
  {
    if keys != [] {
      var front, last := keys[..|keys| - 1], keys[|keys| - 1];
      assert keys == front + [last] && last in keys && forall x :: x in front ==> x in keys;
      assert last !in front;
      RegroupSigs(rrsets, front, k);
      var s := rrsets[last];
      assert KeyedSet(last, s);
      FilterConcat(IsSig, Flatten(rrsets, front), s);
      FilterMembers(IsSig, s);
      SigsConcat(Filter(IsSig, Flatten(rrsets, front)), Filter(IsSig, s), k);
      SigsUniform(Filter(IsSig, s), last, k);
    }
  }

  lemma SortedKeysDistinct(s: set<SetKey>)
    ensures Distinct(SortedKeys(s))
  {
    hide SortedKeys;
    KeyOrder();
    var keys := SortedKeys(s);
    forall i, j | 0 <= i < j < |keys| ensures keys[i] != keys[j] {
      assert KeyLess(keys[i], keys[j]);
    }
  }

  /** Flattening a keyed index and regrouping it is the identity. */
  lemma RebuiltIsOriginal(rrsets: map<SetKey, seq<RR>>)
    requires Keyed(rrsets)
    ensures var records := Flatten(rrsets, SortedKeys(rrsets.Keys));
            var data, sigs := Filter(NotSig, records), Filter(IsSig, records);
            && (forall r :: r in sigs ==> r.rdata.Rrsig?)
            && SetKeys(data) == rrsets.Keys
            && Rebuilt(data, sigs) == rrsets
            && (forall k :: k in rrsets ==> Select(data, k) == Filter(NotSig, rrsets[k]))
  {
    hide SortedKeys, KeyedSet, Filter, Flatten, Select, SelectSigs, SetKeys;
    var keys := SortedKeys(rrsets.Keys);
    SortedKeysDistinct(rrsets.Keys);
    var records := Flatten(rrsets, keys);
    var data, sigs := Filter(NotSig, records), Filter(IsSig, records);
    RegroupSigs(rrsets, keys, ([], 0));
    forall k | k in rrsets
      ensures Select(data, k) == Filter(NotSig, rrsets[k]) && SelectSigs(sigs, k) == Filter(IsSig, rrsets[k])
    {
      RegroupData(rrsets, keys, k);
      RegroupSigs(rrsets, keys, k);
    }
    assert SetKeys(data) == rrsets.Keys by { RegroupKeys(rrsets, keys); }
    forall k | k in rrsets ensures Rebuilt(data, sigs)[k] == rrsets[k] {
      KeyedParts(k, rrsets[k]);
    }
  }

  lemma KeyedParts(k: SetKey, s: seq<RR>)
    requires KeyedSet(k, s)
    ensures s == Filter(NotSig, s) + Filter(IsSig, s) && Filter(NotSig, s) != []
    ensures forall r :: r in s && NotSig(r) ==> KeyOf(r) == k
  {
  }

  lemma RegroupKeys(rrsets: map<SetKey, seq<RR>>, keys: seq<SetKey>)
    requires Keyed(rrsets) && forall k :: k in keys <==> k in rrsets
    ensures SetKeys(Filter(NotSig, Flatten(rrsets, keys))) == rrsets.Keys
  {
    hide KeyedSet;
    var records := Flatten(rrsets, keys);
    FlattenMembers(rrsets, keys);
    FilterMembers(NotSig, records);
    forall k | k in rrsets ensures k in SetKeys(Filter(NotSig, records)) {
      KeyedParts(k, rrsets[k]);
      FilterMembers(NotSig, rrsets[k]);
      var r := Filter(NotSig, rrsets[k])[0];
      assert r in Filter(NotSig, rrsets[k]);
      assert r in Filter(NotSig, records) && KeyOf(r) == k;
    }
    forall k | k in SetKeys(Filter(NotSig, records)) ensures k in rrsets {
      var r :| r in Filter(NotSig, records) && KeyOf(r) == k;
      var k' :| k' in keys && r in rrsets[k'];
      KeyedParts(k', rrsets[k']);
    }
  }

  // ----- The RRsets of a signed zone -----

  lemma {:induction false} WirePairsAreWires(env: Env, rrset: seq<RR>)
    requires WirePairs(env, rrset).Ok?
    ensures forall p :: p in WirePairs(env, rrset).value ==> Some(p.0) == env.wire(p.1.rdata)
  {
    if rrset != [] {
      WirePairsAreWires(env, rrset[..|rrset| - 1]);
    }
  }

  lemma CanonicalSetDistinct(env: Env, rtype: RType, rrset: seq<RR>)
    requires CanonicalSet(env, rtype, rrset).Ok?
    ensures Distinct(CanonicalSet(env, rtype, rrset).value)
    ensures rtype == TYPE_CNAME ==> |CanonicalSet(env, rtype, rrset).value| == 1
  {
    hide SortDedup;
    var pairs := WirePairs(env, rrset).value;
    WirePairsAreWires(env, rrset);
    OctetsOrder();
    SortDedupFacts(OctetsLess, PairWire, pairs);
    var sorted := SortDedup(OctetsLess, PairWire, pairs);
    forall i, j | 0 <= i < j < |sorted| ensures Seconds(sorted)[i] != Seconds(sorted)[j] {
      assert sorted[i] in pairs && sorted[j] in pairs;
      assert OctetsLess(PairWire(sorted[i]), PairWire(sorted[j]));
    }
  }

  /** One RRset of a signed zone: distinct data of one TTL taken from the
      published records, then the signatures. */
  ghost predicate SetFacts(env: Env, req: Request, cuts: set<Name>, all: seq<RR>, k: SetKey, s: seq<RR>) {
    var data := Filter(NotSig, s);
    && KeyedSet(k, s) && Distinct(data)
    && (forall r :: r in data ==> r in all && KeyOf(r) == k && r.ttl == data[0].ttl)
    && (k.1 == TYPE_CNAME ==> |data| == 1)
    && (forall r :: r in s && IsSig(r) ==> SignatureOver(req, k, r) && r.ttl == data[0].ttl)
    && ((exists r :: r in s && IsSig(r)) <==> !LeftUnsigned(cuts, k))
  }

  lemma SignedSetFacts(env: Env, req: Request, plan: Plan, chain: (map<Name, RR>, map<Octets, Name>), all: seq<RR>,
          k: SetKey)
    requires SignZone(env, req).Ok? && Prepare(env, req) == Ok(plan) && DenialChain(env, req, plan) == Ok(chain)
    requires chain.0.Keys == plan.names && forall h :: h in chain.1 ==> chain.1[h] in plan.names
    requires all == AllRecords(req, plan, chain) && req.ksks != []
    requires k in SetKeys(all) && SignedSet(env, req, plan.cuts, k, Select(all, k)).Ok?
    ensures SetFacts(env, req, plan.cuts, all, k, SignedSet(env, req, plan.cuts, k, Select(all, k)).value)
  {
    hide SignZone, Prepare, DenialChain, SignedSet, AllRecords, CanonicalSet, Signatures, SignedBy, SignatureOver,
         Flatten, LeftUnsigned, Select, SetKeys, KeyedSet, Distinct;
    var group := Select(all, k);
    SelectMembers(all, k);
    SignedGroup(env, req, plan, chain, all, k);
    SignedSetParts(env, req, plan.cuts, k, group);
    CanonicalSetMembers(env, k.1, group);
    CanonicalSetDistinct(env, k.1, group);
    var data := CanonicalSet(env, k.1, group).value;
    assert data[0] in data;
    SignaturesShape(env, req, plan.cuts, k, data);
    var sigs := Signatures(env, req, plan.cuts, k, data).value;
    assert DataFacts(all, k, data);
    assert SigFacts(req, k, data, sigs) by {
      forall r | r in sigs
        ensures IsSig(r) && SignatureOver(req, k, r) && r.ttl == data[0].ttl && r.rdata.Rrsig? && CoveredKey(r) == k
      {
        SignedByFacts(env, req, k, data, r);
      }
    }
    AssembleFacts(env, req, plan.cuts, all, k, data, sigs);
  }

  ghost predicate DataFacts(all: seq<RR>, k: SetKey, data: seq<RR>) {
    && data != [] && Distinct(data) && (k.1 == TYPE_CNAME ==> |data| == 1)
    && (forall r :: r in data ==> r in all && KeyOf(r) == k && NotSig(r) && r.ttl == data[0].ttl)
  }

  ghost predicate SigFacts(req: Request, k: SetKey, data: seq<RR>, sigs: seq<RR>)
    requires data != []
  {
    forall r :: r in sigs ==>
      IsSig(r) && SignatureOver(req, k, r) && r.ttl == data[0].ttl && r.rdata.Rrsig? && CoveredKey(r) == k
  }

  lemma AssembleFacts(env: Env, req: Request, cuts: set<Name>, all: seq<RR>, k: SetKey, data: seq<RR>, sigs: seq<RR>)
    requires DataFacts(all, k, data) && SigFacts(req, k, data, sigs)
    requires sigs == [] <==> LeftUnsigned(cuts, k)
    ensures SetFacts(env, req, cuts, all, k, data + sigs)
  {
    hide SignatureOver, LeftUnsigned, Distinct;
    PartsOf(data, sigs);
    KeyedConcat(k, data, sigs);
    if sigs != [] {
      assert sigs[0] in data + sigs;
    }
  }

  lemma SignedByFacts(env: Env, req: Request, k: SetKey, data: seq<RR>, r: RR)
    requires SignedBy(env, req, k, data, r)
    ensures IsSig(r) && SignatureOver(req, k, r) && r.ttl == data[0].ttl && r.rdata.Rrsig? && CoveredKey(r) == k
  {
    hide Verified;
  }

  lemma PartsOf(data: seq<RR>, sigs: seq<RR>)
    requires (forall r :: r in data ==> NotSig(r)) && forall r :: r in sigs ==> IsSig(r)
    ensures Filter(NotSig, data + sigs) == data && Filter(IsSig, data + sigs) == sigs
  {
    FilterConcat(NotSig, data, sigs);
    FilterAll(NotSig, data);
    FilterNone(NotSig, sigs);
    FilterConcat(IsSig, data, sigs);
    FilterNone(IsSig, data);
    FilterAll(IsSig, sigs);
  }

  lemma KeyedConcat(k: SetKey, data: seq<RR>, sigs: seq<RR>)
    requires data != [] && Filter(NotSig, data + sigs) == data && Filter(IsSig, data + sigs) == sigs
    requires (forall r :: r in data ==> KeyOf(r) == k && NotSig(r))
    requires forall r :: r in sigs ==> IsSig(r) && r.rdata.Rrsig? && CoveredKey(r) == k
    ensures KeyedSet(k, data + sigs)
  {
  }

  /** All RRsets of a signed zone. */
  ghost predicate ZoneFactsHold(env: Env, req: Request, all: seq<RR>, z: SignedZone) {
    && z.rrsets.Keys == SetKeys(all)
    && forall k :: k in z.rrsets ==> SetFacts(env, req, z.cuts, all, k, z.rrsets[k])
  }

  lemma SignedZoneFacts(env: Env, req: Request)
    returns (plan: Plan, chain: (map<Name, RR>, map<Octets, Name>), all: seq<RR>)
    requires SignZone(env, req).Ok?
    ensures Prepare(env, req) == Ok(plan) && DenialChain(env, req, plan) == Ok(chain)
    ensures chain.0.Keys == plan.names && forall h :: h in chain.1 ==> chain.1[h] in plan.names
    ensures all == AllRecords(req, plan, chain)
    ensures var z := SignZone(env, req).value;
            && z.origin == req.origin && z.mode == req.mode && z.names == plan.names && z.cuts == plan.cuts
            && z.denial == chain.0 && z.hashes == chain.1 && z.serial == plan.soa.rdata.serial
            && z.inception == (req.now - 300) % CIRCLE && z.expiration == (req.now + req.validity) % CIRCLE
            && z.records == Flatten(z.rrsets, SortedKeys(z.rrsets.Keys))
            && ZoneFactsHold(env, req, all, z) && Keyed(z.rrsets)
  {
    hide SignZone, Prepare, DenialChain, SignedSet, AllRecords, Flatten, SetKeys, Select, SortedKeys, SetFacts,
         KeyedSet;
    plan, chain, all := SignedParts(env, req);
    var z := SignZone(env, req).value;
    forall k | k in z.rrsets ensures SetFacts(env, req, z.cuts, all, k, z.rrsets[k]) && KeyedSet(k, z.rrsets[k]) {
      SignedSetFacts(env, req, plan, chain, all, k);
      FactsKeyed(env, req, z.cuts, all, k, z.rrsets[k]);
    }
  }

  lemma FactsKeyed(env: Env, req: Request, cuts: set<Name>, all: seq<RR>, k: SetKey, s: seq<RR>)
    requires SetFacts(env, req, cuts, all, k, s)
    ensures KeyedSet(k, s)
  {
  }

  // ----- The record list of a signed zone -----

  lemma {:induction false} FilterFlatten(p: RR -> bool, rrsets: map<SetKey, seq<RR>>, keys: seq<SetKey>, own: SetKey)
    requires Distinct(keys) && forall k :: k in keys ==> k in rrsets
    requires forall k, r :: k in keys && k != own && r in rrsets[k] ==> !p(r)
    ensures Filter(p, Flatten(rrsets, keys)) == if own in keys then Filter(p, rrsets[own]) else []
  {
    if keys != [] {
      var front, last := keys[..|keys| - 1], keys[|keys| - 1];
      assert keys == front + [last] && last in keys && last !in front && forall x :: x in front ==> x in keys;
      FilterFlatten(p, rrsets, front, own);
      FilterConcat(p, Flatten(rrsets, front), rrsets[last]);
      if last != own {
        FilterNone(p, rrsets[last]);
      }
    }
  }

  lemma SingleData(data: seq<RR>, x: RR)
    requires data != [] && Distinct(data) && forall r :: r in data ==> r == x
    ensures data == [x]
  {
    assert data[0] in data && data[|data| - 1] in data;
    assert data[0] == data[|data| - 1];
  }

  /** A key whose published records are all `x` holds just `x` and signatures. */
  lemma SingleRecordSet(env: Env, req: Request, cuts: set<Name>, all: seq<RR>, k: SetKey, s: seq<RR>, x: RR)
    requires SetFacts(env, req, cuts, all, k, s)
    requires forall r :: r in all && KeyOf(r) == k ==> r == x
    ensures Filter(NotSig, s) == [x] && s != [] && s[0] == x
  {
    hide SignatureOver, LeftUnsigned;
    SingleData(Filter(NotSig, s), x);
  }

  /** The records of one type other than RRSIG, when they all sit under one key. */
  lemma RecordsOfType(env: Env, req: Request, all: seq<RR>, z: SignedZone, p: RR -> bool, own: SetKey, x: RR)
    requires ZoneFactsHold(env, req, all, z) && Keyed(z.rrsets)
    requires z.records == Flatten(z.rrsets, SortedKeys(z.rrsets.Keys))
    requires own in z.rrsets && own.1 != TYPE_RRSIG && forall r :: p(r) <==> r.rtype == own.1
    requires forall r :: r in all && r.rtype == own.1 ==> r == x
    requires KeyOf(x) == own
    ensures Filter(p, z.records) == [x] && Filter(p, z.rrsets[own]) == [x]
  {
    hide SetFacts, SortedKeys, KeyedSet;
    var s := z.rrsets[own];
    SingleRecordSet(env, req, z.cuts, all, own, s, x);
    KeyedParts(own, s);
    FilterMembers(IsSig, s);
    FilterConcat(p, Filter(NotSig, s), Filter(IsSig, s));
    FilterNone(p, Filter(IsSig, s));
    FilterAll(p, [x]);
    forall k, r | k in z.rrsets && k != own && r in z.rrsets[k] ensures !p(r) {
      OtherType(env, req, z.cuts, all, k, z.rrsets[k], r, x, own);
    }
    SortedKeysDistinct(z.rrsets.Keys);
    FilterFlatten(p, z.rrsets, SortedKeys(z.rrsets.Keys), own);
  }

  lemma OtherType(env: Env, req: Request, cuts: set<Name>, all: seq<RR>, k: SetKey, s: seq<RR>, r: RR, x: RR,
          own: SetKey)
    requires SetFacts(env, req, cuts, all, k, s) && r in s && k != own && own.1 != TYPE_RRSIG && KeyOf(x) == own
    requires forall r :: r in all && r.rtype == own.1 ==> r == x
    ensures r.rtype != own.1
  {
    hide SignatureOver, LeftUnsigned, KeyedSet;
    FilterMembers(NotSig, s);
    if NotSig(r) {
      assert r in Filter(NotSig, s);
    }
  }

  /** Published records and denial records, by type. */
  ghost predicate AllTyped(req: Request, plan: Plan, all: seq<RR>) {
    && (forall r :: r in all ==>
          r.rclass == CLASS_IN && req.origin <= r.name && TypeOf(r.rdata) == Some(r.rtype) && NotSig(r))
    && (forall r :: r in all && IsSoa(r) ==> r == plan.soa)
    && (forall r :: r in all && r.rtype == TYPE_NS ==> r in plan.published)
    && (forall r :: r in plan.published ==> r in all)
    && (forall r :: r in all ==> r in plan.published || r.rtype == TYPE_NSEC || r.rtype == TYPE_NSEC3)
    && (req.mode.NsecMode? ==> forall r :: r in all ==> r.rtype != TYPE_NSEC3)
    && (req.mode.Nsec3Mode? ==> forall r :: r in all ==> r.rtype != TYPE_NSEC)
  }

  lemma AllRecordsTyped(env: Env, req: Request, plan: Plan, chain: (map<Name, RR>, map<Octets, Name>), all: seq<RR>)
    requires Prepare(env, req) == Ok(plan) && DenialChain(env, req, plan) == Ok(chain)
    requires chain.0.Keys == plan.names && forall h :: h in chain.1 ==> chain.1[h] in plan.names
    requires all == AllRecords(req, plan, chain)
    ensures AllTyped(req, plan, all)
  {
    hide Prepare, DenialChain, AllRecords, TypeOf, NamesClosed, CutsProper, DenialTyped;
    PlanFacts(env, req);
    AllRecordsMembers(env, req, plan, chain);
    forall r | r in all && r !in plan.published ensures DenialTyped(req, r) {
      var m :| m in plan.names && r == chain.0[m];
      LinkTyped(env, req, plan, chain, m);
    }
    TypedFromParts(req, plan, all);
  }

  ghost predicate DenialTyped(req: Request, r: RR) {
    && r.rclass == CLASS_IN && req.origin <= r.name && TypeOf(r.rdata) == Some(r.rtype)
    && r.rtype == (if req.mode.NsecMode? then TYPE_NSEC else TYPE_NSEC3)
  }

  lemma LinkTyped(env: Env, req: Request, plan: Plan, chain: (map<Name, RR>, map<Octets, Name>), m: Name)
    requires Prepare(env, req) == Ok(plan) && DenialChain(env, req, plan) == Ok(chain) && m in plan.names
    requires m in chain.0
    ensures DenialTyped(req, chain.0[m])
  {
    hide Prepare, DenialChain, HashLabel, NextAfter, SortedNames, SortedHashes, TypesAt, Nsec3Bitmap, DenialTtl,
         NamesClosed, CutsProper;
    PlanNames(env, req);
    DenialChainFacts(env, req, plan, chain, m);
    NameInZone(req.origin, plan.names, m);
  }

  lemma TypedFromParts(req: Request, plan: Plan, all: seq<RR>)
    requires PublishedShape(req.origin, plan.published)
    requires forall r :: r in all && r !in plan.published ==> DenialTyped(req, r)
    requires forall r :: r in plan.published ==> r in all && (IsSoa(r) ==> r == plan.soa)
    ensures AllTyped(req, plan, all)
  {
    hide TypeOf;
  }

  lemma NameInZone(origin: Name, names: set<Name>, n: Name)
    requires NamesClosed(origin, names) && n in names
    ensures origin <= n
  {
  }

  /** Every stored record is data from `all` or a signature over a key. */
  lemma RecordOrigin(env: Env, req: Request, all: seq<RR>, z: SignedZone, r: RR) returns (k: SetKey)
    requires ZoneFactsHold(env, req, all, z) && z.records == Flatten(z.rrsets, SortedKeys(z.rrsets.Keys))
    requires r in z.records
    ensures k in z.rrsets && r in z.rrsets[k]
    ensures NotSig(r) ==> r in all && KeyOf(r) == k
    ensures IsSig(r) ==> SignatureOver(req, k, r)
  {
    hide SortedKeys, SignatureOver, LeftUnsigned, KeyedSet, Distinct;
    FlattenMembers(z.rrsets, SortedKeys(z.rrsets.Keys));
    k :| k in z.rrsets && r in z.rrsets[k];
    assert SetFacts(env, req, z.cuts, all, k, z.rrsets[k]);
    FilterMembers(NotSig, z.rrsets[k]);
  }

  /** Some record of every published key is stored. */
  lemma KeyStored(env: Env, req: Request, all: seq<RR>, z: SignedZone, k: SetKey) returns (r: RR)
    requires ZoneFactsHold(env, req, all, z) && Keyed(z.rrsets)
    requires z.records == Flatten(z.rrsets, SortedKeys(z.rrsets.Keys)) && k in z.rrsets
    ensures r in z.records && NotSig(r) && KeyOf(r) == k && r in all
  {
    hide SortedKeys, SignatureOver, LeftUnsigned, KeyedSet, Distinct;
    FlattenMembers(z.rrsets, SortedKeys(z.rrsets.Keys));
    assert SetFacts(env, req, z.cuts, all, k, z.rrsets[k]);
    KeyedParts(k, z.rrsets[k]);
    FilterMembers(NotSig, z.rrsets[k]);
    r := Filter(NotSig, z.rrsets[k])[0];
    assert r in Filter(NotSig, z.rrsets[k]);
  }

  // ----- The steps of rehydration on a signed zone -----

  lemma StoredRecords(env: Env, req: Request)
    requires SignZone(env, req).Ok?
    ensures var z := SignZone(env, req).value;
            && RecordsStored(z.records, z.origin) && SerialOf(z.records) == z.serial
            && (forall r :: r in z.records ==> SignatureAllowed(r, z.origin))
  {
    hide SignZone, Prepare, DenialChain, AllRecords, SortedKeys, Keyed, ZoneFactsHold, Flatten;
    var plan, chain, all := SignedZoneFacts(env, req);
    var z := SignZone(env, req).value;
    AllRecordsTyped(env, req, plan, chain, all);
    PlanFacts(env, req);
    ApexKeys(env, req, plan, chain, all);
    forall r | r in z.records ensures Stored(r, z.origin) && SignatureAllowed(r, z.origin) {
      var k := RecordOrigin(env, req, all, z, r);
      if IsSig(r) {
        var d := KeyStored(env, req, all, z, k);
      }
    }
    RecordsOfType(env, req, all, z, IsSoa, (z.origin, TYPE_SOA), plan.soa);
    var ns := KeyStored(env, req, all, z, (z.origin, TYPE_NS));
    assert ns in z.records && ns.name == z.origin && ns.rtype == TYPE_NS;
  }

  /** The apex has its SOA and NS sets. */
  lemma ApexKeys(env: Env, req: Request, plan: Plan, chain: (map<Name, RR>, map<Octets, Name>), all: seq<RR>)
    requires SignZone(env, req).Ok? && Prepare(env, req) == Ok(plan) && DenialChain(env, req, plan) == Ok(chain)
    requires chain.0.Keys == plan.names && forall h :: h in chain.1 ==> chain.1[h] in plan.names
    requires all == AllRecords(req, plan, chain) && ZoneFactsHold(env, req, all, SignZone(env, req).value)
    requires AllTyped(req, plan, all)
    ensures (req.origin, TYPE_SOA) in SignZone(env, req).value.rrsets
    ensures (req.origin, TYPE_NS) in SignZone(env, req).value.rrsets
  {
    hide SignZone, DenialChain, AllRecords, SetFacts;
    PlanFacts(env, req);
    assert plan.soa in all && KeyOf(plan.soa) == (req.origin, TYPE_SOA);
    var kept := Filter(NotGenerated, req.records);
    PublishMembers(env, req, kept, plan.soa.ttl);
    var ns :| ns in kept && ns.name == req.origin && ns.rtype == TYPE_NS;
    assert ns in all && KeyOf(ns) == (req.origin, TYPE_NS);
  }

  lemma RehydratedMode(env: Env, req: Request)
    requires SignZone(env, req).Ok?
    ensures var z := SignZone(env, req).value;
            ModeOf(Filter(IsParam, z.records), z.origin) == Ok(z.mode)
  {
    hide SignZone, DenialChain, AllRecords, SortedKeys, Keyed, ZoneFactsHold, Flatten, Prepare, ParametersAllowed;
    var plan, chain, all := SignedZoneFacts(env, req);
    var z := SignZone(env, req).value;
    ParamRecordIn(env, req, plan, chain, all);
    match req.mode {
      case NsecMode =>
        forall r | r in z.records ensures !IsParam(r) {
          var k := RecordOrigin(env, req, all, z, r);
        }
        FilterNone(IsParam, z.records);
      case Nsec3Mode(iterations, salt) =>
        var x := ParamRecord(req.origin, req.mode);
        assert KeyOf(x) in z.rrsets by { KeyFromAll(env, req, all, z, x); }
        RecordsOfType(env, req, all, z, IsParam, KeyOf(x), x);
    }
  }

  lemma KeyFromAll(env: Env, req: Request, all: seq<RR>, z: SignedZone, x: RR)
    requires ZoneFactsHold(env, req, all, z) && x in all
    ensures KeyOf(x) in z.rrsets
  {
    hide SetFacts;
  }

  lemma PublishedParams(env: Env, req: Request, kept: seq<RR>, ttl: int)
    requires req.ksks != [] && forall r :: r in kept ==> NotGenerated(r)
    ensures req.mode.NsecMode? ==> forall r :: r in Publish(env, req, kept, ttl) ==> !IsParam(r)
    ensures req.mode.Nsec3Mode? ==>
              var x := ParamRecord(req.origin, req.mode);
              && x in Publish(env, req, kept, ttl)
              && forall r :: r in Publish(env, req, kept, ttl) && IsParam(r) ==> r == x
  {
    KeysAreDnskeys(env, req.origin, ttl, req.ksks);
  }

  lemma PlanParams(env: Env, req: Request)
    requires Prepare(env, req).Ok?
    ensures ParametersAllowed(req.mode)
    ensures var published := Prepare(env, req).value.published;
            && (req.mode.NsecMode? ==> forall r :: r in published ==> !IsParam(r))
            && (req.mode.Nsec3Mode? ==>
                  var x := ParamRecord(req.origin, req.mode);
                  x in published && forall r :: r in published && IsParam(r) ==> r == x)
  {
    hide Publish, CnameConflict, Admitted, ExistingNames;
    var kept := Filter(NotGenerated, req.records);
    FilterMembers(NotGenerated, req.records);
    PublishedParams(env, req, kept, Prepare(env, req).value.soa.ttl);
  }

  /** The only NSEC3PARAM record is the generated one. */
  lemma ParamRecordIn(env: Env, req: Request, plan: Plan, chain: (map<Name, RR>, map<Octets, Name>), all: seq<RR>)
    requires Prepare(env, req) == Ok(plan) && DenialChain(env, req, plan) == Ok(chain)
    requires chain.0.Keys == plan.names && forall h :: h in chain.1 ==> chain.1[h] in plan.names
    requires all == AllRecords(req, plan, chain)
    ensures ParametersAllowed(req.mode)
    ensures req.mode.NsecMode? ==> forall r :: r in all ==> !IsParam(r)
    ensures req.mode.Nsec3Mode? ==>
              var x := ParamRecord(req.origin, req.mode);
              x in all && forall r :: r in all && IsParam(r) ==> r == x
  {
    hide DenialChain, AllRecords, Prepare, TypeOf, ParametersAllowed;
    PlanParams(env, req);
    AllRecordsTyped(env, req, plan, chain, all);
  }

  lemma {:induction false} KeysAreDnskeys(env: Env, origin: Name, ttl: int, ksks: seq<Key>)
    ensures forall r :: r in KeyRecords(env, origin, ttl, ksks) ==> r.rtype == TYPE_DNSKEY
  {
    if ksks != [] {
      KeysAreDnskeys(env, origin, ttl, ksks[..|ksks| - 1]);
    }
  }

  lemma RehydratedCuts(env: Env, req: Request)
    requires SignZone(env, req).Ok?
    ensures var z := SignZone(env, req).value;
            Cuts(z.records, z.origin) == z.cuts
  {
    hide SignZone, DenialChain, AllRecords, SortedKeys, Keyed, ZoneFactsHold, Flatten, Prepare;
    var plan, chain, all := SignedZoneFacts(env, req);
    var z := SignZone(env, req).value;
    AllRecordsTyped(env, req, plan, chain, all);
    PlanCuts(env, req);
    forall c | c in Cuts(z.records, z.origin) ensures c in z.cuts {
      var r :| r in z.records && r.rtype == TYPE_NS && r.name != z.origin && r.name == c;
      var k := RecordOrigin(env, req, all, z, r);
    }
    forall c | c in z.cuts ensures c in Cuts(z.records, z.origin) {
      var r :| r in plan.published && r.rtype == TYPE_NS && r.name != z.origin && r.name == c;
      KeyFromAll(env, req, all, z, r);
      var r' := KeyStored(env, req, all, z, KeyOf(r));
      assert r' in z.records && r'.rtype == TYPE_NS && r'.name == c;
    }
  }

  lemma RehydratedNames(env: Env, req: Request)
    requires SignZone(env, req).Ok?
    ensures var z := SignZone(env, req).value;
            ExistingNames(Filter(Visible, z.records), z.cuts, z.origin) == z.names
  {
    hide SignZone, DenialChain, AllRecords, SortedKeys, Keyed, ZoneFactsHold, Flatten, Prepare, ExistingNames, AllTyped,
         CutsProper;
    var plan, chain, all := SignedZoneFacts(env, req);
    var z := SignZone(env, req).value;
    PlanNames(env, req);
    AllRecordsTyped(env, req, plan, chain, all);
    var seen := Filter(Visible, z.records);
    FilterMembers(Visible, z.records);
    forall n ensures n in ExistingNames(seen, z.cuts, z.origin) <==> n in z.names {
      ExistsIffSupported(seen, z.cuts, z.origin, n);
      if r :| Supports(seen, z.cuts, z.origin, n, r) {
        var k := RecordOrigin(env, req, all, z, r);
        SupportedExists(env, req, plan, chain, all, n, r);
      }
      if n in z.names {
        var r := SupportStored(env, req, plan, all, z, n);
      }
    }
  }

  lemma {:induction false} AncestorExists(origin: Name, names: set<Name>, n: Name, m: Name)
    requires NamesClosed(origin, names) && m in names && n <= m && |origin| <= |n|
    ensures n in names
    decreases |m|
  {
    if |n| < |m| {
      assert n <= m[..|m| - 1];
      AncestorExists(origin, names, n, m[..|m| - 1]);
    } else {
      assert n == m;
    }
  }

  lemma SupportedExists(env: Env, req: Request, plan: Plan, chain: (map<Name, RR>, map<Octets, Name>), all: seq<RR>,
          n: Name, r: RR)
    requires Prepare(env, req) == Ok(plan) && DenialChain(env, req, plan) == Ok(chain)
    requires chain.0.Keys == plan.names && forall h :: h in chain.1 ==> chain.1[h] in plan.names
    requires all == AllRecords(req, plan, chain) && r in all && Visible(r)
    requires !Occluded(plan.cuts, r.name) && |req.origin| <= |n| && n <= r.name
    ensures n in plan.names
  {
    hide DenialChain, AllRecords, Prepare, Occluded, Bitmap, ExpectedBitmap, CutsProper;
    AllRecordsMembers(env, req, plan, chain);
    PlanNames(env, req);
    if r in plan.published {
      AncestorExists(req.origin, plan.names, n, r.name);
    } else {
      var m :| m in plan.names && r == chain.0[m];
      DenialBitmap(env, req, plan, chain, m);
      AncestorExists(req.origin, plan.names, n, m);
    }
  }

  lemma SupportStored(env: Env, req: Request, plan: Plan, all: seq<RR>, z: SignedZone, n: Name) returns (r: RR)
    requires ZoneFactsHold(env, req, all, z) && Keyed(z.rrsets)
    requires z.records == Flatten(z.rrsets, SortedKeys(z.rrsets.Keys))
    requires Prepare(env, req) == Ok(plan) && n in plan.names && AllTyped(req, plan, all)
    ensures Supports(Filter(Visible, z.records), plan.cuts, req.origin, n, r)
  {
    hide Prepare, ExistingNames, ZoneFactsHold, Keyed, Flatten, SortedKeys, Occluded;
    PlanExists(env, req);
    PlanFacts(env, req);
    ExistsIffSupported(plan.published, plan.cuts, req.origin, n);
    var r0 :| Supports(plan.published, plan.cuts, req.origin, n, r0);
    KeyFromAll(env, req, all, z, r0);
    r := KeyStored(env, req, all, z, KeyOf(r0));
    FilterMembers(Visible, z.records);
  }

  lemma RehydratedSignatures(env: Env, req: Request)
    requires SignZone(env, req).Ok?
    ensures forall s :: s in SignZone(env, req).value.records && s.rdata.Rrsig? ==>
              Attachable(Filter(NotSig, SignZone(env, req).value.records), s)
  {
    hide SignZone, DenialChain, AllRecords, SortedKeys, Keyed, ZoneFactsHold, Flatten, Prepare, Attachable,
         SignatureOver;
    var plan, chain, all := SignedZoneFacts(env, req);
    var z := SignZone(env, req).value;
    AllRecordsTyped(env, req, plan, chain, all);
    forall s | s in z.records && s.rdata.Rrsig? ensures Attachable(Filter(NotSig, z.records), s) {
      var k := RecordOrigin(env, req, all, z, s);
      SignatureAttaches(env, req, all, z, k, s);
    }
  }

  lemma SignatureAttaches(env: Env, req: Request, all: seq<RR>, z: SignedZone, k: SetKey, s: RR)
    requires ZoneFactsHold(env, req, all, z) && Keyed(z.rrsets)
    requires z.records == Flatten(z.rrsets, SortedKeys(z.rrsets.Keys))
    requires k in z.rrsets && s in z.rrsets[k] && IsSig(s) && SignatureOver(req, k, s)
    ensures Attachable(Filter(NotSig, z.records), s)
  {
    hide SortedKeys, Flatten, Keyed, LeftUnsigned, KeyedSet, Distinct;
    RebuiltIsOriginal(z.rrsets);
    assert SetFacts(env, req, z.cuts, all, k, z.rrsets[k]);
  }

  /** A CNAME shares its owner with an NSEC3 record. */
  predicate CnameAtNsec3Owner(keys: set<SetKey>) {
    exists k :: k in keys && k.1 == TYPE_CNAME && (k.0, TYPE_NSEC3) in keys
  }

  lemma CnameNotOccluded(env: Env, req: Request, r: RR)
    requires Prepare(env, req).Ok? && r in Prepare(env, req).value.published && r.rtype == TYPE_CNAME
    ensures !Occluded(Prepare(env, req).value.cuts, r.name)
    ensures TypesAt(Prepare(env, req).value.published, Prepare(env, req).value.cuts, r.name) == {TYPE_CNAME}
  {
    hide TypesAt, ExistingNames, HasApex, Publish;
    var plan := Prepare(env, req).value;
    var kept := Filter(NotGenerated, req.records);
    PublishMembers(env, req, kept, plan.soa.ttl);
    forall c | c in plan.cuts ensures !StrictlyBelow(r.name, c) {
      assert CutAccepted(kept, plan.cuts, c);
    }
  }

  lemma TypeListed(records: seq<RR>, cuts: set<Name>, r: RR)
    requires r in records && !Occluded(cuts, r.name)
    ensures r.rtype in TypesAt(records, cuts, r.name)
  {
  }

  /** At a CNAME's owner, only an NSEC3 record can be company. */
  lemma CompanyIsNsec3(env: Env, req: Request, plan: Plan, chain: (map<Name, RR>, map<Octets, Name>), all: seq<RR>,
          n: Name)
    requires Prepare(env, req) == Ok(plan) && AllTyped(req, plan, all) && (n, TYPE_CNAME) in SetKeys(all)
    ensures CnameCompany(SetKeys(all), n) <==> (n, TYPE_NSEC3) in SetKeys(all)
  {
    hide Prepare, TypesAt;
    var c :| c in all && KeyOf(c) == (n, TYPE_CNAME);
    CnameNotOccluded(env, req, c);
    if k :| k in SetKeys(all) && k.0 == n && k.1 != TYPE_CNAME && k.1 != TYPE_NSEC {
      var r :| r in all && KeyOf(r) == k;
      if r in plan.published {
        TypeListed(plan.published, plan.cuts, r);
      }
      assert k == (n, TYPE_NSEC3);
    }
  }

  lemma SetAcceptedIff(env: Env, req: Request, cuts: set<Name>, all: seq<RR>, rrsets: map<SetKey, seq<RR>>, k: SetKey)
    requires k in rrsets && SetFacts(env, req, cuts, all, k, rrsets[k])
    ensures SetAccepted(rrsets, cuts, k) <==> (k.1 == TYPE_CNAME ==> !CnameCompany(rrsets.Keys, k.0))
  {
    hide CnameCompany, LeftUnsigned, SignatureOver, Distinct;
  }

  lemma RehydratedSets(env: Env, req: Request)
    requires SignZone(env, req).Ok?
    ensures var z := SignZone(env, req).value;
            SetsAccepted(z.rrsets, z.cuts) <==> !CnameAtNsec3Owner(z.rrsets.Keys)
  {
    hide SignZone, DenialChain, AllRecords, SortedKeys, Keyed, Flatten, Prepare, AllTyped, SetAccepted, SetFacts,
         CnameCompany;
    var plan, chain, all := SignedZoneFacts(env, req);
    var z := SignZone(env, req).value;
    AllRecordsTyped(env, req, plan, chain, all);
    forall k | k in z.rrsets
      ensures SetAccepted(z.rrsets, z.cuts, k) <==> (k.1 == TYPE_CNAME ==> (k.0, TYPE_NSEC3) !in z.rrsets.Keys)
    {
      SetAcceptedIff(env, req, z.cuts, all, z.rrsets, k);
      if k.1 == TYPE_CNAME {
        assert k == (k.0, TYPE_CNAME);
        CompanyIsNsec3(env, req, plan, chain, all, k.0);
      }
    }
  }

  // ----- The denial chain -----

  /** SHA-1 digests: twenty octets. */
  ghost predicate DigestsProper(env: Env, mode: Mode, names: set<Name>) {
    mode.Nsec3Mode? ==> forall n :: n in names ==> IsDigest(HashOf(env, mode, n))
  }

  /** The denial record of `n` is alone under its key. */
  lemma DenialAlone(env: Env, req: Request, plan: Plan, chain: (map<Name, RR>, map<Octets, Name>), all: seq<RR>,
          n: Name, r: RR)
    requires Prepare(env, req) == Ok(plan) && DenialChain(env, req, plan) == Ok(chain)
    requires chain.0.Keys == plan.names && forall h :: h in chain.1 ==> chain.1[h] in plan.names
    requires all == AllRecords(req, plan, chain) && DigestsProper(env, req.mode, plan.names)
    requires n in plan.names && r in all && KeyOf(r) == KeyOf(chain.0[n])
    ensures r == chain.0[n]
  {
    hide Prepare, DenialChain, AllRecords, TypeOf, NextAfter, SortedNames, SortedHashes, TypesAt, Nsec3Bitmap,
         DenialTtl, HashLabel;
    AllRecordsMembers(env, req, plan, chain);
    DenialChainFacts(env, req, plan, chain, n);
    PlanFacts(env, req);
    var m :| m in plan.names && r == chain.0[m];
    DenialChainFacts(env, req, plan, chain, m);
    if req.mode.Nsec3Mode? {
      var a, b := HashOf(env, req.mode, n), HashOf(env, req.mode, m);
      assert (req.origin + [HashLabel(a)])[|req.origin|] == (req.origin + [HashLabel(b)])[|req.origin|];
      HashLabelInjective(a, b, 4);
    }
  }

  /** The stored RRset of a denial record: the record, then signatures. */
  lemma DenialSet(env: Env, req: Request, plan: Plan, chain: (map<Name, RR>, map<Octets, Name>), all: seq<RR>,
          z: SignedZone, n: Name, p: RR -> bool)
    requires Prepare(env, req) == Ok(plan) && DenialChain(env, req, plan) == Ok(chain)
    requires chain.0.Keys == plan.names && forall h :: h in chain.1 ==> chain.1[h] in plan.names
    requires all == AllRecords(req, plan, chain) && DigestsProper(env, req.mode, plan.names)
    requires ZoneFactsHold(env, req, all, z) && n in plan.names && chain.0[n] in all
    requires chain.0[n].rtype != TYPE_RRSIG && forall r :: p(r) <==> r.rtype == chain.0[n].rtype
    ensures KeyOf(chain.0[n]) in z.rrsets
    ensures var s := z.rrsets[KeyOf(chain.0[n])];
            s != [] && s[0] == chain.0[n] && Filter(p, s) == [chain.0[n]]
  {
    hide Prepare, DenialChain, AllRecords, SetFacts, KeyedSet;
    var x := chain.0[n];
    var k := KeyOf(x);
    KeyFromAll(env, req, all, z, x);
    forall r | r in all && KeyOf(r) == k ensures r == x {
      DenialAlone(env, req, plan, chain, all, n, r);
    }
    var s := z.rrsets[k];
    SingleRecordSet(env, req, z.cuts, all, k, s, x);
    FactsKeyed(env, req, z.cuts, all, k, s);
    KeyedParts(k, s);
    FilterMembers(IsSig, s);
    FilterConcat(p, Filter(NotSig, s), Filter(IsSig, s));
    FilterNone(p, Filter(IsSig, s));
    FilterAll(p, [x]);
  }

  lemma {:induction false} NoBadLink(rrsets: map<SetKey, seq<RR>>, mode: Mode, origin: Name, hashes: set<Octets>,
          order: seq<Octets>)
    requires mode.Nsec3Mode? && forall h :: h in order ==> h in hashes
    requires forall h :: h in order ==>
      Nsec3Owner(origin, h).Some? && Nsec3Entry(rrsets, mode, hashes, Nsec3Owner(origin, h).value, h)
    ensures FirstBadLink(rrsets, mode, origin, hashes, order) == None
  {
    if order != [] {
      var front, last := order[..|order| - 1], order[|order| - 1];
      assert last in order && forall h :: h in front ==> h in order;
      NoBadLink(rrsets, mode, origin, hashes, front);
    }
  }

  lemma DenialInAll(env: Env, req: Request, plan: Plan, chain: (map<Name, RR>, map<Octets, Name>), all: seq<RR>,
          n: Name)
    requires DenialChain(env, req, plan) == Ok(chain) && n in plan.names
    requires chain.0.Keys == plan.names && forall h :: h in chain.1 ==> chain.1[h] in plan.names
    requires all == AllRecords(req, plan, chain)
    ensures chain.0[n] in all
  {
    hide DenialChain, AllRecords;
    AllRecordsMembers(env, req, plan, chain);
  }

  lemma NsecEntryRebuilt(env: Env, req: Request, plan: Plan, chain: (map<Name, RR>, map<Octets, Name>), all: seq<RR>,
          z: SignedZone, n: Name)
    requires Prepare(env, req) == Ok(plan) && DenialChain(env, req, plan) == Ok(chain)
    requires chain.0.Keys == plan.names && forall h :: h in chain.1 ==> chain.1[h] in plan.names
    requires all == AllRecords(req, plan, chain) && ZoneFactsHold(env, req, all, z)
    requires req.mode.NsecMode? && n in plan.names
    ensures NsecEntry(z.rrsets, plan.names, n) && z.rrsets[(n, TYPE_NSEC)][0] == chain.0[n]
  {
    hide Prepare, DenialChain, AllRecords, SetFacts, TypeOf, NextAfter, SortedNames, TypesAt, DenialTtl, HashLabel;
    DenialChainFacts(env, req, plan, chain, n);
    DenialInAll(env, req, plan, chain, all, n);
    DenialSet(env, req, plan, chain, all, z, n, IsNsec);
  }

  lemma Nsec3EntryRebuilt(env: Env, req: Request, plan: Plan, chain: (map<Name, RR>, map<Octets, Name>), all: seq<RR>,
          z: SignedZone, n: Name)
    requires Prepare(env, req) == Ok(plan) && DenialChain(env, req, plan) == Ok(chain)
    requires chain.0.Keys == plan.names && forall h :: h in chain.1 ==> chain.1[h] in plan.names
    requires all == AllRecords(req, plan, chain) && ZoneFactsHold(env, req, all, z)
    requires DigestsProper(env, req.mode, plan.names)
    requires req.mode.Nsec3Mode? && n in plan.names
    ensures var h := HashOf(env, req.mode, n);
            && h in chain.1 && Nsec3Owner(req.origin, h) == Some(chain.0[n].name)
            && Nsec3Entry(z.rrsets, req.mode, chain.1.Keys, chain.0[n].name, h)
            && z.rrsets[(chain.0[n].name, TYPE_NSEC3)][0] == chain.0[n]
  {
    hide Prepare, DenialChain, AllRecords, SetFacts, TypeOf, NextAfter, SortedHashes, TypesAt, DenialTtl, HashLabel,
         Nsec3Bitmap, Nsec3Owner;
    DenialChainFacts(env, req, plan, chain, n);
    DenialInAll(env, req, plan, chain, all, n);
    DenialSet(env, req, plan, chain, all, z, n, IsNsec3);
    OwnerFits(env, req, plan, chain, n);
  }

  lemma OwnerFits(env: Env, req: Request, plan: Plan, chain: (map<Name, RR>, map<Octets, Name>), n: Name)
    requires DenialChain(env, req, plan) == Ok(chain) && req.mode.Nsec3Mode? && n in plan.names
    ensures Nsec3Owner(req.origin, HashOf(env, req.mode, n)) == Some(req.origin + [HashLabel(HashOf(env, req.mode, n))])
    ensures HashesDistinct(env, req.mode, plan.names) && chain.1 == HashIndex(env, req.mode, plan.names)
  {
    hide Nsec3At, HashLabel;
  }

  lemma RehydratedDenial(env: Env, req: Request)
    requires SignZone(env, req).Ok? && DigestsProper(env, req.mode, SignZone(env, req).value.names)
    ensures var z := SignZone(env, req).value;
            RebuiltDenial(env, z.origin, z.records, z.mode, z.names, z.rrsets) == Ok((z.denial, z.hashes))
  {
    hide SignZone, DenialChain, AllRecords, SortedKeys, Keyed, ZoneFactsHold, Flatten, Prepare, AllTyped, DigestsProper;
    var plan, chain, all := SignedZoneFacts(env, req);
    var z := SignZone(env, req).value;
    NoForeignLinks(env, req, plan, chain, all, z);
    if z.mode.NsecMode? {
      RehydratedNsec(env, req, plan, chain, all, z);
    } else {
      RehydratedNsec3(env, req, plan, chain, all, z);
    }
  }

  lemma NoForeignLinks(env: Env, req: Request, plan: Plan, chain: (map<Name, RR>, map<Octets, Name>), all: seq<RR>,
          z: SignedZone)
    requires Prepare(env, req) == Ok(plan) && DenialChain(env, req, plan) == Ok(chain)
    requires chain.0.Keys == plan.names && forall h :: h in chain.1 ==> chain.1[h] in plan.names
    requires all == AllRecords(req, plan, chain) && ZoneFactsHold(env, req, all, z)
    requires z.records == Flatten(z.rrsets, SortedKeys(z.rrsets.Keys))
    ensures req.mode.NsecMode? ==> forall r :: r in z.records ==> !IsNsec3(r)
    ensures req.mode.Nsec3Mode? ==> forall r :: r in z.records ==> !IsNsec(r)
  {
    hide Prepare, DenialChain, AllRecords, ZoneFactsHold, Flatten, SortedKeys, SignatureOver, TypeOf;
    AllRecordsTyped(env, req, plan, chain, all);
    forall r | r in z.records ensures NotSig(r) ==> r in all {
      var k := RecordOrigin(env, req, all, z, r);
    }
  }

  lemma RehydratedNsec(env: Env, req: Request, plan: Plan, chain: (map<Name, RR>, map<Octets, Name>), all: seq<RR>,
          z: SignedZone)
    requires Prepare(env, req) == Ok(plan) && DenialChain(env, req, plan) == Ok(chain)
    requires chain.0.Keys == plan.names && forall h :: h in chain.1 ==> chain.1[h] in plan.names
    requires all == AllRecords(req, plan, chain) && ZoneFactsHold(env, req, all, z) && req.mode.NsecMode?
    requires z.names == plan.names && z.denial == chain.0 && z.hashes == chain.1
    requires forall r :: r in z.records ==> !IsNsec3(r)
    ensures RebuiltDenial(env, z.origin, z.records, NsecMode, z.names, z.rrsets) == Ok((z.denial, z.hashes))
  {
    hide Prepare, DenialChain, AllRecords, ZoneFactsHold, NsecEntry;
    forall n | n in z.names
      ensures NsecEntry(z.rrsets, z.names, n) && (n, TYPE_NSEC) in z.rrsets && z.rrsets[(n, TYPE_NSEC)] != []
              && z.rrsets[(n, TYPE_NSEC)][0] == z.denial[n]
    {
      NsecEntryRebuilt(env, req, plan, chain, all, z, n);
      EntryParts(z.rrsets, z.names, n);
    }
    assert NsecDenial(z.names, z.rrsets) == z.denial;
    NsecHasNoHashes(env, req, plan, chain);
  }

  lemma EntryParts(rrsets: map<SetKey, seq<RR>>, names: set<Name>, n: Name)
    requires n in names && NsecEntry(rrsets, names, n)
    ensures (n, TYPE_NSEC) in rrsets && rrsets[(n, TYPE_NSEC)] != []
  {
  }

  lemma NsecHasNoHashes(env: Env, req: Request, plan: Plan, chain: (map<Name, RR>, map<Octets, Name>))
    requires DenialChain(env, req, plan) == Ok(chain) && req.mode.NsecMode?
    ensures chain.1 == map[]
  {
    hide NsecRecord;
  }

  lemma RehydratedNsec3(env: Env, req: Request, plan: Plan, chain: (map<Name, RR>, map<Octets, Name>), all: seq<RR>,
          z: SignedZone)
    requires Prepare(env, req) == Ok(plan) && DenialChain(env, req, plan) == Ok(chain)
    requires chain.0.Keys == plan.names && forall h :: h in chain.1 ==> chain.1[h] in plan.names
    requires all == AllRecords(req, plan, chain) && ZoneFactsHold(env, req, all, z) && req.mode.Nsec3Mode?
    requires DigestsProper(env, req.mode, plan.names)
    requires z.origin == req.origin && z.names == plan.names && z.denial == chain.0 && z.hashes == chain.1
    requires forall r :: r in z.records ==> !IsNsec(r)
    ensures RebuiltDenial(env, z.origin, z.records, req.mode, z.names, z.rrsets) == Ok((z.denial, z.hashes))
  {
    hide Prepare, DenialChain, AllRecords, ZoneFactsHold, Nsec3Owner, FirstBadLink, SortedHashes, HashesDistinct,
         Nsec3Entry, DigestsProper, HashIndex, Nsec3Denial;
    PlanNames(env, req);
    assert req.origin in plan.names;
    OwnerFits(env, req, plan, chain, req.origin);
    DenialMapRebuilt(env, req, plan, chain, all, z);
    var order := SortedHashes(z.hashes.Keys);
    forall h | h in order
      ensures Nsec3Owner(z.origin, h).Some?
      ensures Nsec3Entry(z.rrsets, req.mode, z.hashes.Keys, Nsec3Owner(z.origin, h).value, h)
    {
      HashIndexInverse(env, req, plan, chain, h);
      Nsec3EntryRebuilt(env, req, plan, chain, all, z, z.hashes[h]);
    }
    NoBadLink(z.rrsets, req.mode, z.origin, z.hashes.Keys, order);
  }

  lemma DenialMapRebuilt(env: Env, req: Request, plan: Plan, chain: (map<Name, RR>, map<Octets, Name>), all: seq<RR>,
          z: SignedZone)
    requires Prepare(env, req) == Ok(plan) && DenialChain(env, req, plan) == Ok(chain)
    requires chain.0.Keys == plan.names && forall h :: h in chain.1 ==> chain.1[h] in plan.names
    requires all == AllRecords(req, plan, chain) && ZoneFactsHold(env, req, all, z) && req.mode.Nsec3Mode?
    requires DigestsProper(env, req.mode, plan.names)
    requires z.origin == req.origin && z.names == plan.names && z.denial == chain.0
    ensures Nsec3Denial(env, z.origin, req.mode, z.names, z.rrsets) == z.denial
  {
    hide Prepare, DenialChain, AllRecords, ZoneFactsHold, Nsec3Owner, DigestsProper, SortedHashes, NextAfter;
    forall n | n in z.names ensures
      && Nsec3Key(env, z.origin, req.mode, n) == (z.denial[n].name, TYPE_NSEC3)
      && (z.denial[n].name, TYPE_NSEC3) in z.rrsets && z.rrsets[(z.denial[n].name, TYPE_NSEC3)] != []
      && z.rrsets[(z.denial[n].name, TYPE_NSEC3)][0] == z.denial[n]
    {
      Nsec3EntryRebuilt(env, req, plan, chain, all, z, n);
    }
  }

  // ----- The theorem -----

  lemma RehydratedTimes(env: Env, req: Request)
    requires SignZone(env, req).Ok?
    ensures var z := SignZone(env, req).value;
            var sigs := Filter(IsSig, z.records);
            && (forall s :: s in sigs ==> s.rdata.Rrsig?)
            && Latest(Inceptions(sigs)) == Some(z.inception) && Earliest(Expirations(sigs)) == Some(z.expiration)
  {
    hide SignZone, DenialChain, AllRecords, SortedKeys, Keyed, ZoneFactsHold, Flatten, Prepare, Latest, Earliest,
         AllTyped;
    var plan, chain, all := SignedZoneFacts(env, req);
    var z := SignZone(env, req).value;
    var sigs := Filter(IsSig, z.records);
    FilterMembers(IsSig, z.records);
    forall s | s in sigs
      ensures s.rdata.Rrsig? && s.rdata.sig.inception == z.inception && s.rdata.sig.expiration == z.expiration
    {
      var k := RecordOrigin(env, req, all, z, s);
    }
    AllRecordsTyped(env, req, plan, chain, all);
    ApexKeys(env, req, plan, chain, all);
    PlanNames(env, req);
    var sig := ApexSigned(env, req, all, z);
    assert sig in sigs;
    SameTimes(sigs, z.inception, z.expiration);
  }

  lemma SameTimes(sigs: seq<RR>, inception: int, expiration: int)
    requires sigs != []
    requires forall s :: s in sigs ==>
               s.rdata.Rrsig? && s.rdata.sig.inception == inception && s.rdata.sig.expiration == expiration
    ensures Latest(Inceptions(sigs)) == Some(inception) && Earliest(Expirations(sigs)) == Some(expiration)
  {
    hide Latest, Earliest;
    var i, e := Inceptions(sigs), Expirations(sigs);
    assert forall k :: 0 <= k < |sigs| ==> sigs[k] in sigs;
    FoldConstant(i, inception);
    FoldConstant(e, expiration);
  }

  lemma ApexSigned(env: Env, req: Request, all: seq<RR>, z: SignedZone) returns (sig: RR)
    requires ZoneFactsHold(env, req, all, z) && z.records == Flatten(z.rrsets, SortedKeys(z.rrsets.Keys))
    requires (z.origin, TYPE_SOA) in z.rrsets && !Occluded(z.cuts, z.origin)
    ensures sig in z.records && IsSig(sig)
  {
    hide SortedKeys, Flatten, SetFacts, LeftUnsigned;
    var k := (z.origin, TYPE_SOA);
    FlattenMembers(z.rrsets, SortedKeys(z.rrsets.Keys));
    assert SetFacts(env, req, z.cuts, all, k, z.rrsets[k]);
    sig := SignatureIn(env, req, z.cuts, all, k, z.rrsets[k]);
  }

  lemma SignatureIn(env: Env, req: Request, cuts: set<Name>, all: seq<RR>, k: SetKey, s: seq<RR>) returns (sig: RR)
    requires SetFacts(env, req, cuts, all, k, s) && k.1 == TYPE_SOA && !Occluded(cuts, k.0)
    ensures sig in s && IsSig(sig)
  {
    hide SignatureOver, KeyedSet, Distinct, Occluded, Filter, Select;
    sig :| sig in s && IsSig(sig);
  }

  /** Rehydrating the records of a signed zone gives back that zone, so both
      resolve every query alike. The one exception, and exactly it, is a zone
      in which a CNAME is published at the owner name of an NSEC3 record. */
  lemma RehydrationInvertsSigning(env: Env, req: Request)
    requires SignZone(env, req).Ok? && DigestsProper(env, req.mode, SignZone(env, req).value.names)
    ensures var z := SignZone(env, req).value;
            Rehydrate(env, z.origin, z.records)
            == if CnameAtNsec3Owner(z.rrsets.Keys) then Err(InvalidZone) else Ok(z)
  {
    hide SignZone, Flatten, SortedKeys, DenialChain, Prepare, ZoneFactsHold, AllRecords, RecordsStored, RebuiltDenial,
         ModeOf, Cuts, ExistingNames, SetsAccepted, CnameAtNsec3Owner, Rebuilt, Latest, Earliest, Attachable,
         SignatureAllowed, SerialOf, DigestsProper;
    var plan, chain, all := SignedZoneFacts(env, req);
    var z := SignZone(env, req).value;
    StoredRecords(env, req);
    RehydratedMode(env, req);
    RehydratedCuts(env, req);
    RehydratedSignatures(env, req);
    RebuiltIsOriginal(z.rrsets);
    RehydratedSets(env, req);
    RehydratedNames(env, req);
    RehydratedDenial(env, req);
    RehydratedTimes(env, req);
  }
}
