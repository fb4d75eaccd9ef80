/** What signing accepts and what it publishes, stated on the request alone:
    `sign_with_keysets` in crates/adns-dnssec/src/zone.rs. */
module ZoneContents {
  import opened Basics
  import opened Order
  import opened Seqs
  import opened Sorting
  import opened Names
  import opened Base32
  import opened Denial
  import opened Records
  import opened Zone
  import opened ZoneFacts
  import opened SignatureProofs
  import opened CanonicalOrder

  // ----- What is accepted -----

  /** An input record that signing keeps; what it generates itself is dropped. */
  ghost predicate Retains(req: Request, r: RR) {
    r in req.records && r.rtype != 48 && r.rtype != 46 && r.rtype != 47 && r.rtype != 50 && r.rtype != 51
  }

  /** A delegation: NS records below the apex. */
  ghost predicate IsCut(req: Request, c: Name) {
    exists r :: Retains(req, r) && r.rtype == 2 && r.name == c && c != req.origin
  }

  /** The record is not strictly below a delegation. */
  ghost predicate Visible(req: Request, n: Name) { forall c :: IsCut(req, c) ==> !(c < n) }

  ghost predicate SoaAtApex(req: Request, i: int) {
    && 0 <= i < |req.records| && req.records[i].rtype == 6 && req.records[i].name == req.origin
    && req.records[i].rdata.Soa? && forall j :: 0 <= j < |req.records| && req.records[j].rtype == 6 ==> j == i
  }

  /** Every record is of the zone, of class IN and of its data's type, which is no
      pseudo type; there is exactly one SOA and at least one NS record at the apex. */
  ghost predicate RecordsProper(req: Request) {
    && (forall r :: Retains(req, r) ==>
          && r.rclass == 1 && req.origin <= r.name && TypeOf(r.rdata) == Some(r.rtype)
          && r.rtype !in {41, 250, 251, 252, 255})
    && (exists i :: SoaAtApex(req, i))
    && (exists r :: Retains(req, r) && r.name == req.origin && r.rtype == 2)
  }

  /** Below the delegation the record is an address of a name server it names. */
  ghost predicate GlueFor(req: Request, c: Name, r: RR) {
    && (r.rtype == 1 || r.rtype == 28)
    && exists s :: Retains(req, s) && s.name == c && s.rtype == 2 && s.rdata == Ns(r.name)
  }

  /** No delegation lies below another, and below one there is nothing but addresses
      of the name servers it names. */
  ghost predicate DelegationsProper(req: Request) {
    && (forall c, d :: IsCut(req, c) && IsCut(req, d) ==> !(c < d))
    && (forall c, r :: IsCut(req, c) && Retains(req, r) && c < r.name ==> GlueFor(req, c, r))
  }

  /** A visible alias has no company and is not at the apex. */
  ghost predicate AliasesProper(req: Request) {
    forall r :: Retains(req, r) && r.rtype == 5 && Visible(req, r.name) ==>
      r.name != req.origin && forall s :: Retains(req, s) && s.name == r.name ==> s.rtype == 5
  }

  lemma KeptAre(req: Request)
    ensures forall r :: r in Filter(NotGenerated, req.records) <==> Retains(req, r)
  {
    FilterMembers(NotGenerated, req.records);
  }

  lemma CutsAre(req: Request)
    ensures forall c :: c in Cuts(Filter(NotGenerated, req.records), req.origin) <==> IsCut(req, c)
    ensures forall n :: Occluded(Cuts(Filter(NotGenerated, req.records), req.origin), n) <==> !Visible(req, n)
  {
    hide Filter, Retains;
    KeptAre(req);
    var cuts := Cuts(Filter(NotGenerated, req.records), req.origin);
    forall n ensures Occluded(cuts, n) <==> !Visible(req, n) {
      if Occluded(cuts, n) {
        var c :| c in cuts && StrictlyBelow(n, c);
        assert IsCut(req, c) && c < n;
      }
      if !Visible(req, n) {
        var c :| IsCut(req, c) && c < n;
        assert c in cuts && StrictlyBelow(n, c);
      }
    }
  }

  lemma SoasAre(records: seq<RR>)
    ensures Filter(IsSoa, Filter(NotGenerated, records)) == Filter(IsSoa, records)
  {
    FilterTwice(IsSoa, NotGenerated, IsSoa, records);
  }

  lemma AdmittedIff(req: Request)
    ensures Admitted(Filter(NotGenerated, req.records), req.origin) <==> RecordsProper(req) && DelegationsProper(req)
  {
    hide Retains, IsCut, Cuts, CutAccepted, DelegationsProper;
    var kept := Filter(NotGenerated, req.records);
    KeptAre(req);
    CutsAre(req);
    SoasAre(req.records);
    if |Filter(IsSoa, req.records)| == 1 {
      var i := FilterOne(IsSoa, req.records);
      assert SoaAtApex(req, i) <==> req.records[i].name == req.origin && req.records[i].rdata.Soa?;
    }
    if i :| SoaAtApex(req, i) {
      FilterOnly(IsSoa, req.records, i);
    }
    if DelegationsProper(req) {
      forall c | c in Cuts(kept, req.origin) ensures CutAccepted(kept, Cuts(kept, req.origin), c) {
        ProperIsAccepted(req, c);
      }
    }
    if Admitted(kept, req.origin) {
      AcceptedIsProper(req, kept, Cuts(kept, req.origin));
    }
  }

  lemma GlueIff(req: Request, c: Name, r: RR)
    ensures IsGlue(Filter(NotGenerated, req.records), c, r) <==> GlueFor(req, c, r)
  {
    hide Filter, Retains;
    var kept := Filter(NotGenerated, req.records);
    KeptAre(req);
    if s :| s in kept && s.name == c && s.rtype == TYPE_NS && s.rdata == Ns(r.name) {
      assert Retains(req, s);
    }
    if s :| Retains(req, s) && s.name == c && s.rtype == 2 && s.rdata == Ns(r.name) {
      assert s in kept;
    }
  }

  lemma ProperIsAccepted(req: Request, c: Name)
    requires DelegationsProper(req) && IsCut(req, c)
    ensures var kept := Filter(NotGenerated, req.records); CutAccepted(kept, Cuts(kept, req.origin), c)
  {
    hide Filter, Retains, IsCut, Cuts, IsGlue, GlueFor;
    var kept := Filter(NotGenerated, req.records);
    var cuts := Cuts(kept, req.origin);
    KeptAre(req);
    CutsAre(req);
    forall p | p in cuts ensures !StrictlyBelow(c, p) {
      assert !(p < c);
    }
    forall r | r in kept && StrictlyBelow(r.name, c) ensures IsGlue(kept, c, r) {
      assert Retains(req, r) && c < r.name;
      GlueIff(req, c, r);
    }
  }

  lemma AcceptedIsProper(req: Request, kept: seq<RR>, cuts: set<Name>)
    requires kept == Filter(NotGenerated, req.records) && cuts == Cuts(kept, req.origin)
    requires forall c :: c in cuts ==> CutAccepted(kept, cuts, c)
    ensures DelegationsProper(req)
  {
    hide Retains, IsCut, Cuts, IsGlue, GlueFor;
    KeptAre(req);
    CutsAre(req);
    forall c, d | IsCut(req, c) && IsCut(req, d) ensures !(c < d) {
      assert CutAccepted(kept, cuts, d) && !StrictlyBelow(d, c);
    }
    forall c, r | IsCut(req, c) && Retains(req, r) && c < r.name ensures GlueFor(req, c, r) {
      assert CutAccepted(kept, cuts, c) && StrictlyBelow(r.name, c);
      GlueIff(req, c, r);
    }
  }

  /** The apex records that are generated: DNSKEY always, NSEC3PARAM with NSEC3. */
  lemma {:induction false} KeyRecordsAre(env: Env, origin: Name, ttl: int, ksks: seq<Key>)
    ensures forall r :: r in KeyRecords(env, origin, ttl, ksks)
                        <==> exists k :: k in ksks && r == RR(origin, 1, 48, ttl, Dnskey(257, 3, 14, env.publicKey(k)))
  {
    if ksks != [] {
      var front, last := ksks[..|ksks| - 1], ksks[|ksks| - 1];
      assert ksks == front + [last];
      KeyRecordsAre(env, origin, ttl, front);
      forall r ensures r in KeyRecords(env, origin, ttl, ksks)
                       <==> exists k :: k in ksks && r == RR(origin, 1, 48, ttl, Dnskey(257, 3, 14, env.publicKey(k)))
      {
        if r in KeyRecords(env, origin, ttl, front) {
          var k :| k in front && r == RR(origin, 1, 48, ttl, Dnskey(257, 3, 14, env.publicKey(k)));
          assert k in ksks;
        } else if r == KeyRecord(env, origin, ttl, last, 257) {
          assert last in ksks;
        }
      }
    }
  }

  /** A record signing adds at the apex: each key-signing key with flags 257, the
      zone-signing key with flags 256 unless its point is the first key-signing key's,
      both with the SOA's TTL, and the NSEC3 parameters with TTL 0. */
  ghost predicate Generated(env: Env, req: Request, ttl: int, r: RR) {
    || (exists k :: k in req.ksks && r == RR(req.origin, 1, 48, ttl, Dnskey(257, 3, 14, env.publicKey(k))))
    || (&& req.ksks != [] && env.publicKey(req.ksks[0]) != env.publicKey(req.zsk)
        && r == RR(req.origin, 1, 48, ttl, Dnskey(256, 3, 14, env.publicKey(req.zsk))))
    || (&& req.mode.Nsec3Mode? && r == RR(req.origin, 1, 51, 0, Nsec3Param(1, 0, req.mode.iterations, req.mode.salt)))
  }

  lemma PublishedAre(env: Env, req: Request, kept: seq<RR>, ttl: int)
    requires req.ksks != []
    ensures forall r :: r in Publish(env, req, kept, ttl) <==> r in kept || Generated(env, req, ttl, r)
  {
    hide KeyRecords;
    KeyRecordsAre(env, req.origin, ttl, req.ksks);
  }

  lemma AliasesIff(env: Env, req: Request, ttl: int)
    requires req.ksks != [] && RecordsProper(req)
    ensures var kept := Filter(NotGenerated, req.records);
            CnameConflict(Publish(env, req, kept, ttl), Cuts(kept, req.origin), req.origin) <==> !AliasesProper(req)
  {
    hide Filter, Retains, IsCut, Cuts, Publish, Occluded, Visible, Generated;
    var kept := Filter(NotGenerated, req.records);
    var published, cuts := Publish(env, req, kept, ttl), Cuts(kept, req.origin);
    KeptAre(req);
    CutsAre(req);
    PublishedAre(env, req, kept, ttl);
    GeneratedAtApex(env, req, ttl);
    forall r | Retains(req, r) && r.rtype == 5 && Visible(req, r.name)
      ensures TypesAt(published, cuts, r.name) != {TYPE_CNAME} || r.name == req.origin
              <==> r.name == req.origin || exists s :: Retains(req, s) && s.name == r.name && s.rtype != 5
    {
      if s :| Retains(req, s) && s.name == r.name && s.rtype != 5 {
        assert s in published && s.rtype in TypesAt(published, cuts, r.name);
      }
      assert r in published && TYPE_CNAME in TypesAt(published, cuts, r.name);
      if r.name != req.origin && TypesAt(published, cuts, r.name) != {TYPE_CNAME} {
        var t :| t in TypesAt(published, cuts, r.name) && t != TYPE_CNAME;
        var s :| s in published && s.name == r.name && s.rtype == t;
        assert Retains(req, s);
      }
    }
  }

  lemma GeneratedAtApex(env: Env, req: Request, ttl: int)
    ensures forall r :: Generated(env, req, ttl, r) ==> r.name == req.origin && (r.rtype == 48 || r.rtype == 51)
  {
  }

  /** Exactly which requests can be planned: one to four key-signing keys, proper
      records, delegations and aliases, and bounded NSEC3 parameters. */
  lemma PlannedIff(env: Env, req: Request)
    ensures Prepare(env, req).Ok?
            <==> && 1 <= |req.ksks| <= 4 && RecordsProper(req) && DelegationsProper(req) && AliasesProper(req)
                 && (req.mode.Nsec3Mode? ==> req.mode.iterations <= 250 && |req.mode.salt| <= 255)
  {
    hide RecordsProper, DelegationsProper, AliasesProper, CnameConflict, Publish, Cuts, ExistingNames;
    AdmittedIff(req);
    if 1 <= |req.ksks| <= 4 && RecordsProper(req) && Admitted(Filter(NotGenerated, req.records), req.origin) {
      AliasesIff(env, req, Filter(IsSoa, Filter(NotGenerated, req.records))[0].ttl);
    }
  }

  /** Exactly when the chain can be built: with NSEC3 no two names share a hash and
      every hashed owner fits 255 octets. */
  lemma ChainedIff(env: Env, req: Request, plan: Plan)
    ensures DenialChain(env, req, plan).Ok?
            <==> (req.mode.Nsec3Mode? ==>
                    && (forall a, b ::
                          a in plan.names && b in plan.names && HashOf(env, req.mode, a) == HashOf(env, req.mode, b) ==>
                            a == b)
                    && (forall n :: n in plan.names ==>
                          WireLength(req.origin) + 1 + |HashLabel(HashOf(env, req.mode, n))| <= 255))
  {
    hide SortedNames, SortedHashes, HashLabel;
  }

  // ----- What is published -----

  lemma PlanIs(env: Env, req: Request, plan: Plan) returns (soa: int)
    requires Prepare(env, req) == Ok(plan)
    ensures 0 <= soa < |req.records| && SoaAtApex(req, soa) && plan.soa == req.records[soa]
    ensures forall r :: r in plan.published <==> Retains(req, r) || Generated(env, req, plan.soa.ttl, r)
    ensures forall c :: c in plan.cuts <==> IsCut(req, c)
    ensures forall n :: Occluded(plan.cuts, n) <==> !Visible(req, n)
  {
    hide Retains, Generated, IsCut, Cuts, Publish, Occluded, Visible, CnameConflict, ExistingNames;
    AdmittedIff(req);
    KeptAre(req);
    CutsAre(req);
    SoasAre(req.records);
    soa :| SoaAtApex(req, soa);
    FilterOnly(IsSoa, req.records, soa);
    PublishedAre(env, req, Filter(NotGenerated, req.records), plan.soa.ttl);
  }

  /** The signed zone has the request's origin and mode, the SOA's serial, a window
      from five minutes ago to the end of the validity, the request's delegations,
      and as names the visible owners with their ancestors up to the apex. */
  lemma SignedFrameIs(env: Env, req: Request)
    requires SignZone(env, req).Ok?
    ensures var z := SignZone(env, req).value;
            && z.origin == req.origin && z.mode == req.mode
            && (exists i :: SoaAtApex(req, i) && z.serial == req.records[i].rdata.serial)
            && z.inception == (req.now - 300) % 0x1_0000_0000
            && z.expiration == (req.now + req.validity) % 0x1_0000_0000
            && (forall c :: c in z.cuts <==> IsCut(req, c))
            && (forall n :: n in z.names <==> exists r :: OwnerUnder(req, n, r))
  {
    hide SignZone, Prepare, DenialChain, AllRecords, IsCut, OwnerUnder, SoaAtApex, Visible, Retains, Generated,
         Occluded;
    var plan, chain, all := SignedParts(env, req);
    var i := PlanIs(env, req, plan);
    PlanExists(env, req);
    forall n ensures n in plan.names <==> exists r :: OwnerUnder(req, n, r) {
      NameExistsIff(env, req, plan, n);
    }
  }

  /** The name is at or above a visible record's owner, and not above the apex. */
  ghost predicate OwnerUnder(req: Request, n: Name, r: RR) {
    Retains(req, r) && Visible(req, r.name) && req.origin <= n && n <= r.name
  }

  lemma NameExistsIff(env: Env, req: Request, plan: Plan, n: Name)
    requires Prepare(env, req) == Ok(plan) && plan.names == ExistingNames(plan.published, plan.cuts, req.origin)
    ensures n in plan.names <==> exists r :: OwnerUnder(req, n, r)
  {
    hide Prepare, ExistingNames, Visible, Retains, Generated, Occluded, SoaAtApex;
    var i := PlanIs(env, req, plan);
    PlanFacts(env, req);
    ExistsIffSupported(plan.published, plan.cuts, req.origin, n);
    GeneratedAtApex(env, req, plan.soa.ttl);
    assert Retains(req, plan.soa) by { SoaIsRetained(req, i); }
    if r :| Supports(plan.published, plan.cuts, req.origin, n, r) {
      assert req.origin <= r.name && req.origin == r.name[..|req.origin|] && n == r.name[..|n|];
      assert req.origin <= n;
      if Retains(req, r) {
        assert OwnerUnder(req, n, r);
      } else {
        assert r.name == req.origin && n == req.origin && plan.soa.name == req.origin;
        assert OwnerUnder(req, n, plan.soa);
      }
    }
    if r :| OwnerUnder(req, n, r) {
      assert Supports(plan.published, plan.cuts, req.origin, n, r);
    }
  }

  lemma SoaIsRetained(req: Request, i: int)
    requires SoaAtApex(req, i)
    ensures Retains(req, req.records[i])
  {
  }

  /** Same owner, class, type, TTL and wire form. */
  ghost predicate SameOnWire(env: Env, a: RR, b: RR) {
    a.name == b.name && a.rclass == b.rclass && a.rtype == b.rtype && a.ttl == b.ttl
    && env.wire(a.rdata) == env.wire(b.rdata)
  }

  lemma {:induction false} PairsAre(env: Env, rrset: seq<RR>)
    requires WirePairs(env, rrset).Ok?
    ensures forall p :: p in WirePairs(env, rrset).value ==> p.1 in rrset && env.wire(p.1.rdata) == Some(p.0)
    ensures forall r :: r in rrset ==>
              env.wire(r.rdata).Some? && (env.wire(r.rdata).value, r) in WirePairs(env, rrset).value
  {
    if rrset != [] {
      PairsAre(env, rrset[..|rrset| - 1]);
      assert rrset == rrset[..|rrset| - 1] + [rrset[|rrset| - 1]];
    }
  }

  ghost predicate HasWire(env: Env, s: seq<RR>, w: Octets) { exists x :: x in s && env.wire(x.rdata) == Some(w) }

  /** Distinct wire forms, in ascending order. */
  ghost predicate WiresAscend(env: Env, s: seq<RR>) {
    && (forall i :: 0 <= i < |s| ==> env.wire(s[i].rdata).Some?)
    && (forall i, j :: 0 <= i < j < |s| ==> Ascends(env.wire(s[i].rdata).value, env.wire(s[j].rdata).value))
  }

  lemma SortedPairs(env: Env, rrset: seq<RR>, pairs: seq<(Octets, RR)>, s: seq<RR>)
    requires WirePairs(env, rrset) == Ok(pairs) && s == Seconds(SortDedup(OctetsLess, PairWire, pairs))
    ensures forall r :: r in rrset ==> env.wire(r.rdata).Some? && HasWire(env, s, env.wire(r.rdata).value)
    ensures WiresAscend(env, s)
  {
    hide Ascends, OctetsLess, SortDedup, WirePairs;
    PairsAre(env, rrset);
    OctetsOrder();
    SortDedupFacts(OctetsLess, PairWire, pairs);
    var sorted := SortDedup(OctetsLess, PairWire, pairs);
    forall i | 0 <= i < |s| ensures env.wire(s[i].rdata) == Some(sorted[i].0) {
      assert sorted[i] in pairs;
    }
    forall r | r in rrset ensures HasWire(env, s, env.wire(r.rdata).value) {
      var p := (env.wire(r.rdata).value, r);
      assert HasKey(PairWire, sorted, PairWire(p));
      var i :| 0 <= i < |sorted| && PairWire(sorted[i]) == p.0;
      assert s[i] in s;
    }
    forall i, j | 0 <= i < j < |s| ensures Ascends(env.wire(s[i].rdata).value, env.wire(s[j].rdata).value) {
      assert OctetsLess(PairWire(sorted[i]), PairWire(sorted[j]));
      OctetsAscend(sorted[i].0, sorted[j].0);
    }
  }

  /** The canonical set keeps one record of each wire form, in ascending order. */
  lemma CanonicalSetIs(env: Env, rtype: RType, rrset: seq<RR>)
    requires CanonicalSet(env, rtype, rrset).Ok?
    ensures var s := CanonicalSet(env, rtype, rrset).value;
            && (forall r :: r in rrset ==> env.wire(r.rdata).Some? && HasWire(env, s, env.wire(r.rdata).value))
            && WiresAscend(env, s)
            && (forall a, b :: a in rrset && b in rrset ==> a.ttl == b.ttl)
  {
    hide HasWire, WiresAscend, SortDedup, WirePairs;
    SortedPairs(env, rrset, WirePairs(env, rrset).value, CanonicalSet(env, rtype, rrset).value);
  }

  /** The data of an RRset, without its signatures. */
  ghost predicate DataOf(z: SignedZone, k: SetKey, r: RR) { k in z.rrsets && r in z.rrsets[k] && r.rtype != 46 }

  /** The signed zone publishes what the request retains and what signing generates,
      up to records equal on the wire, and besides its denial records nothing else. */
  lemma SignedDataAre(env: Env, req: Request, r: RR)
    requires SignZone(env, req).Ok?
    ensures var z := SignZone(env, req).value;
            exists i :: && SoaAtApex(req, i)
                        && var ttl := req.records[i].ttl;
                           && (DataOf(z, (r.name, r.rtype), r) ==>
                                 || Retains(req, r) || Generated(env, req, ttl, r)
                                 || exists n :: n in z.denial && r == z.denial[n])
                           && (|| Retains(req, r) || Generated(env, req, ttl, r)
                               || (exists n :: n in z.denial && r == z.denial[n])
                               ==> exists x :: DataOf(z, (r.name, r.rtype), x) && SameOnWire(env, x, r))
  {
    hide SignZone, Prepare, DenialChain, AllRecords, SoaAtApex, Retains, Generated, SignedSet, Select, CanonicalSet,
         Signatures, SetKeys, Flatten, SortedKeys;
    var z := SignZone(env, req).value;
    var plan, chain, all := SignedParts(env, req);
    var i := PlanIs(env, req, plan);
    AllRecordsMembers(env, req, plan, chain);
    var k := (r.name, r.rtype);
    if k in z.rrsets {
      GroupIs(env, req, plan, chain, all, k, r);
    }
    if r in all {
      assert k in z.rrsets by { KeyPresent(all, r); }
      GroupIs(env, req, plan, chain, all, k, r);
    }
  }

  lemma KeyPresent(all: seq<RR>, r: RR)
    requires r in all
    ensures (r.name, r.rtype) in SetKeys(all)
  {
    assert KeyOf(r) in SetKeys(all);
  }

  /** The RRset signing makes of a key: canonical data, then signatures. */
  lemma SetIs(env: Env, req: Request, plan: Plan, chain: (map<Name, RR>, map<Octets, Name>), all: seq<RR>, k: SetKey)
    returns (data: seq<RR>, sigs: seq<RR>)
    requires SignZone(env, req).Ok? && Prepare(env, req) == Ok(plan) && DenialChain(env, req, plan) == Ok(chain)
    requires chain.0.Keys == plan.names && (forall h :: h in chain.1 ==> chain.1[h] in plan.names) && req.ksks != []
    requires all == AllRecords(req, plan, chain) && k in SetKeys(all)
    requires SignedSet(env, req, plan.cuts, k, Select(all, k)).Ok?
    ensures CanonicalSet(env, k.1, Select(all, k)) == Ok(data)
    ensures SignedSet(env, req, plan.cuts, k, Select(all, k)) == Ok(data + sigs)
    ensures forall r :: r in data ==> r in all && KeyOf(r) == k && r.rtype != 46
    ensures forall r :: r in sigs ==> r.rtype == 46
  {
    hide SignZone, Prepare, DenialChain, AllRecords, SignedSet, Select, CanonicalSet, Signatures, SetKeys, SignedBy;
    var group := Select(all, k);
    SelectMembers(all, k);
    SignedGroup(env, req, plan, chain, all, k);
    SignedSetParts(env, req, plan.cuts, k, group);
    data := CanonicalSet(env, k.1, group).value;
    CanonicalSetMembers(env, k.1, group);
    assert data[0] in data;
    SignaturesShape(env, req, plan.cuts, k, data);
    sigs := Signatures(env, req, plan.cuts, k, data).value;
    forall s | s in sigs ensures s.rtype == 46 { SignedIsSig(env, req, k, data, s); }
  }

  lemma GroupIs(env: Env, req: Request, plan: Plan, chain: (map<Name, RR>, map<Octets, Name>), all: seq<RR>, k: SetKey,
          r: RR)
    requires SignZone(env, req).Ok? && Prepare(env, req) == Ok(plan) && DenialChain(env, req, plan) == Ok(chain)
    requires chain.0.Keys == plan.names && (forall h :: h in chain.1 ==> chain.1[h] in plan.names) && req.ksks != []
    requires all == AllRecords(req, plan, chain) && k in SetKeys(all) && k in SignZone(env, req).value.rrsets
    requires SignedSet(env, req, plan.cuts, k, Select(all, k)) == Ok(SignZone(env, req).value.rrsets[k])
    requires k == (r.name, r.rtype)
    ensures DataOf(SignZone(env, req).value, k, r) ==> r in all
    ensures r in all ==> exists x :: DataOf(SignZone(env, req).value, k, x) && SameOnWire(env, x, r)
  {
    hide SignZone, Prepare, DenialChain, AllRecords, SignedSet, Select, CanonicalSet, SetKeys, WiresAscend;
    var data, sigs := SetIs(env, req, plan, chain, all, k);
    if r in all {
      SelectMembers(all, k);
      CanonicalSetIs(env, k.1, Select(all, k));
      assert r in Select(all, k);
      var x :| x in data && env.wire(x.rdata) == env.wire(r.rdata);
      assert x in Select(all, k);
      AllInClass(env, req, plan, chain, x);
      AllInClass(env, req, plan, chain, r);
      assert DataOf(SignZone(env, req).value, k, x) && SameOnWire(env, x, r);
    }
  }

  lemma AllInClass(env: Env, req: Request, plan: Plan, chain: (map<Name, RR>, map<Octets, Name>), r: RR)
    requires Prepare(env, req) == Ok(plan) && DenialChain(env, req, plan) == Ok(chain)
    requires chain.0.Keys == plan.names && forall h :: h in chain.1 ==> chain.1[h] in plan.names
    requires r in AllRecords(req, plan, chain)
    ensures r.rclass == 1
  {
    hide Prepare, DenialChain, AllRecords;
    AllRecordsMembers(env, req, plan, chain);
    PlanFacts(env, req);
    if n :| n in plan.names && r == chain.0[n] {
      ChainInClass(env, req, plan, chain, n);
    }
  }

  lemma ChainInClass(env: Env, req: Request, plan: Plan, chain: (map<Name, RR>, map<Octets, Name>), n: Name)
    requires DenialChain(env, req, plan) == Ok(chain) && n in plan.names && chain.0.Keys == plan.names
    ensures chain.0[n].rclass == 1 && chain.0[n].ttl == DenialTtl(plan.soa)
  {
    hide DenialChain, SortedHashes, SortedNames, HashLabel, TypeOf, TypesAt, Nsec3Bitmap, DenialTtl;
    DenialChainFacts(env, req, plan, chain, n);
  }

  /** Every RRset of the signed zone holds distinct data in ascending order of the
      wire form, followed by its signatures. */
  lemma SignedSetsAscend(env: Env, req: Request, k: SetKey) returns (data: seq<RR>, sigs: seq<RR>)
    requires SignZone(env, req).Ok? && k in SignZone(env, req).value.rrsets
    ensures SignZone(env, req).value.rrsets[k] == data + sigs && WiresAscend(env, data)
    ensures forall r :: r in data ==> (r.name, r.rtype) == k && r.rtype != 46
    ensures forall r :: r in sigs ==> r.rtype == 46
  {
    hide SignZone, Prepare, DenialChain, AllRecords, SignedSet, Select, CanonicalSet, SetKeys, WiresAscend, HasWire;
    var plan, chain, all := SignedParts(env, req);
    data, sigs := SetIs(env, req, plan, chain, all, k);
    CanonicalSetIs(env, k.1, Select(all, k));
  }

  /** `next` follows `x` among `s`: nothing lies between, or `x` is the last and `next` the first. */
  ghost predicate NextName(s: set<Name>, x: Name, next: Name) {
    && next in s
    && if NameAscends(x, next) then forall m :: m in s ==> !(NameAscends(x, m) && NameAscends(m, next))
       else forall m :: m in s ==> !NameAscends(x, m) && !NameAscends(m, next)
  }

  ghost predicate NextHash(s: set<Octets>, x: Octets, next: Octets) {
    && next in s
    && if Ascends(x, next) then forall m :: m in s ==> !(Ascends(x, m) && Ascends(m, next))
       else forall m :: m in s ==> !Ascends(x, m) && !Ascends(m, next)
  }

  lemma NextNameIs(names: set<Name>, n: Name)
    requires n in names
    ensures NextName(names, n, NextAfter(SortedNames(names), n))
  {
    hide NameLess, NameAscends;
    var s := SortedNames(names);
    NameOrder();
    forall a, b ensures NameLess(a, b) <==> NameAscends(a, b) { NamesAscend(a, b); }
    NextIs(NameLess, s, n);
  }

  lemma NextHashIs(hashes: set<Octets>, h: Octets)
    requires h in hashes
    ensures NextHash(hashes, h, NextAfter(SortedHashes(hashes), h))
  {
    hide OctetsLess, Ascends;
    var s := SortedHashes(hashes);
    OctetsOrder();
    forall a, b ensures OctetsLess(a, b) <==> Ascends(a, b) { OctetsAscend(a, b); }
    NextIs(OctetsLess, s, h);
  }

  /** The denial record of every name: class IN, the smaller of the SOA's TTL and
      minimum, linked to the name or hash that follows, with what the mode says. */
  lemma DenialRecordIs(env: Env, req: Request, n: Name) returns (soa: int)
    requires SignZone(env, req).Ok? && n in SignZone(env, req).value.names
    ensures n in SignZone(env, req).value.denial
    ensures 0 <= soa < |req.records| && SoaAtApex(req, soa) && req.records[soa].rdata.Soa?
    ensures var z, r := SignZone(env, req).value, SignZone(env, req).value.denial[n];
            && r.rclass == 1 && r.ttl == Lower(req.records[soa].ttl, req.records[soa].rdata.minimum)
            && match req.mode
               case NsecMode => r.name == n && r.rtype == 47 && r.rdata.Nsec? && NextName(z.names, n, r.rdata.nextName)
               case Nsec3Mode(iterations, salt) =>
                 var h := env.digest(n, iterations, salt);
                 && h in z.hashes && z.hashes[h] == n && r.name == req.origin + [HashLabel(h)] && r.rtype == 50
                 && r.rdata.Nsec3? && r.rdata.hashAlgorithm == 1 && r.rdata.flags == 0
                 && r.rdata.iterations == iterations && r.rdata.salt == salt
                 && NextHash(z.hashes.Keys, h, r.rdata.nextHash)
  {
    hide SignZone, Prepare, DenialChain, AllRecords, SortedNames, SortedHashes, NextAfter, HashLabel, TypesAt, NextName,
         NextHash, Nsec3Bitmap, TypeOf, SetKeys, Select, Flatten;
    var plan, chain, all := SignedParts(env, req);
    soa := PlanIs(env, req, plan);
    DenialChainFacts(env, req, plan, chain, n);
    if req.mode.NsecMode? {
      NextNameIs(plan.names, n);
    } else {
      NextHashIs(chain.1.Keys, HashOf(env, req.mode, n));
    }
  }

  function Lower(a: int, b: int): (m: int)
    ensures m <= a && m <= b && (m == a || m == b)
  {
    if b < a then b else a
  }
}
