/** Small zones that reach the exceptional cases of rehydration and of NODATA proofs. */
module ZoneExamples {
  import opened Basics
  import opened Seqs
  import opened Names
  import opened Base32
  import opened Records
  import opened Zone
  import opened ZoneFacts
  import opened SigningProgress
  import opened Resolver
  import opened Answers
  import opened Queries
  import opened ResolveProofs
  import opened Rehydration
  import opened RehydrationProofs

  const TTL := 3600

  function SoaOf(origin: Name): RR { RR(origin, CLASS_IN, TYPE_SOA, TTL, Soa(origin, origin, 1, TTL, TTL, TTL, 300)) }

  function NsOf(origin: Name): RR { RR(origin, CLASS_IN, TYPE_NS, TTL, Ns(origin)) }

  /** A zone of an SOA, an NS record and one more name, signed by a single key. */
  function SmallZone(origin: Name, extra: RR, mode: Mode): Request {
    Request(origin, [SoaOf(origin), NsOf(origin), extra], [1], 1, 1000, TTL, mode)
  }

  /** An address or alias one label below the apex. */
  ghost predicate SmallExtra(origin: Name, extra: RR) {
    && extra.rclass == CLASS_IN && TypeOf(extra.rdata) == Some(extra.rtype) && extra.rtype in {TYPE_A, TYPE_CNAME}
    && origin < extra.name && |extra.name| == |origin| + 1 && ValidName(extra.name)
  }

  // ----- What signing makes of it -----

  lemma SmallMember(origin: Name, extra: RR, mode: Mode, r: RR)
    ensures r in SmallZone(origin, extra, mode).records <==> r == SoaOf(origin) || r == NsOf(origin) || r == extra
  {
    var records := SmallZone(origin, extra, mode).records;
    assert records[0] == SoaOf(origin) && records[1] == NsOf(origin) && records[2] == extra;
  }

  lemma SmallFilters(origin: Name, extra: RR, mode: Mode)
    requires SmallExtra(origin, extra)
    ensures var records := SmallZone(origin, extra, mode).records;
            Filter(NotGenerated, records) == records && Filter(IsSoa, records) == [SoaOf(origin)]
  {
    hide Filter, ValidName;
    var records := SmallZone(origin, extra, mode).records;
    forall r | r in records ensures NotGenerated(r) { SmallMember(origin, extra, mode, r); }
    FilterAll(NotGenerated, records);
    var first, rest := [SoaOf(origin)], [NsOf(origin), extra];
    assert records == first + rest;
    FilterConcat(IsSoa, first, rest);
    FilterAll(IsSoa, first);
    forall r | r in rest ensures !IsSoa(r) { assert r == rest[0] || r == rest[1]; }
    FilterNone(IsSoa, rest);
  }

  lemma SmallZoneKept(origin: Name, extra: RR, mode: Mode)
    requires SmallExtra(origin, extra)
    ensures var records := SmallZone(origin, extra, mode).records;
            && Filter(NotGenerated, records) == records && Filter(IsSoa, records) == [SoaOf(origin)]
            && Cuts(records, origin) == {} && Admitted(records, origin)
  {
    hide Filter, ValidName;
    var records := SmallZone(origin, extra, mode).records;
    SmallFilters(origin, extra, mode);
    forall r | r in records ensures Acceptable(r, origin) && (r.rtype == TYPE_NS ==> r.name == origin) {
      SmallMember(origin, extra, mode, r);
    }
    SmallMember(origin, extra, mode, NsOf(origin));
    assert Cuts(records, origin) == {};
    assert HasApex(records, origin);
  }

  /** The published records: those given, the key and the NSEC3 parameters. */
  lemma SmallZonePublished(env: Env, origin: Name, extra: RR, mode: Mode)
    requires SmallExtra(origin, extra)
    ensures var req := SmallZone(origin, extra, mode);
            forall r :: r in Publish(env, req, req.records, TTL)
                        <==> || r in req.records || r == KeyRecord(env, origin, TTL, 1, 257)
                             || (mode.Nsec3Mode? && r == ParamRecord(origin, mode))
  {
    var req := SmallZone(origin, extra, mode);
    assert req.ksks[..0] == [];
    assert KeyRecords(env, origin, TTL, req.ksks) == [KeyRecord(env, origin, TTL, 1, 257)];
  }

  lemma SmallZonePrepared(env: Env, origin: Name, extra: RR, mode: Mode)
    requires SmallExtra(origin, extra) && ParametersAllowed(mode)
    ensures var req := SmallZone(origin, extra, mode);
            Prepare(env, req) == Ok(Plan(Publish(env, req, req.records, TTL), SoaOf(origin), {}, {origin, extra.name}))
  {
    hide Publish, Filter, Admitted, Cuts, CnameConflict, ExistingNames, SmallExtra;
    var req := SmallZone(origin, extra, mode);
    SmallZoneKept(origin, extra, mode);
    SmallPublishedNames(env, origin, extra, mode);
    var published := Publish(env, req, req.records, TTL);
    SmallZoneNames(published, origin, extra);
    NoConflict(published, origin, extra);
  }

  lemma SmallPublishedNames(env: Env, origin: Name, extra: RR, mode: Mode)
    requires SmallExtra(origin, extra)
    ensures var req := SmallZone(origin, extra, mode);
            var published := Publish(env, req, req.records, TTL);
            && extra in published && (forall r :: r in published ==> r.name == origin || r == extra)
            && (forall r :: r in published && r.rtype == TYPE_CNAME ==> r == extra)
  {
    hide Publish, ValidName;
    var req := SmallZone(origin, extra, mode);
    SmallZonePublished(env, origin, extra, mode);
    forall r ensures r in req.records <==> r == SoaOf(origin) || r == NsOf(origin) || r == extra {
      SmallMember(origin, extra, mode, r);
    }
  }

  lemma NoConflict(published: seq<RR>, origin: Name, extra: RR)
    requires SmallExtra(origin, extra) && extra in published
    requires forall r :: r in published ==> r.name == origin || r == extra
    requires forall r :: r in published && r.rtype == TYPE_CNAME ==> r == extra
    ensures !CnameConflict(published, {}, origin)
  {
    hide ValidName;
    assert TypesAt(published, {}, extra.name) == {extra.rtype};
  }

  /** No two of the published records have the same owner and type. */
  lemma SmallZoneUniform(env: Env, origin: Name, extra: RR, mode: Mode)
    requires SmallExtra(origin, extra)
    ensures var req := SmallZone(origin, extra, mode); Uniform(env, Publish(env, req, req.records, TTL))
  {
    hide Publish, ValidName;
    var req := SmallZone(origin, extra, mode);
    SmallZonePublished(env, origin, extra, mode);
    forall r ensures r in req.records <==> r == SoaOf(origin) || r == NsOf(origin) || r == extra {
      SmallMember(origin, extra, mode, r);
    }
  }

  lemma SmallZoneNames(published: seq<RR>, origin: Name, extra: RR)
    requires SmallExtra(origin, extra) && extra in published
    requires forall r :: r in published ==> r.name == origin || r == extra
    ensures ExistingNames(published, {}, origin) == {origin, extra.name}
  {
    hide ValidName;
    var names := ExistingNames(published, {}, origin);
    forall n ensures n in names <==> n == origin || n == extra.name {
      if n in names {
        var r, k :| r in published && |origin| <= k <= |r.name| && n == r.name[..k];
        assert origin[..|origin|] == origin && extra.name[..|origin|] == origin
               && extra.name[..|origin| + 1] == extra.name;
      }
      if n == origin {
        assert n == extra.name[..|origin|];
      }
      if n == extra.name {
        assert n == extra.name[..|extra.name|];
      }
    }
  }

  /** The names can be hashed to a chain: no two digests alike, and owners that fit. */
  ghost predicate Hashable(env: Env, origin: Name, extra: RR, mode: Mode) {
    mode.Nsec3Mode? ==>
      && IsDigest(HashOf(env, mode, origin)) && IsDigest(HashOf(env, mode, extra.name))
      && HashOf(env, mode, origin) != HashOf(env, mode, extra.name) && WireLength(origin) + 33 <= MAX_NAME_LEN
  }

  lemma DigestLabel(h: Octets)
    requires |h| == 20
    ensures |HashLabel(h)| == 32
  {
    assert |HashLabel(h[15..])| == 8;
    assert h[10..][5..] == h[15..] && h[5..][5..] == h[10..];
    assert |HashLabel(h[10..])| == 16;
    assert |HashLabel(h[5..])| == 24;
  }

  lemma SmallChain(env: Env, origin: Name, extra: RR, mode: Mode, plan: Plan)
    requires Hashable(env, origin, extra, mode) && plan.names == {origin, extra.name}
    ensures DenialChain(env, SmallZone(origin, extra, mode), plan).Ok? && DigestsProper(env, mode, plan.names)
  {
    hide HashLabel, SortedNames, SortedHashes, NsecRecord, Nsec3At, TypesAt, WireLength;
    if mode.Nsec3Mode? {
      DigestLabel(HashOf(env, mode, origin));
      DigestLabel(HashOf(env, mode, extra.name));
    }
  }

  lemma SmallZoneSigns(env: Env, origin: Name, extra: RR, mode: Mode)
    requires Total(env) && SmallExtra(origin, extra) && ParametersAllowed(mode) && Hashable(env, origin, extra, mode)
    ensures var req := SmallZone(origin, extra, mode);
            && SignZone(env, req).Ok? && SignZone(env, req).value.names == {origin, extra.name}
            && SignZone(env, req).value.cuts == {} && SignZone(env, req).value.origin == origin
            && SignZone(env, req).value.mode == mode && DigestsProper(env, mode, {origin, extra.name})
  {
    hide Total, Prepare, SignZone, Publish, Uniform, SmallExtra, AllRecords, DenialChain, DigestsProper, Hashable;
    var req := SmallZone(origin, extra, mode);
    SmallZonePrepared(env, origin, extra, mode);
    SmallZoneUniform(env, origin, extra, mode);
    SmallNames(origin, extra, mode);
    SmallChain(env, origin, extra, mode, Prepare(env, req).value);
    SigningSucceedsIff(env, req);
    var plan, chain, all := SignedParts(env, req);
  }

  lemma SmallNames(origin: Name, extra: RR, mode: Mode)
    requires SmallExtra(origin, extra)
    ensures ValidNames(SmallZone(origin, extra, mode).records)
  {
    ValidPrefix(extra.name, |origin|);
    assert extra.name[..|origin|] == origin;
  }

  // ----- An alias at the owner of an NSEC3 record -----

  /** The alias published at the name of the apex's own NSEC3 record. */
  function ClashingAlias(env: Env, origin: Name, mode: Mode): RR
    requires mode.Nsec3Mode?
  {
    RR(origin + [HashLabel(HashOf(env, mode, origin))], CLASS_IN, TYPE_CNAME, TTL, Cname(origin))
  }

  /** Any zone with an alias there is signed but cannot be rehydrated. */
  lemma ClashingAliasIsNotRehydrated(env: Env, origin: Name, mode: Mode)
    requires mode.Nsec3Mode? && Total(env) && ParametersAllowed(mode)
    requires SmallExtra(origin, ClashingAlias(env, origin, mode))
    requires Hashable(env, origin, ClashingAlias(env, origin, mode), mode)
    ensures var req := SmallZone(origin, ClashingAlias(env, origin, mode), mode);
            && SignZone(env, req).Ok?
            && CnameAtNsec3Owner(SignZone(env, req).value.rrsets.Keys)
            && Rehydrate(env, origin, SignZone(env, req).value.records) == Err(InvalidZone)
  {
    hide Total, SignZone, SmallExtra, AllRecords, HashLabel, Rehydrate, Publish, DenialChain, Prepare, Hashable,
         DigestsProper;
    var alias := ClashingAlias(env, origin, mode);
    var req := SmallZone(origin, alias, mode);
    SmallZoneSigns(env, origin, alias, mode);
    SmallZonePrepared(env, origin, alias, mode);
    var plan, chain, all := SignedParts(env, req);
    AllRecordsMembers(env, req, plan, chain);
    SmallZonePublished(env, origin, alias, mode);
    assert alias in req.records;
    assert alias in all && chain.0[origin] in all;
    DenialOwner(env, req, plan, chain, origin);
    assert KeyOf(alias) in SetKeys(all) && KeyOf(chain.0[origin]) in SetKeys(all);
    assert KeyOf(alias) == (alias.name, TYPE_CNAME) && KeyOf(chain.0[origin]) == (alias.name, TYPE_NSEC3);
    RehydrationInvertsSigning(env, req);
  }

  lemma DenialOwner(env: Env, req: Request, plan: Plan, chain: (map<Name, RR>, map<Octets, Name>), n: Name)
    requires req.mode.Nsec3Mode? && DenialChain(env, req, plan) == Ok(chain) && n in plan.names
    requires chain.0.Keys == plan.names
    ensures KeyOf(chain.0[n]) == (req.origin + [HashLabel(HashOf(env, req.mode, n))], TYPE_NSEC3)
  {
    hide DenialChain, SortedHashes, SortedNames, HashLabel, DenialTtl, TypeOf, TypesAt, Nsec3Bitmap;
    DenialChainFacts(env, req, plan, chain, n);
  }

  // ----- RRSIG asked through a wildcard -----

  /** RRSIG asked through a wildcard without an alias is answered NODATA by a record
      that lists RRSIG, unless nothing at the wildcard is signed. */
  lemma RrsigThroughWildcard(env: Env, z: SignedZone, qname: Name) returns (m: Name)
    requires WellFormed(env, z) && z.origin <= qname && ValidName(qname)
    requires FallsThrough(z, qname, TYPE_RRSIG) && !Collides(env, z, qname) && ClosestEncloser(z, qname).Ok?
    requires var wc := ClosestEncloser(z, qname).value.0 + [WILDCARD]; wc in z.names && (wc, TYPE_CNAME) !in z.rrsets
    ensures var a := Resolve(env, z, qname, TYPE_RRSIG, true);
            && a.rcode == NOERROR && a.authoritative && a.answers == []
            && m in z.denial && z.denial[m] in a.authorities && (z.denial[m].rdata.Nsec? || z.denial[m].rdata.Nsec3?)
            && (TYPE_RRSIG in Bitmap(z.denial[m]) <==> ListsRrsig(z, m))
  {
    hide WellFormed, ClosestEncloser, Collides, FindCut, SortedNames, SignaturesAt, DenialRecords, Bitmap, ListsRrsig,
         CoveredBy, SoaPair, NodataLinks;
    NonexistentOutcome(env, z, qname, TYPE_RRSIG, true);
    EncloserFound(env, z, qname);
    SetsNonempty(env, z);
    var encloser, nextCloser, overNext;
    m, encloser, nextCloser, overNext := NodataIsProved(env, z, qname, TYPE_RRSIG);
    assert m in NodataLinks(z, qname, m, encloser, overNext) by { OwnLinkSent(z, qname, m, encloser, overNext); }
    assert SentFor(z, m, z.denial[m]);
  }

  lemma OwnLinkSent(z: SignedZone, qname: Name, m: Name, encloser: Name, overNext: Name)
    ensures m in NodataLinks(z, qname, m, encloser, overNext)
  {
  }

  function WildcardAddress(origin: Name): RR {
    RR(origin + [WILDCARD], CLASS_IN, TYPE_A, TTL, Other(TYPE_A, [192, 0, 2, 1]))
  }

  /** In the zone with only a wildcard address, every other name one label below
      the apex gives such an answer. */
  lemma WildcardNodataListsRrsig(env: Env, origin: Name, top: Label) returns (m: Name)
    requires Total(env) && SmallExtra(origin, WildcardAddress(origin))
    requires top != WILDCARD && ValidName(origin + [top])
    ensures var req := SmallZone(origin, WildcardAddress(origin), NsecMode);
            && SignZone(env, req).Ok?
            && var z := SignZone(env, req).value;
               var a := Resolve(env, z, origin + [top], TYPE_RRSIG, true);
               && a.rcode == NOERROR && a.answers == []
               && m in z.denial && z.denial[m] in a.authorities && z.denial[m].rdata.Nsec?
               && TYPE_RRSIG in Bitmap(z.denial[m])
  {
    hide Total, SignZone, SmallExtra, Resolve, WellFormed, ClosestEncloser, Bitmap, FallsThrough;
    var req := SmallZone(origin, WildcardAddress(origin), NsecMode);
    SmallZoneSigns(env, origin, WildcardAddress(origin), NsecMode);
    SignedIsWellFormed(env, req);
    var z, qname := SignZone(env, req).value, origin + [top];
    SmallKeys(env, origin);
    QueryFallsThrough(z, origin, top);
    m := RrsigThroughWildcard(env, z, qname);
    NsecDenial(env, z, m);
  }

  /** Every RRset of that zone is at the apex or the wildcard; no alias is. */
  lemma SmallKeys(env: Env, origin: Name)
    requires SmallExtra(origin, WildcardAddress(origin))
    requires SignZone(env, SmallZone(origin, WildcardAddress(origin), NsecMode)).Ok?
    ensures var z := SignZone(env, SmallZone(origin, WildcardAddress(origin), NsecMode)).value;
            forall k :: k in z.rrsets ==> k.0 in {origin, origin + [WILDCARD]} && k.1 != TYPE_CNAME
  {
    hide SignZone, SmallExtra, AllRecords, Publish, DenialChain, Prepare, Bitmap, ExpectedBitmap, TypesAt;
    var extra := WildcardAddress(origin);
    var req := SmallZone(origin, extra, NsecMode);
    SmallZonePrepared(env, origin, extra, NsecMode);
    SmallPublishedNames(env, origin, extra, NsecMode);
    var plan, chain, all := SignedParts(env, req);
    AllRecordsMembers(env, req, plan, chain);
    forall r | r in all ensures r.name in {origin, origin + [WILDCARD]} && r.rtype != TYPE_CNAME {
      if n :| n in plan.names && r == chain.0[n] {
        DenialBitmap(env, req, plan, chain, n);
      }
    }
  }

  lemma QueryFallsThrough(z: SignedZone, origin: Name, top: Label)
    requires z.names == {origin, origin + [WILDCARD]} && z.cuts == {} && z.origin == origin && top != WILDCARD
    requires forall k :: k in z.rrsets ==> k.0 in z.names
    ensures var qname := origin + [top];
            FallsThrough(z, qname, TYPE_RRSIG) && ClosestEncloser(z, qname) == Ok((origin, qname))
  {
    var qname := origin + [top];
    assert qname[|origin|] == top && (origin + [WILDCARD])[|origin|] == WILDCARD && |qname| != |origin|;
    assert qname !in z.names;
    assert qname[..|origin|] == origin;
    assert KeysAt(z, qname) == [];
    assert SortedNames(z.cuts) == [];
  }

  lemma NsecDenial(env: Env, z: SignedZone, m: Name)
    requires WellFormed(env, z) && z.mode.NsecMode? && m in z.denial
    ensures z.denial[m].rdata.Nsec? && ListsRrsig(z, m)
  {
    hide DenialSigned, NamesClosed, CutsProper, ApexPresent, AllShaped, BitmapsExact;
  }

  // ----- Library code that never fails -----

  const ORIGIN: Name := [[116]]

  const EXAMPLE: Env := Env(
    (n, i, s) => if n == ORIGIN then Repeated(0, 20) else Repeated(1, 20),
    d => Some([]), (k, data) => Some(Repeated(0, 96)), k => [k], (k, flags) => Some(0))

  /** The exceptional cases are reached: there is a zone that is signed and not
      rehydrated, and a NODATA answer whose record lists the queried type. */
  lemma ExceptionsAreReached() returns (alias: Request, wildcard: Request, qname: Name, m: Name)
    ensures SignZone(EXAMPLE, alias).Ok?
    ensures Rehydrate(EXAMPLE, alias.origin, SignZone(EXAMPLE, alias).value.records) == Err(InvalidZone)
    ensures SignZone(EXAMPLE, wildcard).Ok?
    ensures var z := SignZone(EXAMPLE, wildcard).value;
            var a := Resolve(EXAMPLE, z, qname, TYPE_RRSIG, true);
            && a.rcode == NOERROR && a.answers == [] && m in z.denial && z.denial[m] in a.authorities
            && z.denial[m].rdata.Nsec? && TYPE_RRSIG in Bitmap(z.denial[m])
  {
    hide SignZone, Rehydrate, Resolve, Total, Bitmap, HashLabel;
    var mode := Nsec3Mode(0, []);
    ExampleIsTotal();
    ExampleNames(mode);
    ClashingAliasIsNotRehydrated(EXAMPLE, ORIGIN, mode);
    m := WildcardNodataListsRrsig(EXAMPLE, ORIGIN, [120]);
    alias := SmallZone(ORIGIN, ClashingAlias(EXAMPLE, ORIGIN, mode), mode);
    wildcard, qname := SmallZone(ORIGIN, WildcardAddress(ORIGIN), NsecMode), ORIGIN + [[120]];
  }

  lemma ExampleIsTotal()
    ensures Total(EXAMPLE)
  {
  }

  lemma OneLabelMore(l: Label)
    requires ValidLabel(l)
    ensures ValidName(ORIGIN + [l]) && WireLength(ORIGIN) == 3
  {
    assert ORIGIN[..0] == [] && (ORIGIN + [l])[..1] == ORIGIN;
    assert WireLength(ORIGIN) == 3;
    assert ValidLabel([116]);
    forall x | x in ORIGIN + [l] ensures ValidLabel(x) {
      assert x == [116] || x == l;
    }
  }

  lemma ExampleNames(mode: Mode)
    requires mode == Nsec3Mode(0, [])
    ensures SmallExtra(ORIGIN, ClashingAlias(EXAMPLE, ORIGIN, mode))
    ensures Hashable(EXAMPLE, ORIGIN, ClashingAlias(EXAMPLE, ORIGIN, mode), mode)
    ensures SmallExtra(ORIGIN, WildcardAddress(ORIGIN)) && ValidName(ORIGIN + [[120]])
  {
    hide WireLength, HashLabel, ValidName;
    var h := Repeated(0, 20);
    DigestLabel(h);
    DigestOctets(h);
    assert Repeated(0, 20)[0] != Repeated(1, 20)[0];
    OneLabelMore(HashLabel(h));
    OneLabelMore(WILDCARD);
    OneLabelMore([120]);
  }

  lemma {:induction false} DigestOctets(h: Octets)
    ensures forall o :: o in HashLabel(h) ==> 0 <= o < 256
  {
    if |h| >= 5 {
      DigestOctets(h[5..]);
    }
  }
}
