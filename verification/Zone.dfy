/** Building a signed zone: `sign_with_keysets` in crates/adns-dnssec/src/zone.rs. */
module Zone {
  import opened Basics
  import opened Order
  import opened Seqs
  import opened Sorting
  import opened Names
  import opened Base32
  import opened Denial
  import opened Records
  import opened Signing

  datatype Mode = NsecMode | Nsec3Mode(iterations: int, salt: Octets)

  type SetKey = (Name, RType)

  datatype SignedZone = SignedZone(
    origin: Name, records: seq<RR>, serial: int, inception: int, expiration: int, mode: Mode,
    names: set<Name>, cuts: set<Name>, rrsets: map<SetKey, seq<RR>>,
    denial: map<Name, RR>, hashes: map<Octets, Name>)

  datatype Request = Request(
    origin: Name, records: seq<RR>, ksks: seq<Key>, zsk: Key, now: int, validity: int, mode: Mode)

  // ----- Admission of the input records -----

  predicate NotGenerated(r: RR) {
    r.rtype !in {TYPE_DNSKEY, TYPE_RRSIG, TYPE_NSEC, TYPE_NSEC3, TYPE_NSEC3PARAM}
  }

  predicate Acceptable(r: RR, origin: Name) {
    && r.rclass == CLASS_IN && IsSubdomain(r.name, origin) && TypeOf(r.rdata) == Some(r.rtype)
    && r.rtype !in {TYPE_OPT, TYPE_TSIG, TYPE_AXFR, TYPE_IXFR, TYPE_ANY}
  }

  predicate IsSoa(r: RR) { r.rtype == TYPE_SOA }

  /** Exactly one SOA, at the apex, and an NS record at the apex. */
  predicate HasApex(records: seq<RR>, origin: Name) {
    && |Filter(IsSoa, records)| == 1 && Filter(IsSoa, records)[0].name == origin
    && exists r :: r in records && r.name == origin && r.rtype == TYPE_NS
  }

  function Cuts(records: seq<RR>, origin: Name): set<Name> {
    set r | r in records && r.rtype == TYPE_NS && r.name != origin :: r.name
  }

  predicate Occluded(cuts: set<Name>, n: Name) {
    exists c :: c in cuts && StrictlyBelow(n, c)
  }

  predicate IsGlue(records: seq<RR>, cut: Name, r: RR) {
    && (r.rtype == TYPE_A || r.rtype == TYPE_AAAA)
    && exists s :: s in records && s.name == cut && s.rtype == TYPE_NS && s.rdata == Ns(r.name)
  }

  /** No nested cut, and only address glue of the cut's own name servers below it. */
  predicate CutAccepted(records: seq<RR>, cuts: set<Name>, cut: Name) {
    && (forall p :: p in cuts ==> !StrictlyBelow(cut, p))
    && (forall r :: r in records && StrictlyBelow(r.name, cut) ==> IsGlue(records, cut, r))
  }

  // ----- The published records and the names they give existence to -----

  function KeyRecords(env: Env, origin: Name, ttl: int, ksks: seq<Key>): seq<RR> {
    if ksks == [] then []
    else KeyRecords(env, origin, ttl, ksks[..|ksks| - 1]) + [KeyRecord(env, origin, ttl, ksks[|ksks| - 1], 257)]
  }

  function KeyRecord(env: Env, origin: Name, ttl: int, k: Key, flags: int): RR {
    NewRecord(origin, ttl, Dnskey(flags, 3, ALGORITHM, env.publicKey(k)))
  }

  function ParamRecords(origin: Name, mode: Mode): seq<RR> {
    match mode
    case NsecMode => []
    case Nsec3Mode(_, _) => [ParamRecord(origin, mode)]
  }

  function ParamRecord(origin: Name, mode: Mode): RR
    requires mode.Nsec3Mode?
  {
    NewRecord(origin, 0, Nsec3Param(1, 0, mode.iterations, mode.salt))
  }

  predicate ParametersAllowed(mode: Mode) {
    mode.Nsec3Mode? ==> mode.iterations <= 250 && |mode.salt| <= 255
  }

  /** Every visible owner and each of its ancestors down to the apex. */
  function ExistingNames(records: seq<RR>, cuts: set<Name>, origin: Name): set<Name> {
    set r, k | r in records && !Occluded(cuts, r.name) && |origin| <= k <= |r.name| :: r.name[..k]
  }

  function TypesAt(records: seq<RR>, cuts: set<Name>, n: Name): set<RType> {
    set r | r in records && r.name == n && !Occluded(cuts, r.name) :: r.rtype
  }

  predicate CnameConflict(records: seq<RR>, cuts: set<Name>, origin: Name) {
    exists r :: r in records && !Occluded(cuts, r.name) && r.rtype == TYPE_CNAME
                && (TypesAt(records, cuts, r.name) != {TYPE_CNAME} || r.name == origin)
  }

  // ----- The denial chain -----

  function HashOf(env: Env, mode: Mode, n: Name): Octets
    requires mode.Nsec3Mode?
  {
    env.digest(n, mode.iterations, mode.salt)
  }

  predicate HashesDistinct(env: Env, mode: Mode, names: set<Name>)
    requires mode.Nsec3Mode?
  {
    forall a, b :: a in names && b in names && HashOf(env, mode, a) == HashOf(env, mode, b) ==> a == b
  }

  function HashIndex(env: Env, mode: Mode, names: set<Name>): map<Octets, Name>
    requires mode.Nsec3Mode? && HashesDistinct(env, mode, names)
  {
    map n | n in names :: HashOf(env, mode, n) := n
  }

  function NsecRecord(names: set<Name>, types: set<RType>, ttl: int, n: Name): RR
    requires n in names
  {
    NewRecord(n, ttl, Nsec(NextAfter(SortedNames(names), n), types + {TYPE_NSEC, TYPE_RRSIG}))
  }

  /** RRSIG is listed where something at the name is signed. */
  function Nsec3Bitmap(types: set<RType>, isCut: bool): set<RType> {
    if types != {} && (!isCut || TYPE_DS in types) then types + {TYPE_RRSIG} else types
  }

  function Nsec3Owner(origin: Name, hash: Octets): Option<Name> { PrependLabel(origin, HashLabel(hash)) }

  function Nsec3Record(owner: Name, hashes: set<Octets>, bitmap: set<RType>, mode: Mode, ttl: int, hash: Octets): RR
    requires hash in hashes && mode.Nsec3Mode?
  {
    NewRecord(owner, ttl, Nsec3(1, 0, mode.iterations, mode.salt, NextAfter(SortedHashes(hashes), hash), bitmap))
  }

  // ----- Grouping and signing the RRsets -----

  function KeyOf(r: RR): SetKey { (r.name, r.rtype) }

  predicate KeyLess(a: SetKey, b: SetKey) { NameLess(a.0, b.0) || (a.0 == b.0 && a.1 < b.1) }

  lemma KeyOrder()
    ensures StrictTotal(KeyLess)
  {
    NameOrder();
  }

  function SortedNames(s: set<Name>): (r: seq<Name>)
    ensures Sorted(NameLess, r) && |r| == |s|
    ensures forall x :: x in r <==> x in s
  {
    NameOrder();
    Enumerate(NameLess, s)
  }

  function SortedHashes(s: set<Octets>): (r: seq<Octets>)
    ensures Sorted(OctetsLess, r) && |r| == |s|
    ensures forall x :: x in r <==> x in s
  {
    OctetsOrder();
    Enumerate(OctetsLess, s)
  }

  function SortedKeys(s: set<SetKey>): (r: seq<SetKey>)
    ensures Sorted(KeyLess, r) && |r| == |s|
    ensures forall x :: x in r <==> x in s
  {
    KeyOrder();
    Enumerate(KeyLess, s)
  }

  function SetKeys(records: seq<RR>): set<SetKey> { set r | r in records :: KeyOf(r) }

  function Select(records: seq<RR>, k: SetKey): seq<RR> {
    if records == [] then []
    else Select(records[..|records| - 1], k)
         + (if KeyOf(records[|records| - 1]) == k then [records[|records| - 1]] else [])
  }

  function Groups(records: seq<RR>): map<SetKey, seq<RR>> {
    map k | k in SetKeys(records) :: Select(records, k)
  }

  function WirePairs(env: Env, rrset: seq<RR>): Result<seq<(Octets, RR)>> {
    if rrset == [] then Ok([])
    else
      var front :- WirePairs(env, rrset[..|rrset| - 1]);
      match env.wire(rrset[|rrset| - 1].rdata)
      case None => Err(Wire)
      case Some(w) => Ok(front + [(w, rrset[|rrset| - 1])])
  }

  function PairWire(p: (Octets, RR)): Octets { p.0 }

  function Seconds(s: seq<(Octets, RR)>): (r: seq<RR>)
    ensures |r| == |s| && forall i :: 0 <= i < |s| ==> r[i] == s[i].1
  {
    if s == [] then [] else Seconds(s[..|s| - 1]) + [s[|s| - 1].1]
  }

  /** One TTL, canonical RDATA order, no repeats; a CNAME stands alone. */
  function CanonicalSet(env: Env, rtype: RType, rrset: seq<RR>): Result<seq<RR>> {
    if exists r :: r in rrset && r.ttl != rrset[0].ttl then Err(InvalidZone)
    else
      var pairs :- WirePairs(env, rrset);
      var sorted := Seconds(SortDedup(OctetsLess, PairWire, pairs));
      if rtype == TYPE_CNAME && |sorted| != 1 then Err(InvalidZone) else Ok(sorted)
  }

  /** Data below a cut and a cut's own NS set stay unsigned. */
  predicate LeftUnsigned(cuts: set<Name>, k: SetKey) {
    Occluded(cuts, k.0) || (k.1 == TYPE_NS && k.0 in cuts)
  }

  function KskSignatures(env: Env, req: Request, ksks: seq<Key>, rrset: seq<RR>): Result<seq<RR>> {
    if ksks == [] then Ok([])
    else
      var front :- KskSignatures(env, req, ksks[..|ksks| - 1], rrset);
      var sig :- SignRrset(env, ksks[|ksks| - 1], rrset, req.origin, 257, req.now, req.validity);
      Ok(front + [sig])
  }

  predicate SameKey(env: Env, req: Request)
    requires req.ksks != []
  {
    env.publicKey(req.ksks[0]) == env.publicKey(req.zsk)
  }

  function Signatures(env: Env, req: Request, cuts: set<Name>, k: SetKey, rrset: seq<RR>): Result<seq<RR>>
    requires req.ksks != []
  {
    if LeftUnsigned(cuts, k) then Ok([])
    else if k.1 == TYPE_DNSKEY then KskSignatures(env, req, req.ksks, rrset)
    else
      var flags := if SameKey(env, req) then 257 else 256;
      var sig :- SignRrset(env, req.zsk, rrset, req.origin, flags, req.now, req.validity);
      Ok([sig])
  }

  function SignedSet(env: Env, req: Request, cuts: set<Name>, k: SetKey, rrset: seq<RR>): Result<seq<RR>>
    requires req.ksks != []
  {
    var data :- CanonicalSet(env, k.1, rrset);
    var sigs :- Signatures(env, req, cuts, k, data);
    Ok(data + sigs)
  }

  /** The signed sets for `keys`, or the first failure in that order. */
  function SignAll(env: Env, req: Request, cuts: set<Name>, groups: map<SetKey, seq<RR>>,
          keys: seq<SetKey>): (r: Result<map<SetKey, seq<RR>>>)
    requires req.ksks != [] && forall k :: k in keys ==> k in groups
    ensures r.Ok? ==> forall k :: k in r.value <==> k in keys
  {
    if keys == [] then Ok(map[])
    else
      var front :- SignAll(env, req, cuts, groups, keys[..|keys| - 1]);
      var k := keys[|keys| - 1];
      var signed :- SignedSet(env, req, cuts, k, groups[k]);
      Ok(front[k := signed])
  }

  function Flatten(rrsets: map<SetKey, seq<RR>>, keys: seq<SetKey>): seq<RR>
    requires forall k :: k in keys ==> k in rrsets
  {
    if keys == [] then [] else Flatten(rrsets, keys[..|keys| - 1]) + rrsets[keys[|keys| - 1]]
  }

  // ----- The whole construction -----

  /** What is fixed before the denial chain is built. */
  datatype Plan = Plan(published: seq<RR>, soa: RR, cuts: set<Name>, names: set<Name>)

  function DenialTtl(soa: RR): int {
    if soa.rdata.Soa? && soa.rdata.minimum < soa.ttl then soa.rdata.minimum else soa.ttl
  }

  predicate Admitted(kept: seq<RR>, origin: Name) {
    && (forall r :: r in kept ==> Acceptable(r, origin))
    && HasApex(kept, origin)
    && Filter(IsSoa, kept)[0].rdata.Soa?
    && (forall c :: c in Cuts(kept, origin) ==> CutAccepted(kept, Cuts(kept, origin), c))
  }

  /** The retained records, the DNSKEY set and, for NSEC3, the parameters. */
  function Publish(env: Env, req: Request, kept: seq<RR>, ttl: int): seq<RR>
    requires req.ksks != []
  {
    kept + (KeyRecords(env, req.origin, ttl, req.ksks)
            + (if SameKey(env, req) then [] else [KeyRecord(env, req.origin, ttl, req.zsk, 256)])
            + ParamRecords(req.origin, req.mode))
  }

  function Prepare(env: Env, req: Request): (r: Result<Plan>)
    ensures r.Ok? ==> 1 <= |req.ksks| <= 4 && r.value.soa.rdata.Soa?
  {
    var kept := Filter(NotGenerated, req.records);
    if !(1 <= |req.ksks| <= 4) || !Admitted(kept, req.origin) then Err(InvalidZone)
    else if !ParametersAllowed(req.mode) then Err(InvalidNsec3Parameters)
    else
      var soa := Filter(IsSoa, kept)[0];
      var cuts := Cuts(kept, req.origin);
      var published := Publish(env, req, kept, soa.ttl);
      if CnameConflict(published, cuts, req.origin) then Err(InvalidZone)
      else Ok(Plan(published, soa, cuts, ExistingNames(published, cuts, req.origin)))
  }

  /** The denial record of each name, and the names by hash. */
  ghost function DenialChain(env: Env, req: Request, plan: Plan): (r: Result<(map<Name, RR>, map<Octets, Name>)>)
    ensures r.Ok? ==> r.value.0.Keys == plan.names
    ensures r.Ok? ==> forall h :: h in r.value.1 ==> r.value.1[h] in plan.names
  {
    match req.mode
    case NsecMode =>
      Ok((map n | n in plan.names ::
            NsecRecord(plan.names, TypesAt(plan.published, plan.cuts, n), DenialTtl(plan.soa), n), map[]))
    case Nsec3Mode(_, _) =>
      if !HashesDistinct(env, req.mode, plan.names) then Err(HashCollision)
      else if exists n :: n in plan.names && Nsec3Owner(req.origin, HashOf(env, req.mode, n)).None? then Err(Wire)
      else
        var hashes := HashIndex(env, req.mode, plan.names);
        Ok((map n | n in plan.names :: Nsec3At(env, req, plan, hashes.Keys, n), hashes))
  }

  ghost function Nsec3At(env: Env, req: Request, plan: Plan, hashes: set<Octets>, n: Name): RR
    requires req.mode.Nsec3Mode? && HashOf(env, req.mode, n) in hashes
    requires Nsec3Owner(req.origin, HashOf(env, req.mode, n)).Some?
  {
    var h := HashOf(env, req.mode, n);
    Nsec3Record(Nsec3Owner(req.origin, h).value, hashes,
                Nsec3Bitmap(TypesAt(plan.published, plan.cuts, n), n in plan.cuts),
                req.mode, DenialTtl(plan.soa), h)
  }

  /** The names in the order their denial records are made. */
  ghost function DenialNames(mode: Mode, names: set<Name>, hashes: map<Octets, Name>): (r: seq<Name>)
    ensures mode.NsecMode? ==> forall n :: n in r <==> n in names
    ensures mode.Nsec3Mode? ==> forall n :: n in r <==> exists h :: h in hashes && hashes[h] == n
  {
    match mode
    case NsecMode => SortedNames(names)
    case Nsec3Mode(_, _) => Lookups(hashes, SortedHashes(hashes.Keys))
  }

  function Lookups<K, V>(m: map<K, V>, keys: seq<K>): (r: seq<V>)
    requires forall k :: k in keys ==> k in m
    ensures |r| == |keys| && forall i :: 0 <= i < |keys| ==> r[i] == m[keys[i]]
  {
    if keys == [] then [] else Lookups(m, keys[..|keys| - 1]) + [m[keys[|keys| - 1]]]
  }

  ghost function AllRecords(req: Request, plan: Plan, chain: (map<Name, RR>, map<Octets, Name>)): seq<RR>
    requires chain.0.Keys == plan.names
    requires forall h :: h in chain.1 ==> chain.1[h] in plan.names
  {
    plan.published + Lookups(chain.0, DenialNames(req.mode, plan.names, chain.1))
  }

  /** The end of signing: from all records to the signed zone. */
  ghost function Finished(env: Env, req: Request, plan: Plan, chain: (map<Name, RR>, map<Octets, Name>), all: seq<RR>)
    : Result<SignedZone>
    requires req.ksks != [] && plan.soa.rdata.Soa?
  {
    var keys := SortedKeys(SetKeys(all));
    var rrsets :- SignAll(env, req, plan.cuts, Groups(all), keys);
    Ok(SignedZone(req.origin, Flatten(rrsets, keys), plan.soa.rdata.serial,
                  (req.now - 300) % CIRCLE, (req.now + req.validity) % CIRCLE, req.mode,
                  plan.names, plan.cuts, rrsets, chain.0, chain.1))
  }

  /** `sign_with_keysets`. */
  ghost function SignZone(env: Env, req: Request): Result<SignedZone> {
    var plan :- Prepare(env, req);
    var chain :- DenialChain(env, req, plan);
    Finished(env, req, plan, chain, AllRecords(req, plan, chain))
  }

  lemma {:induction false} SignAllKeys(env: Env, req: Request, cuts: set<Name>, groups: map<SetKey, seq<RR>>,
          keys: seq<SetKey>)
    requires req.ksks != [] && forall k :: k in keys ==> k in groups
    requires SignAll(env, req, cuts, groups, keys).Ok?
    ensures var m := SignAll(env, req, cuts, groups, keys).value;
            && (forall k :: k in m <==> k in keys)
            && (forall k :: k in keys ==> SignedSet(env, req, cuts, k, groups[k]) == Ok(m[k]))
  {
    if keys != [] {
      SignAllKeys(env, req, cuts, groups, keys[..|keys| - 1]);
      assert keys == keys[..|keys| - 1] + [keys[|keys| - 1]];
    }
  }
}
