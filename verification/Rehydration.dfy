/** Rebuilding the index from the flat list of signed records:
    `from_signed_records` in crates/adns-dnssec/src/zone.rs. */
module Rehydration {
  import opened Basics
  import opened Seqs
  import opened Names
  import opened Denial
  import opened Records
  import opened Signing
  import opened Zone
  import opened ZoneFacts

  // ----- Signature times -----

  /** The running choice of the latest time, on the 32-bit circle. */
  function Later(best: int, t: int): int { if (t - best) % CIRCLE < HALF then t else best }

  function Earlier(best: int, t: int): int { if (t - best) % CIRCLE < HALF then best else t }

  function Latest(times: seq<int>): Option<int> {
    if times == [] then None
    else match Latest(times[..|times| - 1])
         case None => Some(times[|times| - 1])
         case Some(best) => Some(Later(best, times[|times| - 1]))
  }

  function Earliest(times: seq<int>): Option<int> {
    if times == [] then None
    else match Earliest(times[..|times| - 1])
         case None => Some(times[|times| - 1])
         case Some(best) => Some(Earlier(best, times[|times| - 1]))
  }

  /** How far a time lies after `base` on the circle. */
  function Offset(base: int, t: int): int { (t - base) % CIRCLE }

  /** All times are 32-bit values within half a circle after `base`. */
  ghost predicate WithinHalf(base: int, times: seq<int>) {
    forall t :: t in times ==> 0 <= t < CIRCLE && Offset(base, t) < HALF
  }

  lemma CompareOnCircle(base: int, a: int, b: int)
    requires Offset(base, a) < HALF && Offset(base, b) < HALF
    ensures Later(a, b) == (if Offset(base, a) <= Offset(base, b) then b else a)
    ensures Earlier(a, b) == (if Offset(base, a) <= Offset(base, b) then a else b)
  {
    var x, y := Offset(base, a), Offset(base, b);
    var p, q := (a - base) / CIRCLE, (b - base) / CIRCLE;
    assert b - a == (y - x) + (q - p) * CIRCLE;
    ModAddMultiple(y - x, q - p);
  }

  lemma OffsetDeterminesTime(base: int, a: int, b: int)
    requires 0 <= a < CIRCLE && 0 <= b < CIRCLE && Offset(base, a) == Offset(base, b)
    ensures a == b
  {
    var p, q := (a - base) / CIRCLE, (b - base) / CIRCLE;
    assert a - b == (p - q) * CIRCLE;
  }

  ghost predicate IsLatest(base: int, times: seq<int>, m: int) {
    m in times && forall t :: t in times ==> Offset(base, t) <= Offset(base, m)
  }

  ghost predicate IsEarliest(base: int, times: seq<int>, m: int) {
    m in times && forall t :: t in times ==> Offset(base, m) <= Offset(base, t)
  }

  /** Within half the circle both folds pick the extreme time. */
  lemma {:induction false} FoldsFindExtremes(base: int, times: seq<int>)
    requires times != [] && WithinHalf(base, times)
    ensures Latest(times).Some? && IsLatest(base, times, Latest(times).value)
    ensures Earliest(times).Some? && IsEarliest(base, times, Earliest(times).value)
  {
    hide Offset, Later, Earlier;
    var front, t := times[..|times| - 1], times[|times| - 1];
    assert times == front + [t] && t in times && forall x :: x in front ==> x in times;
    if front != [] {
      FoldsFindExtremes(base, front);
      CompareOnCircle(base, Latest(front).value, t);
      CompareOnCircle(base, Earliest(front).value, t);
    } else {
      assert times == [t];
    }
  }

  lemma SameExtremes(base: int, times: seq<int>, others: seq<int>)
    requires WithinHalf(base, times) && WithinHalf(base, others) && times != [] && others != []
    requires SameElements(times, others)
    ensures Latest(times) == Latest(others) && Earliest(times) == Earliest(others)
  {
    hide Offset, Later, Earlier;
    FoldsFindExtremes(base, times);
    FoldsFindExtremes(base, others);
    OffsetDeterminesTime(base, Latest(times).value, Latest(others).value);
    OffsetDeterminesTime(base, Earliest(times).value, Earliest(others).value);
  }

  /** Within half the circle the folds do not depend on the order of the records. */
  lemma FoldsIgnoreOrder(base: int, times: seq<int>, others: seq<int>)
    requires WithinHalf(base, times) && SameElements(times, others)
    ensures Latest(times) == Latest(others) && Earliest(times) == Earliest(others)
  {
    hide Offset, Latest, Earliest;
    SameElementsBothEmpty(times, others);
    if times != [] {
      SameExtremes(base, times, others);
    }
  }

  lemma {:induction false} FoldConstant(times: seq<int>, c: int)
    requires times != [] && forall t :: t in times ==> t == c
    ensures Latest(times) == Some(c) && Earliest(times) == Some(c)
  {
    var front, t := times[..|times| - 1], times[|times| - 1];
    assert times == front + [t] && t in times && forall x :: x in front ==> x in times;
    if front != [] {
      FoldConstant(front, c);
    }
  }

  // ----- The specification -----

  function Inceptions(sigs: seq<RR>): (r: seq<int>)
    requires forall s :: s in sigs ==> s.rdata.Rrsig?
    ensures |r| == |sigs| && forall i :: 0 <= i < |sigs| ==> r[i] == sigs[i].rdata.sig.inception
  {
    if sigs == [] then [] else Inceptions(sigs[..|sigs| - 1]) + [sigs[|sigs| - 1].rdata.sig.inception]
  }

  function Expirations(sigs: seq<RR>): (r: seq<int>)
    requires forall s :: s in sigs ==> s.rdata.Rrsig?
    ensures |r| == |sigs| && forall i :: 0 <= i < |sigs| ==> r[i] == sigs[i].rdata.sig.expiration
  {
    if sigs == [] then [] else Expirations(sigs[..|sigs| - 1]) + [sigs[|sigs| - 1].rdata.sig.expiration]
  }

  predicate Stored(r: RR, origin: Name) {
    r.rclass == CLASS_IN && IsSubdomain(r.name, origin) && TypeOf(r.rdata) == Some(r.rtype)
  }

  predicate IsParam(r: RR) { r.rtype == TYPE_NSEC3PARAM }

  predicate Visible(r: RR) { r.rtype != TYPE_RRSIG && r.rtype != TYPE_NSEC3 }

  predicate IsNsec(r: RR) { r.rtype == TYPE_NSEC }

  predicate IsNsec3(r: RR) { r.rtype == TYPE_NSEC3 }

  /** The denial mode announced by the parameter records. */
  function ModeOf(params: seq<RR>, origin: Name): Result<Mode> {
    if params == [] then Ok(NsecMode)
    else
      var p := params[0];
      if |params| != 1 || p.name != origin || !p.rdata.Nsec3Param? || p.rdata.hashAlgorithm != 1 || p.rdata.flags != 0
      then Err(InvalidZone)
      else
        var mode := Nsec3Mode(p.rdata.iterations, p.rdata.salt);
        if ParametersAllowed(mode) then Ok(mode) else Err(InvalidNsec3Parameters)
  }

  predicate SignatureAllowed(r: RR, origin: Name) {
    r.rdata.Rrsig? ==>
      && r.rdata.sig.algorithm == ALGORITHM && |r.rdata.sig.signature| == 96
      && r.rdata.sig.signer == origin && r.rdata.sig.labels <= |r.name|
  }

  function CoveredKey(r: RR): SetKey
    requires r.rdata.Rrsig?
  {
    (r.name, r.rdata.sig.typeCovered)
  }

  function SelectSigs(sigs: seq<RR>, k: SetKey): seq<RR>
    requires forall s :: s in sigs ==> s.rdata.Rrsig?
  {
    if sigs == [] then []
    else SelectSigs(sigs[..|sigs| - 1], k) + (if CoveredKey(sigs[|sigs| - 1]) == k then [sigs[|sigs| - 1]] else [])
  }

  /** The signature has an RRset to cover, with its TTL. */
  predicate Attachable(data: seq<RR>, sig: RR)
    requires sig.rdata.Rrsig?
  {
    CoveredKey(sig) in SetKeys(data) && forall r :: r in Select(data, CoveredKey(sig)) ==> r.ttl == sig.ttl
  }

  function Rebuilt(data: seq<RR>, sigs: seq<RR>): map<SetKey, seq<RR>>
    requires forall s :: s in sigs ==> s.rdata.Rrsig?
  {
    map k | k in SetKeys(data) :: Select(data, k) + SelectSigs(sigs, k)
  }

  predicate CnameCompany(keys: set<SetKey>, n: Name) {
    exists k :: k in keys && k.0 == n && k.1 != TYPE_CNAME && k.1 != TYPE_NSEC
  }

  /** The checks on one rebuilt RRset. */
  predicate SetAccepted(rrsets: map<SetKey, seq<RR>>, cuts: set<Name>, k: SetKey)
    requires k in rrsets
  {
    var data := Filter(NotSig, rrsets[k]);
    && data != [] && (forall r :: r in data ==> r.ttl == data[0].ttl)
    && (k.1 == TYPE_CNAME ==> |data| == 1 && !CnameCompany(rrsets.Keys, k.0))
    && (LeftUnsigned(cuts, k) || exists r :: r in rrsets[k] && IsSig(r))
  }

  predicate NsecEntry(rrsets: map<SetKey, seq<RR>>, names: set<Name>, n: Name)
    requires n in names
  {
    && (n, TYPE_NSEC) in rrsets
    && var s := rrsets[(n, TYPE_NSEC)];
       && |Filter(IsNsec, s)| == 1 && s != [] && s[0].rdata.Nsec?
       && s[0].rdata.nextName == NextAfter(SortedNames(names), n)
  }

  predicate Nsec3Entry(rrsets: map<SetKey, seq<RR>>, mode: Mode, hashes: set<Octets>, owner: Name, h: Octets)
    requires mode.Nsec3Mode? && h in hashes
  {
    && (owner, TYPE_NSEC3) in rrsets
    && var s := rrsets[(owner, TYPE_NSEC3)];
       && |Filter(IsNsec3, s)| == 1 && s != [] && s[0].rdata.Nsec3?
       && s[0].rdata.hashAlgorithm == 1 && s[0].rdata.flags == 0
       && s[0].rdata.iterations == mode.iterations && s[0].rdata.salt == mode.salt
       && s[0].rdata.nextHash == NextAfter(SortedHashes(hashes), h)
  }

  /** The first failure among the links of the hash chain, in hash order. */
  function FirstBadLink(rrsets: map<SetKey, seq<RR>>, mode: Mode, origin: Name, hashes: set<Octets>,
          order: seq<Octets>): Option<Error>
    requires mode.Nsec3Mode? && forall h :: h in order ==> h in hashes
  {
    if order == [] then None
    else
      var front := FirstBadLink(rrsets, mode, origin, hashes, order[..|order| - 1]);
      var h := order[|order| - 1];
      if front.Some? then front
      else match Nsec3Owner(origin, h)
        case None => Some(Wire)
        case Some(owner) => if Nsec3Entry(rrsets, mode, hashes, owner, h) then None else Some(InvalidZone)
  }

  function NsecDenial(names: set<Name>, rrsets: map<SetKey, seq<RR>>): map<Name, RR> {
    map n | n in names && (n, TYPE_NSEC) in rrsets && rrsets[(n, TYPE_NSEC)] != [] :: rrsets[(n, TYPE_NSEC)][0]
  }

  function Nsec3Key(env: Env, origin: Name, mode: Mode, n: Name): SetKey
    requires mode.Nsec3Mode?
  {
    var owner := Nsec3Owner(origin, HashOf(env, mode, n));
    (if owner.Some? then owner.value else origin, TYPE_NSEC3)
  }

  function Nsec3Denial(env: Env, origin: Name, mode: Mode, names: set<Name>, rrsets: map<SetKey, seq<RR>>)
    : map<Name, RR>
    requires mode.Nsec3Mode?
  {
    map n | n in names && Nsec3Key(env, origin, mode, n) in rrsets && rrsets[Nsec3Key(env, origin, mode, n)] != []
      :: rrsets[Nsec3Key(env, origin, mode, n)][0]
  }

  ghost function RebuiltDenial(env: Env, origin: Name, records: seq<RR>, mode: Mode, names: set<Name>,
          rrsets: map<SetKey, seq<RR>>)
    : Result<(map<Name, RR>, map<Octets, Name>)>
  {
    match mode
    case NsecMode =>
      if (exists r :: r in records && IsNsec3(r)) || (exists n :: n in names && !NsecEntry(rrsets, names, n))
      then Err(InvalidZone)
      else Ok((NsecDenial(names, rrsets), map[]))
    case Nsec3Mode(_, _) =>
      if exists r :: r in records && IsNsec(r) then Err(InvalidZone)
      else if !HashesDistinct(env, mode, names) then Err(HashCollision)
      else
        var hashes := HashIndex(env, mode, names);
        match FirstBadLink(rrsets, mode, origin, hashes.Keys, SortedHashes(hashes.Keys))
        case Some(e) => Err(e)
        case None => Ok((Nsec3Denial(env, origin, mode, names, rrsets), hashes))
  }

  ghost predicate RecordsStored(records: seq<RR>, origin: Name) {
    records != [] && (forall r :: r in records ==> Stored(r, origin)) && HasApex(records, origin)
  }

  ghost predicate SetsAccepted(rrsets: map<SetKey, seq<RR>>, cuts: set<Name>) {
    forall k :: k in rrsets ==> SetAccepted(rrsets, cuts, k)
  }

  ghost predicate SignaturesAttach(records: seq<RR>, origin: Name)
    requires forall r :: r in records ==> Stored(r, origin)
  {
    && (forall r :: r in records ==> SignatureAllowed(r, origin))
    && (forall s :: s in records && s.rdata.Rrsig? ==> Attachable(Filter(NotSig, records), s))
  }

  /** `from_signed_records`. */
  ghost function Rehydrate(env: Env, origin: Name, records: seq<RR>): Result<SignedZone> {
    if !RecordsStored(records, origin) then Err(InvalidZone)
    else
      var mode :- ModeOf(Filter(IsParam, records), origin);
      var cuts := Cuts(records, origin);
      var data, sigs := Filter(NotSig, records), Filter(IsSig, records);
      FilterMembers(IsSig, records);
      if !SignaturesAttach(records, origin) || !SetsAccepted(Rebuilt(data, sigs), cuts) then Err(InvalidZone)
      else
        var names := ExistingNames(Filter(Visible, records), cuts, origin);
        var rrsets := Rebuilt(data, sigs);
        var chain :- RebuiltDenial(env, origin, records, mode, names, rrsets);
        match (Latest(Inceptions(sigs)), Earliest(Expirations(sigs)))
        case (Some(inception), Some(expiration)) =>
          Ok(SignedZone(origin, records, SerialOf(records), inception, expiration, mode, names, cuts, rrsets, chain.0,
                        chain.1))
        case _ => Err(InvalidZone)
  }

  function SerialOf(records: seq<RR>): int
    requires |Filter(IsSoa, records)| == 1
  {
    var soa := Filter(IsSoa, records)[0];
    if soa.rdata.Soa? then soa.rdata.serial else 0
  }
}
