/** Answering from a signed zone: `find_closest_encloser` to `resolve` in
    crates/adns-dnssec/src/zone.rs. */
module Resolver {
  import opened Basics
  import opened Seqs
  import opened Names
  import opened Denial
  import opened Records
  import opened Zone
  import opened ZoneFacts

  datatype Resolution = Resolution(
    rcode: int, authoritative: bool, answers: seq<RR>, authorities: seq<RR>, additionals: seq<RR>)

  const NOERROR := 0
  const SERVFAIL := 2
  const NXDOMAIN := 3
  const REFUSED := 5

  // ----- Lookups -----

  function ExactSet(z: SignedZone, n: Name, t: RType): Option<seq<RR>> {
    if (n, t) in z.rrsets then Some(z.rrsets[(n, t)]) else None
  }

  /** The deepest existing proper ancestor of `n`, and the name one label below it towards `n`. */
  ghost predicate IsClosestEncloser(names: set<Name>, n: Name, encloser: Name, nextCloser: Name) {
    && encloser in names && encloser < n && nextCloser == n[..|encloser| + 1]
    && forall k :: |encloser| < k <= |n| ==> n[..k] !in names
  }

  function Climb(names: set<Name>, child: Name): Result<(Name, Name)> {
    if child == [] then Err(NoProof)
    else
      var parent := child[..|child| - 1];
      if parent in names then Ok((parent, child)) else Climb(names, parent)
  }

  function ClosestEncloser(z: SignedZone, n: Name): Result<(Name, Name)> {
    if !IsSubdomain(n, z.origin) || n in z.names then Err(NoProof) else Climb(z.names, n)
  }

  /** `find_closest_encloser`: climbs until a name exists. */
  method FindClosestEncloser(z: SignedZone, n: Name) returns (r: Result<(Name, Name)>)
    ensures r == ClosestEncloser(z, n)
    ensures r.Ok? ==> IsClosestEncloser(z.names, n, r.value.0, r.value.1)
    ensures r.Err? ==> !(z.origin <= n) || n in z.names || forall k :: 0 <= k <= |n| ==> n[..k] !in z.names
  {
    if !IsSubdomain(n, z.origin) || n in z.names {
      return Err(NoProof);
    }
    var child := n;
    assert n[..|n|] == n;
    while child != []
      invariant child <= n && Climb(z.names, n) == Climb(z.names, child)
      invariant forall k :: |child| <= k <= |n| ==> n[..k] !in z.names
      decreases |child|
    {
      var parent := child[..|child| - 1];
      assert parent == n[..|child| - 1];
      if parent in z.names {
        return Ok((parent, child));
      }
      child := parent;
    }
    return Err(NoProof);
  }

  function FirstSig(s: seq<RR>): Option<RR> {
    if s == [] then None else if s[0].rdata.Rrsig? then Some(s[0]) else FirstSig(s[1..])
  }

  /** `pair`: a record with the first signature of its RRset. */
  function Pair(z: SignedZone, rr: RR): Result<(RR, RR)> {
    match ExactSet(z, rr.name, rr.rtype)
    case None => Err(NoProof)
    case Some(s) =>
      match FirstSig(s)
      case None => Err(NoProof)
      case Some(sig) => Ok((rr, sig))
  }

  /** The SOA and its signature with the negative-caching TTL. */
  function SoaPair(z: SignedZone): Result<(RR, RR)> {
    match ExactSet(z, z.origin, TYPE_SOA)
    case None => Err(NoProof)
    case Some(s) =>
      if s == [] then Err(NoProof)
      else
        var p :- Pair(z, s[0]);
        var ttl := DenialTtl(p.0);
        Ok((p.0.(ttl := ttl), if p.0.rdata.Soa? then p.1.(ttl := ttl) else p.1))
  }

  function FirstCovering(denial: map<Name, RR>, order: seq<Name>, n: Name): Option<RR>
    requires forall m :: m in order ==> m in denial
  {
    if order == [] then None
    else
      var rr := denial[order[0]];
      if rr.rdata.Nsec? && Covers(NameLess, rr.name, rr.rdata.nextName, n) then Some(rr)
      else FirstCovering(denial, order[1..], n)
  }

  /** `covering`: the chain record whose interval holds `n`. */
  function Covering(env: Env, z: SignedZone, n: Name): Result<RR> {
    match z.mode
    case NsecMode =>
      (match FirstCovering(z.denial, SortedNames(z.denial.Keys), n)
       case Some(rr) => Ok(rr)
       case None => Err(NoProof))
    case Nsec3Mode(_, _) =>
      if !ParametersAllowed(z.mode) then Err(InvalidNsec3Parameters)
      else
        var hash := HashOf(env, z.mode, n);
        var order := SortedHashes(z.hashes.Keys);
        if hash in z.hashes || order == [] then Err(NoProof)
        else
          var original := z.hashes[order[PredecessorIndex(OctetsLess, order, hash)]];
          if original in z.denial then Ok(z.denial[original]) else Err(NoProof)
  }

  // ----- Negative answers -----

  function PushNew(out: seq<RR>, r: RR): seq<RR> { if r in out then out else out + [r] }

  /** `append_pair`. */
  function AppendPair(z: SignedZone, out: seq<RR>, rr: RR): Result<seq<RR>> {
    var p :- Pair(z, rr);
    Ok(PushNew(PushNew(out, p.0), p.1))
  }

  function AppendDenialOf(z: SignedZone, out: seq<RR>, n: Name): Result<seq<RR>> {
    if n in z.denial then AppendPair(z, out, z.denial[n]) else Err(NoProof)
  }

  function AppendCovering(env: Env, z: SignedZone, out: seq<RR>, n: Name): Result<seq<RR>> {
    var rr :- Covering(env, z, n);
    AppendPair(z, out, rr)
  }

  /** What follows the closest-encloser part: the wildcard's own record for
      NODATA, its non-existence for NXDOMAIN, nothing for an expansion. */
  function AppendWildcardPart(env: Env, z: SignedZone, out: seq<RR>, nodata: bool, expanded: bool,
          wildcard: Name): Result<seq<RR>> {
    if nodata then AppendDenialOf(z, out, wildcard)
    else if !expanded then AppendCovering(env, z, out, wildcard)
    else Ok(out)
  }

  function SoaRecords(z: SignedZone): Result<seq<RR>> {
    var p :- SoaPair(z);
    Ok([p.0, p.1])
  }

  /** The part of the proof after the SOA when the name itself has no record. */
  function EncloserProof(env: Env, z: SignedZone, out: seq<RR>, qname: Name, nodata: bool,
          wildcard: bool): Result<seq<RR>> {
    var p :- ClosestEncloser(z, qname);
    match Wildcard(p.0)
    case None => Err(Wire)
    case Some(wc) =>
      match z.mode
      case NsecMode =>
        var out1 :- AppendCovering(env, z, out, qname);
        AppendWildcardPart(env, z, out1, nodata, wildcard, wc)
      case Nsec3Mode(_, _) =>
        var out1 :- AppendDenialOf(z, out, p.0);
        var out2 :- AppendCovering(env, z, out1, p.1);
        AppendWildcardPart(env, z, out2, nodata, wildcard, wc)
  }

  /** `denial_records`. */
  function DenialRecords(env: Env, z: SignedZone, qname: Name, nodata: bool, wildcard: bool,
          includeSoa: bool): Result<seq<RR>> {
    var out :- if includeSoa then SoaRecords(z) else Ok([]);
    if nodata && !wildcard then AppendDenialOf(z, out, qname)
    else EncloserProof(env, z, out, qname, nodata, wildcard)
  }

  /** `negative`. */
  function Negative(env: Env, z: SignedZone, qname: Name, nodata: bool, wildcard: bool, dnssec: bool): Resolution {
    var records :=
      if dnssec then DenialRecords(env, z, qname, nodata, wildcard, true)
      else match SoaPair(z)
           case Ok(p) => Ok([p.0])
           case Err(e) => Err(e);
    match records
    case Ok(r) => Resolution(if nodata then NOERROR else NXDOMAIN, true, [], r, [])
    case Err(_) => Resolution(SERVFAIL, true, [], [], [])
  }

  // ----- Positive answers and referrals -----

  /** Up to the first signature. */
  function Unsigned(s: seq<RR>): seq<RR> {
    if s == [] || s[0].rtype == TYPE_RRSIG then [] else [s[0]] + Unsigned(s[1..])
  }

  function Answer(s: seq<RR>, dnssec: bool): Resolution {
    Resolution(NOERROR, true, if dnssec then s else Unsigned(s), [], [])
  }

  function KeysAt(z: SignedZone, n: Name): seq<SetKey> {
    SortedKeys(set k | k in z.rrsets && k.0 == n && 1 <= k.1 <= 65535)
  }

  function FirstReal(keys: seq<SetKey>): Option<RType> {
    if keys == [] then None
    else if keys[0].1 !in {TYPE_NSEC, TYPE_NSEC3, TYPE_NSEC3PARAM} then Some(keys[0].1)
    else FirstReal(keys[1..])
  }

  /** For ANY, the first real type at the name (RFC 8482). */
  function EffectiveType(z: SignedZone, n: Name, qtype: RType): RType {
    if qtype != TYPE_ANY then qtype
    else match FirstReal(KeysAt(z, n))
         case Some(t) => t
         case None => qtype
  }

  function SignaturesAt(z: SignedZone, n: Name): seq<RR> {
    Filter(IsSig, Flatten(z.rrsets, KeysAt(z, n)))
  }

  function FindCut(order: seq<Name>, qname: Name, qtype: RType): Option<Name> {
    if order == [] then None
    else if IsSubdomain(qname, order[0]) && !(qname == order[0] && qtype == TYPE_DS) then Some(order[0])
    else FindCut(order[1..], qname, qtype)
  }

  function SetData(z: SignedZone, n: Name, t: RType): seq<RR> {
    match ExactSet(z, n, t)
    case None => []
    case Some(s) => Filter(NotSig, s)
  }

  function Glue(z: SignedZone, cut: Name, ns: seq<RR>): seq<RR> {
    if ns == [] then []
    else
      var rr := ns[|ns| - 1];
      Glue(z, cut, ns[..|ns| - 1])
      + (if rr.rdata.Ns? && IsSubdomain(rr.rdata.target, cut)
         then SetData(z, rr.rdata.target, TYPE_A) + SetData(z, rr.rdata.target, TYPE_AAAA)
         else [])
  }

  function SetOr(s: Option<seq<RR>>): seq<RR> { if s.Some? then s.value else [] }

  /** A referral to the child zone, with its DS set or the proof that it has none. */
  function Referral(z: SignedZone, cut: Name, dnssec: bool): Resolution {
    var ns := SetOr(ExactSet(z, cut, TYPE_NS));
    var glue := Glue(z, cut, ns);
    if !dnssec then Resolution(NOERROR, false, [], ns, glue)
    else match ExactSet(z, cut, TYPE_DS)
      case Some(ds) => Resolution(NOERROR, false, [], ns + ds, glue)
      case None =>
        if cut !in z.denial then Resolution(NOERROR, false, [], ns, glue)
        else match AppendPair(z, ns, z.denial[cut])
          case Ok(authorities) => Resolution(NOERROR, false, [], authorities, glue)
          case Err(_) => Resolution(SERVFAIL, false, [], ns, glue)
  }

  function Renamed(s: seq<RR>, owner: Name): (r: seq<RR>)
    ensures |r| == |s| && forall i :: 0 <= i < |s| ==> r[i] == s[i].(name := owner)
  {
    if s == [] then [] else Renamed(s[..|s| - 1], owner) + [s[|s| - 1].(name := owner)]
  }

  function WildcardSet(z: SignedZone, wildcard: Name, qtype: RType): Option<seq<RR>> {
    var exact := ExactSet(z, wildcard, EffectiveType(z, wildcard, qtype));
    if exact.Some? then exact else ExactSet(z, wildcard, TYPE_CNAME)
  }

  function FromWildcard(env: Env, z: SignedZone, qname: Name, wildcard: Name, qtype: RType, dnssec: bool): Resolution {
    match WildcardSet(z, wildcard, qtype)
    case None => Negative(env, z, qname, true, true, dnssec)
    case Some(s) =>
      var answers := Renamed(if dnssec then s else Filter(NotSig, s), qname);
      if !dnssec then Resolution(NOERROR, true, answers, [], [])
      else match DenialRecords(env, z, qname, false, true, false)
        case Ok(r) => Resolution(NOERROR, true, answers, r, [])
        case Err(_) => Resolution(SERVFAIL, true, [], [], [])
  }

  function Nonexistent(env: Env, z: SignedZone, qname: Name, qtype: RType, dnssec: bool): Resolution {
    match ClosestEncloser(z, qname)
    case Err(_) => Resolution(SERVFAIL, true, [], [], [])
    case Ok(p) =>
      match Wildcard(p.0)
      case None => Resolution(SERVFAIL, true, [], [], [])
      case Some(wildcard) =>
        if wildcard in z.names then FromWildcard(env, z, qname, wildcard, qtype, dnssec)
        else Negative(env, z, qname, false, false, dnssec)
  }

  function Authoritative(env: Env, z: SignedZone, qname: Name, qtype: RType, dnssec: bool): Resolution {
    var exact := ExactSet(z, qname, EffectiveType(z, qname, qtype));
    if exact.Some? then Answer(exact.value, dnssec)
    else if qtype == TYPE_RRSIG && SignaturesAt(z, qname) != [] then
      Resolution(NOERROR, true, SignaturesAt(z, qname), [], [])
    else if qtype != TYPE_CNAME && ExactSet(z, qname, TYPE_CNAME).Some? then
      Answer(ExactSet(z, qname, TYPE_CNAME).value, dnssec)
    else if qname in z.names then Negative(env, z, qname, true, false, dnssec)
    else Nonexistent(env, z, qname, qtype, dnssec)
  }

  /** `resolve`. */
  function Resolve(env: Env, z: SignedZone, qname: Name, qtype: RType, dnssec: bool): Resolution {
    if !IsSubdomain(qname, z.origin) then Resolution(REFUSED, false, [], [], [])
    else match FindCut(SortedNames(z.cuts), qname, qtype)
      case Some(cut) => Referral(z, cut, dnssec)
      case None => Authoritative(env, z, qname, qtype, dnssec)
  }
}
