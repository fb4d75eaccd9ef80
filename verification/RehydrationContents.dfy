/** What `from_signed_records` in crates/adns-dnssec/src/zone.rs accepts and what it
    makes of it, stated on the records alone. */
module RehydrationContents {
  import opened Basics
  import opened Seqs
  import opened Names
  import opened Base32
  import opened Denial
  import opened Records
  import opened Zone
  import opened ZoneFacts
  import opened SignatureProofs
  import opened ZoneContents
  import opened CanonicalOrder
  import opened Order
  import opened Rehydration

  // ----- Records -----

  predicate IsData(records: seq<RR>, k: SetKey, r: RR) {
    r in records && r.rtype != 46 && (r.name, r.rtype) == k
  }

  /** A signature over the RRset of that owner and type. */
  predicate IsSigOver(records: seq<RR>, k: SetKey, s: RR) {
    s in records && s.rtype == 46 && s.rdata.Rrsig? && (s.name, s.rdata.sig.typeCovered) == k
  }

  /** All records are of the zone, of class IN and of their data's type; one of them
      is the SOA, at the apex, where there is also an NS record. */
  ghost predicate RecordsOk(origin: Name, records: seq<RR>) {
    && (forall r :: r in records ==> r.rclass == 1 && origin <= r.name && TypeOf(r.rdata) == Some(r.rtype))
    && (exists i :: SoaAt(origin, records, i))
    && (exists r :: r in records && r.name == origin && r.rtype == 2)
  }

  predicate SoaAt(origin: Name, records: seq<RR>, i: int) {
    && 0 <= i < |records| && records[i].rtype == 6 && records[i].name == origin
    && forall j :: 0 <= j < |records| && records[j].rtype == 6 ==> j == i
  }

  lemma StoredIff(origin: Name, records: seq<RR>)
    ensures RecordsStored(records, origin) <==> RecordsOk(origin, records)
  {
    if |Filter(IsSoa, records)| == 1 {
      var i := FilterOne(IsSoa, records);
      assert SoaAt(origin, records, i) <==> records[i].name == origin;
    }
    if i :| SoaAt(origin, records, i) {
      FilterOnly(IsSoa, records, i);
    }
  }

  // ----- The mode -----

  /** Without parameter records the zone uses NSEC; otherwise there is exactly one, at
      the apex, for SHA-1 without flags, within the bounds. */
  ghost predicate ModeIs(origin: Name, records: seq<RR>, mode: Mode) {
    match mode
    case NsecMode => forall r :: r in records ==> r.rtype != 51
    case Nsec3Mode(iterations, salt) =>
      && iterations <= 250 && |salt| <= 255
      && exists i :: ParametersAt(origin, records, iterations, salt, i)
  }

  predicate ParametersAt(origin: Name, records: seq<RR>, iterations: int, salt: Octets, i: int) {
    && 0 <= i < |records| && records[i].rtype == 51 && records[i].name == origin
    && records[i].rdata == Nsec3Param(1, 0, iterations, salt)
    && forall j :: 0 <= j < |records| && records[j].rtype == 51 ==> j == i
  }

  lemma ModeIff(origin: Name, records: seq<RR>, mode: Mode)
    requires RecordsOk(origin, records)
    ensures ModeOf(Filter(IsParam, records), origin) == Ok(mode) <==> ModeIs(origin, records, mode)
  {
    var params := Filter(IsParam, records);
    FilterMembers(IsParam, records);
    if params == [] {
      FilterEmpty(IsParam, records);
    } else {
      assert params[0] in records && params[0].rtype == 51;
      if |params| == 1 {
        var i := FilterOne(IsParam, records);
        assert forall j, iterations, salt :: ParametersAt(origin, records, iterations, salt, j) ==> j == i;
        if mode.Nsec3Mode? {
          assert ParametersAt(origin, records, mode.iterations, mode.salt, i)
                 <==> params[0].name == origin && params[0].rdata == Nsec3Param(1, 0, mode.iterations, mode.salt);
        }
      } else if mode.Nsec3Mode? {
        if i :| ParametersAt(origin, records, mode.iterations, mode.salt, i) {
          FilterOnly(IsParam, records, i);
        }
      }
    }
  }

  // ----- Signatures and RRsets -----

  /** Every signature is of algorithm 14, of 96 octets, by the zone, counts no more
      labels than its owner has, and covers an RRset with its TTL. */
  ghost predicate SignaturesOk(origin: Name, records: seq<RR>) {
    forall s :: s in records && s.rdata.Rrsig? ==>
      && s.rdata.sig.algorithm == 14 && |s.rdata.sig.signature| == 96 && s.rdata.sig.signer == origin
      && s.rdata.sig.labels <= |s.name|
      && (exists r :: IsData(records, (s.name, s.rdata.sig.typeCovered), r))
      && (forall r :: IsData(records, (s.name, s.rdata.sig.typeCovered), r) ==> r.ttl == s.ttl)
  }

  lemma DataAre(records: seq<RR>)
    ensures forall k :: k in SetKeys(Filter(NotSig, records)) <==> exists r :: IsData(records, k, r)
    ensures forall k, r :: r in Select(Filter(NotSig, records), k) <==> IsData(records, k, r)
  {
    hide Filter, Select;
    var data := Filter(NotSig, records);
    FilterMembers(NotSig, records);
    forall k, r ensures r in Select(data, k) <==> IsData(records, k, r) { SelectMembers(data, k); }
    forall k ensures k in SetKeys(data) <==> exists r :: IsData(records, k, r) {
      if k in SetKeys(data) {
        var r :| r in data && KeyOf(r) == k;
        assert IsData(records, k, r);
      }
      if r :| IsData(records, k, r) {
        assert r in data && KeyOf(r) == k;
      }
    }
  }

  lemma AttachIff(origin: Name, records: seq<RR>)
    requires forall r :: r in records ==> Stored(r, origin)
    ensures SignaturesAttach(records, origin) <==> SignaturesOk(origin, records)
  {
    hide Filter, Select, SetKeys, IsData;
    DataAre(records);
  }

  lemma {:induction false} SigsAre(sigs: seq<RR>, k: SetKey)
    requires forall s :: s in sigs ==> s.rdata.Rrsig?
    ensures forall s :: s in SelectSigs(sigs, k) <==> s in sigs && CoveredKey(s) == k
  {
    if sigs != [] {
      var front, last := sigs[..|sigs| - 1], sigs[|sigs| - 1];
      assert sigs == front + [last];
      SigsAre(front, k);
    }
  }

  /** The data of an RRset as a test on records. */
  function DataTest(k: SetKey): RR -> bool { (r: RR) => r.rtype != 46 && (r.name, r.rtype) == k }

  /** The rebuilt RRset: the data in stored order, then the signatures over them. */
  lemma SetAre(records: seq<RR>, k: SetKey, set_: seq<RR>)
    requires (forall s :: s in Filter(IsSig, records) ==> s.rdata.Rrsig?) && k in SetKeys(Filter(NotSig, records))
    requires set_ == Rebuilt(Filter(NotSig, records), Filter(IsSig, records))[k]
    ensures forall r :: r in set_ <==> IsData(records, k, r) || IsSigOver(records, k, r)
    ensures Filter(NotSig, set_) == Filter(DataTest(k), records)
  {
    hide Select, SelectSigs;
    var data, sigs := Filter(NotSig, records), Filter(IsSig, records);
    var d, s := Select(data, k), SelectSigs(sigs, k);
    DataAre(records);
    SigMembers(records, k);
    SelectIsFilter(records, k);
    DataThenSigs(d, s);
  }

  lemma SigMembers(records: seq<RR>, k: SetKey)
    requires forall s :: s in Filter(IsSig, records) ==> s.rdata.Rrsig?
    ensures forall s :: s in SelectSigs(Filter(IsSig, records), k) <==> IsSigOver(records, k, s)
  {
    hide SelectSigs;
    FilterMembers(IsSig, records);
    SigsAre(Filter(IsSig, records), k);
  }

  lemma DataThenSigs(d: seq<RR>, s: seq<RR>)
    requires (forall r :: r in d ==> NotSig(r)) && (forall r :: r in s ==> IsSig(r))
    ensures Filter(NotSig, d + s) == d
  {
    FilterConcat(NotSig, d, s);
    FilterAll(NotSig, d);
    FilterNone(NotSig, s);
  }

  lemma {:induction false} SelectIsFilter(records: seq<RR>, k: SetKey)
    ensures Select(Filter(NotSig, records), k) == Filter(DataTest(k), records)
  {
    if records != [] {
      var front, last := records[..|records| - 1], records[|records| - 1];
      SelectIsFilter(front, k);
      SelectStep(Filter(NotSig, front), last, k);
    }
  }

  lemma SelectStep(s: seq<RR>, r: RR, k: SetKey)
    ensures Select(s + [r], k) == Select(s, k) + (if KeyOf(r) == k then [r] else [])
    ensures s + [] == s
  {
    assert (s + [r])[..|s|] == s;
  }

  /** The record at `i` is the only one of that owner and type. */
  predicate AloneAt(records: seq<RR>, k: SetKey, i: int) {
    && 0 <= i < |records| && (records[i].name, records[i].rtype) == k
    && forall j :: 0 <= j < |records| && (records[j].name, records[j].rtype) == k ==> j == i
  }

  ghost predicate CutAt(origin: Name, records: seq<RR>, c: Name) {
    exists r :: r in records && r.rtype == 2 && r.name == c && c != origin
  }

  /** A delegation's NS set, or anything below a delegation. */
  ghost predicate ChildOwns(origin: Name, records: seq<RR>, k: SetKey) {
    exists c :: CutAt(origin, records, c) && (c < k.0 || (c == k.0 && k.1 == 2))
  }

  /** One TTL; an alias is one record without company but NSEC; a signature, unless
      the child is authoritative. */
  ghost predicate SetOk(origin: Name, records: seq<RR>, k: SetKey) {
    && (forall a, b :: IsData(records, k, a) && IsData(records, k, b) ==> a.ttl == b.ttl)
    && (k.1 == 5 ==> (exists i :: AloneAt(records, k, i))
                     && forall t :: t != 5 && t != 47 ==> !exists r :: IsData(records, (k.0, t), r))
    && (ChildOwns(origin, records, k) || exists s :: IsSigOver(records, k, s))
  }

  ghost predicate SetsOk(origin: Name, records: seq<RR>) {
    forall k :: (exists r :: IsData(records, k, r)) ==> SetOk(origin, records, k)
  }

  lemma CutsAt(origin: Name, records: seq<RR>)
    ensures forall c :: c in Cuts(records, origin) <==> CutAt(origin, records, c)
    ensures forall k :: LeftUnsigned(Cuts(records, origin), k) <==> ChildOwns(origin, records, k)
  {
    hide LeftUnsigned;
    var cuts := Cuts(records, origin);
    forall k ensures LeftUnsigned(cuts, k) <==> ChildOwns(origin, records, k) {
      ChildsStayUnsigned(cuts, k);
      if c :| c in cuts && (c < k.0 || (c == k.0 && k.1 == TYPE_NS)) {
        assert CutAt(origin, records, c);
      }
      if c :| CutAt(origin, records, c) && (c < k.0 || (c == k.0 && k.1 == 2)) {
        assert c in cuts;
      }
    }
  }

  lemma OneDatumIff(records: seq<RR>, k: SetKey)
    requires k.1 != 46
    ensures |Filter(DataTest(k), records)| == 1 <==> exists i :: AloneAt(records, k, i)
  {
    if |Filter(DataTest(k), records)| == 1 {
      var i := FilterOne(DataTest(k), records);
      assert AloneAt(records, k, i);
    }
    if i :| AloneAt(records, k, i) {
      assert OnlyAt(DataTest(k), records, i);
      FilterOnly(DataTest(k), records, i);
    }
  }

  lemma SetAcceptedIff(origin: Name, records: seq<RR>, k: SetKey, rrsets: map<SetKey, seq<RR>>)
    requires forall s :: s in Filter(IsSig, records) ==> s.rdata.Rrsig?
    requires rrsets == Rebuilt(Filter(NotSig, records), Filter(IsSig, records)) && k in rrsets
    ensures SetAccepted(rrsets, Cuts(records, origin), k) <==> SetOk(origin, records, k)
  {
    hide Select, SelectSigs, Filter, LeftUnsigned, ChildOwns, IsData, IsSigOver, AloneAt, DataTest, Rebuilt, Cuts;
    assert rrsets.Keys == SetKeys(Filter(NotSig, records)) by { RebuiltKeys(records); }
    DataAre(records);
    SetAre(records, k, rrsets[k]);
    CutsAt(origin, records);
    var data := Filter(NotSig, rrsets[k]);
    assert forall r :: r in data <==> IsData(records, k, r) by { TestedAre(records, k); }
    assert data != [] by { var r :| IsData(records, k, r); assert r in data; }
    assert data[0] in data;
    if k.1 == 5 {
      OneDatumIff(records, k);
      CompanyIff(records, rrsets.Keys, k.0);
    }
    assert (exists r :: r in rrsets[k] && IsSig(r)) <==> exists s :: IsSigOver(records, k, s) by {
      SigKinds(records, k);
    }
  }

  lemma RebuiltKeys(records: seq<RR>)
    requires forall s :: s in Filter(IsSig, records) ==> s.rdata.Rrsig?
    ensures Rebuilt(Filter(NotSig, records), Filter(IsSig, records)).Keys == SetKeys(Filter(NotSig, records))
  {
  }

  lemma TestedAre(records: seq<RR>, k: SetKey)
    ensures forall r :: r in Filter(DataTest(k), records) <==> IsData(records, k, r)
  {
    FilterMembers(DataTest(k), records);
  }

  lemma SigKinds(records: seq<RR>, k: SetKey)
    ensures forall s :: IsSigOver(records, k, s) ==> IsSig(s)
    ensures forall s :: IsData(records, k, s) ==> !IsSig(s)
  {
  }

  lemma CompanyIff(records: seq<RR>, keys: set<SetKey>, n: Name)
    requires forall k :: k in keys <==> exists r :: IsData(records, k, r)
    ensures CnameCompany(keys, n) <==> exists t :: t != 5 && t != 47 && exists r :: IsData(records, (n, t), r)
  {
    hide IsData;
    if CnameCompany(keys, n) {
      var k :| k in keys && k.0 == n && k.1 != TYPE_CNAME && k.1 != TYPE_NSEC;
      assert k == (n, k.1);
    }
    if t :| t != 5 && t != 47 && exists r :: IsData(records, (n, t), r) {
      assert (n, t) in keys;
    }
  }

  // ----- Names and the chain -----

  /** The name is at or above the owner of a record that is neither a signature nor an
      NSEC3 record nor below a delegation, and not above the apex. */
  ghost predicate Shows(origin: Name, records: seq<RR>, n: Name, r: RR) {
    && r in records && r.rtype != 46 && r.rtype != 50 && origin <= n && n <= r.name
    && forall c :: CutAt(origin, records, c) ==> !(c < r.name)
  }

  ghost predicate NamesAre(origin: Name, records: seq<RR>, names: set<Name>) {
    forall n :: n in names <==> exists r :: Shows(origin, records, n, r)
  }

  lemma NamesShown(origin: Name, records: seq<RR>)
    requires forall r :: r in records ==> origin <= r.name
    ensures var seen := Filter(Rehydration.Visible, records);
            NamesAre(origin, records, ExistingNames(seen, Cuts(records, origin), origin))
  {
    hide ExistingNames, CutAt, Cuts;
    var seen, cuts := Filter(Rehydration.Visible, records), Cuts(records, origin);
    FilterMembers(Rehydration.Visible, records);
    CutsAt(origin, records);
    forall n ensures n in ExistingNames(seen, cuts, origin) <==> exists r :: Shows(origin, records, n, r) {
      ExistsIffSupported(seen, cuts, origin, n);
      if r :| Supports(seen, cuts, origin, n, r) {
        assert origin == r.name[..|origin|] && n == r.name[..|n|];
        assert forall c :: CutAt(origin, records, c) ==> !StrictlyBelow(r.name, c);
        assert Shows(origin, records, n, r);
      }
      if r :| Shows(origin, records, n, r) {
        assert Supports(seen, cuts, origin, n, r);
      }
    }
  }

  /** The one NSEC record of a name, linked to the name that follows. */
  ghost predicate NsecAt(records: seq<RR>, names: set<Name>, n: Name, i: int) {
    AloneAt(records, (n, 47), i) && records[i].rdata.Nsec? && NextName(names, n, records[i].rdata.nextName)
  }

  /** The one NSEC3 record of a hash, with the zone's parameters, linked to the hash
      that follows. */
  ghost predicate Nsec3At(origin: Name, records: seq<RR>, iterations: int, salt: Octets, hashes: set<Octets>, h: Octets,
          i: int) {
    && AloneAt(records, (origin + [HashLabel(h)], 50), i) && records[i].rdata.Nsec3?
    && records[i].rdata.hashAlgorithm == 1 && records[i].rdata.flags == 0
    && records[i].rdata.iterations == iterations && records[i].rdata.salt == salt
    && NextHash(hashes, h, records[i].rdata.nextHash)
  }

  /** Every name has its link, and there are no links of the other kind. With NSEC3
      no two names share a hash and every hashed owner fits 255 octets. */
  ghost predicate ChainOk(env: Env, origin: Name, records: seq<RR>, mode: Mode, names: set<Name>) {
    match mode
    case NsecMode =>
      && (forall r :: r in records ==> r.rtype != 50)
      && forall n :: n in names ==> exists i :: NsecAt(records, names, n, i)
    case Nsec3Mode(iterations, salt) =>
      && (forall r :: r in records ==> r.rtype != 47)
      && (forall a, b :: a in names && b in names && env.digest(a, iterations, salt) == env.digest(b, iterations, salt)
                         ==> a == b)
      && forall n :: n in names ==>
           var h := env.digest(n, iterations, salt);
           && WireLength(origin) + 1 + |HashLabel(h)| <= 255
           && exists i :: Nsec3At(origin, records, iterations, salt, HashesOf(env, iterations, salt, names), h, i)
  }

  function HashesOf(env: Env, iterations: int, salt: Octets, names: set<Name>): set<Octets> {
    set n | n in names :: env.digest(n, iterations, salt)
  }

  lemma NextNameUnique(names: set<Name>, n: Name, a: Name, b: Name)
    requires NextName(names, n, a) && NextName(names, n, b)
    ensures a == b
  {
    hide NameLess, NameAscends;
    NameOrder();
    forall x, y ensures NameLess(x, y) <==> NameAscends(x, y) { CanonicalOrder.NamesAscend(x, y); }
  }

  lemma NextHashUnique(hashes: set<Octets>, h: Octets, a: Octets, b: Octets)
    requires NextHash(hashes, h, a) && NextHash(hashes, h, b)
    ensures a == b
  {
    hide OctetsLess, Ascends;
    OctetsOrder();
    forall x, y ensures OctetsLess(x, y) <==> Ascends(x, y) { CanonicalOrder.OctetsAscend(x, y); }
  }

  /** The set at a denial key begins with its one record. */
  lemma LinkSet(records: seq<RR>, rrsets: map<SetKey, seq<RR>>, k: SetKey, p: RR -> bool)
    requires forall s :: s in Filter(IsSig, records) ==> s.rdata.Rrsig?
    requires rrsets == Rebuilt(Filter(NotSig, records), Filter(IsSig, records)) && k.1 != 46
    requires forall r :: p(r) <==> r.rtype == k.1
    ensures (exists i :: AloneAt(records, k, i)) <==> k in rrsets && |Filter(p, rrsets[k])| == 1
    ensures forall i :: AloneAt(records, k, i) ==> k in rrsets && rrsets[k] != [] && rrsets[k][0] == records[i]
  {
    hide Rebuilt, SetKeys, DataTest;
    DataAre(records);
    RebuiltKeys(records);
    if k in rrsets {
      SetAre(records, k, rrsets[k]);
      OneDatumIff(records, k);
      DataFilter(records, k, rrsets[k], p);
    }
    forall i | AloneAt(records, k, i) ensures k in rrsets && rrsets[k] != [] && rrsets[k][0] == records[i] {
      assert IsData(records, k, records[i]);
      AloneFirst(records, k, rrsets[k], i);
    }
  }

  lemma DataFilter(records: seq<RR>, k: SetKey, set_: seq<RR>, p: RR -> bool)
    requires k.1 != 46 && forall r :: p(r) <==> r.rtype == k.1
    requires forall r :: r in set_ <==> IsData(records, k, r) || IsSigOver(records, k, r)
    ensures |Filter(p, set_)| == |Filter(NotSig, set_)|
  {
    FilterAgrees(p, NotSig, set_);
  }

  lemma {:induction false} FilterAgrees(p: RR -> bool, q: RR -> bool, s: seq<RR>)
    requires forall r :: r in s ==> (p(r) <==> q(r))
    ensures Filter(p, s) == Filter(q, s)
  {
    if s != [] {
      var front, last := s[..|s| - 1], s[|s| - 1];
      assert last in s && forall r :: r in front ==> r in s;
      FilterAgrees(p, q, front);
    }
  }

  lemma AloneFirst(records: seq<RR>, k: SetKey, set_: seq<RR>, i: int)
    requires AloneAt(records, k, i) && k.1 != 46
    requires (forall s :: s in Filter(IsSig, records) ==> s.rdata.Rrsig?) && k in SetKeys(Filter(NotSig, records))
    requires set_ == Rebuilt(Filter(NotSig, records), Filter(IsSig, records))[k]
    ensures set_ != [] && set_[0] == records[i]
  {
    hide SelectSigs, Select;
    assert OnlyAt(DataTest(k), records, i);
    FilterOnly(DataTest(k), records, i);
    SelectIsFilter(records, k);
  }

  lemma NsecEntryIff(origin: Name, records: seq<RR>, rrsets: map<SetKey, seq<RR>>, names: set<Name>, n: Name)
    requires forall r :: r in records ==> Stored(r, origin)
    requires forall s :: s in Filter(IsSig, records) ==> s.rdata.Rrsig?
    requires rrsets == Rebuilt(Filter(NotSig, records), Filter(IsSig, records)) && n in names
    ensures NsecEntry(rrsets, names, n) <==> exists i :: NsecAt(records, names, n, i)
    ensures forall i :: NsecAt(records, names, n, i) ==>
              && (n, TYPE_NSEC) in rrsets && rrsets[(n, TYPE_NSEC)] != [] && 0 <= i < |records|
              && rrsets[(n, TYPE_NSEC)][0] == records[i]
  {
    hide Rebuilt, NextAfter, SortedNames, NextName, Filter;
    LinkSet(records, rrsets, (n, TYPE_NSEC), IsNsec);
    NextNameIs(names, n);
    var next := NextAfter(SortedNames(names), n);
    if NsecEntry(rrsets, names, n) {
      var i :| AloneAt(records, (n, TYPE_NSEC), i);
      assert NsecAt(records, names, n, i);
    }
    if i :| NsecAt(records, names, n, i) {
      NextNameUnique(names, n, next, records[i].rdata.nextName);
    }
  }

  lemma Nsec3EntryIff(origin: Name, records: seq<RR>, rrsets: map<SetKey, seq<RR>>, mode: Mode, hashes: set<Octets>,
          h: Octets)
    requires forall s :: s in Filter(IsSig, records) ==> s.rdata.Rrsig?
    requires rrsets == Rebuilt(Filter(NotSig, records), Filter(IsSig, records)) && h in hashes && mode.Nsec3Mode?
    ensures var k := (origin + [HashLabel(h)], TYPE_NSEC3);
            && (Nsec3Entry(rrsets, mode, hashes, k.0, h)
                <==> exists i :: Nsec3At(origin, records, mode.iterations, mode.salt, hashes, h, i))
            && (forall i :: Nsec3At(origin, records, mode.iterations, mode.salt, hashes, h, i) ==>
                  k in rrsets && rrsets[k] != [] && rrsets[k][0] == records[i])
  {
    hide Rebuilt, NextAfter, SortedHashes, NextHash, Filter, HashLabel;
    var k := (origin + [HashLabel(h)], TYPE_NSEC3);
    LinkSet(records, rrsets, k, IsNsec3);
    NextHashIs(hashes, h);
    var next := NextAfter(SortedHashes(hashes), h);
    if Nsec3Entry(rrsets, mode, hashes, k.0, h) {
      var i :| AloneAt(records, k, i);
      assert Nsec3At(origin, records, mode.iterations, mode.salt, hashes, h, i);
    }
    if i :| Nsec3At(origin, records, mode.iterations, mode.salt, hashes, h, i) {
      NextHashUnique(hashes, h, next, records[i].rdata.nextHash);
    }
  }

  predicate LinkFound(rrsets: map<SetKey, seq<RR>>, mode: Mode, origin: Name, hashes: set<Octets>, h: Octets)
    requires mode.Nsec3Mode? && h in hashes
  {
    Nsec3Owner(origin, h).Some? && Nsec3Entry(rrsets, mode, hashes, Nsec3Owner(origin, h).value, h)
  }

  lemma {:induction false} NoBadLinkIff(rrsets: map<SetKey, seq<RR>>, mode: Mode, origin: Name, hashes: set<Octets>,
          order: seq<Octets>)
    requires mode.Nsec3Mode? && forall h :: h in order ==> h in hashes
    ensures FirstBadLink(rrsets, mode, origin, hashes, order).None?
            <==> forall h :: h in order ==> LinkFound(rrsets, mode, origin, hashes, h)
  {
    hide Nsec3Entry, Nsec3Owner;
    if order != [] {
      var front, last := order[..|order| - 1], order[|order| - 1];
      assert order == front + [last];
      NoBadLinkIff(rrsets, mode, origin, hashes, front);
      assert FirstBadLink(rrsets, mode, origin, hashes, order).None?
             <==> && FirstBadLink(rrsets, mode, origin, hashes, front).None?
                  && LinkFound(rrsets, mode, origin, hashes, last);
      if forall h :: h in front ==> LinkFound(rrsets, mode, origin, hashes, h) {
        assert forall h :: h in order ==> h in front || h == last;
      }
    }
  }

  lemma NsecChainIff(env: Env, origin: Name, records: seq<RR>, names: set<Name>, rrsets: map<SetKey, seq<RR>>)
    requires forall r :: r in records ==> Stored(r, origin)
    requires forall s :: s in Filter(IsSig, records) ==> s.rdata.Rrsig?
    requires rrsets == Rebuilt(Filter(NotSig, records), Filter(IsSig, records))
    ensures RebuiltDenial(env, origin, records, NsecMode, names, rrsets).Ok?
            <==> ChainOk(env, origin, records, NsecMode, names)
    ensures ChainOk(env, origin, records, NsecMode, names) ==>
              var chain := RebuiltDenial(env, origin, records, NsecMode, names, rrsets).value;
              && chain.1 == map[] && chain.0.Keys == names
              && forall n, i :: n in names && NsecAt(records, names, n, i) ==>
                   0 <= i < |records| && chain.0[n] == records[i]
  {
    hide Rebuilt, NsecEntry, NsecAt, Filter;
    forall n | n in names
      ensures NsecEntry(rrsets, names, n) <==> exists i :: NsecAt(records, names, n, i)
      ensures forall i :: NsecAt(records, names, n, i) ==>
                && (n, TYPE_NSEC) in rrsets && rrsets[(n, TYPE_NSEC)] != [] && 0 <= i < |records|
                && rrsets[(n, TYPE_NSEC)][0] == records[i]
    {
      NsecEntryIff(origin, records, rrsets, names, n);
    }
  }

  lemma HashesAre(env: Env, mode: Mode, names: set<Name>)
    requires mode.Nsec3Mode? && HashesDistinct(env, mode, names)
    ensures var m := HashIndex(env, mode, names);
            && m.Keys == HashesOf(env, mode.iterations, mode.salt, names)
            && (forall h :: h in m ==> m[h] in names && env.digest(m[h], mode.iterations, mode.salt) == h)
  {
  }

  lemma Nsec3LinksIff(env: Env, origin: Name, records: seq<RR>, mode: Mode, names: set<Name>,
          rrsets: map<SetKey, seq<RR>>, n: Name)
    requires forall s :: s in Filter(IsSig, records) ==> s.rdata.Rrsig?
    requires rrsets == Rebuilt(Filter(NotSig, records), Filter(IsSig, records)) && mode.Nsec3Mode? && n in names
    ensures var hashes := HashesOf(env, mode.iterations, mode.salt, names);
            var h := env.digest(n, mode.iterations, mode.salt);
            LinkFound(rrsets, mode, origin, hashes, h)
            <==> && WireLength(origin) + 1 + |HashLabel(h)| <= 255
                 && exists i :: Nsec3At(origin, records, mode.iterations, mode.salt, hashes, h, i)
  {
    hide Rebuilt, Nsec3Entry, Nsec3At, HashLabel, Filter;
    var hashes, h := HashesOf(env, mode.iterations, mode.salt, names), env.digest(n, mode.iterations, mode.salt);
    Nsec3EntryIff(origin, records, rrsets, mode, hashes, h);
  }

  lemma Nsec3ChainIff(env: Env, origin: Name, records: seq<RR>, mode: Mode, names: set<Name>,
          rrsets: map<SetKey, seq<RR>>)
    requires forall s :: s in Filter(IsSig, records) ==> s.rdata.Rrsig?
    requires rrsets == Rebuilt(Filter(NotSig, records), Filter(IsSig, records)) && mode.Nsec3Mode?
    ensures RebuiltDenial(env, origin, records, mode, names, rrsets).Ok? <==> ChainOk(env, origin, records, mode, names)
  {
    hide Rebuilt, LinkFound, Nsec3At, HashLabel, Filter, FirstBadLink, HashesOf, HashIndex, SortedHashes;
    var hashes := HashesOf(env, mode.iterations, mode.salt, names);
    forall n | n in names ensures env.digest(n, mode.iterations, mode.salt) in hashes { Hashed(env, mode, names, n); }
    if HashesDistinct(env, mode, names) {
      HashesAre(env, mode, names);
      NoBadLinkIff(rrsets, mode, origin, hashes, SortedHashes(hashes));
      forall n | n in names
        ensures var h := env.digest(n, mode.iterations, mode.salt);
                LinkFound(rrsets, mode, origin, hashes, h)
                <==> && WireLength(origin) + 1 + |HashLabel(h)| <= 255
                     && exists i :: Nsec3At(origin, records, mode.iterations, mode.salt, hashes, h, i)
      {
        Nsec3LinksIff(env, origin, records, mode, names, rrsets, n);
      }
      forall h | h in hashes ensures exists n :: n in names && env.digest(n, mode.iterations, mode.salt) == h {
        HashedBy(env, mode, names, h);
      }
    }
  }

  lemma Hashed(env: Env, mode: Mode, names: set<Name>, n: Name)
    requires mode.Nsec3Mode? && n in names
    ensures env.digest(n, mode.iterations, mode.salt) in HashesOf(env, mode.iterations, mode.salt, names)
  {
  }

  lemma HashedBy(env: Env, mode: Mode, names: set<Name>, h: Octets)
    requires mode.Nsec3Mode? && h in HashesOf(env, mode.iterations, mode.salt, names)
    ensures exists n :: n in names && env.digest(n, mode.iterations, mode.salt) == h
  {
  }

  lemma Nsec3LinkIs(env: Env, origin: Name, records: seq<RR>, mode: Mode, names: set<Name>,
          rrsets: map<SetKey, seq<RR>>, n: Name, i: int)
    requires forall s :: s in Filter(IsSig, records) ==> s.rdata.Rrsig?
    requires rrsets == Rebuilt(Filter(NotSig, records), Filter(IsSig, records)) && mode.Nsec3Mode? && n in names
    requires WireLength(origin) + 1 + |HashLabel(env.digest(n, mode.iterations, mode.salt))| <= 255
    requires Nsec3At(origin, records, mode.iterations, mode.salt, HashesOf(env, mode.iterations, mode.salt, names),
                     env.digest(n, mode.iterations, mode.salt), i)
    ensures var m := Nsec3Denial(env, origin, mode, names, rrsets);
            0 <= i < |records| && n in m && m[n] == records[i]
  {
    hide Rebuilt, HashLabel, Filter, NextHash, AloneAt, Nsec3Entry;
    var hashes, h := HashesOf(env, mode.iterations, mode.salt, names), env.digest(n, mode.iterations, mode.salt);
    Nsec3EntryIff(origin, records, rrsets, mode, hashes, h);
    assert 0 <= i < |records| by { AloneInside(records, (origin + [HashLabel(h)], 50), i); }
    assert Nsec3Key(env, origin, mode, n) == (origin + [HashLabel(h)], TYPE_NSEC3);
  }

  lemma AloneInside(records: seq<RR>, k: SetKey, i: int)
    requires AloneAt(records, k, i)
    ensures 0 <= i < |records|
  {
  }

  // ----- The theorems -----

  /** What is accepted as a zone with that mode and those names. */
  ghost predicate AcceptedAs(env: Env, origin: Name, records: seq<RR>, mode: Mode, names: set<Name>) {
    && RecordsOk(origin, records) && ModeIs(origin, records, mode) && SignaturesOk(origin, records)
    && SetsOk(origin, records) && NamesAre(origin, records, names) && ChainOk(env, origin, records, mode, names)
    && exists s :: s in records && s.rtype == 46
  }

  lemma SetsIff(origin: Name, records: seq<RR>)
    requires forall s :: s in Filter(IsSig, records) ==> s.rdata.Rrsig?
    ensures SetsAccepted(Rebuilt(Filter(NotSig, records), Filter(IsSig, records)), Cuts(records, origin))
            <==> SetsOk(origin, records)
  {
    hide SetAccepted, SetOk, IsData, Rebuilt, Cuts, SetKeys;
    var rrsets := Rebuilt(Filter(NotSig, records), Filter(IsSig, records));
    DataAre(records);
    RebuiltKeys(records);
    forall k | k in rrsets ensures SetAccepted(rrsets, Cuts(records, origin), k) <==> SetOk(origin, records, k) {
      SetAcceptedIff(origin, records, k, rrsets);
    }
  }

  lemma ChainIff(env: Env, origin: Name, records: seq<RR>, mode: Mode, names: set<Name>, rrsets: map<SetKey, seq<RR>>)
    requires forall r :: r in records ==> Stored(r, origin)
    requires forall s :: s in Filter(IsSig, records) ==> s.rdata.Rrsig?
    requires rrsets == Rebuilt(Filter(NotSig, records), Filter(IsSig, records))
    ensures RebuiltDenial(env, origin, records, mode, names, rrsets).Ok? <==> ChainOk(env, origin, records, mode, names)
  {
    hide Rebuilt, RebuiltDenial, ChainOk, Filter;
    match mode
    case NsecMode => NsecChainIff(env, origin, records, names, rrsets);
    case Nsec3Mode(_, _) => Nsec3ChainIff(env, origin, records, mode, names, rrsets);
  }

  lemma SignaturesTyped(origin: Name, records: seq<RR>)
    requires forall r :: r in records ==> Stored(r, origin)
    ensures forall s :: s in Filter(IsSig, records) <==> s in records && s.rtype == 46
    ensures forall s :: s in Filter(IsSig, records) ==> s.rdata.Rrsig?
  {
    FilterMembers(IsSig, records);
  }

  lemma TimesKnown(sigs: seq<RR>)
    requires forall s :: s in sigs ==> s.rdata.Rrsig?
    ensures Latest(Inceptions(sigs)).Some? <==> sigs != []
    ensures Earliest(Expirations(sigs)).Some? <==> sigs != []
  {
  }

  /** Exactly which record lists are accepted. */
  lemma RehydratedIff(env: Env, origin: Name, records: seq<RR>)
    ensures Rehydrate(env, origin, records).Ok?
            <==> exists mode, names :: AcceptedAs(env, origin, records, mode, names)
  {
    hide RecordsOk, ModeIs, SignaturesOk, SetsOk, NamesAre, ChainOk, RecordsStored, ModeOf, SignaturesAttach,
         SetsAccepted, Rebuilt, RebuiltDenial, ExistingNames, Cuts, Latest, Earliest, Inceptions, Expirations, SerialOf;
    StoredIff(origin, records);
    if RecordsStored(records, origin) {
      assert forall r :: r in records ==> Stored(r, origin) by { AllStored(origin, records); }
      var names := ExistingNames(Filter(Rehydration.Visible, records), Cuts(records, origin), origin);
      SignaturesTyped(origin, records);
      var rrsets := Rebuilt(Filter(NotSig, records), Filter(IsSig, records));
      TimesKnown(Filter(IsSig, records));
      AttachIff(origin, records);
      SetsIff(origin, records);
      NamesShown(origin, records);
      assert Filter(IsSig, records) != [] <==> exists s :: s in records && s.rtype == 46 by {
        if Filter(IsSig, records) != [] { assert Filter(IsSig, records)[0] in Filter(IsSig, records); }
      }
      forall mode ensures ModeOf(Filter(IsParam, records), origin) == Ok(mode) <==> ModeIs(origin, records, mode) {
        ModeIff(origin, records, mode);
      }
      forall mode ensures RebuiltDenial(env, origin, records, mode, names, rrsets).Ok?
                          <==> ChainOk(env, origin, records, mode, names) {
        ChainIff(env, origin, records, mode, names, rrsets);
      }
      forall other | NamesAre(origin, records, other) ensures other == names {
        NamesUnique(origin, records, names, other);
      }
      var mode := ModeOf(Filter(IsParam, records), origin);
      if mode.Ok? {
        assert AcceptedAs(env, origin, records, mode.value, names) <==> Rehydrate(env, origin, records).Ok?;
      }
    }
  }

  lemma AllStored(origin: Name, records: seq<RR>)
    requires RecordsStored(records, origin)
    ensures forall r :: r in records ==> Stored(r, origin)
  {
  }

  lemma NamesUnique(origin: Name, records: seq<RR>, a: set<Name>, b: set<Name>)
    requires NamesAre(origin, records, a) && NamesAre(origin, records, b)
    ensures a == b
  {
  }

  /** The parts an accepted list is rebuilt from. */
  lemma RebuiltParts(env: Env, origin: Name, records: seq<RR>) returns (rrsets: map<SetKey, seq<RR>>)
    requires Rehydrate(env, origin, records).Ok?
    ensures RecordsOk(origin, records) && forall r :: r in records ==> Stored(r, origin)
    ensures (forall s :: s in Filter(IsSig, records) <==> s in records && s.rtype == 46)
    ensures (forall s :: s in Filter(IsSig, records) ==> s.rdata.Rrsig?) && Filter(IsSig, records) != []
    ensures rrsets == Rebuilt(Filter(NotSig, records), Filter(IsSig, records))
    ensures var z := Rehydrate(env, origin, records).value;
            && z.origin == origin && z.records == records && z.rrsets == rrsets && z.cuts == Cuts(records, origin)
            && ModeOf(Filter(IsParam, records), origin) == Ok(z.mode)
            && z.names == ExistingNames(Filter(Rehydration.Visible, records), z.cuts, origin)
            && RebuiltDenial(env, origin, records, z.mode, z.names, rrsets) == Ok((z.denial, z.hashes))
            && |Filter(IsSoa, records)| == 1 && z.serial == SerialOf(records)
            && Latest(Inceptions(Filter(IsSig, records))) == Some(z.inception)
            && Earliest(Expirations(Filter(IsSig, records))) == Some(z.expiration)
  {
    hide RecordsOk, ModeOf, SignaturesAttach, SetsAccepted, Rebuilt, RebuiltDenial, ExistingNames, Cuts, Latest,
         Earliest, Inceptions, Expirations, SerialOf;
    StoredIff(origin, records);
    SignaturesTyped(origin, records);
    TimesKnown(Filter(IsSig, records));
    rrsets := Rebuilt(Filter(NotSig, records), Filter(IsSig, records));
  }

  /** The accepted zone has the records as they are, their SOA's serial, and as names,
      delegations and mode what the records say. */
  lemma RehydratedFrameIs(env: Env, origin: Name, records: seq<RR>)
    requires Rehydrate(env, origin, records).Ok?
    ensures var z := Rehydrate(env, origin, records).value;
            && z.origin == origin && z.records == records && ModeIs(origin, records, z.mode)
            && NamesAre(origin, records, z.names) && (forall c :: c in z.cuts <==> CutAt(origin, records, c))
            && exists i :: && 0 <= i < |records| && SoaAt(origin, records, i) && records[i].rdata.Soa?
                           && z.serial == records[i].rdata.serial
  {
    hide Rehydrate, ModeIs, NamesAre, CutAt, Cuts, ExistingNames, Rebuilt, RebuiltDenial, ModeOf, RecordsOk, SoaAt,
         SerialOf, Latest, Earliest, Inceptions, Expirations;
    var rrsets := RebuiltParts(env, origin, records);
    var z := Rehydrate(env, origin, records).value;
    ModeIff(origin, records, z.mode);
    NamesShown(origin, records);
    CutsAt(origin, records);
    var i := SerialIs(origin, records);
  }

  lemma SerialIs(origin: Name, records: seq<RR>) returns (i: int)
    requires RecordsOk(origin, records) && |Filter(IsSoa, records)| == 1
    ensures 0 <= i < |records| && SoaAt(origin, records, i) && records[i].rdata.Soa?
    ensures SerialOf(records) == records[i].rdata.serial
  {
    i :| SoaAt(origin, records, i);
    FilterOnly(IsSoa, records, i);
    assert records[i] in records;
  }

  /** Its RRsets are the data of one owner and type in stored order, then the
      signatures over them. */
  lemma RehydratedSetsAre(env: Env, origin: Name, records: seq<RR>, k: SetKey)
    requires Rehydrate(env, origin, records).Ok?
    ensures var z := Rehydrate(env, origin, records).value;
            && (k in z.rrsets <==> exists r :: IsData(records, k, r))
            && (k in z.rrsets ==>
                  && (forall r :: r in z.rrsets[k] <==> IsData(records, k, r) || IsSigOver(records, k, r))
                  && Filter(DataTest(k), records) <= z.rrsets[k])
  {
    hide Rehydrate, Cuts, ExistingNames, RebuiltDenial, ModeOf, RecordsOk, IsData, IsSigOver;
    var rrsets := RebuiltParts(env, origin, records);
    DataAre(records);
    if k in rrsets {
      SetAre(records, k, rrsets[k]);
      SelectIsFilter(records, k);
    }
  }

  lemma Nsec3ChainIs(env: Env, origin: Name, records: seq<RR>, mode: Mode, names: set<Name>,
          rrsets: map<SetKey, seq<RR>>, chain: (map<Name, RR>, map<Octets, Name>), n: Name, i: int)
    requires forall s :: s in Filter(IsSig, records) ==> s.rdata.Rrsig?
    requires rrsets == Rebuilt(Filter(NotSig, records), Filter(IsSig, records)) && mode.Nsec3Mode? && n in names
    requires RebuiltDenial(env, origin, records, mode, names, rrsets) == Ok(chain)
    requires ChainOk(env, origin, records, mode, names)
    ensures var hashes := HashesOf(env, mode.iterations, mode.salt, names);
            var h := env.digest(n, mode.iterations, mode.salt);
            && chain.1.Keys == hashes && h in chain.1 && chain.1[h] == n
            && (Nsec3At(origin, records, mode.iterations, mode.salt, hashes, h, i) ==>
                  0 <= i < |records| && n in chain.0 && chain.0[n] == records[i])
  {
    hide Rebuilt, HashLabel, Nsec3At, Nsec3Denial, FirstBadLink, HashesOf, Filter;
    HashesAre(env, mode, names);
    Hashed(env, mode, names, n);
    var hashes, h := HashesOf(env, mode.iterations, mode.salt, names), env.digest(n, mode.iterations, mode.salt);
    if Nsec3At(origin, records, mode.iterations, mode.salt, hashes, h, i) {
      Nsec3LinkIs(env, origin, records, mode, names, rrsets, n, i);
    }
  }

  /** Its chain is the records' own: each name's link is the one record found for it. */
  lemma RehydratedChainIs(env: Env, origin: Name, records: seq<RR>, n: Name, i: int)
    requires Rehydrate(env, origin, records).Ok? && n in Rehydrate(env, origin, records).value.names
    ensures var z := Rehydrate(env, origin, records).value;
            && ChainOk(env, origin, records, z.mode, z.names)
            && match z.mode
               case NsecMode =>
                 NsecAt(records, z.names, n, i) ==> 0 <= i < |records| && n in z.denial && z.denial[n] == records[i]
               case Nsec3Mode(iterations, salt) =>
                 var hashes, h := HashesOf(env, iterations, salt, z.names), env.digest(n, iterations, salt);
                 && z.hashes.Keys == hashes && h in z.hashes && z.hashes[h] == n
                 && (Nsec3At(origin, records, iterations, salt, hashes, h, i) ==>
                       0 <= i < |records| && n in z.denial && z.denial[n] == records[i])
  {
    hide Rehydrate, Cuts, ExistingNames, ModeOf, RecordsOk, Rebuilt, RebuiltDenial, ChainOk, HashesOf, Nsec3At, NsecAt,
         SerialOf, Latest, Earliest, Inceptions, Expirations;
    var rrsets := RebuiltParts(env, origin, records);
    var z := Rehydrate(env, origin, records).value;
    ChainIff(env, origin, records, z.mode, z.names, rrsets);
    match z.mode
    case NsecMode => NsecChainIff(env, origin, records, z.names, rrsets);
    case Nsec3Mode(iterations, salt) =>
      Nsec3ChainIs(env, origin, records, z.mode, z.names, rrsets, (z.denial, z.hashes), n, i);
  }

  /** How far a 32-bit time lies after another. */
  function After(base: int, t: int): int { (t - base) % 0x1_0000_0000 }

  ghost predicate IsInception(records: seq<RR>, t: int) {
    exists s :: s in records && s.rdata.Rrsig? && s.rdata.sig.inception == t
  }

  ghost predicate IsExpiration(records: seq<RR>, t: int) {
    exists s :: s in records && s.rdata.Rrsig? && s.rdata.sig.expiration == t
  }

  lemma InceptionsAre(records: seq<RR>, sigs: seq<RR>)
    requires forall s :: s in sigs <==> s in records && s.rdata.Rrsig?
    ensures forall t :: t in Inceptions(sigs) <==> IsInception(records, t)
  {
    forall t ensures t in Inceptions(sigs) <==> IsInception(records, t) {
      if t in Inceptions(sigs) {
        var i :| 0 <= i < |sigs| && Inceptions(sigs)[i] == t;
        assert sigs[i] in sigs;
      }
      if IsInception(records, t) {
        var s :| s in sigs && s.rdata.sig.inception == t;
        var i :| 0 <= i < |sigs| && sigs[i] == s;
        assert Inceptions(sigs)[i] == t;
      }
    }
  }

  lemma ExpirationsAre(records: seq<RR>, sigs: seq<RR>)
    requires forall s :: s in sigs <==> s in records && s.rdata.Rrsig?
    ensures forall t :: t in Expirations(sigs) <==> IsExpiration(records, t)
  {
    forall t ensures t in Expirations(sigs) <==> IsExpiration(records, t) {
      if t in Expirations(sigs) {
        var i :| 0 <= i < |sigs| && Expirations(sigs)[i] == t;
        assert sigs[i] in sigs;
      }
      if IsExpiration(records, t) {
        var s :| s in sigs && s.rdata.sig.expiration == t;
        var i :| 0 <= i < |sigs| && sigs[i] == s;
        assert Expirations(sigs)[i] == t;
      }
    }
  }

  /** Its window begins with the latest inception, wherever all of them lie within
      half of the 32-bit circle. */
  lemma RehydratedInceptionIs(env: Env, origin: Name, records: seq<RR>, base: int)
    requires Rehydrate(env, origin, records).Ok?
    requires forall t :: IsInception(records, t) ==> 0 <= t < 0x1_0000_0000 && After(base, t) < 0x8000_0000
    ensures var z := Rehydrate(env, origin, records).value;
            IsInception(records, z.inception)
            && forall t :: IsInception(records, t) ==> After(base, t) <= After(base, z.inception)
  {
    hide Rehydrate, Cuts, ExistingNames, ModeOf, RecordsOk, Rebuilt, RebuiltDenial, Filter, Latest, Earliest,
         IsInception;
    var rrsets := RebuiltParts(env, origin, records);
    var sigs := Filter(IsSig, records);
    forall s | s in records && s.rdata.Rrsig? ensures s in sigs { assert Stored(s, origin); }
    InceptionsAre(records, sigs);
    FoldsFindExtremes(base, Inceptions(sigs));
  }

  /** Its window ends with the earliest expiration likewise. */
  lemma RehydratedExpirationIs(env: Env, origin: Name, records: seq<RR>, base: int)
    requires Rehydrate(env, origin, records).Ok?
    requires forall t :: IsExpiration(records, t) ==> 0 <= t < 0x1_0000_0000 && After(base, t) < 0x8000_0000
    ensures var z := Rehydrate(env, origin, records).value;
            IsExpiration(records, z.expiration)
            && forall t :: IsExpiration(records, t) ==> After(base, z.expiration) <= After(base, t)
  {
    hide Rehydrate, Cuts, ExistingNames, ModeOf, RecordsOk, Rebuilt, RebuiltDenial, Filter, Latest, Earliest,
         IsExpiration;
    var rrsets := RebuiltParts(env, origin, records);
    var sigs := Filter(IsSig, records);
    forall s | s in records && s.rdata.Rrsig? ensures s in sigs { assert Stored(s, origin); }
    ExpirationsAre(records, sigs);
    FoldsFindExtremes(base, Expirations(sigs));
  }
}
