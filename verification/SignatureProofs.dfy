/** Every signature a signed zone serves verifies over the records it is served with. */
module SignatureProofs {
  import opened Basics
  import opened Seqs
  import opened Names
  import opened Records
  import opened Signing
  import opened Zone
  import opened ZoneFacts
  import opened Resolver
  import opened Answers
  import opened Queries
  import opened ResolveProofs

  /** The keys that sign an RRset: every key-signing key the DNSKEY set, the
      zone-signing key every other. */
  function Signers(req: Request, k: SetKey): seq<Key> { if k.1 == TYPE_DNSKEY then req.ksks else [req.zsk] }

  ghost predicate HasSignature(env: Env, key: Key, data: seq<RR>, s: seq<RR>) {
    exists r :: r in s && IsSig(r) && r.rdata.Rrsig? && Verified(env, key, data, r.rdata.sig)
  }

  lemma {:induction false} EachKskSigns(env: Env, req: Request, ksks: seq<Key>, k: SetKey, data: seq<RR>, key: Key)
    requires data != [] && KeyOf(data[0]) == k && KskSignatures(env, req, ksks, data).Ok? && key in ksks
    ensures HasSignature(env, key, data, KskSignatures(env, req, ksks, data).value)
  {
    hide SignRrset, Verified;
    var front, last := ksks[..|ksks| - 1], ksks[|ksks| - 1];
    var sigs := KskSignatures(env, req, ksks, data).value;
    assert ksks == front + [last];
    if key == last {
      SignRrsetShape(env, req, last, k, data, 257);
      assert sigs[|sigs| - 1] in sigs;
    } else {
      EachKskSigns(env, req, front, k, data, key);
      var r :| r in KskSignatures(env, req, front, data).value
               && IsSig(r) && r.rdata.Rrsig? && Verified(env, key, data, r.rdata.sig);
      assert r in sigs;
    }
  }

  lemma EachSignerSigns(env: Env, req: Request, cuts: set<Name>, k: SetKey, data: seq<RR>, key: Key)
    requires req.ksks != [] && data != [] && KeyOf(data[0]) == k && Signatures(env, req, cuts, k, data).Ok?
    requires !LeftUnsigned(cuts, k) && key in Signers(req, k)
    ensures HasSignature(env, key, data, Signatures(env, req, cuts, k, data).value)
  {
    hide SignRrset, Verified, LeftUnsigned;
    if k.1 == TYPE_DNSKEY {
      EachKskSigns(env, req, req.ksks, k, data, key);
    } else {
      SignRrsetShape(env, req, req.zsk, k, data, if SameKey(env, req) then 257 else 256);
      var sigs := Signatures(env, req, cuts, k, data).value;
      assert sigs[0] in sigs;
    }
  }

  lemma SignatureAmong(env: Env, key: Key, data: seq<RR>, sigs: seq<RR>)
    requires HasSignature(env, key, data, sigs)
    ensures HasSignature(env, key, data, data + sigs)
  {
    hide Verified;
    var r :| r in sigs && IsSig(r) && r.rdata.Rrsig? && Verified(env, key, data, r.rdata.sig);
    assert r in data + sigs;
  }

  /** A cut's NS set, or anything below a cut. */
  ghost predicate BelongsToChild(cuts: set<Name>, k: SetKey) {
    exists c :: c in cuts && (c < k.0 || (c == k.0 && k.1 == TYPE_NS))
  }

  lemma ChildsStayUnsigned(cuts: set<Name>, k: SetKey)
    ensures LeftUnsigned(cuts, k) <==> BelongsToChild(cuts, k)
  {
    if Occluded(cuts, k.0) {
      var c :| c in cuts && StrictlyBelow(k.0, c);
      assert c < k.0;
    }
  }

  /** Signing covers every authoritative RRset: unless it lies below a cut or is a
      cut's NS set, its data carries a signature of each key that is to sign it,
      and each signature is made by a zone key over that data. */
  lemma EveryAuthoritativeSetIsSigned(env: Env, req: Request, k: SetKey)
    requires SignZone(env, req).Ok? && k in SignZone(env, req).value.rrsets
    ensures var z := SignZone(env, req).value;
            var s := z.rrsets[k];
            && Filter(NotSig, s) != []
            && (forall r :: r in Filter(NotSig, s) ==> KeyOf(r) == k)
            && (forall r :: r in s && IsSig(r) ==> SignedBy(env, req, k, Filter(NotSig, s), r))
            && ((exists r :: r in s && IsSig(r)) <==> !BelongsToChild(z.cuts, k))
            && (!BelongsToChild(z.cuts, k) ==>
                  forall key :: key in Signers(req, k) ==> HasSignature(env, key, Filter(NotSig, s), s))
  {
    hide SignZone, Prepare, DenialChain, SignedSet, AllRecords, CanonicalSet, Signatures, SignedBy, SignatureOver,
         Flatten, LeftUnsigned, BelongsToChild, Select, SetKeys, SortedKeys, HasSignature, Signers;
    var plan, chain, all := SignedParts(env, req);
    var z := SignZone(env, req).value;
    ChildsStayUnsigned(z.cuts, k);
    var group := Select(all, k);
    SignedGroup(env, req, plan, chain, all, k);
    SignedSetParts(env, req, z.cuts, k, group);
    CanonicalSetMembers(env, k.1, group);
    var data := CanonicalSet(env, k.1, group).value;
    assert data[0] in data;
    SignaturesShape(env, req, z.cuts, k, data);
    var sigs := Signatures(env, req, z.cuts, k, data).value;
    forall r | r in sigs ensures IsSig(r) { SignedIsSig(env, req, k, data, r); }
    FilterConcat(NotSig, data, sigs);
    FilterAll(NotSig, data);
    FilterNone(NotSig, sigs);
    assert data + [] == data;
    if sigs != [] {
      assert sigs[0] in z.rrsets[k];
    }
    if !LeftUnsigned(z.cuts, k) {
      forall key | key in Signers(req, k) ensures HasSignature(env, key, data, data + sigs) {
        EachSignerSigns(env, req, z.cuts, k, data, key);
        SignatureAmong(env, key, data, sigs);
      }
    }
  }

  lemma SignedSetParts(env: Env, req: Request, cuts: set<Name>, k: SetKey, rrset: seq<RR>)
    requires req.ksks != [] && SignedSet(env, req, cuts, k, rrset).Ok?
    ensures CanonicalSet(env, k.1, rrset).Ok?
    ensures Signatures(env, req, cuts, k, CanonicalSet(env, k.1, rrset).value).Ok?
    ensures SignedSet(env, req, cuts, k, rrset).value
            == CanonicalSet(env, k.1, rrset).value
               + Signatures(env, req, cuts, k, CanonicalSet(env, k.1, rrset).value).value
  {
    hide CanonicalSet, Signatures;
  }

  lemma SignedIsSig(env: Env, req: Request, k: SetKey, data: seq<RR>, r: RR)
    requires SignedBy(env, req, k, data, r)
    ensures IsSig(r)
  {
  }

  /** The group behind a key is nonempty data of that key. */
  lemma SignedGroup(env: Env, req: Request, plan: Plan, chain: (map<Name, RR>, map<Octets, Name>), all: seq<RR>,
          k: SetKey)
    requires SignZone(env, req).Ok? && Prepare(env, req) == Ok(plan) && DenialChain(env, req, plan) == Ok(chain)
    requires chain.0.Keys == plan.names && forall h :: h in chain.1 ==> chain.1[h] in plan.names
    requires all == AllRecords(req, plan, chain) && k in SetKeys(all)
    ensures Select(all, k) != [] && forall r :: r in Select(all, k) ==> KeyOf(r) == k && NotSig(r)
  {
    hide SignZone, Prepare, DenialChain, AllRecords, Bitmap, ExpectedBitmap;
    SelectMembers(all, k);
    var w :| w in all && KeyOf(w) == k;
    assert w in Select(all, k);
    PlanFacts(env, req);
    AllRecordsMembers(env, req, plan, chain);
    forall r | r in all ensures NotSig(r) {
      if m :| m in plan.names && r == chain.0[m] {
        DenialBitmap(env, req, plan, chain, m);
      }
    }
  }

  lemma {:induction false} FilterRenamed(s: seq<RR>, owner: Name)
    ensures Filter(NotSig, Renamed(s, owner)) == Renamed(Filter(NotSig, s), owner)
  {
    if s != [] {
      var front, last := s[..|s| - 1], s[|s| - 1];
      FilterRenamed(front, owner);
      assert Renamed(s, owner)[..|s| - 1] == Renamed(front, owner);
      if NotSig(last) {
        assert Filter(NotSig, s)[..|Filter(NotSig, s)| - 1] == Filter(NotSig, front);
      }
    }
  }

  /** The RRset of type `t` at the wildcard answers `qtype`; an alias does when no other does. */
  ghost predicate Expands(z: SignedZone, wildcard: Name, qtype: RType, t: RType) {
    || Selects(z, wildcard, qtype, t)
    || (t == TYPE_CNAME && (wildcard, t) in z.rrsets && forall u :: !Selects(z, wildcard, qtype, u))
  }

  /** The query is answered by expanding an existing wildcard. */
  ghost predicate AnsweredByWildcard(z: SignedZone, qname: Name, qtype: RType) {
    && Unmatched(z, qname, qtype)
    && exists encloser, next, t ::
         && IsClosestEncloser(z.names, qname, encloser, next)
         && encloser + [WILDCARD] in z.names && Expands(z, encloser + [WILDCARD], qtype, t)
  }

  lemma WildcardDecides(env: Env, z: SignedZone, wildcard: Name, qtype: RType)
    requires WellFormed(env, z)
    ensures forall t :: Expands(z, wildcard, qtype, t) ==>
              (wildcard, t) in z.rrsets && WildcardSet(z, wildcard, qtype) == Some(z.rrsets[(wildcard, t)])
    ensures WildcardSet(z, wildcard, qtype) == None <==> forall t :: !Expands(z, wildcard, qtype, t)
  {
    hide WellFormed, EffectiveType;
    TypeDecides(env, z, wildcard, qtype);
    if t :| Selects(z, wildcard, qtype, t) {
      assert Expands(z, wildcard, qtype, t);
    } else if (wildcard, TYPE_CNAME) in z.rrsets {
      assert Expands(z, wildcard, qtype, TYPE_CNAME);
    }
  }

  /** The encloser found and the type its wildcard answers with. */
  lemma ExpandedType(env: Env, z: SignedZone, qname: Name, qtype: RType) returns (t: RType)
    requires WellFormed(env, z) && z.origin <= qname && ValidName(qname) && AnsweredByWildcard(z, qname, qtype)
    ensures ClosestEncloser(z, qname).Ok?
    ensures var p := ClosestEncloser(z, qname).value;
            && IsClosestEncloser(z.names, qname, p.0, p.1) && p.0 + [WILDCARD] in z.names
            && Expands(z, p.0 + [WILDCARD], qtype, t)
  {
    hide WellFormed, ClosestEncloser, IsClosestEncloser, Unmatched, Expands;
    assert qname !in z.names by { UnmatchedIsMissing(z, qname, qtype); }
    EncloserFound(env, z, qname);
    var encloser, next, u :|
      && IsClosestEncloser(z.names, qname, encloser, next)
      && encloser + [WILDCARD] in z.names && Expands(z, encloser + [WILDCARD], qtype, u);
    var p := ClosestEncloser(z, qname).value;
    EncloserIsUnique(z.names, qname, encloser, next, p.0, p.1);
    t := u;
  }

  lemma UnmatchedIsMissing(z: SignedZone, qname: Name, qtype: RType)
    requires Unmatched(z, qname, qtype)
    ensures qname !in z.names
  {
  }

  /** The records of an RRset that are sent: all with DNSSEC, the data alone without. */
  function Sent(s: seq<RR>, dnssec: bool): seq<RR> { if dnssec then s else Filter(NotSig, s) }

  /** The answer is the wildcard's set under the query name, with DNSSEC together
      with exactly the records that prove that no closer name exists. */
  lemma ExpansionAnswers(env: Env, z: SignedZone, qname: Name, qtype: RType, dnssec: bool)
    returns (encloser: Name, nextCloser: Name, t: RType, overNext: Name)
    requires WellFormed(env, z) && z.origin <= qname && ValidName(qname) && AnsweredByWildcard(z, qname, qtype)
    requires dnssec ==> !HashClash(env, z, qname)
    ensures IsClosestEncloser(z.names, qname, encloser, nextCloser) && Expands(z, encloser + [WILDCARD], qtype, t)
    ensures (encloser + [WILDCARD], t) in z.rrsets
    ensures var a, s := Resolve(env, z, qname, qtype, dnssec), Sent(z.rrsets[(encloser + [WILDCARD], t)], dnssec);
            && a.rcode == 0 && a.authoritative && a.additionals == []
            && |a.answers| == |s| && (forall i :: 0 <= i < |s| ==> a.answers[i] == s[i].(name := qname))
            && if dnssec then CoveredBy(env, z, overNext, nextCloser)
                              && Extended(z, [], a.authorities, EncloserLinks(z, encloser, overNext))
               else a.authorities == []
  {
    hide WellFormed, ClosestEncloser, IsClosestEncloser, HashClash, FindCut, SignaturesAt, EffectiveType, EncloserProof,
         SortedNames, Renamed, WildcardSet, Deniable, CoveredBy, Extended, Unmatched, Expands, Selects, WildcardExists,
         AnsweredByWildcard;
    t := ExpandedType(env, z, qname, qtype);
    assert Unmatched(z, qname, qtype) by { ExpansionIsUnmatched(z, qname, qtype); }
    FallsThroughIff(env, z, qname, qtype);
    EncloserDecides(env, z, qname);
    EncloserFound(env, z, qname);
    encloser, nextCloser := ClosestEncloser(z, qname).value.0, ClosestEncloser(z, qname).value.1;
    WildcardDecides(env, z, encloser + [WILDCARD], qtype);
    overNext := qname;
    if dnssec {
      NonexistentOutcome(env, z, qname, qtype, true);
      EncloserProofOutcome(env, z, [], qname, false, true);
      var e, c, next, more := EncloserPart(env, z, [], qname);
      overNext := next;
      assert EncloserProof(env, z, [], qname, false, true) == Ok(more);
    }
  }

  lemma ExpansionIsUnmatched(z: SignedZone, qname: Name, qtype: RType)
    requires AnsweredByWildcard(z, qname, qtype)
    ensures Unmatched(z, qname, qtype)
  {
  }

  /** A wildcard-expanded answer is served with signatures that verify over its
      data, whatever the order and repetition in which a resolver receives it, and
      with the records that prove that no closer name exists. */
  lemma ExpandedAnswerVerifies(env: Env, req: Request, qname: Name, qtype: RType, received: seq<RR>, sig: RR)
    returns (encloser: Name, nextCloser: Name, overNext: Name)
    requires SignZone(env, req).Ok? && ValidName(qname) && req.origin <= qname
    requires AnsweredByWildcard(SignZone(env, req).value, qname, qtype)
    requires !HashClash(env, SignZone(env, req).value, qname)
    requires var a := Resolve(env, SignZone(env, req).value, qname, qtype, true);
             && sig in a.answers && IsSig(sig)
             && (forall r :: r in received <==> r in Filter(NotSig, a.answers))
    ensures received != [] && sig.rdata.Rrsig? && sig.name == qname
    ensures exists key :: (key == req.zsk || key in req.ksks) && Verified(env, key, received, sig.rdata.sig)
    ensures var z := SignZone(env, req).value;
            && IsClosestEncloser(z.names, qname, encloser, nextCloser) && CoveredBy(env, z, overNext, nextCloser)
            && Extended(z, [], Resolve(env, z, qname, qtype, true).authorities, EncloserLinks(z, encloser, overNext))
  {
    hide SignZone, HashClash, SignedBy, Verified, Resolve, WellFormed, Filter, LeftUnsigned, Renamed, IsClosestEncloser,
         CoveredBy, Extended, EncloserLinks, AnsweredByWildcard, Expands;
    var z := SignZone(env, req).value;
    SignedIsWellFormed(env, req);
    OriginKept(env, req);
    var t;
    encloser, nextCloser, t, overNext := ExpansionAnswers(env, z, qname, qtype, true);
    EncloserIsName(z.names, qname, encloser, nextCloser);
    var k := (encloser + [WILDCARD], t);
    var stored, answers := z.rrsets[k], Resolve(env, z, qname, qtype, true).answers;
    assert answers == Renamed(stored, qname);
    EveryAuthoritativeSetIsSigned(env, req, k);
    FilterRenamed(stored, qname);
    var i :| 0 <= i < |stored| && sig == stored[i].(name := qname);
    assert stored[i] in stored && IsSig(stored[i]);
    SignedHasSig(env, req, k, Filter(NotSig, stored), stored[i]);
    ExpansionVerifies(env, req, encloser, k, Filter(NotSig, stored), qname, received, stored[i]);
  }

  lemma SignedHasSig(env: Env, req: Request, k: SetKey, data: seq<RR>, r: RR)
    requires SignedBy(env, req, k, data, r)
    ensures r.rdata.Rrsig?
  {
  }

  lemma OriginKept(env: Env, req: Request)
    requires SignZone(env, req).Ok?
    ensures SignZone(env, req).value.origin == req.origin
  {
    hide SignZone, Prepare, DenialChain, AllRecords;
    var plan, chain, all := SignedParts(env, req);
  }

  lemma ExpansionVerifies(env: Env, req: Request, encloser: Name, k: SetKey, data: seq<RR>, qname: Name,
          received: seq<RR>, sig: RR)
    requires k.0 == encloser + [WILDCARD] && encloser < qname
    requires data != [] && forall r :: r in data ==> KeyOf(r) == k
    requires SignedBy(env, req, k, data, sig)
    requires forall r :: r in received <==> r in Renamed(data, qname)
    ensures received != []
    ensures exists key :: (key == req.zsk || key in req.ksks) && Verified(env, key, received, sig.rdata.sig)
  {
    var expanded := Renamed(data, qname);
    assert expanded[0] in received;
    assert OwnerReplaced(data, received, qname) by {
      forall r | r in data ensures r.(name := qname) in received {
        var i :| 0 <= i < |data| && data[i] == r;
        assert expanded[i] == r.(name := qname);
      }
    }
    forall r | r in received ensures r.name == qname && r.(name := encloser + [WILDCARD]) in data {
      var i :| 0 <= i < |expanded| && expanded[i] == r;
      assert data[i] in data && data[i].name == encloser + [WILDCARD];
      assert r.(name := encloser + [WILDCARD]) == data[i];
    }
    var key :| (key == req.zsk || key in req.ksks) && Verified(env, key, data, sig.rdata.sig);
    WildcardExpansionKeepsInput(env, encloser, data, qname, received, sig.rdata.sig);
    assert Verified(env, key, received, sig.rdata.sig);
  }
}
