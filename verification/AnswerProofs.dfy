/** What `resolve` serves for every query, stated on the zone's contents alone. */
module AnswerProofs {
  import opened Seqs
  import opened Names
  import opened Records
  import opened Zone
  import opened ZoneFacts
  import opened Resolver
  import opened Answers
  import opened Queries
  import opened ResolveProofs
  import opened SignatureProofs

  // ----- Stored RRsets -----

  /** An authoritative answer with an RRset in stored order and nothing else: the
      whole set with DNSSEC, its records other than signatures without. */
  ghost predicate Serves(a: Resolution, s: seq<RR>, dnssec: bool) {
    && a.rcode == 0 && a.authoritative && a.authorities == [] && a.additionals == []
    && a.answers <= s
    && (forall r :: r in a.answers <==> r in s && (dnssec || r.rtype != TYPE_RRSIG))
    && (dnssec ==> a.answers == s)
  }

  lemma {:induction false} UnsignedIsPrefix(s: seq<RR>, d: nat)
    requires d <= |s| && (forall i :: 0 <= i < d ==> NotSig(s[i])) && (d < |s| ==> IsSig(s[d]))
    ensures Unsigned(s) == s[..d]
  {
    if d > 0 {
      UnsignedIsPrefix(s[1..], d - 1);
      assert s[..d] == [s[0]] + s[1..][..d - 1];
    }
  }

  lemma AnswerServes(env: Env, z: SignedZone, k: SetKey, dnssec: bool)
    requires WellFormed(env, z) && k in z.rrsets
    ensures Serves(Answer(z.rrsets[k], dnssec), z.rrsets[k], dnssec)
  {
    hide NamesClosed, CutsProper, ApexPresent, ChainBuilt, DenialSigned, BitmapsExact, LeftUnsigned;
    var s := z.rrsets[k];
    var d :| Shaped(z.cuts, k, s, d);
    UnsignedIsPrefix(s, d);
    forall r ensures r in s[..d] <==> r in s && NotSig(r) {
      if r in s && NotSig(r) {
        var i :| 0 <= i < |s| && s[i] == r;
        assert s[..d][i] == r;
      }
    }
  }

  /** The RRset the query selects is served as stored; for ANY that is the least real type. */
  lemma StoredSetIsServed(env: Env, z: SignedZone, qname: Name, qtype: RType, t: RType, dnssec: bool)
    requires WellFormed(env, z) && z.origin <= qname && !Delegated(z, qname, qtype)
    requires Selects(z, qname, qtype, t)
    ensures Serves(Resolve(env, z, qname, qtype, dnssec), z.rrsets[(qname, t)], dnssec)
  {
    hide WellFormed, Delegated, Selects, FindCut, SortedNames, EffectiveType, Answer, Serves, SignaturesAt, Negative,
         Nonexistent;
    CutDecides(env, z, qname, qtype);
    TypeDecides(env, z, qname, qtype);
    AnswerServes(env, z, (qname, t), dnssec);
  }

  /** Without such an RRset an alias is served, except to a query for signatures
      that the name has. */
  lemma AliasIsServed(env: Env, z: SignedZone, qname: Name, qtype: RType, dnssec: bool)
    requires WellFormed(env, z) && z.origin <= qname && !Delegated(z, qname, qtype)
    requires forall t :: !Selects(z, qname, qtype, t)
    requires qtype == TYPE_RRSIG ==> forall r :: !SignatureAt(z, qname, r)
    requires qtype != TYPE_CNAME && (qname, TYPE_CNAME) in z.rrsets
    ensures Serves(Resolve(env, z, qname, qtype, dnssec), z.rrsets[(qname, TYPE_CNAME)], dnssec)
  {
    hide WellFormed, Delegated, Selects, SignatureAt, FindCut, SortedNames, EffectiveType, Answer, Serves, SignaturesAt,
         Negative, Nonexistent;
    CutDecides(env, z, qname, qtype);
    TypeDecides(env, z, qname, qtype);
    SignaturesAtAre(env, z, qname);
    AnswerServes(env, z, (qname, TYPE_CNAME), dnssec);
  }

  /** A query for signatures gets all signatures at the name and nothing else. */
  lemma SignaturesAreServed(env: Env, z: SignedZone, qname: Name, dnssec: bool)
    requires WellFormed(env, z) && z.origin <= qname && !Delegated(z, qname, TYPE_RRSIG)
    requires exists r :: SignatureAt(z, qname, r)
    ensures var a := Resolve(env, z, qname, TYPE_RRSIG, dnssec);
            && a.rcode == 0 && a.authoritative && a.authorities == [] && a.additionals == []
            && forall r :: r in a.answers <==> SignatureAt(z, qname, r)
  {
    hide WellFormed, Delegated, SignatureAt, FindCut, SortedNames, Answer, SignaturesAt, Negative, Nonexistent;
    CutDecides(env, z, qname, TYPE_RRSIG);
    SetsNonempty(env, z);
    SignaturesAtAre(env, z, qname);
  }

  /** In a zone signing has built, every signature served with an RRset is one of
      the zone's keys' over the data served with it, and unless the set is a cut's
      NS set or lies below a cut, each key that is to sign it has signed it. */
  lemma ServedSetVerifies(env: Env, req: Request, qname: Name, qtype: RType, t: RType)
    requires SignZone(env, req).Ok? && req.origin <= qname
    requires var z := SignZone(env, req).value; !Delegated(z, qname, qtype) && Selects(z, qname, qtype, t)
    ensures var a := Resolve(env, SignZone(env, req).value, qname, qtype, true);
            var data := Filter(NotSig, a.answers);
            && data != [] && (forall r :: r in data <==> r in a.answers && r.rtype != TYPE_RRSIG)
            && (forall r :: r in data ==> r.name == qname && r.rtype == t)
            && (forall r :: r in a.answers && r.rtype == TYPE_RRSIG ==>
                  && r.rdata.Rrsig? && r.rdata.sig.typeCovered == t
                  && exists key :: (key == req.zsk || key in req.ksks) && Verified(env, key, data, r.rdata.sig))
            && (!BelongsToChild(SignZone(env, req).value.cuts, (qname, t)) ==>
                  forall key :: key in Signers(req, (qname, t)) ==> HasSignature(env, key, data, a.answers))
  {
    hide SignZone, WellFormed, Resolve, Delegated, Selects, Filter, Verified, HasSignature, Signers, BelongsToChild,
         SignedBy;
    var z := SignZone(env, req).value;
    SignedIsWellFormed(env, req);
    OriginKept(env, req);
    assert (qname, t) in z.rrsets by { SelectedIsStored(z, qname, qtype, t); }
    StoredSetIsServed(env, z, qname, qtype, t, true);
    EveryAuthoritativeSetIsSigned(env, req, (qname, t));
    var s := z.rrsets[(qname, t)];
    FilterMembers(NotSig, s);
    forall r | r in s && IsSig(r)
      ensures r.rdata.Rrsig? && r.rdata.sig.typeCovered == t
      ensures exists key :: (key == req.zsk || key in req.ksks) && Verified(env, key, Filter(NotSig, s), r.rdata.sig)
    {
      SignedByIs(env, req, (qname, t), Filter(NotSig, s), r);
    }
  }

  lemma SelectedIsStored(z: SignedZone, n: Name, qtype: RType, t: RType)
    requires Selects(z, n, qtype, t)
    ensures (n, t) in z.rrsets
  {
  }

  lemma SignedByIs(env: Env, req: Request, k: SetKey, data: seq<RR>, r: RR)
    requires SignedBy(env, req, k, data, r)
    ensures r.rdata.Rrsig? && r.rdata.sig.typeCovered == k.1
    ensures exists key :: (key == req.zsk || key in req.ksks) && Verified(env, key, data, r.rdata.sig)
  {
    hide Verified;
  }

  // ----- Referrals -----

  /** An address record at or below the cut that one of the NS records names. */
  ghost predicate IsGlueFor(z: SignedZone, cut: Name, ns: seq<RR>, r: RR) {
    exists x, t ::
      && x in ns && x.rdata.Ns? && cut <= x.rdata.target && (t == TYPE_A || t == TYPE_AAAA)
      && (x.rdata.target, t) in z.rrsets && r in z.rrsets[(x.rdata.target, t)] && r.rtype != TYPE_RRSIG
  }

  lemma SetDataIs(z: SignedZone, n: Name, t: RType)
    ensures forall r :: r in SetData(z, n, t) <==> (n, t) in z.rrsets && r in z.rrsets[(n, t)] && NotSig(r)
  {
    if (n, t) in z.rrsets {
      FilterMembers(NotSig, z.rrsets[(n, t)]);
    }
  }

  lemma {:induction false} GlueIs(z: SignedZone, cut: Name, ns: seq<RR>)
    ensures forall r :: r in Glue(z, cut, ns) <==> IsGlueFor(z, cut, ns, r)
  {
    hide SetData;
    if ns != [] {
      var front, last := ns[..|ns| - 1], ns[|ns| - 1];
      assert ns == front + [last];
      GlueIs(z, cut, front);
      forall r ensures r in Glue(z, cut, ns) <==> IsGlueFor(z, cut, front, r) || IsGlueFor(z, cut, [last], r) {
        if last.rdata.Ns? {
          SetDataIs(z, last.rdata.target, TYPE_A);
          SetDataIs(z, last.rdata.target, TYPE_AAAA);
        }
        assert last in [last];
      }
      forall r ensures IsGlueFor(z, cut, ns, r) <==> IsGlueFor(z, cut, front, r) || IsGlueFor(z, cut, [last], r) {
        if x, t :| && x in front + [last] && x.rdata.Ns? && cut <= x.rdata.target && (t == TYPE_A || t == TYPE_AAAA)
                   && (x.rdata.target, t) in z.rrsets && r in z.rrsets[(x.rdata.target, t)] && r.rtype != TYPE_RRSIG {
          assert x in front || x in [last];
        }
      }
    }
  }

  /** A delegated query gets a referral: the cut's NS set, with DNSSEC its DS set
      if there is one, and as glue exactly the addresses of the name servers
      within the cut. */
  lemma ReferralIsServed(env: Env, z: SignedZone, qname: Name, qtype: RType, cut: Name, dnssec: bool)
    requires WellFormed(env, z) && z.origin <= qname
    requires cut in z.cuts && cut <= qname && !(qname == cut && qtype == TYPE_DS)
    ensures (cut, TYPE_NS) in z.rrsets
    ensures var a, ns := Resolve(env, z, qname, qtype, dnssec), z.rrsets[(cut, TYPE_NS)];
            && a.rcode == 0 && !a.authoritative && a.answers == []
            && (!dnssec ==> a.authorities == ns)
            && (dnssec && (cut, TYPE_DS) in z.rrsets ==> a.authorities == ns + z.rrsets[(cut, TYPE_DS)])
            && forall r :: r in a.additionals <==> IsGlueFor(z, cut, ns, r)
  {
    hide AllShaped, ApexPresent, ChainBuilt, DenialSigned, BitmapsExact, NamesClosed, CutsProper, Glue, AppendPair,
         FindCut, SortedNames, IsGlueFor, Authoritative;
    CutDecides(env, z, qname, qtype);
    ReferralSucceeds(env, z, qname, qtype, cut, dnssec);
    GlueIs(z, cut, z.rrsets[(cut, TYPE_NS)]);
  }

  // ----- Refusals and negative answers -----

  lemma NegativeCode(env: Env, z: SignedZone, qname: Name, nodata: bool, wildcard: bool, dnssec: bool)
    ensures Negative(env, z, qname, nodata, wildcard, dnssec).rcode in {0, 2, 3}
  {
    hide DenialRecords, SoaPair;
  }

  /** Only a query outside the zone is refused, and nothing is served with the refusal. */
  lemma RefusedIff(env: Env, z: SignedZone, qname: Name, qtype: RType, dnssec: bool)
    ensures Resolve(env, z, qname, qtype, dnssec).rcode == 5 <==> !(z.origin <= qname)
    ensures !(z.origin <= qname) ==> Resolve(env, z, qname, qtype, dnssec) == Resolution(5, false, [], [], [])
  {
    hide Negative, FindCut, SortedNames, Glue, AppendPair, SignaturesAt, EffectiveType, ClosestEncloser, WildcardSet,
         DenialRecords, Renamed, Unsigned;
    forall nodata, wildcard ensures Negative(env, z, qname, nodata, wildcard, dnssec).rcode != 5 {
      NegativeCode(env, z, qname, nodata, wildcard, dnssec);
    }
  }

  /** An authoritative answer without records; without DNSSEC its only authority is the SOA. */
  ghost predicate Denies(z: SignedZone, a: Resolution, rcode: int, dnssec: bool) {
    && SoaPair(z).Ok?
    && a.rcode == rcode && a.authoritative && a.answers == [] && a.additionals == []
    && (!dnssec ==> a.authorities == [SoaPair(z).value.0])
  }

  lemma NegativeDenies(env: Env, z: SignedZone, qname: Name, nodata: bool, wildcard: bool, dnssec: bool)
    requires WellFormed(env, z) && Negative(env, z, qname, nodata, wildcard, dnssec).rcode != 2
    ensures Denies(z, Negative(env, z, qname, nodata, wildcard, dnssec), if nodata then 0 else 3, dnssec)
  {
    hide WellFormed, DenialRecords, SoaPair;
    SoaPairOk(env, z);
  }

  /** An existing name without what is asked gets NODATA. */
  lemma NodataIsServed(env: Env, z: SignedZone, qname: Name, qtype: RType, dnssec: bool)
    requires WellFormed(env, z) && z.origin <= qname && !Delegated(z, qname, qtype) && qname in z.names
    requires forall t :: !Selects(z, qname, qtype, t)
    requires qtype == TYPE_RRSIG ==> forall r :: !SignatureAt(z, qname, r)
    requires qtype != TYPE_CNAME ==> (qname, TYPE_CNAME) !in z.rrsets
    ensures Denies(z, Resolve(env, z, qname, qtype, dnssec), 0, dnssec)
  {
    hide WellFormed, Delegated, Selects, SignatureAt, FindCut, SortedNames, EffectiveType, Answer, SignaturesAt,
         Negative, Nonexistent, Denies;
    CutDecides(env, z, qname, qtype);
    TypeDecides(env, z, qname, qtype);
    SignaturesAtAre(env, z, qname);
    NodataOutcome(env, z, qname, dnssec);
    NegativeDenies(env, z, qname, true, false, dnssec);
  }

  /** A missing name without a wildcard gets NXDOMAIN, one whose wildcard has not
      what is asked gets NODATA. */
  lemma MissingNameIsDenied(env: Env, z: SignedZone, qname: Name, qtype: RType, dnssec: bool)
    requires WellFormed(env, z) && z.origin <= qname && ValidName(qname) && Unmatched(z, qname, qtype)
    requires dnssec ==> !HashClash(env, z, qname)
    requires !AnsweredByWildcard(z, qname, qtype)
    ensures Denies(z, Resolve(env, z, qname, qtype, dnssec), if WildcardExists(z, qname) then 0 else 3, dnssec)
  {
    hide WellFormed, FindCut, SortedNames, EffectiveType, Answer, SignaturesAt, Negative, Denies, HashClash, Collides,
         WildcardExists, ClosestEncloser, IsClosestEncloser, Unmatched, Expands, WildcardSet, DenialRecords, Renamed;
    FallsThroughIff(env, z, qname, qtype);
    EncloserFound(env, z, qname);
    EncloserDecides(env, z, qname);
    NonexistentOutcome(env, z, qname, qtype, dnssec);
    var p := ClosestEncloser(z, qname).value;
    WildcardDecides(env, z, p.0 + [WILDCARD], qtype);
    if p.0 + [WILDCARD] in z.names {
      assert forall t :: !Expands(z, p.0 + [WILDCARD], qtype, t);
      NegativeDenies(env, z, qname, true, true, dnssec);
    } else {
      NegativeDenies(env, z, qname, false, false, dnssec);
    }
  }
}
