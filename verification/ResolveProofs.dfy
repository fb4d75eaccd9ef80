/** Theorems about `resolve` on every zone that satisfies the signed-zone invariant. */
module ResolveProofs {
  import opened Basics
  import opened Names
  import opened Base32
  import opened Denial
  import opened Records
  import opened Zone
  import opened ZoneFacts
  import opened Resolver
  import opened Answers
  import opened Queries

  // ----- Assembling a proof -----

  /** `r` is the denial record of `m` or the first signature of its RRset. */
  ghost predicate SentFor(z: SignedZone, m: Name, r: RR) {
    && m in z.denial
    && (|| r == z.denial[m]
        || (KeyOf(z.denial[m]) in z.rrsets && FirstSignature(z.rrsets[KeyOf(z.denial[m])], r)))
  }

  lemma AppendLink(env: Env, z: SignedZone, out: seq<RR>, m: Name)
    requires WellFormed(env, z) && m in z.names
    ensures m in z.denial && AppendPair(z, out, z.denial[m]).Ok?
    ensures AppendDenialOf(z, out, m) == AppendPair(z, out, z.denial[m])
    ensures forall r :: r in AppendPair(z, out, z.denial[m]).value <==> r in out || SentFor(z, m, r)
  {
    hide WellFormed, FirstSig, FirstSignature;
    DenialPair(env, z, m);
    FirstSigIs(z.rrsets[KeyOf(z.denial[m])]);
  }

  lemma AppendCover(env: Env, z: SignedZone, out: seq<RR>, n: Name)
    requires WellFormed(env, z)
    ensures AppendCovering(env, z, out, n).Ok? <==> Deniable(env, z, n)
    ensures Deniable(env, z, n) ==>
      exists m :: CoveredBy(env, z, m, n)
        && (forall r :: r in AppendCovering(env, z, out, n).value <==> r in out || SentFor(z, m, r))
  {
    hide WellFormed, Covering, Deniable, CoveredBy, AppendPair, SentFor;
    ChainPartitionsNames(env, z, n);
    if Deniable(env, z, n) {
      var m :| CoveredBy(env, z, m, n);
      assert m in z.names by { CoveredIsName(env, z, m, n); }
      AppendLink(env, z, out, m);
    }
  }

  lemma CoveredIsName(env: Env, z: SignedZone, m: Name, n: Name)
    requires CoveredBy(env, z, m, n)
    ensures m in z.names
  {
  }

  // ----- When no proof can be assembled -----

  lemma WildcardPartOutcome(env: Env, z: SignedZone, out: seq<RR>, nodata: bool, expanded: bool, wc: Name)
    requires WellFormed(env, z) && (nodata ==> wc in z.names)
    ensures AppendWildcardPart(env, z, out, nodata, expanded, wc).Ok?
            <==> (!nodata && !expanded ==> Deniable(env, z, wc))
  {
    hide WellFormed, AppendCovering, AppendDenialOf, AppendPair, Deniable;
    if nodata {
      AppendLink(env, z, out, wc);
    } else {
      AppendCover(env, z, out, wc);
    }
  }

  /** The proof for a missing name can be assembled exactly when its parts are deniable. */
  lemma EncloserProofOutcome(env: Env, z: SignedZone, out: seq<RR>, qname: Name, nodata: bool, wildcard: bool)
    requires WellFormed(env, z) && z.origin <= qname && qname !in z.names && ValidName(qname)
    requires ClosestEncloser(z, qname).Ok?
    requires nodata ==> ClosestEncloser(z, qname).value.0 + [WILDCARD] in z.names
    ensures var p := ClosestEncloser(z, qname).value;
            EncloserProof(env, z, out, qname, nodata, wildcard).Ok?
            <==> Deniable(env, z, p.1) && (!nodata && !wildcard ==> Deniable(env, z, p.0 + [WILDCARD]))
  {
    hide WellFormed, ClosestEncloser, IsClosestEncloser, AppendCovering, AppendDenialOf, AppendWildcardPart;
    EncloserFound(env, z, qname);
    var p := ClosestEncloser(z, qname).value;
    var wc := p.0 + [WILDCARD];
    EncloserIsName(z.names, qname, p.0, p.1);
    if z.mode.NsecMode? {
      AppendCover(env, z, out, qname);
      WildcardPartOutcome(env, z, AppendCovering(env, z, out, qname).value, nodata, wildcard, wc);
    } else {
      AppendLink(env, z, out, p.0);
      var out1 := AppendDenialOf(z, out, p.0).value;
      AppendCover(env, z, out1, p.1);
      if AppendCovering(env, z, out1, p.1).Ok? {
        WildcardPartOutcome(env, z, AppendCovering(env, z, out1, p.1).value, nodata, wildcard, wc);
      }
    }
  }

  lemma EncloserIsName(names: set<Name>, n: Name, encloser: Name, nextCloser: Name)
    requires IsClosestEncloser(names, n, encloser, nextCloser)
    ensures encloser in names && encloser < n
  {
  }

  /** SERVFAIL happens exactly when a DNSSEC query needs a denial that a hash collision rules out. */
  lemma ServfailIffHashClash(env: Env, z: SignedZone, qname: Name, qtype: RType, dnssec: bool)
    requires WellFormed(env, z) && z.origin <= qname && ValidName(qname)
    ensures Resolve(env, z, qname, qtype, dnssec).rcode == 2
            <==> dnssec && Unmatched(z, qname, qtype) && HashClash(env, z, qname)
  {
    hide WellFormed, Nonexistent, Negative, FindCut, Referral, ClosestEncloser, SortedNames, Answer, SignaturesAt,
         EffectiveType, Collides, Unmatched, HashClash;
    FallsThroughIff(env, z, qname, qtype);
    var cut := FindCut(SortedNames(z.cuts), qname, qtype);
    if cut.Some? {
      ReferralSucceeds(env, z, qname, qtype, cut.value, dnssec);
    } else if FallsThrough(z, qname, qtype) {
      NonexistentOutcome(env, z, qname, qtype, dnssec);
      EncloserDecides(env, z, qname);
    } else if qname in z.names {
      NodataOutcome(env, z, qname, dnssec);
      AnswerCode(z, qname, dnssec);
    } else {
      AnswerCode(z, qname, dnssec);
    }
  }

  lemma AnswerCode(z: SignedZone, qname: Name, dnssec: bool)
    ensures forall s :: Answer(s, dnssec).rcode == NOERROR
  {
  }

  lemma ReferralSucceeds(env: Env, z: SignedZone, qname: Name, qtype: RType, cut: Name, dnssec: bool)
    requires WellFormed(env, z) && FindCut(SortedNames(z.cuts), qname, qtype) == Some(cut)
    ensures Referral(z, cut, dnssec).rcode == NOERROR
  {
    hide AllShaped, ApexPresent, ChainBuilt, DenialSigned, BitmapsExact, NamesClosed, Glue, AppendPair;
    FoundCut(SortedNames(z.cuts), qname, qtype);
    AppendLink(env, z, SetOr(ExactSet(z, cut, TYPE_NS)), cut);
  }

  lemma NodataOutcome(env: Env, z: SignedZone, qname: Name, dnssec: bool)
    requires WellFormed(env, z) && qname in z.names
    ensures Negative(env, z, qname, true, false, dnssec).rcode == NOERROR
  {
    hide WellFormed, SoaPair, AppendPair;
    SoaPairOk(env, z);
    AppendLink(env, z, if dnssec then SoaRecords(z).value else [], qname);
  }

  lemma NonexistentOutcome(env: Env, z: SignedZone, qname: Name, qtype: RType, dnssec: bool)
    requires WellFormed(env, z) && z.origin <= qname && ValidName(qname) && qname !in z.names
    ensures ClosestEncloser(z, qname).Ok?
    ensures var wc := ClosestEncloser(z, qname).value.0 + [WILDCARD];
            Nonexistent(env, z, qname, qtype, dnssec).rcode ==
            if dnssec && Collides(env, z, qname) then SERVFAIL
            else if wc in z.names then NOERROR else NXDOMAIN
  {
    hide WellFormed, SoaPair, EncloserProof, WildcardSet, ClosestEncloser, IsClosestEncloser;
    EncloserFound(env, z, qname);
    SoaPairOk(env, z);
    var wc := ClosestEncloser(z, qname).value.0 + [WILDCARD];
    var soa := SoaRecords(z).value;
    if wc in z.names {
      EncloserProofOutcome(env, z, soa, qname, true, true);
      EncloserProofOutcome(env, z, [], qname, false, true);
    } else {
      EncloserProofOutcome(env, z, soa, qname, false, false);
    }
  }

  // ----- What an NXDOMAIN answer carries -----

  /** NXDOMAIN is answered exactly for a missing name whose wildcard is missing too. */
  lemma NxdomainIff(env: Env, z: SignedZone, qname: Name, qtype: RType, dnssec: bool)
    requires WellFormed(env, z) && z.origin <= qname && ValidName(qname)
    ensures Resolve(env, z, qname, qtype, dnssec).rcode == 3
            <==> && Unmatched(z, qname, qtype) && !WildcardExists(z, qname)
                 && !(dnssec && HashClash(env, z, qname))
  {
    hide WellFormed, Nonexistent, Negative, FindCut, Referral, ClosestEncloser, SortedNames, Answer, SignaturesAt,
         EffectiveType, Collides, Unmatched, HashClash, WildcardExists;
    FallsThroughIff(env, z, qname, qtype);
    var cut := FindCut(SortedNames(z.cuts), qname, qtype);
    if cut.Some? {
      ReferralSucceeds(env, z, qname, qtype, cut.value, dnssec);
    } else if FallsThrough(z, qname, qtype) {
      NonexistentOutcome(env, z, qname, qtype, dnssec);
      EncloserDecides(env, z, qname);
    } else if qname in z.names {
      NodataOutcome(env, z, qname, dnssec);
      AnswerCode(z, qname, dnssec);
    } else {
      AnswerCode(z, qname, dnssec);
    }
  }

  /** The chain links an NXDOMAIN answer sends: the closest encloser's own (NSEC3
      only), the one over the next closer name and the one over the wildcard. */
  ghost function Witnesses(z: SignedZone, encloser: Name, overNext: Name, overWildcard: Name): set<Name> {
    if z.mode.NsecMode? then {overNext, overWildcard} else {encloser, overNext, overWildcard}
  }

  /** `more` is `out` and what is sent for the names of `ms`. */
  ghost predicate Extended(z: SignedZone, out: seq<RR>, more: seq<RR>, ms: set<Name>) {
    forall r :: r in more <==> r in out || exists m :: m in ms && SentFor(z, m, r)
  }

  lemma ExtendedTwice(z: SignedZone, a: seq<RR>, b: seq<RR>, c: seq<RR>, s: set<Name>, t: set<Name>)
    requires Extended(z, a, b, s) && Extended(z, b, c, t)
    ensures Extended(z, a, c, s + t)
  {
    hide SentFor;
    forall r ensures r in c <==> r in a || exists m :: m in s + t && SentFor(z, m, r) {
      if m :| m in s && SentFor(z, m, r) {
        assert m in s + t;
      }
      if m :| m in t && SentFor(z, m, r) {
        assert m in s + t;
      }
    }
  }

  lemma CoverStep(env: Env, z: SignedZone, out: seq<RR>, n: Name) returns (m: Name)
    requires WellFormed(env, z) && Deniable(env, z, n)
    ensures AppendCovering(env, z, out, n).Ok? && CoveredBy(env, z, m, n)
    ensures Extended(z, out, AppendCovering(env, z, out, n).value, {m})
  {
    hide WellFormed, AppendCovering, Deniable, CoveredBy, SentFor;
    AppendCover(env, z, out, n);
    m :| CoveredBy(env, z, m, n)
      && forall r :: r in AppendCovering(env, z, out, n).value <==> r in out || SentFor(z, m, r);
  }

  lemma MatchStep(env: Env, z: SignedZone, out: seq<RR>, n: Name)
    requires WellFormed(env, z) && n in z.names
    ensures AppendDenialOf(z, out, n).Ok? && Extended(z, out, AppendDenialOf(z, out, n).value, {n})
  {
    hide WellFormed, AppendDenialOf, SentFor;
    AppendLink(env, z, out, n);
  }

  /** The chain links that prove the closest encloser: its own (NSEC3 only) and the
      one over the next closer name. */
  ghost function EncloserLinks(z: SignedZone, encloser: Name, overNext: Name): set<Name> {
    if z.mode.NsecMode? then {overNext} else {encloser, overNext}
  }

  /** Every proof for a missing name begins with the closest encloser's part. */
  lemma EncloserPart(env: Env, z: SignedZone, out: seq<RR>, qname: Name)
    returns (encloser: Name, nextCloser: Name, overNext: Name, more: seq<RR>)
    requires WellFormed(env, z) && z.origin <= qname && ValidName(qname) && qname !in z.names
    requires ClosestEncloser(z, qname).Ok? && Deniable(env, z, ClosestEncloser(z, qname).value.1)
    ensures ClosestEncloser(z, qname) == Ok((encloser, nextCloser))
    ensures IsClosestEncloser(z.names, qname, encloser, nextCloser) && CoveredBy(env, z, overNext, nextCloser)
    ensures z.mode.NsecMode? ==> forall x :: nextCloser <= x ==> CoveredBy(env, z, overNext, x)
    ensures Extended(z, out, more, EncloserLinks(z, encloser, overNext))
    ensures forall nodata, expanded ::
              EncloserProof(env, z, out, qname, nodata, expanded)
              == AppendWildcardPart(env, z, more, nodata, expanded, encloser + [WILDCARD])
  {
    hide WellFormed, ClosestEncloser, IsClosestEncloser, AppendCovering, AppendDenialOf, AppendWildcardPart, CoveredBy,
         Extended;
    EncloserFound(env, z, qname);
    var p := ClosestEncloser(z, qname).value;
    encloser, nextCloser := p.0, p.1;
    EncloserIsName(z.names, qname, encloser, nextCloser);
    if z.mode.NsecMode? {
      overNext := CoverStep(env, z, out, qname);
      more := AppendCovering(env, z, out, qname).value;
      forall x | nextCloser <= x ensures CoveredBy(env, z, overNext, x) {
        NsecCoversWholeSubtree(env, z, qname, encloser, nextCloser, overNext, x);
      }
    } else {
      MatchStep(env, z, out, encloser);
      var out0 := AppendDenialOf(z, out, encloser).value;
      overNext := CoverStep(env, z, out0, nextCloser);
      more := AppendCovering(env, z, out0, nextCloser).value;
      ExtendedTwice(z, out, out0, more, {encloser}, {overNext});
      assert {encloser} + {overNext} == EncloserLinks(z, encloser, overNext);
    }
  }

  lemma NonexistentProof(env: Env, z: SignedZone, out: seq<RR>, qname: Name)
    returns (encloser: Name, nextCloser: Name, overNext: Name, overWildcard: Name)
    requires WellFormed(env, z) && z.origin <= qname && ValidName(qname) && qname !in z.names
    requires EncloserProof(env, z, out, qname, false, false).Ok?
    ensures ClosestEncloser(z, qname) == Ok((encloser, nextCloser))
    ensures IsClosestEncloser(z.names, qname, encloser, nextCloser) && encloser + [WILDCARD] !in z.names
    ensures CoveredBy(env, z, overNext, nextCloser) && CoveredBy(env, z, overWildcard, encloser + [WILDCARD])
    ensures z.mode.NsecMode? ==> forall x :: nextCloser <= x ==> CoveredBy(env, z, overNext, x)
    ensures Extended(z, out, EncloserProof(env, z, out, qname, false, false).value,
                     Witnesses(z, encloser, overNext, overWildcard))
  {
    hide WellFormed, ClosestEncloser, IsClosestEncloser, AppendCovering, EncloserProof, Deniable, CoveredBy, Extended;
    EncloserFound(env, z, qname);
    EncloserProofOutcome(env, z, out, qname, false, false);
    var more: seq<RR>;
    encloser, nextCloser, overNext, more := EncloserPart(env, z, out, qname);
    var wc := encloser + [WILDCARD];
    ChainPartitionsNames(env, z, wc);
    overWildcard := CoverStep(env, z, more, wc);
    ExtendedTwice(z, out, more, AppendCovering(env, z, more, wc).value, EncloserLinks(z, encloser, overNext),
                  {overWildcard});
    assert EncloserLinks(z, encloser, overNext) + {overWildcard} == Witnesses(z, encloser, overNext, overWildcard);
  }

  /** Every signed NXDOMAIN answer carries the SOA and exactly the records that
      match the closest encloser (NSEC3) and cover the next closer name and the
      wildcard, each with its signature. */
  lemma NxdomainIsProved(env: Env, z: SignedZone, qname: Name, qtype: RType)
    returns (encloser: Name, nextCloser: Name, overNext: Name, overWildcard: Name)
    requires WellFormed(env, z) && z.origin <= qname && ValidName(qname)
    requires Resolve(env, z, qname, qtype, true).rcode == 3
    ensures SoaPair(z).Ok?
    ensures IsClosestEncloser(z.names, qname, encloser, nextCloser) && encloser + [WILDCARD] !in z.names
    ensures CoveredBy(env, z, overNext, nextCloser) && CoveredBy(env, z, overWildcard, encloser + [WILDCARD])
    ensures z.mode.NsecMode? ==> forall x :: nextCloser <= x ==> CoveredBy(env, z, overNext, x)
    ensures var a := Resolve(env, z, qname, qtype, true);
            && a.authoritative && a.answers == []
            && forall r :: r in a.authorities
                           <==> || r == SoaPair(z).value.0 || r == SoaPair(z).value.1
                                || exists m :: m in Witnesses(z, encloser, overNext, overWildcard) && SentFor(z, m, r)
  {
    hide WellFormed, SoaPair, EncloserProof, ClosestEncloser, IsClosestEncloser, Collides, CoveredBy, SentFor,
         Witnesses, FindCut, SortedNames, SignaturesAt, EffectiveType, Unmatched, HashClash, WildcardExists;
    SoaPairOk(env, z);
    NxdomainIff(env, z, qname, qtype, true);
    FallsThroughIff(env, z, qname, qtype);
    EncloserDecides(env, z, qname);
    NonexistentOutcome(env, z, qname, qtype, true);
    EncloserFound(env, z, qname);
    encloser, nextCloser, overNext, overWildcard := NonexistentProof(env, z, SoaRecords(z).value, qname);
  }

  // ----- What NODATA answers and unsigned referrals carry -----

  /** A signed RRset at the name answers an RRSIG query. */
  lemma SignedSetAnswersRrsig(env: Env, z: SignedZone, n: Name, t: RType)
    requires WellFormed(env, z) && (n, t) in z.rrsets && !LeftUnsigned(z.cuts, (n, t))
    ensures SignaturesAt(z, n) != []
  {
    hide ChainBuilt, DenialSigned, BitmapsExact, NamesClosed, CutsProper, ApexPresent, LeftUnsigned, SignaturesAt;
    var s := z.rrsets[(n, t)];
    var d :| Shaped(z.cuts, (n, t), s, d);
    SignaturesAtAre(env, z, n);
    assert SignatureAt(z, n, s[d]);
  }

  /** What makes the bitmap at `n` list RRSIG: something there is signed. */
  predicate ListsRrsig(z: SignedZone, n: Name) {
    || z.mode.NsecMode?
    || ((exists k :: k in z.rrsets && k.0 == n && k.1 != TYPE_NSEC3) && (n !in z.cuts || (n, TYPE_DS) in z.rrsets))
  }

  lemma BitmapAt(env: Env, z: SignedZone, n: Name, t: RType)
    requires WellFormed(env, z) && n in z.names
    ensures n in z.denial && (z.denial[n].rdata.Nsec? || z.denial[n].rdata.Nsec3?)
    ensures t in Bitmap(z.denial[n]) <==>
              if t == TYPE_RRSIG then ListsRrsig(z, n)
              else (n, t) in z.rrsets && !(z.mode.Nsec3Mode? && t == TYPE_NSEC3)
  {
    hide ChainBuilt, DenialSigned, NamesClosed, CutsProper, ApexPresent, AllShaped;
    assert z.denial.Keys == z.names by { DenialKeys(env, z); }
    var b := Bitmap(z.denial[n]);
    assert BitmapExact(z.mode, z.cuts, z.rrsets.Keys, n, b);
    if t == TYPE_RRSIG {
      if u :| u in b && u != TYPE_RRSIG {
        assert z.mode.Nsec3Mode? ==> (n, u) in z.rrsets && u != TYPE_NSEC3;
      }
      if k :| k in z.rrsets && k.0 == n && k.1 != TYPE_NSEC3 {
        assert k == (n, k.1) && k.1 != TYPE_RRSIG;
        assert k.1 in b;
      }
    }
  }

  lemma DenialKeys(env: Env, z: SignedZone)
    requires WellFormed(env, z)
    ensures z.denial.Keys == z.names
  {
    hide DenialSigned, NamesClosed, CutsProper, ApexPresent, AllShaped, BitmapsExact;
  }

  /** The chain links a NODATA answer sends: the name's own, or for a wildcard's
      answer the closest encloser's proof and the wildcard's own. */
  ghost function NodataLinks(z: SignedZone, qname: Name, m: Name, encloser: Name, overNext: Name): set<Name> {
    if qname in z.names then {m} else EncloserLinks(z, encloser, overNext) + {m}
  }

  /** A signed NODATA answer carries the SOA and exactly the records that match the
      name, or that match the wildcard answering for it and prove that no closer
      name exists, each with its signature. The matching bitmap never lists CNAME;
      it lists the query type only when RRSIG is asked through a wildcard with
      signed data. */
  lemma NodataIsProved(env: Env, z: SignedZone, qname: Name, qtype: RType)
    returns (m: Name, encloser: Name, nextCloser: Name, overNext: Name)
    requires WellFormed(env, z) && z.origin <= qname && ValidName(qname)
    requires var a := Resolve(env, z, qname, qtype, true);
             a.rcode == 0 && a.authoritative && a.answers == []
    ensures SoaPair(z).Ok?
    ensures m in z.denial && (z.denial[m].rdata.Nsec? || z.denial[m].rdata.Nsec3?)
    ensures if qname in z.names then m == qname
            else && IsClosestEncloser(z.names, qname, encloser, nextCloser)
                 && m == encloser + [WILDCARD] && m in z.names && CoveredBy(env, z, overNext, nextCloser)
    ensures forall r :: r in Resolve(env, z, qname, qtype, true).authorities
                        <==> || r == SoaPair(z).value.0 || r == SoaPair(z).value.1
                             || exists x :: x in NodataLinks(z, qname, m, encloser, overNext) && SentFor(z, x, r)
    ensures TYPE_CNAME !in Bitmap(z.denial[m])
    ensures qtype in Bitmap(z.denial[m]) <==> qtype == TYPE_RRSIG && qname !in z.names && ListsRrsig(z, m)
  {
    hide WellFormed, Negative, Nonexistent, FindCut, SortedNames, Referral, SignaturesAt, KeysAt, FirstReal, Bitmap,
         ListsRrsig, ClosestEncloser, IsClosestEncloser, SoaPair, SentFor, CoveredBy, EncloserLinks;
    SoaPairOk(env, z);
    var cut := FindCut(SortedNames(z.cuts), qname, qtype);
    assert cut == None by {
      if cut.Some? { ReferralNotAuthoritative(z, cut.value); }
    }
    SetsNonempty(env, z);
    if qname in z.names {
      m, encloser, nextCloser, overNext := qname, qname, qname, qname;
      BitmapAt(env, z, m, qtype);
      BitmapAt(env, z, m, TYPE_CNAME);
      DeniedByOwnRecord(env, z, qname);
      NoRealTypeIsAny(env, z, qname, qtype);
      if qtype == TYPE_RRSIG {
        UnsignedNameListsNoRrsig(env, z, qname);
      }
    } else {
      m, encloser, nextCloser, overNext := WildcardNodata(env, z, qname, qtype);
    }
  }

  lemma ReferralNotAuthoritative(z: SignedZone, cut: Name)
    ensures !Referral(z, cut, true).authoritative
  {
    hide Glue, AppendPair;
  }

  lemma SetsNonempty(env: Env, z: SignedZone)
    requires WellFormed(env, z)
    ensures forall k :: k in z.rrsets ==> z.rrsets[k] != [] && k.1 != TYPE_ANY && k.1 != TYPE_RRSIG
  {
    hide ChainBuilt, DenialSigned, BitmapsExact, NamesClosed, CutsProper, ApexPresent, LeftUnsigned;
  }

  lemma DeniedByOwnRecord(env: Env, z: SignedZone, n: Name)
    requires WellFormed(env, z) && n in z.names
    ensures SoaPair(z).Ok? && n in z.denial
    ensures forall r :: r in Negative(env, z, n, true, false, true).authorities
                        <==> r == SoaPair(z).value.0 || r == SoaPair(z).value.1 || SentFor(z, n, r)
  {
    hide WellFormed, SoaPair, AppendPair, SentFor;
    SoaPairOk(env, z);
    AppendLink(env, z, SoaRecords(z).value, n);
  }

  /** No RRset has type ANY, so an ANY query is answered or finds nothing listed. */
  lemma NoRealTypeIsAny(env: Env, z: SignedZone, n: Name, t: RType)
    requires WellFormed(env, z)
    ensures (n, TYPE_ANY) !in z.rrsets
  {
    SetsNonempty(env, z);
  }

  lemma UnsignedNameListsNoRrsig(env: Env, z: SignedZone, n: Name)
    requires WellFormed(env, z) && n in z.names && FindCut(SortedNames(z.cuts), n, TYPE_RRSIG) == None
    requires SignaturesAt(z, n) == []
    ensures !ListsRrsig(z, n)
  {
    hide AllShaped, ApexPresent, BitmapsExact, SignaturesAt, FindCut, SortedNames, NamesClosed, SortedHashes, NextAfter,
         HashLabel;
    FoundCut(SortedNames(z.cuts), n, TYPE_RRSIG);
    assert n !in z.cuts;
    if z.mode.NsecMode? {
      assert KeyOf(z.denial[n]) == (n, TYPE_NSEC);
      SignedSetAnswersRrsig(env, z, n, TYPE_NSEC);
    }
    if k :| k in z.rrsets && k.0 == n && k.1 != TYPE_NSEC3 {
      assert k == (n, k.1);
      SignedSetAnswersRrsig(env, z, n, k.1);
    }
  }

  lemma WildcardNodata(env: Env, z: SignedZone, qname: Name, qtype: RType)
    returns (wc: Name, encloser: Name, nextCloser: Name, overNext: Name)
    requires WellFormed(env, z) && z.origin <= qname && ValidName(qname) && qname !in z.names
    requires var a := Nonexistent(env, z, qname, qtype, true);
             a.rcode == NOERROR && a.answers == []
    ensures SoaPair(z).Ok? && IsClosestEncloser(z.names, qname, encloser, nextCloser)
    ensures wc == encloser + [WILDCARD] && wc in z.names && CoveredBy(env, z, overNext, nextCloser)
    ensures wc in z.denial && (z.denial[wc].rdata.Nsec? || z.denial[wc].rdata.Nsec3?)
    ensures forall r :: r in Nonexistent(env, z, qname, qtype, true).authorities
                        <==> || r == SoaPair(z).value.0 || r == SoaPair(z).value.1
                             || exists x :: x in NodataLinks(z, qname, wc, encloser, overNext) && SentFor(z, x, r)
    ensures TYPE_CNAME !in Bitmap(z.denial[wc])
    ensures qtype in Bitmap(z.denial[wc]) <==> qtype == TYPE_RRSIG && ListsRrsig(z, wc)
  {
    hide WellFormed, SoaPair, EncloserProof, ClosestEncloser, IsClosestEncloser, KeysAt, FirstReal, Bitmap, ListsRrsig,
         Collides, SentFor, CoveredBy, EncloserLinks;
    EncloserFound(env, z, qname);
    NonexistentOutcome(env, z, qname, qtype, true);
    SoaPairOk(env, z);
    encloser, nextCloser := ClosestEncloser(z, qname).value.0, ClosestEncloser(z, qname).value.1;
    wc := encloser + [WILDCARD];
    SetsNonempty(env, z);
    BitmapAt(env, z, wc, qtype);
    BitmapAt(env, z, wc, TYPE_CNAME);
    assert WildcardSet(z, wc, qtype) == None;
    overNext := WildcardProof(env, z, SoaRecords(z).value, qname, encloser, nextCloser);
  }

  lemma WildcardProof(env: Env, z: SignedZone, out: seq<RR>, qname: Name, encloser: Name, nextCloser: Name)
    returns (overNext: Name)
    requires WellFormed(env, z) && z.origin <= qname && ValidName(qname) && qname !in z.names
    requires ClosestEncloser(z, qname) == Ok((encloser, nextCloser)) && encloser + [WILDCARD] in z.names
    requires EncloserProof(env, z, out, qname, true, true).Ok?
    ensures CoveredBy(env, z, overNext, nextCloser)
    ensures Extended(z, out, EncloserProof(env, z, out, qname, true, true).value,
                     NodataLinks(z, qname, encloser + [WILDCARD], encloser, overNext))
  {
    hide WellFormed, ClosestEncloser, IsClosestEncloser, AppendDenialOf, EncloserProof, Deniable, CoveredBy, Extended;
    EncloserProofOutcome(env, z, out, qname, true, true);
    var e, c, next, more := EncloserPart(env, z, out, qname);
    overNext := next;
    var wc := encloser + [WILDCARD];
    MatchStep(env, z, more, wc);
    ExtendedTwice(z, out, more, AppendDenialOf(z, more, wc).value, EncloserLinks(z, encloser, overNext), {wc});
  }

  /** A signed referral without DS carries the NS set of the cut and, with its
      signature, the cut's own denial record, which lists NS and not DS; nothing else. */
  lemma UnsignedReferralIsProved(env: Env, z: SignedZone, qname: Name, qtype: RType, cut: Name)
    requires WellFormed(env, z) && z.origin <= qname
    requires cut in z.cuts && cut <= qname && !(qname == cut && qtype == TYPE_DS) && (cut, TYPE_DS) !in z.rrsets
    ensures cut in z.denial && (z.denial[cut].rdata.Nsec? || z.denial[cut].rdata.Nsec3?)
    ensures TYPE_NS in Bitmap(z.denial[cut]) && TYPE_DS !in Bitmap(z.denial[cut])
    ensures (cut, TYPE_NS) in z.rrsets
    ensures var a := Resolve(env, z, qname, qtype, true);
            && a.rcode == 0 && !a.authoritative && a.answers == []
            && forall r :: r in a.authorities <==> r in z.rrsets[(cut, TYPE_NS)] || SentFor(z, cut, r)
  {
    hide AllShaped, ApexPresent, ChainBuilt, DenialSigned, BitmapsExact, NamesClosed, Glue, AppendPair, FindCut,
         SortedNames, Bitmap, SentFor;
    CutDecides(env, z, qname, qtype);
    BitmapAt(env, z, cut, TYPE_NS);
    BitmapAt(env, z, cut, TYPE_DS);
    AppendLink(env, z, SetOr(ExactSet(z, cut, TYPE_NS)), cut);
  }
}
