/** What the resolver's answers prove. */
module Answers {
  import opened Basics
  import opened Order
  import opened Names
  import opened Base32
  import opened Denial
  import opened Records
  import opened Zone
  import opened ZoneFacts
  import opened Resolver

  // ----- The chain lookups -----

  lemma {:induction false} FirstCoveringAt(denial: map<Name, RR>, order: seq<Name>, n: Name, k: nat)
    requires forall m :: m in order ==> m in denial && denial[m].rdata.Nsec?
    requires k < |order|
    requires forall i :: 0 <= i <= k ==>
      (Covers(NameLess, denial[order[i]].name, denial[order[i]].rdata.nextName, n) <==> i == k)
    ensures FirstCovering(denial, order, n) == Some(denial[order[k]])
  {
    hide Covers, NameLess;
    if k > 0 {
      assert Covers(NameLess, denial[order[0]].name, denial[order[0]].rdata.nextName, n) <==> false;
      var rest := order[1..];
      forall i | 0 <= i <= k - 1 ensures
        Covers(NameLess, denial[rest[i]].name, denial[rest[i]].rdata.nextName, n) <==> i == k - 1 {
        assert rest[i] == order[i + 1];
      }
      FirstCoveringAt(denial, rest, n, k - 1);
    }
  }

  lemma {:induction false} FirstCoveringNone(denial: map<Name, RR>, order: seq<Name>, n: Name)
    requires forall m :: m in order ==>
      m in denial && denial[m].rdata.Nsec? && !Covers(NameLess, denial[m].name, denial[m].rdata.nextName, n)
    ensures FirstCovering(denial, order, n) == None
  {
    if order != [] {
      FirstCoveringNone(denial, order[1..], n);
    }
  }

  /** The link that leaves `m`, in an NSEC zone. */
  lemma NsecLink(env: Env, z: SignedZone, n: Name, i: nat)
    requires WellFormed(env, z) && z.mode.NsecMode? && i < |SortedNames(z.names)|
    ensures var order := SortedNames(z.names);
            && order[i] in z.names && z.denial[order[i]].rdata.Nsec?
            && (Covers(NameLess, z.denial[order[i]].name, z.denial[order[i]].rdata.nextName, n)
                <==> n !in z.names && i == PredecessorIndex(NameLess, order, n))
  {
    hide Covers, NameLess, PredecessorIndex, AllShaped, DenialSigned, BitmapsExact, NamesClosed, CutsProper,
         ApexPresent;
    NameOrder();
    var order := SortedNames(z.names);
    assert order[i] in z.names;
    IndexOfSorted(NameLess, order, i);
    ChainPartition(NameLess, order, n, i);
  }

  /** In an NSEC zone exactly the missing names are covered, each by one record. */
  lemma NsecCovering(env: Env, z: SignedZone, n: Name)
    requires WellFormed(env, z) && z.mode.NsecMode?
    ensures n in z.names ==> Covering(env, z, n) == Err(NoProof)
    ensures n !in z.names ==>
      exists m :: m in z.names && Covering(env, z, n) == Ok(z.denial[m])
        && z.denial[m].rdata.Nsec? && Covers(NameLess, m, z.denial[m].rdata.nextName, n)
    ensures forall m :: m in z.names && z.denial[m].rdata.Nsec? && Covers(NameLess, m, z.denial[m].rdata.nextName, n)
                        ==> Covering(env, z, n) == Ok(z.denial[m])
  {
    hide Covers, NameLess, PredecessorIndex, AllShaped, DenialSigned, BitmapsExact, NamesClosed, CutsProper,
         ApexPresent, SortedNames, FirstCovering;
    var order := SortedNames(z.names);
    forall i: nat | i < |order|
      ensures order[i] in z.names && z.denial[order[i]].rdata.Nsec?
      ensures Covers(NameLess, z.denial[order[i]].name, z.denial[order[i]].rdata.nextName, n)
              <==> n !in z.names && i == PredecessorIndex(NameLess, order, n)
    {
      NsecLink(env, z, n, i);
    }
    if n in z.names {
      FirstCoveringNone(z.denial, order, n);
    } else {
      assert z.origin in z.names by { ApexExists(env, z); }
      assert z.origin in order;
      FirstCoveringAt(z.denial, order, n, PredecessorIndex(NameLess, order, n));
    }
  }

  lemma ApexExists(env: Env, z: SignedZone)
    requires WellFormed(env, z)
    ensures z.origin in z.names
  {
  }

  /** The link that leaves the `i`-th hash, in an NSEC3 zone. */
  lemma Nsec3Link(env: Env, z: SignedZone, x: Octets, i: nat)
    requires WellFormed(env, z) && z.mode.Nsec3Mode? && i < |SortedHashes(z.hashes.Keys)|
    ensures var order := SortedHashes(z.hashes.Keys);
            && order[i] in z.hashes
            && var m := z.hashes[order[i]];
               && m in z.names && HashOf(env, z.mode, m) == order[i] && z.denial[m].rdata.Nsec3?
               && (Covers(OctetsLess, order[i], z.denial[m].rdata.nextHash, x)
                   <==> x !in z.hashes && i == PredecessorIndex(OctetsLess, order, x))
  {
    hide Covers, OctetsLess, PredecessorIndex, AllShaped, DenialSigned, BitmapsExact, NamesClosed, CutsProper,
         ApexPresent, HashLabel, SortedHashes, StrictTotal, Sorted;
    OctetsOrder();
    var order := SortedHashes(z.hashes.Keys);
    assert order[i] in z.hashes.Keys;
    IndexOfSorted(OctetsLess, order, i);
    ChainPartition(OctetsLess, order, x, i);
  }

  /** In an NSEC3 zone exactly the hashes that are not in the chain are covered, each by one record. */
  lemma Nsec3Covering(env: Env, z: SignedZone, n: Name)
    requires WellFormed(env, z) && z.mode.Nsec3Mode?
    ensures HashOf(env, z.mode, n) in z.hashes ==> Covering(env, z, n) == Err(NoProof)
    ensures HashOf(env, z.mode, n) !in z.hashes ==>
      exists m :: m in z.names && Covering(env, z, n) == Ok(z.denial[m]) && z.denial[m].rdata.Nsec3?
        && Covers(OctetsLess, HashOf(env, z.mode, m), z.denial[m].rdata.nextHash, HashOf(env, z.mode, n))
    ensures forall m :: (&& m in z.names && z.denial[m].rdata.Nsec3?
                         && Covers(OctetsLess, HashOf(env, z.mode, m), z.denial[m].rdata.nextHash,
                                   HashOf(env, z.mode, n)))
                        ==> Covering(env, z, n) == Ok(z.denial[m])
  {
    hide Covers, OctetsLess, PredecessorIndex, AllShaped, DenialSigned, BitmapsExact, CutsProper, ApexPresent,
         SortedHashes, HashLabel;
    var order, x := SortedHashes(z.hashes.Keys), HashOf(env, z.mode, n);
    assert HashOf(env, z.mode, z.origin) in order;
    var k := PredecessorIndex(OctetsLess, order, x);
    Nsec3Link(env, z, x, k);
    forall m | m in z.names && z.denial[m].rdata.Nsec3?
        && Covers(OctetsLess, HashOf(env, z.mode, m), z.denial[m].rdata.nextHash, x)
      ensures Covering(env, z, n) == Ok(z.denial[m])
    {
      var i :| 0 <= i < |order| && order[i] == HashOf(env, z.mode, m);
      Nsec3Link(env, z, x, i);
    }
  }

  // ----- Signed pairs -----

  lemma {:induction false} FirstSigFound(s: seq<RR>, i: nat)
    requires i < |s| && s[i].rdata.Rrsig?
    ensures FirstSig(s).Some? && FirstSig(s).value in s
  {
    if !s[0].rdata.Rrsig? {
      FirstSigFound(s[1..], i - 1);
    }
  }

  lemma SignedPair(env: Env, z: SignedZone, rr: RR)
    requires WellFormed(env, z) && KeyOf(rr) in z.rrsets && !LeftUnsigned(z.cuts, KeyOf(rr))
    ensures Pair(z, rr).Ok? && Pair(z, rr).value.0 == rr
    ensures var sig := Pair(z, rr).value.1;
            sig in z.rrsets[KeyOf(rr)] && sig.rdata.Rrsig?
  {
    hide ChainBuilt, DenialSigned, BitmapsExact, NamesClosed, CutsProper, ApexPresent, LeftUnsigned;
    var s := z.rrsets[KeyOf(rr)];
    var d :| Shaped(z.cuts, KeyOf(rr), s, d);
    assert d < |s|;
    FirstSigFound(s, d);
    FirstSigIsSig(s);
  }

  lemma {:induction false} FirstSigIsSig(s: seq<RR>)
    ensures FirstSig(s).Some? ==> FirstSig(s).value.rdata.Rrsig?
  {
    if s != [] {
      FirstSigIsSig(s[1..]);
    }
  }

  lemma DenialPair(env: Env, z: SignedZone, n: Name)
    requires WellFormed(env, z) && n in z.names
    ensures n in z.denial && Pair(z, z.denial[n]).Ok? && Pair(z, z.denial[n]).value.0 == z.denial[n]
  {
    hide NamesClosed, CutsProper, ApexPresent, LeftUnsigned, AllShaped, Pair, BitmapsExact;
    SignedPair(env, z, z.denial[n]);
  }

  lemma SoaPairOk(env: Env, z: SignedZone)
    requires WellFormed(env, z)
    ensures SoaPair(z).Ok?
  {
    hide ChainBuilt, DenialSigned, BitmapsExact, Pair;
    var s := z.rrsets[(z.origin, TYPE_SOA)];
    var d :| Shaped(z.cuts, (z.origin, TYPE_SOA), s, d);
    assert KeyOf(s[0]) == (z.origin, TYPE_SOA);
    SignedPair(env, z, s[0]);
  }

  // ----- Closest enclosers and empty subtrees -----

  /** Nothing exists below a missing name. */
  lemma {:induction false} SubtreeEmpty(origin: Name, names: set<Name>, top: Name, n: Name)
    requires NamesClosed(origin, names) && origin <= top && top !in names && n in names
    ensures !(top <= n)
    decreases |n|
  {
    if top <= n {
      assert top == n[..|top|] && n == n[..|n|];
      var parent := n[..|n| - 1];
      assert top <= parent;
      SubtreeEmpty(origin, names, top, parent);
    }
  }

  lemma {:induction false} ClimbFinds(names: set<Name>, origin: Name, n: Name, child: Name)
    requires origin in names && origin <= child <= n
    requires forall k :: |child| <= k <= |n| ==> n[..k] !in names
    ensures Climb(names, child).Ok?
    ensures var p := Climb(names, child).value;
            IsClosestEncloser(names, n, p.0, p.1)
    decreases |child|
  {
    assert child == n[..|child|] && origin == child[..|origin|] && child == child[..|child|];
    var parent := child[..|child| - 1];
    assert parent == n[..|child| - 1];
    if parent !in names {
      ClimbFinds(names, origin, n, parent);
    }
  }

  /** A missing name of the zone has a closest encloser, whose wildcard child is a legal name. */
  lemma EncloserFound(env: Env, z: SignedZone, n: Name)
    requires WellFormed(env, z) && z.origin <= n && n !in z.names && ValidName(n)
    ensures ClosestEncloser(z, n).Ok?
    ensures var p := ClosestEncloser(z, n).value;
            && IsClosestEncloser(z.names, n, p.0, p.1) && z.origin <= p.0
            && p.1 !in z.names && z.origin <= p.1 <= n
            && Wildcard(p.0) == Some(p.0 + [WILDCARD])
  {
    hide ChainBuilt, DenialSigned, BitmapsExact, AllShaped, CutsProper, ApexPresent;
    assert n[..|n|] == n;
    ClimbFinds(z.names, z.origin, n, n);
    var p := ClosestEncloser(z, n).value;
    assert z.origin <= p.0;
    WildcardFits(p.0, n);
  }

  /** Link `m` of the chain covers `n`. */
  ghost predicate CoveredBy(env: Env, z: SignedZone, m: Name, n: Name) {
    && m in z.names && m in z.denial
    && match z.mode
       case NsecMode => z.denial[m].rdata.Nsec? && Covers(NameLess, m, z.denial[m].rdata.nextName, n)
       case Nsec3Mode(_, _) =>
         && z.denial[m].rdata.Nsec3?
         && Covers(OctetsLess, HashOf(env, z.mode, m), z.denial[m].rdata.nextHash, HashOf(env, z.mode, n))
  }

  /** The chain denies `n`: its name, or in an NSEC3 zone its hash, is not a member. */
  ghost predicate Deniable(env: Env, z: SignedZone, n: Name) {
    if z.mode.NsecMode? then n !in z.names else HashOf(env, z.mode, n) !in z.hashes
  }

  /** The chain's intervals partition what can be denied: one link covers each
      deniable name, no link covers any other, and `covering` finds that link. */
  lemma ChainPartitionsNames(env: Env, z: SignedZone, n: Name)
    requires WellFormed(env, z)
    ensures n in z.names ==> !Deniable(env, z, n)
    ensures Deniable(env, z, n) <==> Covering(env, z, n).Ok?
    ensures Deniable(env, z, n) <==> exists m :: CoveredBy(env, z, m, n)
    ensures forall m :: CoveredBy(env, z, m, n) ==> Covering(env, z, n) == Ok(z.denial[m])
    ensures forall m, m' :: CoveredBy(env, z, m, n) && CoveredBy(env, z, m', n) ==> m == m'
  {
    hide DenialSigned, BitmapsExact, AllShaped, CutsProper, ApexPresent, NamesClosed, Covering, Covers, SortedNames,
         SortedHashes, NextAfter, HashLabel;
    if z.mode.NsecMode? {
      NsecCovering(env, z, n);
      if Deniable(env, z, n) {
        var m :| m in z.names && Covering(env, z, n) == Ok(z.denial[m])
          && z.denial[m].rdata.Nsec? && Covers(NameLess, m, z.denial[m].rdata.nextName, n);
        assert CoveredBy(env, z, m, n);
      }
    } else {
      Nsec3Covering(env, z, n);
      if Deniable(env, z, n) {
        var m :| m in z.names && Covering(env, z, n) == Ok(z.denial[m]) && z.denial[m].rdata.Nsec3?
          && Covers(OctetsLess, HashOf(env, z.mode, m), z.denial[m].rdata.nextHash, HashOf(env, z.mode, n));
        assert CoveredBy(env, z, m, n);
      }
    }
    forall m, m' | CoveredBy(env, z, m, n) && CoveredBy(env, z, m', n) ensures m == m' {
      LinkOwnersDistinct(env, z, n, m, m');
    }
  }

  lemma LinkOwnersDistinct(env: Env, z: SignedZone, n: Name, m: Name, m': Name)
    requires WellFormed(env, z) && CoveredBy(env, z, m, n) && CoveredBy(env, z, m', n)
    ensures m == m'
  {
    hide DenialSigned, BitmapsExact, AllShaped, CutsProper, ApexPresent, NamesClosed, Covers, HashLabel,
         PredecessorIndex;
    if z.mode.NsecMode? {
      var order := SortedNames(z.names);
      var i :| 0 <= i < |order| && order[i] == m;
      var j :| 0 <= j < |order| && order[j] == m';
      NsecLink(env, z, n, i);
      NsecLink(env, z, n, j);
    } else {
      var order := SortedHashes(z.hashes.Keys);
      var i :| 0 <= i < |order| && order[i] == HashOf(env, z.mode, m);
      var j :| 0 <= j < |order| && order[j] == HashOf(env, z.mode, m');
      Nsec3Link(env, z, HashOf(env, z.mode, n), i);
      Nsec3Link(env, z, HashOf(env, z.mode, n), j);
    }
  }

  lemma NsecNextIsName(env: Env, z: SignedZone, m: Name)
    requires WellFormed(env, z) && z.mode.NsecMode? && m in z.names
    ensures m in z.denial && z.denial[m].rdata.Nsec? && z.denial[m].rdata.nextName in z.names
  {
    hide DenialSigned, BitmapsExact, AllShaped, CutsProper, ApexPresent, HashLabel, SortedHashes, SortedNames,
         NamesClosed;
    var order := SortedNames(z.names);
    assert NextAfter(order, m) in order;
  }

  /** In an NSEC zone the one record that covers a missing name also covers the
      next closer name and everything below it. */
  lemma NsecCoversWholeSubtree(env: Env, z: SignedZone, qname: Name, encloser: Name, nextCloser: Name, m: Name, x: Name)
    requires WellFormed(env, z) && z.mode.NsecMode? && z.origin <= qname
    requires IsClosestEncloser(z.names, qname, encloser, nextCloser)
    requires CoveredBy(env, z, m, qname) && nextCloser <= x
    ensures CoveredBy(env, z, m, x)
  {
    hide DenialSigned, BitmapsExact, AllShaped, CutsProper, ApexPresent, Covers, ChainBuilt;
    var next := z.denial[m].rdata.nextName;
    NsecNextIsName(env, z, m);
    SubtreeEmpty(z.origin, z.names, nextCloser, m);
    SubtreeEmpty(z.origin, z.names, nextCloser, next);
    CoversWholeSubtree(m, next, nextCloser, qname, x);
  }
}
