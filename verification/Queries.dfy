/** What a query asks of a signed zone, stated on the zone's contents alone, and
    the tests of `resolve` that decide it. */
module Queries {
  import opened Basics
  import opened Seqs
  import opened Names
  import opened Records
  import opened Zone
  import opened ZoneFacts
  import opened Resolver
  import opened Answers

  // ----- The question -----

  /** A delegation governs the name; the DS set of a cut is its parent's. */
  ghost predicate Delegated(z: SignedZone, qname: Name, qtype: RType) {
    exists c :: c in z.cuts && c <= qname && !(qname == c && qtype == TYPE_DS)
  }

  predicate IsDenialType(t: RType) { t == TYPE_NSEC || t == TYPE_NSEC3 || t == TYPE_NSEC3PARAM }

  /** The RRset of type `t` at `n` answers for `qtype`: the type itself, for ANY
      the least type that is not one of the denial's own (RFC 8482). */
  ghost predicate Selects(z: SignedZone, n: Name, qtype: RType, t: RType) {
    && (n, t) in z.rrsets
    && if qtype != TYPE_ANY then t == qtype
       else !IsDenialType(t) && forall u :: (n, u) in z.rrsets && u < t ==> IsDenialType(u)
  }

  ghost predicate SignatureAt(z: SignedZone, n: Name, r: RR) {
    IsSig(r) && exists t :: (n, t) in z.rrsets && r in z.rrsets[(n, t)]
  }

  /** Nothing at the name answers the query, and the name does not exist. */
  ghost predicate Unmatched(z: SignedZone, qname: Name, qtype: RType) {
    && !Delegated(z, qname, qtype)
    && (forall t :: !Selects(z, qname, qtype, t))
    && !(qtype == TYPE_RRSIG && exists r :: SignatureAt(z, qname, r))
    && !(qtype != TYPE_CNAME && (qname, TYPE_CNAME) in z.rrsets)
    && qname !in z.names
  }

  /** The wildcard below the closest encloser exists. */
  ghost predicate WildcardExists(z: SignedZone, qname: Name) {
    exists encloser, next ::
      IsClosestEncloser(z.names, qname, encloser, next) && encloser + [WILDCARD] in z.names
  }

  /** The hash of the next closer name, or of the missing wildcard, collides
      with the hash of an existing name. */
  ghost predicate HashClash(env: Env, z: SignedZone, qname: Name) {
    && z.mode.Nsec3Mode?
    && exists encloser, next ::
         && IsClosestEncloser(z.names, qname, encloser, next)
         && (|| HashOf(env, z.mode, next) in z.hashes
             || (&& encloser + [WILDCARD] !in z.names
                 && HashOf(env, z.mode, encloser + [WILDCARD]) in z.hashes))
  }

  /** `sig` is the first signature of an RRset. */
  ghost predicate FirstSignature(s: seq<RR>, sig: RR) {
    exists i :: 0 <= i < |s| && s[i] == sig && sig.rdata.Rrsig? && forall j :: 0 <= j < i ==> !s[j].rdata.Rrsig?
  }

  // ----- The tests that decide it -----

  lemma {:induction false} FoundCut(order: seq<Name>, qname: Name, qtype: RType)
    ensures FindCut(order, qname, qtype).Some? ==>
              var c := FindCut(order, qname, qtype).value;
              c in order && c <= qname && !(qname == c && qtype == TYPE_DS)
    ensures FindCut(order, qname, qtype).None? ==>
              forall c :: c in order && c <= qname ==> qname == c && qtype == TYPE_DS
  {
    if order != [] {
      FoundCut(order[1..], qname, qtype);
      assert order == [order[0]] + order[1..];
    }
  }

  /** Cuts are not nested, so the delegation that governs a name is the only one
      at or above it. */
  lemma CutIsUnique(env: Env, z: SignedZone, a: Name, b: Name, n: Name)
    requires WellFormed(env, z) && a in z.cuts && b in z.cuts && a <= n && b <= n
    ensures a == b
  {
    hide NamesClosed, AllShaped, ApexPresent, ChainBuilt, DenialSigned, BitmapsExact;
    assert !Occluded(z.cuts, a) && !Occluded(z.cuts, b);
    assert a == n[..|a|] && b == n[..|b|];
    assert |a| < |b| ==> StrictlyBelow(b, a);
    assert |b| < |a| ==> StrictlyBelow(a, b);
  }

  lemma CutDecides(env: Env, z: SignedZone, qname: Name, qtype: RType)
    requires WellFormed(env, z)
    ensures FindCut(SortedNames(z.cuts), qname, qtype) == None <==> !Delegated(z, qname, qtype)
    ensures forall c :: c in z.cuts && c <= qname && !(qname == c && qtype == TYPE_DS)
                        ==> FindCut(SortedNames(z.cuts), qname, qtype) == Some(c)
  {
    hide WellFormed, FindCut;
    FoundCut(SortedNames(z.cuts), qname, qtype);
    forall c | c in z.cuts && c <= qname && !(qname == c && qtype == TYPE_DS)
      ensures FindCut(SortedNames(z.cuts), qname, qtype) == Some(c)
    {
      var f := FindCut(SortedNames(z.cuts), qname, qtype).value;
      CutIsUnique(env, z, c, f, qname);
    }
  }

  lemma {:induction false} FirstRealIs(keys: seq<SetKey>)
    ensures FirstReal(keys).None? ==> forall k :: k in keys ==> IsDenialType(k.1)
    ensures FirstReal(keys).Some? ==>
              exists i :: && 0 <= i < |keys| && keys[i].1 == FirstReal(keys).value && !IsDenialType(keys[i].1)
                          && forall j :: 0 <= j < i ==> IsDenialType(keys[j].1)
  {
    if keys != [] && IsDenialType(keys[0].1) {
      var rest := keys[1..];
      FirstRealIs(rest);
      assert keys == [keys[0]] + rest;
      if FirstReal(rest).Some? {
        var i :| && 0 <= i < |rest| && rest[i].1 == FirstReal(rest).value && !IsDenialType(rest[i].1)
                 && forall j :: 0 <= j < i ==> IsDenialType(rest[j].1);
        assert keys[i + 1] == rest[i];
        forall j | 0 <= j < i + 1 ensures IsDenialType(keys[j].1) {
          assert j > 0 ==> keys[j] == rest[j - 1];
        }
      }
    }
  }

  lemma KeysAtAscend(z: SignedZone, n: Name)
    ensures var s := KeysAt(z, n);
            && (forall i, j :: 0 <= i < j < |s| ==> s[i].1 < s[j].1)
            && (forall k :: k in s <==> k in z.rrsets && k.0 == n && 1 <= k.1 <= 65535)
  {
    hide NameLess;
    NameOrder();
    var keys := set k | k in z.rrsets && k.0 == n && 1 <= k.1 <= 65535;
    var s := SortedKeys(keys);
    forall i, j | 0 <= i < j < |s| ensures s[i].1 < s[j].1 {
      assert s[i] in s && s[j] in s;
      assert s[i].0 == n == s[j].0;
      assert KeyLess(s[i], s[j]);
    }
  }

  /** The type looked up at a name is the one the query selects there, if any. */
  lemma TypeDecides(env: Env, z: SignedZone, n: Name, qtype: RType)
    requires WellFormed(env, z)
    ensures forall t :: Selects(z, n, qtype, t) ==> EffectiveType(z, n, qtype) == t
    ensures (forall t :: !Selects(z, n, qtype, t)) <==> ExactSet(z, n, EffectiveType(z, n, qtype)) == None
  {
    hide KeysAt, FirstReal, NamesClosed, CutsProper, AllShaped, ApexPresent, ChainBuilt, DenialSigned, BitmapsExact;
    var keys := KeysAt(z, n);
    KeysAtAscend(z, n);
    FirstRealIs(keys);
    if qtype == TYPE_ANY {
      assert (n, TYPE_ANY) !in z.rrsets;
      if FirstReal(keys).Some? {
        var i :| && 0 <= i < |keys| && keys[i].1 == FirstReal(keys).value && !IsDenialType(keys[i].1)
                 && forall j :: 0 <= j < i ==> IsDenialType(keys[j].1);
        assert keys[i] in keys && keys[i] == (n, keys[i].1);
        forall u | (n, u) in z.rrsets && u < keys[i].1 ensures IsDenialType(u) {
          assert (n, u) in keys;
          var j :| 0 <= j < |keys| && keys[j] == (n, u);
        }
        assert Selects(z, n, qtype, keys[i].1);
      } else {
        forall t ensures !Selects(z, n, qtype, t) {
          if (n, t) in z.rrsets {
            assert (n, t) in keys;
          }
        }
      }
    } else if (n, qtype) in z.rrsets {
      assert Selects(z, n, qtype, qtype);
    }
  }

  lemma SignaturesAtAre(env: Env, z: SignedZone, n: Name)
    requires WellFormed(env, z)
    ensures forall r :: r in SignaturesAt(z, n) <==> SignatureAt(z, n, r)
    ensures SignaturesAt(z, n) == [] <==> forall r :: !SignatureAt(z, n, r)
  {
    hide KeysAt, Flatten, NamesClosed, CutsProper, AllShaped, ApexPresent, ChainBuilt, DenialSigned, BitmapsExact;
    var keys := KeysAt(z, n);
    KeysAtAscend(z, n);
    FlattenMembers(z.rrsets, keys);
    FilterMembers(IsSig, Flatten(z.rrsets, keys));
    forall r ensures r in SignaturesAt(z, n) <==> SignatureAt(z, n, r) {
      if r in SignaturesAt(z, n) {
        var k :| k in keys && r in z.rrsets[k];
        assert k == (n, k.1);
      }
      if SignatureAt(z, n, r) {
        var t :| (n, t) in z.rrsets && r in z.rrsets[(n, t)];
        assert (n, t) in keys;
      }
    }
    if SignaturesAt(z, n) != [] {
      assert SignaturesAt(z, n)[0] in SignaturesAt(z, n);
    }
  }

  /** `resolve` passes every positive branch and finds that the name does not exist. */
  predicate FallsThrough(z: SignedZone, qname: Name, qtype: RType) {
    && FindCut(SortedNames(z.cuts), qname, qtype) == None
    && ExactSet(z, qname, EffectiveType(z, qname, qtype)) == None
    && !(qtype == TYPE_RRSIG && SignaturesAt(z, qname) != [])
    && !(qtype != TYPE_CNAME && ExactSet(z, qname, TYPE_CNAME).Some?)
    && qname !in z.names
  }

  lemma FallsThroughIff(env: Env, z: SignedZone, qname: Name, qtype: RType)
    requires WellFormed(env, z)
    ensures FallsThrough(z, qname, qtype) <==> Unmatched(z, qname, qtype)
  {
    hide WellFormed, Delegated, Selects, SignatureAt, FindCut, SortedNames, EffectiveType, SignaturesAt;
    CutDecides(env, z, qname, qtype);
    TypeDecides(env, z, qname, qtype);
    SignaturesAtAre(env, z, qname);
  }

  /** `find_closest_encloser` finds a member whose next closer name, or whose
      missing wildcard, shares a hash with an existing name. */
  predicate Collides(env: Env, z: SignedZone, qname: Name) {
    && z.mode.Nsec3Mode? && ClosestEncloser(z, qname).Ok?
    && var p := ClosestEncloser(z, qname).value;
       || HashOf(env, z.mode, p.1) in z.hashes
       || (p.0 + [WILDCARD] !in z.names && HashOf(env, z.mode, p.0 + [WILDCARD]) in z.hashes)
  }

  lemma EncloserIsUnique(names: set<Name>, n: Name, e: Name, c: Name, e': Name, c': Name)
    requires IsClosestEncloser(names, n, e, c) && IsClosestEncloser(names, n, e', c')
    ensures e == e' && c == c'
  {
    assert e == n[..|e|] && e' == n[..|e'|];
  }

  /** The closest encloser found is the only one there is. */
  lemma EncloserDecides(env: Env, z: SignedZone, qname: Name)
    requires WellFormed(env, z) && z.origin <= qname && ValidName(qname) && qname !in z.names
    ensures ClosestEncloser(z, qname).Ok?
    ensures var p := ClosestEncloser(z, qname).value;
            && IsClosestEncloser(z.names, qname, p.0, p.1)
            && (WildcardExists(z, qname) <==> p.0 + [WILDCARD] in z.names)
    ensures Collides(env, z, qname) <==> HashClash(env, z, qname)
  {
    hide WellFormed, ClosestEncloser, IsClosestEncloser;
    EncloserFound(env, z, qname);
    var p := ClosestEncloser(z, qname).value;
    forall e, c | IsClosestEncloser(z.names, qname, e, c) ensures e == p.0 && c == p.1 {
      EncloserIsUnique(z.names, qname, e, c, p.0, p.1);
    }
  }

  lemma {:induction false} FirstSigIs(s: seq<RR>)
    ensures FirstSig(s).Some? ==> FirstSignature(s, FirstSig(s).value)
    ensures forall sig :: FirstSignature(s, sig) ==> FirstSig(s) == Some(sig)
  {
    if s != [] && !s[0].rdata.Rrsig? {
      var rest := s[1..];
      FirstSigIs(rest);
      if FirstSig(rest).Some? {
        var sig := FirstSig(rest).value;
        var i :| && 0 <= i < |rest| && rest[i] == sig && sig.rdata.Rrsig?
                 && forall j :: 0 <= j < i ==> !rest[j].rdata.Rrsig?;
        assert s[i + 1] == sig;
        assert forall j :: 0 <= j < i + 1 ==> j == 0 || s[j] == rest[j - 1];
        assert FirstSignature(s, sig);
      }
      forall sig | FirstSignature(s, sig) ensures FirstSig(s) == Some(sig) {
        var i :| && 0 <= i < |s| && s[i] == sig && sig.rdata.Rrsig?
                 && forall j :: 0 <= j < i ==> !s[j].rdata.Rrsig?;
        assert i > 0 && rest[i - 1] == sig;
        assert forall j :: 0 <= j < i - 1 ==> rest[j] == s[j + 1];
        assert FirstSignature(rest, sig);
      }
    } else if s != [] {
      assert FirstSignature(s, s[0]);
    }
  }

  /** The SOA sent with a negative answer: the zone's own with the smaller of its
      TTL and its minimum field, and its first signature with that TTL. */
  lemma SoaPairIs(env: Env, z: SignedZone) returns (soa: RR, sig: RR, ttl: int)
    requires WellFormed(env, z)
    ensures (z.origin, TYPE_SOA) in z.rrsets && z.rrsets[(z.origin, TYPE_SOA)] != []
    ensures soa == z.rrsets[(z.origin, TYPE_SOA)][0] && soa.rdata.Soa?
    ensures FirstSignature(z.rrsets[(z.origin, TYPE_SOA)], sig)
    ensures ttl <= soa.ttl && ttl <= soa.rdata.minimum && (ttl == soa.ttl || ttl == soa.rdata.minimum)
    ensures SoaPair(z) == Ok((soa.(ttl := ttl), sig.(ttl := ttl)))
  {
    hide NamesClosed, CutsProper, ChainBuilt, DenialSigned, BitmapsExact, FirstSig, FirstSignature;
    var s := z.rrsets[(z.origin, TYPE_SOA)];
    SoaPairOk(env, z);
    var d :| Shaped(z.cuts, (z.origin, TYPE_SOA), s, d);
    assert KeyOf(s[0]) == (z.origin, TYPE_SOA);
    FirstSigIs(s);
    soa, sig, ttl := s[0], FirstSig(s).value, DenialTtl(s[0]);
  }
}
