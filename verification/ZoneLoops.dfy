/** The loops of `sign_with_keysets` in crates/adns-dnssec/src/zone.rs, each
    proved against the declarative construction of module Zone. */
module ZoneLoops {
  import opened Basics
  import opened Order
  import opened Seqs
  import opened Names
  import opened Denial
  import opened Records
  import opened Signing
  import opened Zone
  import opened ZoneFacts

  // ----- Names and types -----

  function Ancestors(n: Name, origin: Name): set<Name> {
    set k | |origin| <= k <= |n| :: n[..k]
  }

  function VisibleOwners(records: seq<RR>, cuts: set<Name>): set<Name> {
    set r | r in records && !Occluded(cuts, r.name) :: r.name
  }

  function TypeTable(records: seq<RR>, cuts: set<Name>): map<Name, set<RType>> {
    map n | n in VisibleOwners(records, cuts) :: TypesAt(records, cuts, n)
  }

  lemma NamesStep(records: seq<RR>, cuts: set<Name>, origin: Name, r: RR)
    ensures ExistingNames(records + [r], cuts, origin)
            == ExistingNames(records, cuts, origin) + (if Occluded(cuts, r.name) then {} else Ancestors(r.name, origin))
  {
    hide Occluded, ExistingNames;
    var left := ExistingNames(records + [r], cuts, origin);
    var own := if Occluded(cuts, r.name) then {} else Ancestors(r.name, origin);
    var right := ExistingNames(records, cuts, origin) + own;
    forall n ensures n in left <==> n in right {
      ExistsIffSupported(records + [r], cuts, origin, n);
      ExistsIffSupported(records, cuts, origin, n);
      if x :| Supports(records + [r], cuts, origin, n, x) {
        if x in records {
          assert Supports(records, cuts, origin, n, x);
        } else {
          assert n == r.name[..|n|];
        }
      }
      if x :| Supports(records, cuts, origin, n, x) {
        assert Supports(records + [r], cuts, origin, n, x);
      }
      if !Occluded(cuts, r.name) && n in Ancestors(r.name, origin) {
        assert Supports(records + [r], cuts, origin, n, r);
      }
    }
  }

  lemma TypesAtAppend(records: seq<RR>, cuts: set<Name>, r: RR, n: Name)
    ensures TypesAt(records + [r], cuts, n)
            == TypesAt(records, cuts, n) + (if r.name == n && !Occluded(cuts, n) then {r.rtype} else {})
  {
    hide Occluded;
  }

  lemma OwnersAppend(records: seq<RR>, cuts: set<Name>, r: RR)
    ensures VisibleOwners(records + [r], cuts)
            == VisibleOwners(records, cuts) + (if Occluded(cuts, r.name) then {} else {r.name})
    ensures r.name !in VisibleOwners(records, cuts) ==> TypesAt(records, cuts, r.name) == {}
  {
    hide Occluded;
  }

  lemma TypesStep(records: seq<RR>, cuts: set<Name>, r: RR)
    ensures var t := TypeTable(records, cuts);
            TypeTable(records + [r], cuts)
            == if Occluded(cuts, r.name) then t else t[r.name := (if r.name in t then t[r.name] else {}) + {r.rtype}]
  {
    hide Occluded, TypesAt, VisibleOwners;
    OwnersAppend(records, cuts, r);
    var t, t' := TypeTable(records, cuts), TypeTable(records + [r], cuts);
    var u := if Occluded(cuts, r.name) then t else t[r.name := (if r.name in t then t[r.name] else {}) + {r.rtype}];
    assert t'.Keys == u.Keys;
    forall n | n in t' ensures t'[n] == u[n] {
      TypesAtAppend(records, cuts, r, n);
    }
  }

  /** The ancestors of a name down to the apex, by climbing. */
  method InsertAncestors(names: set<Name>, n: Name, origin: Name) returns (r: set<Name>)
    requires origin <= n
    ensures r == names + Ancestors(n, origin)
  {
    r := names;
    var name := n;
    assert name == n[..|n|] && origin == n[..|origin|];
    while true
      invariant origin <= name <= n && name == n[..|name|]
      invariant r == names + (set k | |name| < k <= |n| :: n[..k])
      decreases |name|
    {
      ghost var before := r;
      r := r + {name};
      assert r == names + (set k | |name| <= k <= |n| :: n[..k]);
      if name == origin {
        return;
      }
      ghost var was := |name|;
      name := name[..|name| - 1];
      assert (set k | was <= k <= |n| :: n[..k]) == (set k | |name| < k <= |n| :: n[..k]);
    }
  }

  /** Existing names and the types at each visible owner. */
  method CollectNames(records: seq<RR>, cuts: set<Name>, origin: Name)
    returns (names: set<Name>, types: map<Name, set<RType>>)
    requires forall r :: r in records ==> origin <= r.name
    ensures names == ExistingNames(records, cuts, origin)
    ensures types == TypeTable(records, cuts)
  {
    names, types := {}, map[];
    for i := 0 to |records|
      invariant names == ExistingNames(records[..i], cuts, origin)
      invariant types == TypeTable(records[..i], cuts)
    {
      var rr := records[i];
      assert records[..i + 1] == records[..i] + [rr] && rr in records;
      NamesStep(records[..i], cuts, origin, rr);
      TypesStep(records[..i], cuts, rr);
      if !Occluded(cuts, rr.name) {
        types := types[rr.name := (if rr.name in types then types[rr.name] else {}) + {rr.rtype}];
        names := InsertAncestors(names, rr.name, origin);
      }
    }
    assert records[..|records|] == records;
  }

  // ----- Grouping -----

  lemma {:induction false} SelectAppend(records: seq<RR>, r: RR, k: SetKey)
    ensures Select(records + [r], k) == Select(records, k) + (if KeyOf(r) == k then [r] else [])
  {
    assert (records + [r])[..|records + [r]| - 1] == records;
  }

  lemma {:induction false} SelectMissing(records: seq<RR>, k: SetKey)
    requires k !in SetKeys(records)
    ensures Select(records, k) == []
  {
    if records != [] {
      var front, last := records[..|records| - 1], records[|records| - 1];
      assert last in records && forall r :: r in front ==> r in records;
      SelectMissing(front, k);
    }
  }

  /** Records pushed into their RRsets one by one. */
  method GroupRecords(records: seq<RR>) returns (rrsets: map<SetKey, seq<RR>>)
    ensures rrsets == Groups(records)
  {
    rrsets := map[];
    for i := 0 to |records|
      invariant rrsets == Groups(records[..i])
    {
      var rr := records[i];
      var k := KeyOf(rr);
      assert records[..i + 1] == records[..i] + [rr];
      rrsets := rrsets[k := (if k in rrsets then rrsets[k] else []) + [rr]];
      GroupStep(records[..i], rr);
    }
    assert records[..|records|] == records;
  }

  lemma GroupStep(records: seq<RR>, r: RR)
    ensures var g := Groups(records);
            Groups(records + [r]) == g[KeyOf(r) := (if KeyOf(r) in g then g[KeyOf(r)] else []) + [r]]
  {
    var g := Groups(records);
    var g' := Groups(records + [r]);
    if KeyOf(r) !in SetKeys(records) {
      SelectMissing(records, KeyOf(r));
    }
    assert SetKeys(records + [r]) == SetKeys(records) + {KeyOf(r)};
    forall k | k in g' ensures g'[k] == g[KeyOf(r) := (if KeyOf(r) in g then g[KeyOf(r)] else []) + [r]][k] {
      SelectAppend(records, r, k);
    }
  }

  // ----- The denial chain -----

  function TypesOf(types: map<Name, set<RType>>, n: Name): set<RType> { if n in types then types[n] else {} }

  lemma TableGivesTypes(records: seq<RR>, cuts: set<Name>, n: Name)
    ensures TypesOf(TypeTable(records, cuts), n) == TypesAt(records, cuts, n)
  {
    hide Occluded;
  }

  lemma SortedNamesDistinct(names: set<Name>, i: nat, j: nat)
    requires i < |SortedNames(names)| && j < |SortedNames(names)| && i != j
    ensures SortedNames(names)[i] != SortedNames(names)[j]
  {
    hide SortedNames;
    NameOrder();
    var s := SortedNames(names);
    assert NameLess(s[i], s[j]) || NameLess(s[j], s[i]);
  }

  /** The record the loop makes at position `i` is the one of the specification. */
  lemma NsecRecordAt(names: set<Name>, types: map<Name, set<RType>>, ttl: int, records: seq<RR>, cuts: set<Name>,
          i: nat)
    requires types == TypeTable(records, cuts) && i < |SortedNames(names)|
    ensures var ordered := SortedNames(names);
            && ordered[i] in names
            && NewRecord(ordered[i], ttl,
                         Nsec(ordered[(i + 1) % |ordered|], TypesOf(types, ordered[i]) + {TYPE_NSEC, TYPE_RRSIG}))
               == NsecRecord(names, TypesAt(records, cuts, ordered[i]), ttl, ordered[i])
  {
    hide TypeTable, TypesAt, NextAfter, SortedNames, TypesOf;
    var ordered := SortedNames(names);
    assert ordered[i] in ordered;
    NameOrder();
    NextIsModular(NameLess, ordered, i);
    TableGivesTypes(records, cuts, ordered[i]);
  }

  /** Maps built along a sequence of distinct keys hold every key. */
  ghost predicate FilledUpTo<K(!new), V>(keys: seq<K>, i: nat, m: map<K, V>, list: seq<V>)
    requires i <= |keys|
  {
    && |list| == i && (forall k :: k in m <==> k in keys[..i])
    && forall j :: 0 <= j < i ==> keys[j] in m && list[j] == m[keys[j]]
  }

  lemma FillStep<K(!new), V>(keys: seq<K>, i: nat, m: map<K, V>, list: seq<V>, v: V)
    requires i < |keys| && FilledUpTo(keys, i, m, list)
    requires forall j :: 0 <= j < i ==> keys[j] != keys[i]
    ensures FilledUpTo(keys, i + 1, m[keys[i] := v], list + [v])
    ensures forall j :: 0 <= j < i ==> m[keys[i] := v][keys[j]] == m[keys[j]]
  {
    assert keys[..i + 1] == keys[..i] + [keys[i]];
  }

  lemma FilledIsLookups<K(!new), V>(keys: seq<K>, m: map<K, V>, list: seq<V>)
    requires FilledUpTo(keys, |keys|, m, list)
    ensures (forall k :: k in m <==> k in keys) && list == Lookups(m, keys)
  {
    assert keys[..|keys|] == keys;
  }

  /** One NSEC record for each name, linked in canonical order. */
  method BuildNsec(names: set<Name>, types: map<Name, set<RType>>, ttl: int, ghost records: seq<RR>,
          ghost cuts: set<Name>)
    returns (denial: map<Name, RR>, list: seq<RR>)
    requires types == TypeTable(records, cuts)
    ensures denial == map n | n in names :: NsecRecord(names, TypesAt(records, cuts, n), ttl, n)
    ensures list == Lookups(denial, SortedNames(names))
  {
    hide TypeTable, TypesAt, SortedNames, NsecRecord, FilledUpTo, TypesOf, Lookups;
    var ordered := SortedNames(names);
    denial, list := map[], [];
    assert FilledUpTo(ordered, 0, denial, list) by { EmptyFill<Name, RR>(ordered); }
    for i := 0 to |ordered|
      invariant FilledUpTo(ordered, i, denial, list)
      invariant forall n :: n in denial ==>
                  n in names && denial[n] == NsecRecord(names, TypesAt(records, cuts, n), ttl, n)
      invariant forall j :: 0 <= j < i ==> ordered[j] in denial
    {
      var rr := NewRecord(ordered[i], ttl,
                          Nsec(ordered[(i + 1) % |ordered|], TypesOf(types, ordered[i]) + {TYPE_NSEC, TYPE_RRSIG}));
      assert ordered[i] in names && rr == NsecRecord(names, TypesAt(records, cuts, ordered[i]), ttl, ordered[i]) by {
        NsecRecordAt(names, types, ttl, records, cuts, i);
      }
      forall j | 0 <= j < i ensures ordered[j] != ordered[i] { SortedNamesDistinct(names, i, j); }
      FillStep(ordered, i, denial, list, rr);
      denial := denial[ordered[i] := rr];
      list := list + [rr];
    }
    FilledIsLookups(ordered, denial, list);
    forall n | n in names ensures n in denial {
      assert n in ordered;
      var j :| 0 <= j < |ordered| && ordered[j] == n;
    }
  }

  lemma EmptyFill<K(!new), V>(keys: seq<K>)
    ensures FilledUpTo<K, V>(keys, 0, map[], [])
  {
  }

  /** The names by hash, or the collision that forbids it. */
  method IndexHashes(env: Env, mode: Mode, names: set<Name>) returns (r: Result<map<Octets, Name>>)
    requires mode.Nsec3Mode?
    ensures r == if HashesDistinct(env, mode, names) then Ok(HashIndex(env, mode, names)) else Err(HashCollision)
  {
    hide SortedNames, HashOf, IndexedSoFar, HashesDistinct, HashIndex;
    var ordered := SortedNames(names);
    var hashes: map<Octets, Name> := map[];
    assert IndexedSoFar(env, mode, ordered[..0], hashes) by { NothingIndexed(env, mode); }
    for i := 0 to |ordered|
      invariant IndexedSoFar(env, mode, ordered[..i], hashes)
    {
      var h := HashOf(env, mode, ordered[i]);
      NameOrder();
      SortedIsDistinct(NameLess, ordered, i);
      if h in hashes {
        Collides(env, mode, names, ordered[..i], hashes, ordered[i]);
        return Err(HashCollision);
      }
      IndexStep(env, mode, ordered[..i], hashes, ordered[i]);
      hashes := hashes[h := ordered[i]];
    }
    assert ordered[..|ordered|] == ordered;
    IndexedAll(env, mode, names, ordered, hashes);
    return Ok(hashes);
  }

  /** The index holds exactly the names of `done`, each under its hash. */
  ghost predicate IndexedSoFar(env: Env, mode: Mode, done: seq<Name>, hashes: map<Octets, Name>)
    requires mode.Nsec3Mode?
  {
    && (forall h :: h in hashes ==> hashes[h] in done && HashOf(env, mode, hashes[h]) == h)
    && (forall n :: n in done ==> HashOf(env, mode, n) in hashes && hashes[HashOf(env, mode, n)] == n)
  }

  lemma NothingIndexed(env: Env, mode: Mode)
    requires mode.Nsec3Mode?
    ensures IndexedSoFar(env, mode, [], map[])
  {
  }

  lemma IndexStep(env: Env, mode: Mode, done: seq<Name>, hashes: map<Octets, Name>, n: Name)
    requires mode.Nsec3Mode? && IndexedSoFar(env, mode, done, hashes) && HashOf(env, mode, n) !in hashes
    ensures IndexedSoFar(env, mode, done + [n], hashes[HashOf(env, mode, n) := n])
  {
    hide HashOf;
  }

  lemma Collides(env: Env, mode: Mode, names: set<Name>, done: seq<Name>, hashes: map<Octets, Name>, n: Name)
    requires mode.Nsec3Mode? && IndexedSoFar(env, mode, done, hashes) && HashOf(env, mode, n) in hashes && n !in done
    requires n in names && forall x :: x in done ==> x in names
    ensures !HashesDistinct(env, mode, names)
  {
    hide HashOf;
    var m := hashes[HashOf(env, mode, n)];
    assert m in done && HashOf(env, mode, m) == HashOf(env, mode, n);
  }

  lemma IndexedAll(env: Env, mode: Mode, names: set<Name>, done: seq<Name>, hashes: map<Octets, Name>)
    requires mode.Nsec3Mode? && IndexedSoFar(env, mode, done, hashes) && forall n :: n in done <==> n in names
    ensures HashesDistinct(env, mode, names) && hashes == HashIndex(env, mode, names)
  {
    hide HashOf;
  }

  lemma SortedHashesDistinct(hashes: set<Octets>, i: nat, j: nat)
    requires i < |SortedHashes(hashes)| && j < |SortedHashes(hashes)| && i != j
    ensures SortedHashes(hashes)[i] != SortedHashes(hashes)[j]
  {
    hide SortedHashes;
    OctetsOrder();
    var s := SortedHashes(hashes);
    assert OctetsLess(s[i], s[j]) || OctetsLess(s[j], s[i]);
  }

  lemma Nsec3RecordAt(env: Env, req: Request, plan: Plan, hashes: map<Octets, Name>, types: map<Name, set<RType>>,
          i: nat, owner: Name)
    requires req.mode.Nsec3Mode? && types == TypeTable(plan.published, plan.cuts)
    requires HashesDistinct(env, req.mode, plan.names) && hashes == HashIndex(env, req.mode, plan.names)
    requires i < |SortedHashes(hashes.Keys)| && Nsec3Owner(req.origin, SortedHashes(hashes.Keys)[i]) == Some(owner)
    ensures var ordered := SortedHashes(hashes.Keys);
            && ordered[i] in hashes && hashes[ordered[i]] in plan.names
            && HashOf(env, req.mode, hashes[ordered[i]]) == ordered[i]
            && NewRecord(owner, DenialTtl(plan.soa),
                         Nsec3(1, 0, req.mode.iterations, req.mode.salt, ordered[(i + 1) % |ordered|],
                               Nsec3Bitmap(TypesOf(types, hashes[ordered[i]]), hashes[ordered[i]] in plan.cuts)))
               == Nsec3At(env, req, plan, hashes.Keys, hashes[ordered[i]])
  {
    hide TypeTable, TypesAt, NextAfter, SortedHashes, TypesOf, Nsec3Bitmap, DenialTtl, Nsec3Owner;
    var ordered := SortedHashes(hashes.Keys);
    assert ordered[i] in ordered;
    OctetsOrder();
    NextIsModular(OctetsLess, ordered, i);
    TableGivesTypes(plan.published, plan.cuts, hashes[ordered[i]]);
  }

  lemma HashIndexFacts(env: Env, mode: Mode, names: set<Name>)
    requires mode.Nsec3Mode? && HashesDistinct(env, mode, names)
    ensures var idx := HashIndex(env, mode, names);
            && (forall n :: n in names ==> HashOf(env, mode, n) in idx && idx[HashOf(env, mode, n)] == n)
            && (forall h :: h in idx ==> idx[h] in names && HashOf(env, mode, idx[h]) == h)
  {
  }

  /** `denial` holds the specified record of `n`. */
  ghost predicate LinkMade(env: Env, req: Request, plan: Plan, hashes: set<Octets>, denial: map<Name, RR>, n: Name)
    requires req.mode.Nsec3Mode?
  {
    && n in plan.names && n in denial && HashOf(env, req.mode, n) in hashes
    && Nsec3Owner(req.origin, HashOf(env, req.mode, n)).Some?
    && denial[n] == Nsec3At(env, req, plan, hashes, n)
  }

  lemma LinkStep(env: Env, req: Request, plan: Plan, hashes: map<Octets, Name>, owners: seq<Name>, i: nat,
          denial: map<Name, RR>, rr: RR)
    requires req.mode.Nsec3Mode? && i < |owners|
    requires forall j :: 0 <= j < i ==>
               LinkMade(env, req, plan, hashes.Keys, denial, owners[j]) && owners[j] != owners[i]
    requires LinkMade(env, req, plan, hashes.Keys, map[owners[i] := rr], owners[i])
    ensures forall j :: 0 <= j <= i ==> LinkMade(env, req, plan, hashes.Keys, denial[owners[i] := rr], owners[j])
  {
    hide Nsec3At, Nsec3Owner, HashOf;
  }

  lemma LinkAt(env: Env, req: Request, plan: Plan, hashes: map<Octets, Name>, types: map<Name, set<RType>>, i: nat,
          owner: Name)
    requires req.mode.Nsec3Mode? && types == TypeTable(plan.published, plan.cuts)
    requires HashesDistinct(env, req.mode, plan.names) && hashes == HashIndex(env, req.mode, plan.names)
    requires i < |SortedHashes(hashes.Keys)| && Nsec3Owner(req.origin, SortedHashes(hashes.Keys)[i]) == Some(owner)
    ensures var ordered := SortedHashes(hashes.Keys);
            var n := hashes[ordered[i]];
            && ordered[i] in hashes
            && LinkMade(env, req, plan, hashes.Keys,
                        map[n := NewRecord(owner, DenialTtl(plan.soa),
                                           Nsec3(1, 0, req.mode.iterations, req.mode.salt, ordered[(i + 1) % |ordered|],
                                                 Nsec3Bitmap(TypesOf(types, n), n in plan.cuts)))], n)
  {
    hide TypeTable, TypesAt, NextAfter, SortedHashes, TypesOf, Nsec3Bitmap, DenialTtl, Nsec3Owner, Nsec3At;
    Nsec3RecordAt(env, req, plan, hashes, types, i, owner);
  }

  /** The denial records in hash order. */
  ghost predicate ListedByHash(hashes: map<Octets, Name>, denial: map<Name, RR>, list: seq<RR>) {
    && (forall h :: h in hashes ==> hashes[h] in denial)
    && list == Lookups(denial, Lookups(hashes, SortedHashes(hashes.Keys)))
  }

  ghost predicate OwnerMissing(env: Env, req: Request, plan: Plan)
    requires req.mode.Nsec3Mode?
  {
    exists n :: n in plan.names && Nsec3Owner(req.origin, HashOf(env, req.mode, n)).None?
  }

  /** One NSEC3 record for each hash, linked in hash order. */
  method BuildNsec3(env: Env, req: Request, plan: Plan, hashes: map<Octets, Name>, types: map<Name, set<RType>>)
    returns (r: Result<map<Name, RR>>, list: seq<RR>)
    requires req.mode.Nsec3Mode? && types == TypeTable(plan.published, plan.cuts)
    requires HashesDistinct(env, req.mode, plan.names) && hashes == HashIndex(env, req.mode, plan.names)
    ensures r.Err? ==> r.error == Wire && OwnerMissing(env, req, plan)
    ensures r.Ok? ==> r.value.Keys == plan.names
    ensures r.Ok? ==> forall n :: n in plan.names ==> LinkMade(env, req, plan, hashes.Keys, r.value, n)
    ensures r.Ok? ==> ListedByHash(hashes, r.value, list)
  {
    hide TypeTable, TypesAt, SortedHashes, FilledUpTo, TypesOf, Lookups, Nsec3At, Nsec3Bitmap, DenialTtl, Nsec3Owner,
         HashIndex, HashesDistinct, LinkMade;
    HashIndexFacts(env, req.mode, plan.names);
    var ordered := SortedHashes(hashes.Keys);
    ghost var owners := Lookups(hashes, ordered);
    var denial: map<Name, RR>;
    denial, list := map[], [];
    assert FilledUpTo(owners, 0, denial, list) by { EmptyFill<Name, RR>(owners); }
    for i := 0 to |ordered|
      invariant FilledUpTo(owners, i, denial, list)
      invariant forall j :: 0 <= j < i ==> LinkMade(env, req, plan, hashes.Keys, denial, owners[j])
    {
      var original := hashes[ordered[i]];
      var owner := Nsec3Owner(req.origin, ordered[i]);
      if owner.None? {
        return Err(Wire), list;
      }
      var rr := NewRecord(owner.value, DenialTtl(plan.soa),
                          Nsec3(1, 0, req.mode.iterations, req.mode.salt, ordered[(i + 1) % |ordered|],
                                Nsec3Bitmap(TypesOf(types, original), original in plan.cuts)));
      LinkAt(env, req, plan, hashes, types, i, owner.value);
      forall j | 0 <= j < i ensures owners[j] != owners[i] { SortedHashesDistinct(hashes.Keys, i, j); }
      FillStep(owners, i, denial, list, rr);
      LinkStep(env, req, plan, hashes, owners, i, denial, rr);
      denial := denial[original := rr];
      list := list + [rr];
    }
    FilledIsLookups(owners, denial, list);
    assert denial.Keys == plan.names by { OwnersAreNames(env, req.mode, plan.names, hashes, ordered, owners); }
    return Ok(denial), list;
  }

  lemma OwnersAreNames(env: Env, mode: Mode, names: set<Name>, hashes: map<Octets, Name>, ordered: seq<Octets>,
          owners: seq<Name>)
    requires mode.Nsec3Mode? && HashesDistinct(env, mode, names) && hashes == HashIndex(env, mode, names)
    requires ordered == SortedHashes(hashes.Keys) && owners == Lookups(hashes, ordered)
    ensures forall n :: n in owners <==> n in names
  {
    hide SortedHashes, HashIndex, HashesDistinct;
    HashIndexFacts(env, mode, names);
    LookupsMembers(hashes, ordered);
  }

  lemma LinksAreChain(env: Env, req: Request, plan: Plan, hashes: map<Octets, Name>, denial: map<Name, RR>)
    requires req.mode.Nsec3Mode? && HashesDistinct(env, req.mode, plan.names)
    requires hashes == HashIndex(env, req.mode, plan.names)
    requires denial.Keys == plan.names
    requires forall n :: n in plan.names ==> LinkMade(env, req, plan, hashes.Keys, denial, n)
    ensures DenialChain(env, req, plan) == Ok((denial, hashes))
  {
    hide Nsec3At, Nsec3Owner, HashIndex, HashesDistinct;
    assert forall n :: n in plan.names ==> denial[n] == DenialChain(env, req, plan).value.0[n];
    assert denial == DenialChain(env, req, plan).value.0;
  }

  lemma ChainFails(env: Env, req: Request, plan: Plan)
    requires req.mode.Nsec3Mode? && HashesDistinct(env, req.mode, plan.names)
    requires OwnerMissing(env, req, plan)
    ensures DenialChain(env, req, plan) == Err(Wire)
  {
    hide Nsec3At, Nsec3Owner, HashIndex;
  }

  method BuildDenial(env: Env, req: Request, plan: Plan, types: map<Name, set<RType>>)
    returns (r: Result<(map<Name, RR>, map<Octets, Name>)>, list: seq<RR>)
    requires types == TypeTable(plan.published, plan.cuts)
    ensures r == DenialChain(env, req, plan)
    ensures r.Ok? ==> list == Lookups(r.value.0, DenialNames(req.mode, plan.names, r.value.1))
  {
    hide TypeTable, TypesAt, SortedHashes, SortedNames, Lookups, Nsec3At, NsecRecord, Nsec3Owner, HashesDistinct,
         HashIndex, DenialTtl;
    if req.mode.NsecMode? {
      var denial, l := BuildNsec(plan.names, types, DenialTtl(plan.soa), plan.published, plan.cuts);
      return Ok((denial, map[])), l;
    } else {
      var hashes := IndexHashes(env, req.mode, plan.names);
      if hashes.Err? {
        return Err(hashes.error), [];
      }
      var denial, l := BuildNsec3(env, req, plan, hashes.value, types);
      if denial.Err? {
        ChainFails(env, req, plan);
        return Err(denial.error), [];
      }
      LinksAreChain(env, req, plan, hashes.value, denial.value);
      return Ok((denial.value, hashes.value)), l;
    }
  }

  // ----- Signing -----

  lemma {:induction false} KskFailure(env: Env, req: Request, ksks: seq<Key>, rrset: seq<RR>, i: nat)
    requires i <= |ksks| && KskSignatures(env, req, ksks[..i], rrset).Err?
    ensures KskSignatures(env, req, ksks, rrset) == KskSignatures(env, req, ksks[..i], rrset)
    decreases |ksks|
  {
    hide SignRrset;
    if i < |ksks| {
      var front := ksks[..|ksks| - 1];
      assert front[..i] == ksks[..i];
      KskFailure(env, req, front, rrset, i);
    } else {
      assert ksks[..i] == ksks;
    }
  }

  /** One RRset: canonical data, then its signatures. */
  method SignOneSet(env: Env, req: Request, cuts: set<Name>, k: SetKey, rrset: seq<RR>) returns (r: Result<seq<RR>>)
    requires req.ksks != []
    ensures r == SignedSet(env, req, cuts, k, rrset)
  {
    hide SignRrset, CanonicalSet, LeftUnsigned;
    var data := CanonicalSet(env, k.1, rrset);
    if data.Err? {
      return Err(data.error);
    }
    var out := data.value;
    if LeftUnsigned(cuts, k) {
      assert out + [] == out;
      return Ok(out);
    }
    if k.1 == TYPE_DNSKEY {
      var sigs: seq<RR> := [];
      for i := 0 to |req.ksks|
        invariant KskSignatures(env, req, req.ksks[..i], out) == Ok(sigs)
      {
        assert req.ksks[..i + 1][..i] == req.ksks[..i];
        var sig := SignRrset(env, req.ksks[i], out, req.origin, 257, req.now, req.validity);
        if sig.Err? {
          KskFailure(env, req, req.ksks, out, i + 1);
          return Err(sig.error);
        }
        sigs := sigs + [sig.value];
      }
      assert req.ksks[..|req.ksks|] == req.ksks;
      return Ok(out + sigs);
    }
    var sig := SignRrset(env, req.zsk, out, req.origin, if SameKey(env, req) then 257 else 256, req.now, req.validity);
    if sig.Err? {
      return Err(sig.error);
    }
    return Ok(out + [sig.value]);
  }

  lemma {:induction false} SignAllFailure(env: Env, req: Request, cuts: set<Name>, groups: map<SetKey, seq<RR>>,
          keys: seq<SetKey>, i: nat)
    requires req.ksks != [] && forall k :: k in keys ==> k in groups
    requires i <= |keys| && SignAll(env, req, cuts, groups, keys[..i]).Err?
    ensures SignAll(env, req, cuts, groups, keys) == SignAll(env, req, cuts, groups, keys[..i])
    decreases |keys|
  {
    hide SignedSet;
    if i < |keys| {
      var front := keys[..|keys| - 1];
      assert front[..i] == keys[..i];
      SignAllFailure(env, req, cuts, groups, front, i);
    } else {
      assert keys[..i] == keys;
    }
  }

  /** Every RRset in key order, stopping at the first failure. */
  method SignAllSets(env: Env, req: Request, cuts: set<Name>, groups: map<SetKey, seq<RR>>, keys: seq<SetKey>)
    returns (r: Result<map<SetKey, seq<RR>>>)
    requires req.ksks != [] && forall k :: k in keys ==> k in groups
    ensures r == SignAll(env, req, cuts, groups, keys)
  {
    hide SignedSet;
    var rrsets: map<SetKey, seq<RR>> := map[];
    for i := 0 to |keys|
      invariant SignAll(env, req, cuts, groups, keys[..i]) == Ok(rrsets)
    {
      assert keys[..i + 1][..i] == keys[..i];
      var signed := SignOneSet(env, req, cuts, keys[i], groups[keys[i]]);
      if signed.Err? {
        SignAllFailure(env, req, cuts, groups, keys, i + 1);
        return Err(signed.error);
      }
      rrsets := rrsets[keys[i] := signed.value];
    }
    assert keys[..|keys|] == keys;
    return Ok(rrsets);
  }

  /** The published records: the DNSKEY set is pushed key by key. */
  method PublishRecords(env: Env, req: Request, kept: seq<RR>, ttl: int) returns (records: seq<RR>)
    requires req.ksks != []
    ensures records == Publish(env, req, kept, ttl)
  {
    records := [];
    for i := 0 to |req.ksks|
      invariant records == KeyRecords(env, req.origin, ttl, req.ksks[..i])
    {
      assert req.ksks[..i + 1][..i] == req.ksks[..i];
      records := records + [KeyRecord(env, req.origin, ttl, req.ksks[i], 257)];
    }
    assert req.ksks[..|req.ksks|] == req.ksks;
    if !SameKey(env, req) {
      records := records + [KeyRecord(env, req.origin, ttl, req.zsk, 256)];
    }
    records := kept + (records + ParamRecords(req.origin, req.mode));
  }

  /** A CNAME beside other types, or at the apex, found in the type table. */
  method FindCnameConflict(types: map<Name, set<RType>>, origin: Name, ghost records: seq<RR>,
          ghost cuts: set<Name>) returns (conflict: bool)
    requires types == TypeTable(records, cuts)
    ensures conflict == CnameConflict(records, cuts, origin)
  {
    hide Occluded, SortedNames;
    var ordered := SortedNames(types.Keys);
    for i := 0 to |ordered|
      invariant forall j :: 0 <= j < i ==>
                  (TYPE_CNAME in types[ordered[j]] ==> types[ordered[j]] == {TYPE_CNAME} && ordered[j] != origin)
    {
      assert ordered[i] in types.Keys;
      var t := types[ordered[i]];
      if TYPE_CNAME in t && (t != {TYPE_CNAME} || ordered[i] == origin) {
        ghost var r :| r in records && r.name == ordered[i] && !Occluded(cuts, r.name) && r.rtype == TYPE_CNAME;
        return true;
      }
    }
    forall r | r in records && !Occluded(cuts, r.name) && r.rtype == TYPE_CNAME
      ensures TypesAt(records, cuts, r.name) == {TYPE_CNAME} && r.name != origin
    {
      assert r.name in types.Keys;
      var j :| 0 <= j < |ordered| && ordered[j] == r.name;
      assert TYPE_CNAME in types[ordered[j]];
    }
    return false;
  }

  /** The checks on the input, the published records and the names. */
  method PrepareZone(env: Env, req: Request) returns (r: Result<Plan>, types: map<Name, set<RType>>)
    ensures r == Prepare(env, req) && (r.Ok? ==> types == TypeTable(r.value.published, r.value.cuts) && req.ksks != [])
  {
    hide Publish, ExistingNames, TypeTable, CnameConflict, Cuts, ParametersAllowed;
    types := map[];
    var kept := Filter(NotGenerated, req.records);
    if !(1 <= |req.ksks| <= 4) || !Admitted(kept, req.origin) {
      return Err(InvalidZone), types;
    }
    if !ParametersAllowed(req.mode) {
      return Err(InvalidNsec3Parameters), types;
    }
    var soa := Filter(IsSoa, kept)[0];
    var cuts := Cuts(kept, req.origin);
    var published := PublishRecords(env, req, kept, soa.ttl);
    PublishMembers(env, req, kept, soa.ttl);
    var names, table := CollectNames(published, cuts, req.origin);
    var conflict := FindCnameConflict(table, req.origin, published, cuts);
    if conflict {
      return Err(InvalidZone), types;
    }
    return Ok(Plan(published, soa, cuts, names)), table;
  }

  method SignPrepared(env: Env, req: Request, plan: Plan, chain: (map<Name, RR>, map<Octets, Name>), all: seq<RR>)
    returns (r: Result<SignedZone>)
    requires req.ksks != [] && plan.soa.rdata.Soa?
    ensures r == Finished(env, req, plan, chain, all)
  {
    hide SignAll, Flatten, SortedKeys, Groups, SetKeys;
    GroupKeys(all);
    var groups := GroupRecords(all);
    var keys := SortedKeys(groups.Keys);
    var rrsets := SignAllSets(env, req, plan.cuts, groups, keys);
    if rrsets.Err? {
      return Err(rrsets.error);
    }
    return Ok(SignedZone(req.origin, Flatten(rrsets.value, keys), plan.soa.rdata.serial,
                         (req.now - 300) % CIRCLE, (req.now + req.validity) % CIRCLE, req.mode,
                         plan.names, plan.cuts, rrsets.value, chain.0, chain.1));
  }

  /** `sign_with_keysets`. */
  method SignWithKeysets(env: Env, req: Request) returns (r: Result<SignedZone>)
    ensures r == SignZone(env, req)
  {
    hide Prepare, DenialChain, TypeTable, DenialNames, Lookups, Finished;
    var prepared, types := PrepareZone(env, req);
    if prepared.Err? {
      return Err(prepared.error);
    }
    var plan := prepared.value;
    var chain, list := BuildDenial(env, req, plan, types);
    if chain.Err? {
      return Err(chain.error);
    }
    r := SignPrepared(env, req, plan, chain.value, plan.published + list);
  }

  lemma GroupKeys(records: seq<RR>)
    ensures Groups(records).Keys == SetKeys(records)
  {
  }
}
