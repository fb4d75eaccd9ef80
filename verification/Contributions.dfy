/** Contributed records of one zone and their usage counters:
    crates/adns-server/src/state.rs and limits.rs. */
module Contributions {
  import opened Basics
  import opened Seqs
  import opened Names
  import opened Records
  import opened App

  const MAX_ZONE_RRSETS := 4096
  const MAX_ZONE_CONTRIBUTIONS := 16384
  const MAX_RRSET_CONTRIBUTIONS := 256
  const MAX_ZONE_RECORD_BYTES := 4 * 1024 * 1024

  type RecordKey = (Name, RType)

  datatype Contribution = Contribution(contributor: string, record: RR)

  datatype Usage = Usage(rrsets: int, contributions: int, wireBytes: int, baseWireBytes: int, baseRrsets: int)

  /** The rows of one zone. Keys of different zones never meet: the zone's wire
      form is a length-prefixed part of every key. */
  datatype Rows = Rows(sets: map<RecordKey, seq<Contribution>>, usage: Usage)

  /** The canonical wire length of a record, when it has a wire form. */
  type Size = RR -> Option<nat>

  // ----- True usage -----

  function SizeOf(size: Size, r: RR): nat { if size(r).Some? then size(r).value else 0 }

  function WireBytes(size: Size, s: seq<Contribution>): nat {
    if s == [] then 0 else WireBytes(size, s[..|s| - 1]) + SizeOf(size, s[|s| - 1].record)
  }

  /** Sum of lengths over all RRsets. */
  ghost function Entries(sets: map<RecordKey, seq<Contribution>>): nat {
    if sets == map[] then 0
    else
      var k :| k in sets;
      Entries(sets - {k}) + |sets[k]|
  }

  ghost function AllWireBytes(size: Size, sets: map<RecordKey, seq<Contribution>>): nat {
    if sets == map[] then 0
    else
      var k :| k in sets;
      AllWireBytes(size, sets - {k}) + WireBytes(size, sets[k])
  }

  ghost function TrueUsage(size: Size, sets: map<RecordKey, seq<Contribution>>, base: Usage): Usage {
    Usage(|sets|, Entries(sets), AllWireBytes(size, sets), base.baseWireBytes, base.baseRrsets)
  }

  predicate WithinBounds(u: Usage) {
    && u.rrsets + u.baseRrsets <= MAX_ZONE_RRSETS && u.contributions <= MAX_ZONE_CONTRIBUTIONS
    && u.wireBytes + u.baseWireBytes <= MAX_ZONE_RECORD_BYTES
  }

  /** A stored RRset: nonempty, bounded, one key, every record with a wire form. */
  predicate SetValid(size: Size, k: RecordKey, s: seq<Contribution>) {
    && 0 < |s| <= MAX_RRSET_CONTRIBUTIONS
    && forall c :: c in s ==> (c.record.name, c.record.rtype) == k && size(c.record).Some?
  }

  /** CNAME exclusivity across all contributors at one owner. */
  predicate Clash(a: RR, b: RR) {
    (a.rtype == TYPE_CNAME || b.rtype == TYPE_CNAME) && (a.rtype != b.rtype || a.rdata != b.rdata)
  }

  ghost predicate NoClash(sets: map<RecordKey, seq<Contribution>>) {
    forall j, k :: j in sets && k in sets && j.0 == k.0 ==>
      forall a, b :: a in sets[j] && b in sets[k] ==> !Clash(a.record, b.record)
  }

  ghost predicate Valid(size: Size, rows: Rows) {
    && (forall k :: k in rows.sets ==> SetValid(size, k, rows.sets[k]))
    && rows.usage == TrueUsage(size, rows.sets, rows.usage)
    && WithinBounds(rows.usage) && 0 <= rows.usage.baseWireBytes && 0 <= rows.usage.baseRrsets
    && NoClash(rows.sets)
  }

  // ----- Sums -----

  lemma {:induction false} EntriesWithout(sets: map<RecordKey, seq<Contribution>>, k: RecordKey)
    requires k in sets
    ensures Entries(sets) == Entries(sets - {k}) + |sets[k]|
    decreases |sets|
  {
    var j :| j in sets && Entries(sets) == Entries(sets - {j}) + |sets[j]|;
    if j != k {
      Smaller(sets, j);
      Smaller(sets, k);
      EntriesWithout(sets - {j}, k);
      EntriesWithout(sets - {k}, j);
      assert sets - {j} - {k} == sets - {k} - {j};
    }
  }

  lemma {:induction false} WireBytesWithout(size: Size, sets: map<RecordKey, seq<Contribution>>, k: RecordKey)
    requires k in sets
    ensures AllWireBytes(size, sets) == AllWireBytes(size, sets - {k}) + WireBytes(size, sets[k])
    decreases |sets|
  {
    hide WireBytes;
    var j :| j in sets && AllWireBytes(size, sets) == AllWireBytes(size, sets - {j}) + WireBytes(size, sets[j]);
    if j != k {
      Smaller(sets, j);
      Smaller(sets, k);
      WireBytesWithout(size, sets - {j}, k);
      WireBytesWithout(size, sets - {k}, j);
      assert sets - {j} - {k} == sets - {k} - {j};
    }
  }

  lemma Smaller(sets: map<RecordKey, seq<Contribution>>, k: RecordKey)
    requires k in sets
    ensures |sets - {k}| == |sets| - 1
  {
    assert (sets - {k}).Keys == sets.Keys - {k};
  }

  /** Replacing one RRset moves the totals by the difference. */
  lemma TotalsAfterUpdate(size: Size, sets: map<RecordKey, seq<Contribution>>, k: RecordKey, s: seq<Contribution>)
    ensures var old_, new_ := (if k in sets then sets[k] else []), sets[k := s];
            && Entries(new_) == Entries(sets) - |old_| + |s|
            && AllWireBytes(size, new_) == AllWireBytes(size, sets) - WireBytes(size, old_) + WireBytes(size, s)
            && |new_| == |sets| + (if k in sets then 0 else 1)
  {
    hide WireBytes, Entries, AllWireBytes;
    var new_ := sets[k := s];
    EntriesWithout(new_, k);
    WireBytesWithout(size, new_, k);
    Smaller(new_, k);
    if k in sets {
      EntriesWithout(sets, k);
      WireBytesWithout(size, sets, k);
      Smaller(sets, k);
      assert new_ - {k} == sets - {k};
    } else {
      NoWireBytes(size);
      assert new_ - {k} == sets;
    }
  }

  lemma NoWireBytes(size: Size)
    ensures WireBytes(size, []) == 0
  {
  }

  /** Dropping one RRset lowers the totals by its own. */
  lemma TotalsAfterDrop(size: Size, sets: map<RecordKey, seq<Contribution>>, k: RecordKey)
    requires k in sets
    ensures Entries(sets - {k}) == Entries(sets) - |sets[k]|
    ensures AllWireBytes(size, sets - {k}) == AllWireBytes(size, sets) - WireBytes(size, sets[k])
    ensures |sets - {k}| == |sets| - 1
  {
    EntriesWithout(sets, k);
    WireBytesWithout(size, sets, k);
    Smaller(sets, k);
  }

  // ----- Adding -----

  predicate Acceptable(origin: Name, r: RR) {
    IsSubdomain(r.name, origin) && r.rclass == CLASS_IN && TypeOf(r.rdata) == Some(r.rtype)
  }

  predicate ClashesAtOwner(sets: map<RecordKey, seq<Contribution>>, r: RR) {
    exists k :: k in sets && k.0 == r.name && exists c :: c in sets[k] && Clash(c.record, r)
  }

  function SetAt(sets: map<RecordKey, seq<Contribution>>, k: RecordKey): seq<Contribution> {
    if k in sets then sets[k] else []
  }

  predicate Full(u: Usage, s: seq<Contribution>, bytes: nat) {
    || |s| >= MAX_RRSET_CONTRIBUTIONS
    || (s == [] && u.rrsets + u.baseRrsets >= MAX_ZONE_RRSETS)
    || u.contributions >= MAX_ZONE_CONTRIBUTIONS
    || u.wireBytes + u.baseWireBytes + bytes > MAX_ZONE_RECORD_BYTES
  }

  /** `add_contribution`. */
  function Added(size: Size, origin: Name, rows: Rows, contributor: string, r: RR): Outcome<Rows> {
    var key := (r.name, r.rtype);
    var s := SetAt(rows.sets, key);
    if !Acceptable(origin, r) then Refused(Invalid)
    else if ClashesAtOwner(rows.sets, r) then Refused(Conflict)
    else if Contribution(contributor, r) in s then Done(rows)
    else if size(r).None? then Refused(Invalid)
    else if Full(rows.usage, s, size(r).value) then Refused(Limit)
    else
      Done(Rows(rows.sets[key := s + [Contribution(contributor, r)]],
                rows.usage.(rrsets := rows.usage.rrsets + (if s == [] then 1 else 0),
                            contributions := rows.usage.contributions + 1,
                            wireBytes := rows.usage.wireBytes + size(r).value)))
  }

  lemma WireBytesAppend(size: Size, s: seq<Contribution>, c: Contribution)
    ensures WireBytes(size, s + [c]) == WireBytes(size, s) + SizeOf(size, c.record)
  {
    assert (s + [c])[..|s|] == s;
  }

  lemma {:induction false} AddedUsage(size: Size, origin: Name, rows: Rows, contributor: string, r: RR)
    requires Valid(size, rows) && Added(size, origin, rows, contributor, r).Done?
    ensures var rows' := Added(size, origin, rows, contributor, r).value;
            && rows'.usage == TrueUsage(size, rows'.sets, rows'.usage) && WithinBounds(rows'.usage)
            && (forall k :: k in rows'.sets ==> SetValid(size, k, rows'.sets[k]))
  {
    hide WireBytes, Entries, AllWireBytes, NoClash, Clash, ClashesAtOwner;
    var key := (r.name, r.rtype);
    var s := SetAt(rows.sets, key);
    var c := Contribution(contributor, r);
    if c !in s {
      TotalsAfterUpdate(size, rows.sets, key, s + [c]);
      WireBytesAppend(size, s, c);
      assert key in rows.sets <==> s != [];
    }
  }

  lemma AddedNoClash(size: Size, origin: Name, rows: Rows, contributor: string, r: RR)
    requires Valid(size, rows) && Added(size, origin, rows, contributor, r).Done?
    ensures NoClash(Added(size, origin, rows, contributor, r).value.sets)
  {
    hide WireBytes, Entries, AllWireBytes, TrueUsage, WithinBounds, Full;
    var key := (r.name, r.rtype);
    var s, sets' := SetAt(rows.sets, key), Added(size, origin, rows, contributor, r).value.sets;
    forall j, k, a, b | j in sets' && k in sets' && j.0 == k.0 && a in sets'[j] && b in sets'[k]
      ensures !Clash(a.record, b.record)
    {
      assert a.record == r || (j in rows.sets && a in rows.sets[j]);
      assert b.record == r || (k in rows.sets && b in rows.sets[k]);
    }
  }

  /** Adding keeps usage exact, bounds and exclusivity. */
  lemma AddKeepsValid(size: Size, origin: Name, rows: Rows, contributor: string, r: RR)
    requires Valid(size, rows) && Added(size, origin, rows, contributor, r).Done?
    ensures Valid(size, Added(size, origin, rows, contributor, r).value)
  {
    AddedUsage(size, origin, rows, contributor, r);
    AddedNoClash(size, origin, rows, contributor, r);
    hide WireBytes, Entries, AllWireBytes, NoClash, Clash, ClashesAtOwner, TrueUsage, SetValid, WithinBounds;
  }

  // ----- Removing -----

  /** Which contributions to remove: one contributor's, perhaps at some owners only, or several contributors'. */
  datatype Selection = Of(contributor: string, owners: Option<seq<Name>>) | OfAny(contributors: set<string>)

  predicate Selected(sel: Selection, c: Contribution) {
    match sel
    case Of(id, owners) => c.contributor == id && (owners.None? || c.record.name in owners.value)
    case OfAny(ids) => c.contributor in ids
  }

  function Retained(sel: Selection, s: seq<Contribution>): (r: seq<Contribution>)
    ensures |r| <= |s| && forall c :: c in r <==> c in s && !Selected(sel, c)
  {
    if s == [] then []
    else
      var front := Retained(sel, s[..|s| - 1]);
      if Selected(sel, s[|s| - 1]) then front else front + [s[|s| - 1]]
  }

  function RetainedSets(sel: Selection, sets: map<RecordKey, seq<Contribution>>): map<RecordKey, seq<Contribution>> {
    map k | k in sets && Retained(sel, sets[k]) != [] :: Retained(sel, sets[k])
  }

  /** `remove_matching_contributions`, on rows whose usage is exact. */
  ghost function Removed(size: Size, sel: Selection, rows: Rows): Rows {
    Rows(RetainedSets(sel, rows.sets), TrueUsage(size, RetainedSets(sel, rows.sets), rows.usage))
  }

  lemma {:induction false} RetainedSame(sel: Selection, s: seq<Contribution>)
    requires |Retained(sel, s)| == |s|
    ensures Retained(sel, s) == s
  {
    if s != [] {
      RetainedSame(sel, s[..|s| - 1]);
      assert s == s[..|s| - 1] + [s[|s| - 1]];
    }
  }

  lemma {:induction false} RetainedNone(sel: Selection, s: seq<Contribution>)
    requires forall c :: c in s ==> !Selected(sel, c)
    ensures Retained(sel, s) == s
  {
    hide Selected;
    if s != [] {
      var front, last := s[..|s| - 1], s[|s| - 1];
      assert last in s && forall c :: c in front ==> c in s;
      RetainedNone(sel, front);
      assert s == front + [last];
    }
  }

  lemma {:induction false} RetainedWireBytes(size: Size, sel: Selection, s: seq<Contribution>)
    ensures WireBytes(size, Retained(sel, s)) <= WireBytes(size, s)
  {
    if s != [] {
      RetainedWireBytes(size, sel, s[..|s| - 1]);
      if !Selected(sel, s[|s| - 1]) {
        WireBytesAppend(size, Retained(sel, s[..|s| - 1]), s[|s| - 1]);
      }
    }
  }

  /** Fewer contributions in every RRset, fewer in all. */
  lemma {:induction false} TotalsShrink(size: Size, a: map<RecordKey, seq<Contribution>>,
          b: map<RecordKey, seq<Contribution>>)
    requires forall k :: k in a ==> k in b && |a[k]| <= |b[k]| && WireBytes(size, a[k]) <= WireBytes(size, b[k])
    ensures Entries(a) <= Entries(b) && AllWireBytes(size, a) <= AllWireBytes(size, b) && |a| <= |b|
    decreases |a|
  {
    hide WireBytes, Entries, AllWireBytes;
    if a == map[] {
      NoEntries(size, b);
      assert |a| == 0;
    } else {
      var k := SomeElement(a.Keys);
      TotalsAfterDrop(size, a, k);
      TotalsAfterDrop(size, b, k);
      TotalsShrink(size, a - {k}, b - {k});
    }
  }

  lemma NoEntries(size: Size, b: map<RecordKey, seq<Contribution>>)
    ensures Entries(map[]) == 0 && AllWireBytes(size, map[]) == 0 && Entries(b) >= 0 && AllWireBytes(size, b) >= 0
  {
  }

  /** Removing keeps usage exact, bounds and exclusivity. */
  lemma RemoveKeepsValid(size: Size, sel: Selection, rows: Rows)
    requires Valid(size, rows)
    ensures Valid(size, Removed(size, sel, rows))
  {
    hide WireBytes, Entries, AllWireBytes, NoClash, Selected, Retained;
    var sets := RetainedSets(sel, rows.sets);
    forall k | k in sets
      ensures |sets[k]| <= |rows.sets[k]| && WireBytes(size, sets[k]) <= WireBytes(size, rows.sets[k])
      ensures SetValid(size, k, sets[k])
    {
      RetainedWireBytes(size, sel, rows.sets[k]);
    }
    TotalsShrink(size, sets, rows.sets);
    RetainedNoClash(sel, rows.sets);
  }

  lemma RetainedNoClash(sel: Selection, sets: map<RecordKey, seq<Contribution>>)
    requires NoClash(sets)
    ensures NoClash(RetainedSets(sel, sets))
  {
    hide Clash, Selected, Retained;
  }

  /** Removing nobody's contributions changes nothing. */
  lemma RemoveNothing(size: Size, rows: Rows)
    requires Valid(size, rows)
    ensures Removed(size, OfAny({}), rows) == rows
  {
    hide TrueUsage, NoClash, WithinBounds;
    forall k | k in rows.sets ensures Retained(OfAny({}), rows.sets[k]) == rows.sets[k] {
      RetainedNone(OfAny({}), rows.sets[k]);
    }
    assert RetainedSets(OfAny({}), rows.sets) == rows.sets;
  }

  // ----- Adding and then removing -----

  /** `add_contribution` for each record in turn. */
  function AddedAll(size: Size, origin: Name, rows: Rows, contributor: string, records: seq<RR>): Outcome<Rows> {
    if records == [] then Done(rows)
    else
      var front :- AddedAll(size, origin, rows, contributor, records[..|records| - 1]);
      Added(size, origin, front, contributor, records[|records| - 1])
  }

  lemma {:induction false} AddAllKeepsValid(size: Size, origin: Name, rows: Rows, contributor: string, records: seq<RR>)
    requires Valid(size, rows) && AddedAll(size, origin, rows, contributor, records).Done?
    ensures Valid(size, AddedAll(size, origin, rows, contributor, records).value)
  {
    hide Valid, Added;
    if records != [] {
      var front := records[..|records| - 1];
      AddAllKeepsValid(size, origin, rows, contributor, front);
      AddKeepsValid(size, origin, AddedAll(size, origin, rows, contributor, front).value, contributor,
                    records[|records| - 1]);
    }
  }

  ghost predicate FreshContributor(sets: map<RecordKey, seq<Contribution>>, id: string) {
    forall k :: k in sets ==> forall c :: c in sets[k] ==> c.contributor != id
  }

  /** Whatever a contributor adds disappears when all of its contributions are removed. */
  lemma AddThenRetain(size: Size, origin: Name, rows: Rows, contributor: string, r: RR)
    requires Valid(size, rows) && Added(size, origin, rows, contributor, r).Done?
    ensures RetainedSets(Of(contributor, None), Added(size, origin, rows, contributor, r).value.sets)
            == RetainedSets(Of(contributor, None), rows.sets)
  {
    hide TrueUsage, NoClash, ClashesAtOwner, Full, WithinBounds;
    var sel, key, c := Of(contributor, None), (r.name, r.rtype), Contribution(contributor, r);
    var s := SetAt(rows.sets, key);
    if c !in s {
      assert (s + [c])[..|s|] == s;
      assert Retained(sel, s + [c]) == Retained(sel, s);
    }
  }

  lemma {:induction false} AddAllThenRetain(size: Size, origin: Name, rows: Rows, contributor: string, records: seq<RR>)
    requires Valid(size, rows) && AddedAll(size, origin, rows, contributor, records).Done?
    ensures RetainedSets(Of(contributor, None), AddedAll(size, origin, rows, contributor, records).value.sets)
            == RetainedSets(Of(contributor, None), rows.sets)
  {
    hide Added, Valid, RetainedSets;
    if records != [] {
      var front := records[..|records| - 1];
      AddAllKeepsValid(size, origin, rows, contributor, front);
      AddAllThenRetain(size, origin, rows, contributor, front);
      AddThenRetain(size, origin, AddedAll(size, origin, rows, contributor, front).value, contributor,
                    records[|records| - 1]);
    }
  }

  lemma FreshRetainsAll(size: Size, rows: Rows, contributor: string)
    requires Valid(size, rows) && FreshContributor(rows.sets, contributor)
    ensures RetainedSets(Of(contributor, None), rows.sets) == rows.sets
  {
    hide TrueUsage, NoClash, WithinBounds;
    forall k | k in rows.sets ensures Retained(Of(contributor, None), rows.sets[k]) == rows.sets[k] {
      RetainedNone(Of(contributor, None), rows.sets[k]);
    }
  }

  lemma {:induction false} AddAllKeepsBase(size: Size, origin: Name, rows: Rows, contributor: string, records: seq<RR>)
    requires AddedAll(size, origin, rows, contributor, records).Done?
    ensures var u := AddedAll(size, origin, rows, contributor, records).value.usage;
            u.baseWireBytes == rows.usage.baseWireBytes && u.baseRrsets == rows.usage.baseRrsets
  {
    if records != [] {
      AddAllKeepsBase(size, origin, rows, contributor, records[..|records| - 1]);
    }
  }

  /** Adding a fresh contributor's records and then removing that contributor
      restores the table, its order and the usage exactly. */
  lemma AddThenRemoveRestores(size: Size, origin: Name, rows: Rows, contributor: string, records: seq<RR>)
    requires Valid(size, rows) && FreshContributor(rows.sets, contributor)
    requires AddedAll(size, origin, rows, contributor, records).Done?
    ensures Removed(size, Of(contributor, None), AddedAll(size, origin, rows, contributor, records).value) == rows
  {
    hide AddedAll, RetainedSets;
    AddAllThenRetain(size, origin, rows, contributor, records);
    FreshRetainsAll(size, rows, contributor);
    AddAllKeepsBase(size, origin, rows, contributor, records);
  }

  // ----- Effective records -----

  type TtlKey = (Name, RType, int)

  function TtlKeyOf(r: RR): TtlKey { (r.name, r.rtype, r.rclass) }

  predicate SameSet(a: RR, b: RR) { TtlKeyOf(a) == TtlKeyOf(b) }

  /** The smallest TTL of the RRset of `r`. */
  function LeastTtl(records: seq<RR>, r: RR): (t: int)
    requires exists x :: x in records && SameSet(x, r)
    ensures (exists x :: x in records && SameSet(x, r) && x.ttl == t)
    ensures forall x :: x in records && SameSet(x, r) ==> t <= x.ttl
  {
    var front, last := records[..|records| - 1], records[|records| - 1];
    assert records == front + [last];
    if exists x :: x in front && SameSet(x, r) then
      var t := LeastTtl(front, r);
      if SameSet(last, r) && last.ttl < t then last.ttl else t
    else last.ttl
  }

  function WithLeastTtl(records: seq<RR>, r: RR): RR
    requires r in records
  {
    assert SameSet(r, r);
    r.(ttl := LeastTtl(records, r))
  }

  function Keys(wire: RR -> Octets, out: seq<RR>): set<Octets> { set r | r in out :: wire(r) }

  /** `normalize_rrsets` on records that have a wire form: the least TTL of the
      RRset, and the first of each wire form. */
  function Normalized(wire: RR -> Octets, records: seq<RR>, upto: nat): (out: seq<RR>)
    requires upto <= |records|
  {
    if upto == 0 then []
    else
      var front := Normalized(wire, records, upto - 1);
      var r := WithLeastTtl(records, records[upto - 1]);
      if wire(r) in Keys(wire, front) then front else front + [r]
  }

  ghost predicate DistinctWires(wire: RR -> Octets, s: seq<RR>) {
    forall i, j :: 0 <= i < j < |s| ==> wire(s[i]) != wire(s[j])
  }

  lemma {:induction false} NormalizedFacts(wire: RR -> Octets, records: seq<RR>, upto: nat)
    requires upto <= |records|
    ensures var out := Normalized(wire, records, upto);
            && DistinctWires(wire, out)
            && (forall r :: r in out ==> exists x :: x in records && r == WithLeastTtl(records, x))
            && (forall i :: 0 <= i < upto ==> wire(WithLeastTtl(records, records[i])) in Keys(wire, out))
  {
    hide WithLeastTtl;
    if upto > 0 {
      NormalizedFacts(wire, records, upto - 1);
      var front, x := Normalized(wire, records, upto - 1), records[upto - 1];
      var r := WithLeastTtl(records, x);
      assert x in records;
      KeysAppend(wire, front, r);
      if wire(r) !in Keys(wire, front) {
        forall i | 0 <= i < |front| ensures wire(front[i]) != wire(r) {
          assert front[i] in front;
        }
      }
    }
  }

  lemma KeysAppend(wire: RR -> Octets, out: seq<RR>, r: RR)
    ensures Keys(wire, out + [r]) == Keys(wire, out) + {wire(r)}
  {
    forall x | x in Keys(wire, out) ensures x in Keys(wire, out + [r]) {
      var f :| f in out && wire(f) == x;
      assert f in out + [r];
    }
    assert r in out + [r];
  }

  /** Every RRset comes out with one TTL, the least that any source gave it,
      without repetitions, and no source record is lost. */
  lemma EffectiveRecords(wire: RR -> Octets, records: seq<RR>)
    ensures var out := Normalized(wire, records, |records|);
            && DistinctWires(wire, out)
            && (forall r, q :: r in out && q in out && SameSet(r, q) ==> r.ttl == q.ttl)
            && (forall r, x :: r in out && x in records && SameSet(r, x) ==> r.ttl <= x.ttl)
            && (forall x :: x in records ==> wire(WithLeastTtl(records, x)) in Keys(wire, out))
  {
    hide Normalized, WithLeastTtl, DistinctWires, Keys, SameSet, LeastFor;
    NormalizedFacts(wire, records, |records|);
    var out := Normalized(wire, records, |records|);
    forall r | r in out ensures LeastFor(records, r) {
      var x :| x in records && r == WithLeastTtl(records, x);
      LeastIsShared(records, x, r);
    }
    forall x | x in records ensures wire(WithLeastTtl(records, x)) in Keys(wire, out) {
      var i :| 0 <= i < |records| && records[i] == x;
    }
    forall r, q | r in out && q in out && SameSet(r, q) ensures r.ttl == q.ttl {
      LeastUnique(records, r, q);
    }
    forall r, x | r in out && x in records && SameSet(r, x) ensures r.ttl <= x.ttl {
      LeastBelow(records, r, x);
    }
  }

  lemma LeastBelow(records: seq<RR>, r: RR, x: RR)
    requires LeastFor(records, r) && x in records && SameSet(r, x)
    ensures r.ttl <= x.ttl
  {
    assert SameSet(x, r);
  }

  /** `r` carries the least TTL among its RRset in `records`. */
  ghost predicate LeastFor(records: seq<RR>, r: RR) {
    && (exists y :: y in records && SameSet(y, r) && y.ttl == r.ttl)
    && (forall y :: y in records && SameSet(y, r) ==> r.ttl <= y.ttl)
  }

  lemma LeastIsShared(records: seq<RR>, x: RR, r: RR)
    requires x in records && r == WithLeastTtl(records, x)
    ensures LeastFor(records, r)
  {
    hide LeastTtl;
    assert SameSet(x, x);
    var y :| y in records && SameSet(y, x) && y.ttl == LeastTtl(records, x);
    assert SameSet(y, r);
    assert forall z :: SameSet(z, r) == SameSet(z, x);
  }

  lemma LeastUnique(records: seq<RR>, r: RR, q: RR)
    requires LeastFor(records, r) && LeastFor(records, q) && SameSet(r, q)
    ensures r.ttl == q.ttl
  {
    var y :| y in records && SameSet(y, r) && y.ttl == r.ttl;
    var z :| z in records && SameSet(z, q) && z.ttl == q.ttl;
    assert SameSet(y, q) && SameSet(z, r);
  }
}
