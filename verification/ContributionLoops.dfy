/** The contribution table as the handlers scan and update it, with the checked
    arithmetic whose error branches are never taken. */
module ContributionLoops {
  import opened Order
  import opened Names
  import opened Records
  import opened App
  import opened Contributions
  import Zone

  /** Splits one RRset and lowers the counters, with the checks of the source. */
  method SplitSet(size: Size, sel: Selection, s: seq<Contribution>, contributions: int, wireBytes: int)
    returns (r: Outcome<(seq<Contribution>, int, int)>)
    requires contributions >= |s| && wireBytes >= WireBytes(size, s) && forall c :: c in s ==> size(c.record).Some?
    ensures r.Done?
    ensures r.value.0 == Retained(sel, s) && r.value.1 == contributions - |s| + |Retained(sel, s)|
    ensures r.value.2 == wireBytes - WireBytes(size, s) + WireBytes(size, Retained(sel, s))
  {
    hide WireBytes, Selected;
    var retained, count, bytes := [], contributions, wireBytes;
    assert s[..0] == [] && s[..|s|] == s;
    NoWireBytes(size);
    for i := 0 to |s|
      invariant retained == Retained(sel, s[..i])
      invariant count == contributions - i + |retained|
      invariant bytes == wireBytes - WireBytes(size, s[..i]) + WireBytes(size, retained)
    {
      var c := s[i];
      assert c in s && s[..i + 1] == s[..i] + [c] && s[..i + 1][..i] == s[..i];
      WireBytesAppend(size, s[..i], c);
      PrefixWireBytes(size, s, i + 1);
      if Selected(sel, c) {
        if count == 0 {
          return Refused(Unavailable);
        }
        count := count - 1;
        var n := size(c.record);
        if n.None? {
          return Refused(Invalid);
        }
        if bytes < n.value {
          return Refused(Unavailable);
        }
        bytes := bytes - n.value;
      } else {
        WireBytesAppend(size, retained, c);
        retained := retained + [c];
      }
    }
    return Done((retained, count, bytes));
  }

  lemma {:induction false} PrefixWireBytes(size: Size, s: seq<Contribution>, i: nat)
    requires i <= |s|
    ensures WireBytes(size, s[..i]) <= WireBytes(size, s)
  {
    if i < |s| {
      PrefixWireBytes(size, s[..|s| - 1], i);
      assert s[..|s| - 1][..i] == s[..i];
    } else {
      assert s[..i] == s;
    }
  }

  /** The table once the RRsets of `done` have been split. */
  function Partly(sel: Selection, sets: map<RecordKey, seq<Contribution>>, done: seq<RecordKey>): map<RecordKey,
          seq<Contribution>> {
    map k | k in sets && (k in done ==> Retained(sel, sets[k]) != []) ::
      if k in done then Retained(sel, sets[k]) else sets[k]
  }

  lemma PartlyStep(sel: Selection, sets: map<RecordKey, seq<Contribution>>, done: seq<RecordKey>, k: RecordKey)
    requires k in sets && k !in done && sets[k] != []
    ensures k in Partly(sel, sets, done) && Partly(sel, sets, done)[k] == sets[k]
    ensures var p, s := Partly(sel, sets, done), Retained(sel, sets[k]);
            Partly(sel, sets, done + [k]) == if s == [] then p - {k} else p[k := s]
  {
    hide Retained;
  }

  lemma PartlyEnds(sel: Selection, sets: map<RecordKey, seq<Contribution>>, keys: seq<RecordKey>)
    requires forall k :: k in sets ==> k in keys
    ensures Partly(sel, sets, []) == sets && Partly(sel, sets, keys) == RetainedSets(sel, sets)
  {
    hide Retained;
  }

  lemma SetWithinTotals(size: Size, sets: map<RecordKey, seq<Contribution>>, k: RecordKey)
    requires k in sets
    ensures |sets[k]| <= Entries(sets) && WireBytes(size, sets[k]) <= AllWireBytes(size, sets) && 1 <= |sets|
  {
    EntriesWithout(sets, k);
    WireBytesWithout(size, sets, k);
    Smaller(sets, k);
  }

  /** The rows of one zone. */
  class ZoneRows {
    var sets: map<RecordKey, seq<Contribution>>
    var usage: Usage

    function State(): Rows
      reads this
    {
      Rows(sets, usage)
    }

    /** `initialize_zone_usage` for base records of the given number and size. */
    constructor (size: Size, baseRrsets: nat, baseWireBytes: nat)
      requires baseRrsets <= MAX_ZONE_RRSETS && baseWireBytes <= MAX_ZONE_RECORD_BYTES
      ensures Valid(size, State())
    {
      sets := map[];
      usage := Usage(0, 0, 0, baseWireBytes, baseRrsets);
      new;
      NoEntries(size, map[]);
    }

    /** `add_contribution`. */
    method AddContribution(size: Size, origin: Name, contributor: string, r: RR) returns (result: Outcome<()>)
      requires Valid(size, State())
      modifies this
      ensures Valid(size, State())
      ensures match Added(size, origin, old(State()), contributor, r)
              case Done(rows) => result == Done(()) && State() == rows
              case Refused(e) => result == Refused(e) && State() == old(State())
    {
      hide Valid, Clash, Full, Acceptable;
      if Added(size, origin, State(), contributor, r).Done? {
        AddKeepsValid(size, origin, State(), contributor, r);
      }
      if !Acceptable(origin, r) {
        return Refused(Invalid);
      }
      var clash := FindClash(sets, r);
      if clash {
        return Refused(Conflict);
      }
      var key := (r.name, r.rtype);
      var s := SetAt(sets, key);
      if Contribution(contributor, r) !in s {
        var bytes := size(r);
        if bytes.None? {
          return Refused(Invalid);
        }
        if Full(usage, s, bytes.value) {
          return Refused(Limit);
        }
        usage := usage.(rrsets := usage.rrsets + (if s == [] then 1 else 0), contributions := usage.contributions + 1,
                        wireBytes := usage.wireBytes + bytes.value);
        sets := sets[key := s + [Contribution(contributor, r)]];
      }
      return Done(());
    }

    /** `remove_matching_contributions`: no subtraction ever underflows. */
    method RemoveMatching(size: Size, sel: Selection) returns (result: Outcome<bool>)
      requires Valid(size, State())
      modifies this
      ensures result.Done? && Valid(size, State())
      ensures State() == Removed(size, sel, old(State()))
      ensures result.value <==> sets != old(sets)
    {
      hide Valid, Removed;
      RemoveKeepsValid(size, sel, State());
      var r := SplitAll(size, sel, State());
      if r.value.1 {
        sets, usage := r.value.0.sets, r.value.0.usage;
      }
      return Done(r.value.1);
    }
  }

  /** Whether a record clashes with another type or alias at its owner. */
  method FindClash(sets: map<RecordKey, seq<Contribution>>, r: RR) returns (clash: bool)
    ensures clash <==> ClashesAtOwner(sets, r)
  {
    hide Clash, Zone.SortedKeys;
    var keys := Zone.SortedKeys(sets.Keys);
    for i := 0 to |keys|
      invariant forall j :: 0 <= j < i && keys[j] in sets && keys[j].0 == r.name ==>
        forall c :: c in sets[keys[j]] ==> !Clash(c.record, r)
    {
      assert keys[i] in sets.Keys;
      if keys[i].0 == r.name {
        var s := sets[keys[i]];
        for n := 0 to |s|
          invariant forall m :: 0 <= m < n ==> !Clash(s[m].record, r)
        {
          if Clash(s[n].record, r) {
            assert s[n] in sets[keys[i]];
            return true;
          }
        }
      }
    }
    forall k | k in sets && k.0 == r.name ensures forall c :: c in sets[k] ==> !Clash(c.record, r) {
      assert k in keys;
      var j :| 0 <= j < |keys| && keys[j] == k;
    }
    return false;
  }

  /** One RRset of the pass. */
  method SplitOne(size: Size, sel: Selection, sets: map<RecordKey, seq<Contribution>>, usage: Usage, key: RecordKey)
    returns (r: Outcome<(map<RecordKey, seq<Contribution>>, Usage, bool)>)
    requires key in sets && SetValid(size, key, sets[key]) && usage == TrueUsage(size, sets, usage)
    ensures r.Done?
    ensures var kept := Retained(sel, sets[key]);
            && r.value.0 == (if kept == [] then sets - {key} else sets[key := kept])
            && r.value.1 == TrueUsage(size, r.value.0, usage)
            && (r.value.2 <==> |kept| != |sets[key]|)
  {
    hide WireBytes, Retained, Entries, AllWireBytes;
    SetWithinTotals(size, sets, key);
    TotalsAfterDrop(size, sets, key);
    NoWireBytes(size);
    var s := sets[key];
    var split := SplitSet(size, sel, s, usage.contributions, usage.wireBytes);
    var kept := split.value.0;
    TotalsAfterUpdate(size, sets, key, kept);
    if |kept| == |s| {
      RetainedSame(sel, s);
      assert sets[key := kept] == sets;
      return Done((sets, usage, false));
    }
    var next := usage.(contributions := split.value.1, wireBytes := split.value.2);
    if kept == [] {
      if next.rrsets == 0 {
        return Refused(Unavailable);
      }
      return Done((sets - {key}, next.(rrsets := next.rrsets - 1), true));
    }
    return Done((sets[key := kept], next, true));
  }

  /** One pass over the zone's RRsets. */
  method SplitAll(size: Size, sel: Selection, rows: Rows) returns (r: Outcome<(Rows, bool)>)
    requires Valid(size, rows)
    ensures r.Done? && r.value.0 == Removed(size, sel, rows) && (r.value.1 <==> r.value.0.sets != rows.sets)
    ensures !r.value.1 ==> r.value.0 == rows
  {
    hide WireBytes, Retained, Entries, AllWireBytes, NoClash, WithinBounds, Partly, Zone.SortedKeys, RetainedSets,
         SetValid;
    var changed := false;
    var sets, usage := rows.sets, rows.usage;
    var keys := Zone.SortedKeys(rows.sets.Keys);
    PartlyEnds(sel, rows.sets, keys);
    assert keys[..0] == [];
    for i := 0 to |keys|
      invariant sets == Partly(sel, rows.sets, keys[..i])
      invariant usage == TrueUsage(size, sets, rows.usage)
      invariant changed <==> sets != rows.sets
    {
      var key := keys[i];
      assert key in rows.sets.Keys;
      KeyIsNew(keys, i);
      StoredNonempty(size, key, rows.sets[key]);
      PartlyStep(sel, rows.sets, keys[..i], key);
      var step := SplitOne(size, sel, sets, usage, key);
      if step.value.2 {
        PartlyChanged(sel, rows.sets, keys[..i + 1], key);
        changed := true;
      } else {
        RetainedSame(sel, sets[key]);
        assert step.value.0 == sets;
      }
      sets, usage := step.value.0, step.value.1;
    }
    assert keys[..|keys|] == keys;
    return Done((Rows(sets, usage), changed));
  }

  lemma StoredNonempty(size: Size, k: RecordKey, s: seq<Contribution>)
    requires SetValid(size, k, s)
    ensures s != []
  {
  }

  lemma KeyIsNew(keys: seq<RecordKey>, i: nat)
    requires i < |keys| && Sorted(Zone.KeyLess, keys)
    ensures keys[i] !in keys[..i] && keys[..i + 1] == keys[..i] + [keys[i]]
  {
    Zone.KeyOrder();
    SortedIsDistinct(Zone.KeyLess, keys, i);
  }

  lemma PartlyChanged(sel: Selection, sets: map<RecordKey, seq<Contribution>>, done: seq<RecordKey>, k: RecordKey)
    requires k in done && k in sets && |Retained(sel, sets[k])| != |sets[k]|
    ensures Partly(sel, sets, done) != sets
  {
    hide Retained;
    if k in Partly(sel, sets, done) {
      assert Partly(sel, sets, done)[k] == Retained(sel, sets[k]);
    }
  }

  lemma LeastTtlStep(records: seq<RR>, last: RR, r: RR)
    requires exists x :: x in records + [last] && SameSet(x, r)
    ensures LeastTtl(records + [last], r)
            == if exists x :: x in records && SameSet(x, r)
               then (if SameSet(last, r) && last.ttl < LeastTtl(records, r) then last.ttl else LeastTtl(records, r))
               else last.ttl
  {
    assert (records + [last])[..|records|] == records;
  }

  ghost predicate LeastTtlsOf(records: seq<RR>, ttls: map<TtlKey, int>) {
    && (forall k :: k in ttls ==> exists x :: x in records && TtlKeyOf(x) == k)
    && (forall x :: x in records ==> HasLeast(records, ttls, x))
  }

  ghost predicate HasLeast(records: seq<RR>, ttls: map<TtlKey, int>, x: RR)
    requires x in records
  {
    TtlKeyOf(x) in ttls && ttls[TtlKeyOf(x)] == WithLeastTtl(records, x).ttl
  }

  function Lowered(ttls: map<TtlKey, int>, r: RR): map<TtlKey, int> {
    var k := TtlKeyOf(r);
    ttls[k := if k in ttls && ttls[k] < r.ttl then ttls[k] else r.ttl]
  }

  lemma KnownTtl(records: seq<RR>, ttls: map<TtlKey, int>, x: RR)
    requires LeastTtlsOf(records, ttls)
    ensures TtlKeyOf(x) in ttls <==> exists y :: y in records && SameSet(y, x)
    ensures (exists y :: y in records && SameSet(y, x)) ==>
              TtlKeyOf(x) in ttls && ttls[TtlKeyOf(x)] == LeastTtl(records, x)
  {
    hide LeastTtl;
    if y :| y in records && SameSet(y, x) {
      assert HasLeast(records, ttls, y);
      LeastTtlByKey(records, y, x);
    }
  }

  /** One more record lowers its own RRset's TTL, or starts it, and no other. */
  lemma LeastStepFor(records: seq<RR>, last: RR, ttls: map<TtlKey, int>, x: RR)
    requires LeastTtlsOf(records, ttls) && x in records + [last]
    ensures HasLeast(records + [last], Lowered(ttls, last), x)
  {
    hide LeastTtl, LeastTtlsOf;
    assert SameSet(x, x);
    LeastTtlStep(records, last, x);
    KnownTtl(records, ttls, x);
    if !exists y :: y in records && SameSet(y, x) {
      assert x == last;
    }
  }

  lemma LeastTtlsStep(records: seq<RR>, last: RR, ttls: map<TtlKey, int>)
    requires LeastTtlsOf(records, ttls)
    ensures LeastTtlsOf(records + [last], Lowered(ttls, last))
  {
    hide LeastTtl, TtlKeyOf, HasLeast;
    var k, more := TtlKeyOf(last), records + [last];
    forall x | x in more ensures HasLeast(more, Lowered(ttls, last), x) {
      LeastStepFor(records, last, ttls, x);
    }
    forall m | m in Lowered(ttls, last) ensures exists x :: x in more && TtlKeyOf(x) == m {
      if m == k {
        assert last in more;
      } else {
        var x :| x in records && TtlKeyOf(x) == m;
        assert x in more;
      }
    }
  }

  lemma LeastTtlByKey(records: seq<RR>, y: RR, x: RR)
    requires y in records && SameSet(y, x)
    ensures (exists z :: z in records && SameSet(z, x)) && (exists z :: z in records && SameSet(z, y))
    ensures LeastTtl(records, x) == LeastTtl(records, y)
  {
    assert SameSet(y, y);
    assert forall z :: SameSet(z, x) == SameSet(z, y);
    var a :| a in records && SameSet(a, x) && a.ttl == LeastTtl(records, x);
    var b :| b in records && SameSet(b, y) && b.ttl == LeastTtl(records, y);
  }

  method LeastTtls(records: seq<RR>) returns (ttls: map<TtlKey, int>)
    ensures LeastTtlsOf(records, ttls)
  {
    hide LeastTtlsOf;
    ttls := map[];
    assert LeastTtlsOf(records[..0], ttls) by { NoTtls(); }
    for i := 0 to |records|
      invariant LeastTtlsOf(records[..i], ttls)
    {
      LeastTtlsStep(records[..i], records[i], ttls);
      assert records[..i + 1] == records[..i] + [records[i]];
      ttls := Lowered(ttls, records[i]);
    }
    assert records[..|records|] == records;
  }

  lemma NoTtls()
    ensures LeastTtlsOf([], map[])
  {
  }

  /** `normalize_rrsets`: one loop for the TTLs, one for the copies. */
  method NormalizeRrsets(wire: RR -> Octets, records: seq<RR>) returns (out: seq<RR>)
    ensures out == Normalized(wire, records, |records|)
  {
    hide LeastTtl;
    var ttls := LeastTtls(records);
    out := [];
    var unique: set<Octets> := {};
    for i := 0 to |records|
      invariant out == Normalized(wire, records, i) && unique == Keys(wire, out)
    {
      var r := records[i];
      assert r in records && HasLeast(records, ttls, r);
      r := r.(ttl := ttls[TtlKeyOf(r)]);
      assert r == WithLeastTtl(records, records[i]);
      if wire(r) !in unique {
        KeysAppend(wire, out, r);
        unique := unique + {wire(r)};
        out := out + [r];
      }
    }
  }
}
