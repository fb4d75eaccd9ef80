/** Which records a zone holds after each operation, and that a zone whose records
    changed is signed again: the arms of `mutate` and `maintenance` in
    crates/adns-server/src/service.rs over the tables of state.rs. */
module Publication {
  import opened Basics
  import opened Names
  import opened Records
  import opened Registry
  import opened Service
  import opened Authority
  import opened Contributions
  import Anchors

  // ----- One zone's rows -----

  /** Every contribution is stored under its record's owner and type. */
  ghost predicate Filed(rows: Rows) {
    forall k :: k in rows.sets ==> forall c :: c in rows.sets[k] ==> (c.record.name, c.record.rtype) == k
  }

  ghost predicate Holds(rows: Rows, c: Contribution) {
    var k := (c.record.name, c.record.rtype);
    k in rows.sets && c in rows.sets[k]
  }

  lemma ValidIsFiled(o: Oracle, c: Core, zone: string)
    requires Registry.Valid(o, c) && zone in c.zones
    ensures Filed(c.zones[zone].rows)
  {
    hide TrueUsage, NoClash, IndexExact, ChallengesOk;
    assert ZoneOk(o, c.zones[zone]);
  }

  lemma AddedHolds(size: Size, origin: Name, rows: Rows, who: string, r: RR)
    requires Filed(rows) && Added(size, origin, rows, who, r).Done?
    ensures Filed(Added(size, origin, rows, who, r).value)
    ensures forall c :: Holds(Added(size, origin, rows, who, r).value, c)
                        <==> Holds(rows, c) || c == Contribution(who, r)
  {
    hide Full, ClashesAtOwner, Acceptable;
    var key, more := (r.name, r.rtype), Added(size, origin, rows, who, r).value;
    forall c ensures Holds(more, c) <==> Holds(rows, c) || c == Contribution(who, r) {
      assert (c.record.name, c.record.rtype) != key ==> (Holds(more, c) <==> Holds(rows, c));
    }
  }

  lemma {:induction false} AddedAllHolds(size: Size, origin: Name, rows: Rows, who: string, records: seq<RR>)
    requires Filed(rows) && AddedAll(size, origin, rows, who, records).Done?
    ensures Filed(AddedAll(size, origin, rows, who, records).value)
    ensures forall c :: Holds(AddedAll(size, origin, rows, who, records).value, c)
                        <==> Holds(rows, c) || (c.contributor == who && c.record in records)
  {
    hide Filed, Holds, Added;
    if records != [] {
      var front, last := records[..|records| - 1], records[|records| - 1];
      assert records == front + [last];
      AddedAllHolds(size, origin, rows, who, front);
      AddedHolds(size, origin, AddedAll(size, origin, rows, who, front).value, who, last);
    }
  }

  lemma RemovedHolds(size: Size, sel: Selection, rows: Rows)
    requires Filed(rows)
    ensures Filed(Removed(size, sel, rows))
    ensures forall c :: Holds(Removed(size, sel, rows), c) <==> Holds(rows, c) && !Selected(sel, c)
  {
    hide TrueUsage, Selected;
  }

  function Least(a: int, b: int): (m: int)
    ensures m <= a && m <= b && (m == a || m == b)
  {
    if b <= a then b else a
  }

  /** The record with a TTL of at most `limit`, in 32 bits. */
  function Cut(r: RR, limit: int): RR { r.(ttl := Least(r.ttl, Least(limit, 0xffff_ffff))) }

  lemma {:induction false} ShortenedAre(records: seq<RR>, limit: int)
    ensures forall x :: x in Shortened(records, limit)
                        <==> exists r :: r in records && x == Cut(r, limit)
  {
    if records != [] {
      var front, last := records[..|records| - 1], records[|records| - 1];
      assert records == front + [last];
      ShortenedAre(front, limit);
      var short := Cut(last, limit);
      forall x ensures x in Shortened(front, limit) + [short]
                       <==> exists r :: r in records && x == Cut(r, limit)
      {
        if x in Shortened(front, limit) {
          var r :| r in front && x == Cut(r, limit);
          assert r in records;
        } else if x == short {
          assert last in records;
        }
      }
    }
  }

  /** A record is accepted exactly if it lies in the zone, agrees with its type and
      with every alias at its owner, and is there already or leaves room for it. */
  lemma AdditionSucceedsIff(size: Size, origin: Name, rows: Rows, who: string, r: RR)
    ensures Added(size, origin, rows, who, r).Done?
            <==> && origin <= r.name && r.rclass == 1 && TypeOf(r.rdata) == Some(r.rtype)
                 && (forall k, c :: k in rows.sets && k.0 == r.name && c in rows.sets[k] ==>
                       c.record.rtype == 5 || r.rtype == 5 ==> c.record.rtype == r.rtype && c.record.rdata == r.rdata)
                 && (|| Holds(rows, Contribution(who, r))
                     || (&& size(r).Some?
                         && (var k := (r.name, r.rtype);
                             if k in rows.sets && rows.sets[k] != [] then |rows.sets[k]| < 256
                             else rows.usage.rrsets + rows.usage.baseRrsets < 4096)
                         && rows.usage.contributions < 16384
                         && rows.usage.wireBytes + rows.usage.baseWireBytes + size(r).value <= 4 * 1024 * 1024))
  {
    if ClashesAtOwner(rows.sets, r) {
      var k :| k in rows.sets && k.0 == r.name && exists c :: c in rows.sets[k] && Clash(c.record, r);
      var c :| c in rows.sets[k] && Clash(c.record, r);
    } else {
      forall k, c | k in rows.sets && k.0 == r.name && c in rows.sets[k] ensures !Clash(c.record, r) {
      }
    }
  }

  /** The same zones, all but one as they were. */
  ghost predicate OthersKept(c: Core, d: Core, zone: string) {
    && zone in c.zones && d.zones.Keys == c.zones.Keys
    && forall n :: n in c.zones && n != zone ==> d.zones[n] == c.zones[n]
  }

  // ----- Registration and withdrawal -----

  /** The zone afterwards holds what it held and the registration's records, their
      TTL cut to the lease; other zones are untouched. */
  lemma RegistrationIsPublished(o: Oracle, gov: Governance, c: Core, q: Caller, g: Grant, now: int)
    returns (id: string, reg: Registration)
    requires Registry.Valid(o, c) && q.action.params.Register? && q.action.zone in c.zones
    requires Registered(o, gov, c, q, g, now).Done?
    ensures id == "reg-" + (if |q.digest| > 32 then q.digest[..32] else q.digest) && id !in c.registrations
    ensures var d := Registered(o, gov, c, q, g, now).value.0;
            && id in d.registrations && reg == d.registrations[id] && id in d.active
            && OthersKept(c, d, q.action.zone)
            && (forall x :: Holds(d.zones[q.action.zone].rows, x)
                            <==> || Holds(c.zones[q.action.zone].rows, x)
                                 || (x.contributor == id && exists r ::
                                       r in q.action.params.records && x.record == Cut(r, reg.leaseExpires - now)))
  {
    hide AddedAll, Lease, Shortened, Filed, Holds, Registry.Valid;
    var p, z := q.action.params, c.zones[q.action.zone];
    ValidIsFiled(o, c, q.action.zone);
    id := "reg-" + Take(q.digest, 32);
    reg := Registered(o, gov, c, q, g, now).value.0.registrations[id];
    var records := Shortened(p.records, reg.leaseExpires - now);
    AddedAllHolds(o.size, z.origin, z.rows, id, records);
    ShortenedAre(p.records, reg.leaseExpires - now);
  }

  lemma {:induction false} UnselectedAre(ports: seq<int>, selected: seq<int>)
    ensures forall x :: x in Unselected(ports, selected) <==> x in ports && x !in selected
  {
    if ports != [] {
      UnselectedAre(ports[..|ports| - 1], selected);
      assert ports == ports[..|ports| - 1] + [ports[|ports| - 1]];
    }
  }

  /** Withdrawal takes from the zone exactly the registration's records, or those at
      the owners of the ports given, and from the registration those ports. */
  lemma WithdrawalIsExact(o: Oracle, c: Core, q: Caller)
    returns (was: Registration, reg: Registration)
    requires Registry.Valid(o, c) && q.action.params.Deregister? && q.action.zone in c.zones
    requires Deregistered(o, c, q).Done?
    ensures var p, d := q.action.params, Deregistered(o, c, q).value.0;
            && p.registration in c.registrations && was == c.registrations[p.registration]
            && d.registrations == c.registrations[p.registration := reg]
            && OthersKept(c, d, was.zone)
            && (forall x :: Holds(d.zones[was.zone].rows, x)
                            <==> && Holds(c.zones[was.zone].rows, x)
                                 && !(&& x.contributor == p.registration
                                      && (p.withdrawAll || x.record.name in o.owners(was, p.ports))))
            && (p.withdrawAll ==> reg.status == Withdrawn && reg.ports == [] && p.registration !in d.active)
            && (!p.withdrawAll ==>
                  && reg.status == was.status && d.active == c.active && (forall t :: t in p.ports ==> t in was.ports)
                  && forall t :: t in reg.ports <==> t in was.ports && t !in p.ports)
  {
    hide Removed, Unselected, Filed, Holds, ZonesOk, ChallengesOk;
    var p := q.action.params;
    was := c.registrations[p.registration];
    assert was.id == p.registration;
    reg := Deregistered(o, c, q).value.0.registrations[p.registration];
    assert Filed(c.zones[was.zone].rows) by { ValidIsFiled(o, c, was.zone); }
    var owners := if p.withdrawAll then None else Some(o.owners(was, p.ports));
    RemovedHolds(o.size, Of(was.id, owners), c.zones[was.zone].rows);
    UnselectedAre(was.ports, p.ports);
  }

  // ----- Challenges -----

  /** A challenge lasts at most as asked, as its grant and as its registration, and
      its record is published with a TTL cut to that. */
  lemma ChallengeIsPublished(o: Oracle, gov: Governance, c: Core, q: Caller, g: Grant, now: int)
    returns (id: string, ch: Challenge)
    requires Registry.Valid(o, c) && q.action.params.ChallengeCreate? && q.action.zone in c.zones
    requires ChallengeCreated(o, gov, c, q, g, now).Done?
    ensures id == "chal-" + (if |q.digest| > 32 then q.digest[..32] else q.digest)
    ensures ch.id == id && ch.grantId == g.id && ch.zone == q.action.zone && ch.signer == q.signer
    ensures ch.registration == q.action.params.registration && ch.name == q.action.params.name
    ensures ch.registration in c.registrations && now < ch.expiresAt
    ensures ch.expiresAt == Least(now + q.action.params.lifetime,
                                  Least(g.validUntil, c.registrations[ch.registration].leaseExpires))
    ensures var d, r := ChallengeCreated(o, gov, c, q, g, now).value.0, q.action.params.record;
            && d.challenges == c.challenges[id := ch] && d.registrations == c.registrations
            && OthersKept(c, d, q.action.zone)
            && forall x :: Holds(d.zones[q.action.zone].rows, x)
                           <==> || Holds(c.zones[q.action.zone].rows, x)
                                || x == Contribution(id, Cut(r, ch.expiresAt - now))
  {
    hide Added, Filed, Holds, Lapsed, ZonesOk, ChallengesOk;
    var p, z := q.action.params, c.zones[q.action.zone];
    assert Filed(z.rows) by { ValidIsFiled(o, c, q.action.zone); }
    assert p.registration in c.registrations && c.registrations[p.registration].id == p.registration;
    id := "chal-" + Take(q.digest, 32);
    ch := ChallengeCreated(o, gov, c, q, g, now).value.0.challenges[id];
    AddedHolds(o.size, z.origin, z.rows, id, Cut(p.record, ch.expiresAt - now));
  }

  lemma ChallengeDeletionIsExact(o: Oracle, c: Core, q: Caller)
    requires Registry.Valid(o, c) && q.action.params.ChallengeDelete? && q.action.zone in c.zones
    requires ChallengeDeleted(o, c, q).Done?
    ensures var id, d := q.action.params.challenge, ChallengeDeleted(o, c, q).value.0;
            && d.challenges == c.challenges - {id} && d.registrations == c.registrations
            && OthersKept(c, d, q.action.zone)
            && forall x :: Holds(d.zones[q.action.zone].rows, x)
                           <==> Holds(c.zones[q.action.zone].rows, x) && x.contributor != id
  {
    hide Removed, Filed, Holds, ZonesOk, IndexExact;
    var id := q.action.params.challenge;
    assert c.challenges[id].id == id;
    assert Filed(c.zones[q.action.zone].rows) by { ValidIsFiled(o, c, q.action.zone); }
    RemovedHolds(o.size, Of(id, None), c.zones[q.action.zone].rows);
  }

  // ----- An operator's edits -----

  predicate Erases(grantId: string, e: Edit, x: Contribution) {
    e.Erase? && x.contributor == "operator:" + grantId + ":" + e.tag && x.record.name == e.owner
  }

  predicate Puts(grantId: string, e: Edit, x: Contribution) {
    e.Put? && x == Contribution("operator:" + grantId + ":" + e.tag, e.record)
  }

  /** No edit from the `i`th on erases the record. */
  predicate Spared(grantId: string, edits: seq<Edit>, i: int, x: Contribution) {
    forall j :: 0 <= j < |edits| && i <= j ==> !Erases(grantId, edits[j], x)
  }

  /** The `i`th edit puts the record there and none afterwards erases it. */
  predicate PutsAt(grantId: string, edits: seq<Edit>, i: int, x: Contribution) {
    0 <= i < |edits| && Puts(grantId, edits[i], x) && Spared(grantId, edits, i, x)
  }

  /** A record is there after the edits exactly if it was there or one of them put
      it there, and none afterwards erased it. */
  lemma {:induction false} EditsAreExact(o: Oracle, origin: Name, grantId: string, rows: Rows, edits: seq<Edit>)
    requires Filed(rows) && Edited(o, origin, grantId, rows, edits).Done?
    ensures Filed(Edited(o, origin, grantId, rows, edits).value)
    ensures forall x :: Holds(Edited(o, origin, grantId, rows, edits).value, x)
                        <==> || (Holds(rows, x) && Spared(grantId, edits, 0, x))
                             || exists i :: PutsAt(grantId, edits, i, x)
  {
    hide Filed, Holds, Added, Removed, Erases, Puts;
    if edits != [] {
      var front, last := edits[..|edits| - 1], edits[|edits| - 1];
      EditsAreExact(o, origin, grantId, rows, front);
      var f := Edited(o, origin, grantId, rows, front).value;
      LastEdit(o, origin, grantId, f, last);
      forall x ensures Holds(Edited(o, origin, grantId, rows, edits).value, x)
                       <==> || (Holds(rows, x) && Spared(grantId, edits, 0, x))
                            || exists i :: PutsAt(grantId, edits, i, x)
      {
        SparedSplit(grantId, edits, x);
        PutSplit(grantId, edits, x);
      }
    }
  }

  lemma LastEdit(o: Oracle, origin: Name, grantId: string, rows: Rows, e: Edit)
    requires Filed(rows) && !e.Malformed?
    requires e.Put? ==> Added(o.size, origin, rows, OperatorId(grantId, e.tag), e.record).Done?
    ensures var next := if e.Erase? then Removed(o.size, Of(OperatorId(grantId, e.tag), Some([e.owner])), rows)
                        else Added(o.size, origin, rows, OperatorId(grantId, e.tag), e.record).value;
            && Filed(next)
            && forall x :: Holds(next, x) <==> (Holds(rows, x) && !Erases(grantId, e, x)) || Puts(grantId, e, x)
  {
    hide Filed, Holds, Added, Removed;
    if e.Erase? {
      RemovedHolds(o.size, Of(OperatorId(grantId, e.tag), Some([e.owner])), rows);
    } else {
      AddedHolds(o.size, origin, rows, OperatorId(grantId, e.tag), e.record);
    }
  }

  lemma SparedSplit(grantId: string, edits: seq<Edit>, x: Contribution)
    requires edits != []
    ensures var front, last := edits[..|edits| - 1], edits[|edits| - 1];
            forall i :: i < |edits| ==>
              (Spared(grantId, edits, i, x) <==> Spared(grantId, front, i, x) && !Erases(grantId, last, x))
  {
    hide Erases;
    var front := edits[..|edits| - 1];
    assert forall j :: 0 <= j < |front| ==> front[j] == edits[j];
  }

  lemma PutSplit(grantId: string, edits: seq<Edit>, x: Contribution)
    requires edits != []
    ensures var front, last := edits[..|edits| - 1], edits[|edits| - 1];
            (exists i :: PutsAt(grantId, edits, i, x))
            <==> ((exists i :: PutsAt(grantId, front, i, x)) && !Erases(grantId, last, x)) || Puts(grantId, last, x)
  {
    hide Spared;
    var front, last := edits[..|edits| - 1], edits[|edits| - 1];
    SparedSplit(grantId, edits, x);
    assert forall j :: 0 <= j < |front| ==> front[j] == edits[j];
    if Puts(grantId, last, x) {
      assert Spared(grantId, front, |front|, x) by { SparedBeyond(grantId, front, x); }
      assert PutsAt(grantId, edits, |front|, x);
    }
    assert forall i :: PutsAt(grantId, front, i, x) && !Erases(grantId, last, x) ==> PutsAt(grantId, edits, i, x);
    assert forall i :: PutsAt(grantId, edits, i, x) ==> i == |front| || PutsAt(grantId, front, i, x);
  }

  lemma SparedBeyond(grantId: string, edits: seq<Edit>, x: Contribution)
    ensures Spared(grantId, edits, |edits|, x)
  {
  }

  /** An operator's change applies to the serial it was made for. */
  lemma OperatorChangeIsExact(o: Oracle, c: Core, q: Caller, g: Grant)
    requires Registry.Valid(o, c) && q.action.params.Operator? && q.action.zone in c.zones
    requires OperatorApplied(o, c, q, g).Done?
    ensures c.zones[q.action.zone].serial == q.action.params.expectedSerial
    ensures var d, edits := OperatorApplied(o, c, q, g).value.0, q.action.params.edits;
            && d == c.(zones := d.zones) && OthersKept(c, d, q.action.zone)
            && forall x :: Holds(d.zones[q.action.zone].rows, x)
                           <==> || (Holds(c.zones[q.action.zone].rows, x) && Spared(g.id, edits, 0, x))
                                || exists i :: PutsAt(g.id, edits, i, x)
  {
    hide Edited, Filed, Holds, Spared, Puts, Registry.Valid;
    ValidIsFiled(o, c, q.action.zone);
    EditsAreExact(o, c.zones[q.action.zone].origin, g.id, c.zones[q.action.zone].rows, q.action.params.edits);
  }

  // ----- Signing again -----

  /** The zone as it was, or with a new serial and a full validity period; a zone
      whose records changed is never left as it was. */
  ghost predicate SignedAgain(z: Zone, after: Zone, now: int) {
    && after.origin == z.origin && after.validity == z.validity && after.refreshBefore == z.refreshBefore
    && (|| after == z
        || (after.serial == (z.serial + 1) % 0x1_0000_0000 && after.expiration == now + z.validity))
  }

  /** Every other part of the zone but its rows is the same. */
  ghost predicate RowsOnly(c: Core, d: Core, zone: string) {
    && OthersKept(c, d, zone)
    && d.zones[zone] == c.zones[zone].(rows := d.zones[zone].rows)
  }

  lemma RowsReplacedOnly(c: Core, zone: string, rows: Rows)
    requires zone in c.zones
    ensures forall d: Core :: d.zones == WithRows(c, zone, rows).zones ==> RowsOnly(c, d, zone)
    ensures forall d: Core :: d.zones == c.zones ==> RowsOnly(c, d, zone)
  {
  }

  lemma AdditionRows(o: Oracle, gov: Governance, c: Core, q: Caller, g: Grant, now: int)
    requires q.action.zone in c.zones && Performed(o, gov, c, q, g, now).Done?
    requires q.action.params.Register? || q.action.params.ChallengeCreate? || q.action.params.Operator?
    ensures var r := Performed(o, gov, c, q, g, now).value;
            RowsOnly(c, r.0, q.action.zone) && r.2
  {
    hide Added, AddedAll, Take, Lease, ActiveRegistration, Edited, Shortened, RowsOnly;
    var d := Performed(o, gov, c, q, g, now).value.0;
    RowsReplacedOnly(c, q.action.zone, d.zones[q.action.zone].rows);
  }

  lemma RemovalRows(o: Oracle, gov: Governance, c: Core, q: Caller, g: Grant, now: int)
    requires q.action.zone in c.zones && Performed(o, gov, c, q, g, now).Done?
    requires q.action.params.Deregister? || q.action.params.ChallengeDelete?
    ensures var r := Performed(o, gov, c, q, g, now).value;
            RowsOnly(c, r.0, q.action.zone) && (r.0.zones != c.zones ==> r.2)
  {
    hide Removed, Unselected, RowsOnly;
    var d := Performed(o, gov, c, q, g, now).value.0;
    RowsReplacedOnly(c, q.action.zone, d.zones[q.action.zone].rows);
  }

  lemma NoRows(o: Oracle, gov: Governance, c: Core, q: Caller, g: Grant, now: int)
    requires q.action.zone in c.zones && Performed(o, gov, c, q, g, now).Done?
    requires q.action.params.Renew? || q.action.params.SetAnchor?
    ensures var r := Performed(o, gov, c, q, g, now).value;
            r.0.zones == c.zones && !r.2
  {
    hide Lease, ActiveRegistration, Anchors.Anchored, Anchors.IsIdentifier, Reappraised;
  }

  lemma ActionRows(o: Oracle, gov: Governance, c: Core, q: Caller, g: Grant, now: int)
    requires q.action.zone in c.zones && Performed(o, gov, c, q, g, now).Done?
    ensures var r := Performed(o, gov, c, q, g, now).value;
            && RowsOnly(c, r.0, q.action.zone) && (r.0.zones != c.zones ==> r.2)
            && (q.action.params.Renew? || q.action.params.SetAnchor? ==> r.0.zones == c.zones && !r.2)
  {
    hide Performed;
    if q.action.params.Renew? || q.action.params.SetAnchor? {
      NoRows(o, gov, c, q, g, now);
      RowsReplacedOnly(c, q.action.zone, c.zones[q.action.zone].rows);
    } else if q.action.params.Deregister? || q.action.params.ChallengeDelete? {
      RemovalRows(o, gov, c, q, g, now);
    } else {
      AdditionRows(o, gov, c, q, g, now);
    }
  }

  /** A performed request signs its zone again whenever that zone's records changed,
      touches no other zone, and answers with the serial the zone then has. */
  lemma ChangedZoneIsSigned(o: Oracle, db: Db, q: Signed, g: Grant, now: int)
    requires q.action.zone in db.core.zones && PerformedAndSigned(o, db, q, g, now).Done?
    ensures var c, d := db.core, PerformedAndSigned(o, db, q, g, now).value.0;
            && OthersKept(c, d, q.action.zone)
            && SignedAgain(c.zones[q.action.zone], d.zones[q.action.zone], now)
            && PerformedAndSigned(o, db, q, g, now).value.1.serial == d.zones[q.action.zone].serial
            && (q.action.params.Renew? || q.action.params.SetAnchor? ==> d.zones == c.zones)
  {
    hide Performed;
    ActionRows(o, db.gov, db.core, CallerOf(q), g, now);
  }

  // ----- Maintenance -----

  /** The contributor is an active registration of the zone that no longer stands, or
      a challenge of the zone that no longer stands once registrations are settled. */
  ghost predicate LosesRecords(o: Oracle, gov: Governance, c: Core, settled: map<string, Registration>, zone: string,
          now: int, id: string) {
    || (&& id in c.registrations && c.registrations[id].zone == zone && c.registrations[id].status == Active
        && !Stands(o, gov, c.registrations[id], now))
    || (&& id in c.challenges && c.challenges[id].zone == zone
        && !ChallengeStands(o, gov, settled, c.challenges[id], now))
  }

  /** What maintenance makes of one registration: one that stands, or is not active,
      stays; another loses its ports and is withdrawn when its authority failed and
      expired when only its time has. */
  ghost predicate Settled(o: Oracle, gov: Governance, was: Registration, reg: Registration, now: int) {
    if was.status != Active || Stands(o, gov, was, now) then reg == was
    else reg == was.(status := if Covered(o, gov, was, now) then Expired else Withdrawn, ports := [])
  }

  /** Maintenance settles every registration, keeps exactly the challenges that stand
      and the nonces that are unused, of this epoch and not over; the anchors stay. */
  lemma MaintenanceSettles(o: Oracle, db: Db, now: int)
    requires MaintenanceCommits(o, db, now)
    ensures var c, m := db.core, Maintained(o, db, now).0;
            var d := m.core;
            && d.registrations.Keys == c.registrations.Keys && d.anchors == c.anchors
            && (forall id :: id in c.registrations ==>
                  Settled(o, db.gov, c.registrations[id], d.registrations[id], now))
            && (forall id :: id in d.challenges
                             <==> && id in c.challenges
                                  && ChallengeStands(o, db.gov, d.registrations, c.challenges[id], now))
            && (forall id :: id in d.challenges ==> d.challenges[id] == c.challenges[id])
            && (forall k :: k in m.nonces
                            <==> && k in db.nonces && !db.nonces[k].consumed && now < db.nonces[k].expiresAt
                                 && k == (db.config.value.epoch, db.nonces[k].nonce))
  {
    hide Lapsed, AuthorityInvalid, ChallengeDead, Stands, Covered, ChallengeStands, ZoneAfter, LiveAttempts, DirtyZones;
    var c, d := db.core, Maintained(o, db, now).0.core;
    forall id | id in c.registrations ensures Settled(o, db.gov, c.registrations[id], d.registrations[id], now) {
      LapsedIff(o, db.gov, c.registrations[id], now);
    }
    forall ch ensures ChallengeDead(o, db.gov, d.registrations, ch, now)
                      <==> !ChallengeStands(o, db.gov, d.registrations, ch, now)
    {
      DeadIff(o, db.gov, d.registrations, ch, now);
    }
  }

  /** Maintenance takes from each zone exactly the records of those who lost their standing. */
  lemma MaintenanceRemovesExactly(o: Oracle, db: Db, now: int, zone: string, x: Contribution)
    requires Registry.Valid(o, db.core) && MaintenanceCommits(o, db, now) && zone in db.core.zones
    ensures var c, d := db.core, Maintained(o, db, now).0.core;
            && zone in d.zones
            && (Holds(d.zones[zone].rows, x)
                <==> && Holds(c.zones[zone].rows, x)
                     && !LosesRecords(o, db.gov, c, d.registrations, zone, now, x.contributor))
  {
    hide LosesRecords, ZoneAfter, Holds, Registry.Valid, LiveNonces, LiveAttempts, DirtyZones, RegistrationsAfter,
         ChallengesAfter;
    assert ZoneAfter(o, db.gov, db.core, zone, now).Done?;
    MaintainedRows(o, db.gov, db.core, zone, now, x);
  }

  lemma GoneIff(o: Oracle, gov: Governance, c: Core, zone: string, now: int, id: string)
    ensures id in Gone(o, gov, c, zone, now)
            <==> LosesRecords(o, gov, c, RegistrationsAfter(o, gov, c, now), zone, now, id)
  {
    hide Lapsed, ChallengeDead, Stands, ChallengeStands, RegistrationsAfter;
    if id in c.registrations {
      LapsedIff(o, gov, c.registrations[id], now);
    }
    if id in c.challenges {
      DeadIff(o, gov, RegistrationsAfter(o, gov, c, now), c.challenges[id], now);
    }
  }

  lemma MaintainedRows(o: Oracle, gov: Governance, c: Core, zone: string, now: int, x: Contribution)
    requires Registry.Valid(o, c) && zone in c.zones && ZoneAfter(o, gov, c, zone, now).Done?
    ensures Holds(ZoneAfter(o, gov, c, zone, now).value.rows, x)
            <==> && Holds(c.zones[zone].rows, x)
                 && !LosesRecords(o, gov, c, RegistrationsAfter(o, gov, c, now), zone, now, x.contributor)
  {
    hide Registry.Valid, Gone, LosesRecords, RegistrationsAfter, Removed, Filed, Holds, Dirty;
    ValidIsFiled(o, c, zone);
    RemovedHolds(o.size, OfAny(Gone(o, gov, c, zone, now)), c.zones[zone].rows);
    GoneIff(o, gov, c, zone, now, x.contributor);
  }

  /** Maintenance signs a zone again exactly when its RRsets changed or its signatures
      are within the refresh margin of their end. */
  lemma MaintainedZoneIsSigned(o: Oracle, db: Db, now: int, zone: string)
    requires MaintenanceCommits(o, db, now) && zone in db.core.zones
    ensures var z, m := db.core.zones[zone], Maintained(o, db, now);
            && zone in m.0.core.zones
            && var after := m.0.core.zones[zone];
               && SignedAgain(z, after.(rows := z.rows), now)
               && (zone in m.1 <==> after.rows.sets != z.rows.sets || now + z.refreshBefore >= z.expiration)
               && if zone in m.1
                  then after.serial == (z.serial + 1) % 0x1_0000_0000 && after.expiration == now + z.validity
                  else after.serial == z.serial && after.expiration == z.expiration
  {
    hide Removed, Gone, RegistrationsAfter, ChallengesAfter, LiveNonces, LiveAttempts;
    assert ZoneAfter(o, db.gov, db.core, zone, now).Done?;
  }
}
