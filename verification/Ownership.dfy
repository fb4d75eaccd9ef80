/** No record outlives its authority: every contributed record belongs to an
    active registration or a stored challenge of its zone, or to an operator. */
module Ownership {
  import opened Basics
  import opened Names
  import opened Records
  import opened App
  import opened Registry
  import opened Service
  import opened ServiceProofs
  import opened Authority
  import Contributions
  import Anchors

  // ----- Whose records a zone holds -----

  ghost predicate Contributes(rows: Contributions.Rows, id: string) {
    exists k :: k in rows.sets && exists c :: c in rows.sets[k] && c.contributor == id
  }

  lemma AddedContributes(size: Contributions.Size, origin: Name, rows: Contributions.Rows, who: string, r: RR,
          id: string)
    requires Contributions.Added(size, origin, rows, who, r).Done?
    ensures Contributes(Contributions.Added(size, origin, rows, who, r).value, id) ==>
              Contributes(rows, id) || id == who
  {
    hide Contributions.Full, Contributions.ClashesAtOwner, Contributions.Acceptable;
  }

  lemma {:induction false} AddedAllContributes(size: Contributions.Size, origin: Name, rows: Contributions.Rows,
          who: string, records: seq<RR>, id: string)
    requires Contributions.AddedAll(size, origin, rows, who, records).Done?
    ensures Contributes(Contributions.AddedAll(size, origin, rows, who, records).value, id) ==>
              Contributes(rows, id) || id == who
  {
    hide Contributes, Contributions.Added;
    if records != [] {
      var front := records[..|records| - 1];
      AddedAllContributes(size, origin, rows, who, front, id);
      AddedContributes(size, origin, Contributions.AddedAll(size, origin, rows, who, front).value, who,
                       records[|records| - 1], id);
    }
  }

  /** All of a contributor's records are selected. */
  predicate RemovesAll(sel: Contributions.Selection, id: string) {
    match sel
    case Of(who, owners) => who == id && owners.None?
    case OfAny(ids) => id in ids
  }

  lemma RemovedContributes(size: Contributions.Size, sel: Contributions.Selection, rows: Contributions.Rows, id: string)
    ensures Contributes(Contributions.Removed(size, sel, rows), id) ==> Contributes(rows, id) && !RemovesAll(sel, id)
  {
    hide Contributions.TrueUsage, Contributions.Retained;
  }

  // ----- The invariant -----

  predicate IsRegistrationId(id: string) { |id| >= 4 && id[..4] == "reg-" }

  predicate IsChallengeId(id: string) { |id| >= 5 && id[..5] == "chal-" }

  ghost predicate Owned(c: Core, zone: string, id: string) {
    && (IsRegistrationId(id) ==> id in c.active && id in c.registrations && c.registrations[id].zone == zone)
    && (IsChallengeId(id) ==> id in c.challenges && c.challenges[id].zone == zone)
  }

  ghost predicate ZoneOwned(c: Core, zone: string)
    requires zone in c.zones
  {
    forall id :: Contributes(c.zones[zone].rows, id) ==> Owned(c, zone, id)
  }

  /** Every record of a zone has an owner there. */
  ghost predicate AllOwned(c: Core) { forall zone :: zone in c.zones ==> ZoneOwned(c, zone) }

  lemma IdsApart(digest: string, grantId: string, tag: string)
    ensures IsRegistrationId("reg-" + Take(digest, 32)) && !IsChallengeId("reg-" + Take(digest, 32))
    ensures IsChallengeId("chal-" + Take(digest, 32)) && !IsRegistrationId("chal-" + Take(digest, 32))
    ensures !IsRegistrationId(OperatorId(grantId, tag)) && !IsChallengeId(OperatorId(grantId, tag))
  {
    hide Take;
    var r, h, p := "reg-" + Take(digest, 32), "chal-" + Take(digest, 32), OperatorId(grantId, tag);
    assert r[..4] == "reg-" && r[0] == 'r' && h[..5] == "chal-" && h[0] == 'c';
    assert p == "operator:" + (grantId + ":" + tag) && p[0] == 'o';
    assert "chal-"[0] == 'c' && "reg-"[0] == 'r';
  }

  /** Nobody who still owns records loses their standing. */
  ghost predicate Keeps(c: Core, d: Core, zone: string, id: string) { Owned(c, zone, id) ==> Owned(d, zone, id) }

  /** Only `who` may have gained records, only in `zone`, and owns them. */
  lemma OwnersAfter(c: Core, d: Core, zone: string, who: string)
    requires AllOwned(c) && zone in c.zones && d.zones.Keys == c.zones.Keys
    requires forall n :: n in c.zones && n != zone ==> d.zones[n].rows == c.zones[n].rows
    requires forall id :: Contributes(d.zones[zone].rows, id) ==> Contributes(c.zones[zone].rows, id) || id == who
    requires Contributes(d.zones[zone].rows, who) ==> Owned(d, zone, who)
    requires forall n, id :: n in c.zones && Contributes(d.zones[n].rows, id) && Contributes(c.zones[n].rows, id) ==>
               Keeps(c, d, n, id)
    ensures AllOwned(d)
  {
    hide Contributes, Owned;
    forall n | n in d.zones ensures ZoneOwned(d, n) {
      forall id | Contributes(d.zones[n].rows, id) ensures Owned(d, n, id) {
        assert ZoneOwned(c, n);
        if Contributes(c.zones[n].rows, id) {
          assert Keeps(c, d, n, id);
        }
      }
    }
  }

  // ----- The operations -----

  lemma RegisterOwned(o: Oracle, gov: Governance, c: Core, q: Caller, g: Grant, now: int)
    requires AllOwned(c) && q.action.params.Register? && q.action.zone in c.zones
    requires Registered(o, gov, c, q, g, now).Done?
    ensures AllOwned(Registered(o, gov, c, q, g, now).value.0)
  {
    hide Contributions.AddedAll, Contributes, Lease, Take, Shortened, AllOwned;
    var p, z := q.action.params, c.zones[q.action.zone];
    var policy := gov.policies[q.action.zone];
    var a := o.appraise(p.profile, q, policy, now).value;
    var lease := Lease(o, now, p.leaseSeconds, g.validUntil, policy.validUntil, a.validUntil).value;
    var id := "reg-" + Take(q.digest, 32);
    IdsApart(q.digest, "", "");
    var d := Registered(o, gov, c, q, g, now).value.0;
    forall x | Contributes(d.zones[q.action.zone].rows, x) ensures Contributes(z.rows, x) || x == id {
      AddedAllContributes(o.size, z.origin, z.rows, id, Shortened(p.records, lease - now), x);
    }
    OwnersAfter(c, d, q.action.zone, id);
  }

  lemma RenewOwned(o: Oracle, gov: Governance, c: Core, q: Caller, g: Grant, now: int)
    requires AllOwned(c) && q.action.params.Renew? && Renewed(o, gov, c, q, g, now).Done?
    ensures AllOwned(Renewed(o, gov, c, q, g, now).value.0)
  {
    hide Contributes, Lease, PolicyCurrent;
    var d := Renewed(o, gov, c, q, g, now).value.0;
    forall n, id | n in c.zones && Contributes(c.zones[n].rows, id) ensures Owned(d, n, id) {
      assert ZoneOwned(c, n) && Owned(c, n, id);
    }
  }

  lemma WithoutContributes(o: Oracle, c: Core, zone: string, sel: Contributions.Selection, id: string)
    requires zone in c.zones
    ensures Contributes(Without(o, c, zone, sel).zones[zone].rows, id) ==>
              Contributes(c.zones[zone].rows, id) && !RemovesAll(sel, id)
    ensures Without(o, c, zone, sel).zones.Keys == c.zones.Keys
    ensures forall n :: n in c.zones && n != zone ==> Without(o, c, zone, sel).zones[n] == c.zones[n]
  {
    hide Contributes, Contributions.Removed, RemovesAll;
    RemovedContributes(o.size, sel, c.zones[zone].rows, id);
  }

  lemma DeregisterOwned(o: Oracle, c: Core, q: Caller)
    requires Registry.Valid(o, c) && AllOwned(c)
    requires q.action.params.Deregister? && q.action.zone in c.zones && Deregistered(o, c, q).Done?
    ensures AllOwned(Deregistered(o, c, q).value.0)
  {
    hide Contributes, AllOwned, Without, Unselected, ZonesOk, Anchors.Valid, ChallengesOk;
    var p, zone := q.action.params, q.action.zone;
    var r := c.registrations[p.registration];
    var sel := if p.withdrawAll then Contributions.Of(r.id, None)
               else Contributions.Of(r.id, Some(o.owners(r, p.ports)));
    var d := Deregistered(o, c, q).value.0;
    WithoutFrame(o, c, zone, sel);
    WithoutContributes(o, c, zone, sel, "");
    forall n, id | n in c.zones && Contributes(d.zones[n].rows, id) && Contributes(c.zones[n].rows, id)
      ensures Keeps(c, d, n, id)
    {
      if n == zone {
        WithoutContributes(o, c, zone, sel, id);
      }
    }
    forall id | Contributes(d.zones[zone].rows, id) ensures Contributes(c.zones[zone].rows, id) {
      WithoutContributes(o, c, zone, sel, id);
    }
    OwnersKept(c, d, zone);
  }

  /** Nobody gained records. */
  lemma OwnersKept(c: Core, d: Core, zone: string)
    requires AllOwned(c) && zone in c.zones && d.zones.Keys == c.zones.Keys
    requires forall n :: n in c.zones && n != zone ==> d.zones[n].rows == c.zones[n].rows
    requires forall id :: Contributes(d.zones[zone].rows, id) ==> Contributes(c.zones[zone].rows, id)
    requires forall n, id :: n in c.zones && Contributes(d.zones[n].rows, id) && Contributes(c.zones[n].rows, id) ==>
               Keeps(c, d, n, id)
    ensures AllOwned(d)
  {
    hide Contributes, Owned;
    forall n | n in d.zones ensures ZoneOwned(d, n) {
      forall id | Contributes(d.zones[n].rows, id) ensures Owned(d, n, id) {
        assert ZoneOwned(c, n) && Contributes(c.zones[n].rows, id) && Keeps(c, d, n, id);
      }
    }
  }

  /** The one thing the source leaves to the hash: a new challenge would take over
      an id under which another zone holds records. */
  ghost predicate Orphans(c: Core, q: Caller) {
    && q.action.params.ChallengeCreate?
    && exists n :: n in c.zones && n != q.action.zone && Contributes(c.zones[n].rows, "chal-" + Take(q.digest, 32))
  }

  lemma ChallengeCreateOwned(o: Oracle, gov: Governance, c: Core, q: Caller, g: Grant, now: int)
    requires AllOwned(c) && q.action.params.ChallengeCreate? && q.action.zone in c.zones
    requires ChallengeCreated(o, gov, c, q, g, now).Done?
    ensures AllOwned(ChallengeCreated(o, gov, c, q, g, now).value.0) <==> !Orphans(c, q)
  {
    hide Contributions.Added, Contributes, Take, AllOwned, Lapsed;
    var p, z := q.action.params, c.zones[q.action.zone];
    var r := ActiveRegistration(o, gov, c, p.registration, now).value;
    var until := Min(Min(now + p.lifetime, g.validUntil), r.leaseExpires);
    var record := p.record.(ttl := Min(p.record.ttl, Min(until - now, MAX_TTL)));
    var id := "chal-" + Take(q.digest, 32);
    IdsApart(q.digest, "", "");
    var d := ChallengeCreated(o, gov, c, q, g, now).value.0;
    forall x | Contributes(d.zones[q.action.zone].rows, x) ensures Contributes(z.rows, x) || x == id {
      AddedContributes(o.size, z.origin, z.rows, id, record, x);
    }
    if Orphans(c, q) {
      OrphanLeft(c, d, q);
    } else {
      OwnersAfter(c, d, q.action.zone, id);
    }
  }

  lemma OrphanLeft(c: Core, d: Core, q: Caller)
    requires Orphans(c, q) && d.zones.Keys == c.zones.Keys
    requires forall n :: n in c.zones && n != q.action.zone ==> d.zones[n].rows == c.zones[n].rows
    requires var id := "chal-" + Take(q.digest, 32); id in d.challenges && d.challenges[id].zone == q.action.zone
    ensures !AllOwned(d)
  {
    hide Contributes;
    var id := "chal-" + Take(q.digest, 32);
    IdsApart(q.digest, "", "");
    var n :| n in c.zones && n != q.action.zone && Contributes(c.zones[n].rows, id);
    assert Contributes(d.zones[n].rows, id) && !Owned(d, n, id);
    assert !ZoneOwned(d, n);
  }

  lemma AddedPresent(size: Contributions.Size, origin: Name, rows: Contributions.Rows, who: string, r: RR)
    requires Contributions.Added(size, origin, rows, who, r).Done?
    ensures Contributes(Contributions.Added(size, origin, rows, who, r).value, who)
  {
    hide Contributions.Full, Contributions.ClashesAtOwner, Contributions.Acceptable;
    var key, row := (r.name, r.rtype), Contributions.Contribution(who, r);
    var sets := Contributions.Added(size, origin, rows, who, r).value.sets;
    assert key in sets && row in sets[key] && row.contributor == who;
  }

  /** Two challenges of different zones whose digests agree in 128 bits: the record
      of the first is left without an owner. */
  lemma ClashLeavesOrphan(o: Oracle, gov: Governance, c: Core, q: Caller, q': Caller, g: Grant, g': Grant, now: int,
          now': int)
    requires q.action.params.ChallengeCreate? && q'.action.params.ChallengeCreate?
    requires q.action.zone in c.zones && q'.action.zone in c.zones && q.action.zone != q'.action.zone
    requires Take(q.digest, 32) == Take(q'.digest, 32)
    requires ChallengeCreated(o, gov, c, q, g, now).Done?
    requires ChallengeCreated(o, gov, ChallengeCreated(o, gov, c, q, g, now).value.0, q', g', now').Done?
    ensures !AllOwned(ChallengeCreated(o, gov, ChallengeCreated(o, gov, c, q, g, now).value.0, q', g', now').value.0)
  {
    hide Contributions.Added, Contributes, Take, AllOwned, Lapsed;
    var p, z := q.action.params, c.zones[q.action.zone];
    var r := ActiveRegistration(o, gov, c, p.registration, now).value;
    var until := Min(Min(now + p.lifetime, g.validUntil), r.leaseExpires);
    AddedPresent(o.size, z.origin, z.rows, "chal-" + Take(q.digest, 32),
                 p.record.(ttl := Min(p.record.ttl, Min(until - now, MAX_TTL))));
    var d := ChallengeCreated(o, gov, c, q, g, now).value.0;
    assert q.action.zone in d.zones && Contributes(d.zones[q.action.zone].rows, "chal-" + Take(q'.digest, 32));
    assert Orphans(d, q');
    OrphanLeft(d, ChallengeCreated(o, gov, d, q', g', now').value.0, q');
  }

  lemma ChallengeDeleteOwned(o: Oracle, c: Core, q: Caller)
    requires Registry.Valid(o, c) && AllOwned(c)
    requires q.action.params.ChallengeDelete? && q.action.zone in c.zones && ChallengeDeleted(o, c, q).Done?
    ensures AllOwned(ChallengeDeleted(o, c, q).value.0)
  {
    hide Contributes, AllOwned, Without, ZonesOk, Anchors.Valid, IndexExact;
    var ch, zone := c.challenges[q.action.params.challenge], q.action.zone;
    var sel := Contributions.Of(ch.id, None);
    var d := ChallengeDeleted(o, c, q).value.0;
    WithoutFrame(o, c, zone, sel);
    WithoutContributes(o, c, zone, sel, "");
    forall n, id | n in c.zones && Contributes(d.zones[n].rows, id) && Contributes(c.zones[n].rows, id)
      ensures Keeps(c, d, n, id)
    {
      if n == zone {
        WithoutContributes(o, c, zone, sel, id);
      }
    }
    forall id | Contributes(d.zones[zone].rows, id) ensures Contributes(c.zones[zone].rows, id) {
      WithoutContributes(o, c, zone, sel, id);
    }
    OwnersKept(c, d, zone);
  }

  lemma {:induction false} EditedContributes(o: Oracle, origin: Name, grantId: string, rows: Contributions.Rows,
          edits: seq<Edit>, id: string)
    requires Edited(o, origin, grantId, rows, edits).Done? && (IsRegistrationId(id) || IsChallengeId(id))
    ensures Contributes(Edited(o, origin, grantId, rows, edits).value, id) ==> Contributes(rows, id)
  {
    hide Contributes, Contributions.Added, Contributions.Removed, IsRegistrationId, IsChallengeId, OperatorId;
    if edits != [] {
      var front := edits[..|edits| - 1];
      EditedContributes(o, origin, grantId, rows, front, id);
      var f := Edited(o, origin, grantId, rows, front).value;
      match edits[|edits| - 1]
      case Erase(tag, owner) =>
        RemovedContributes(o.size, Contributions.Of(OperatorId(grantId, tag), Some([owner])), f, id);
      case Put(tag, r) =>
        AddedContributes(o.size, origin, f, OperatorId(grantId, tag), r, id);
        IdsApart("", grantId, tag);
      case Malformed =>
    }
  }

  lemma OperatorOwned(o: Oracle, c: Core, q: Caller, g: Grant)
    requires AllOwned(c) && q.action.params.Operator? && q.action.zone in c.zones && OperatorApplied(o, c, q, g).Done?
    ensures AllOwned(OperatorApplied(o, c, q, g).value.0)
  {
    hide Contributes, Edited, IsRegistrationId, IsChallengeId;
    var z, d := c.zones[q.action.zone], OperatorApplied(o, c, q, g).value.0;
    forall n, id | n in d.zones && Contributes(d.zones[n].rows, id) ensures Owned(d, n, id) {
      assert ZoneOwned(c, n);
      if n == q.action.zone && (IsRegistrationId(id) || IsChallengeId(id)) {
        EditedContributes(o, z.origin, g.id, z.rows, q.action.params.edits, id);
      }
    }
  }

  /** Every signed operation keeps every record owned, with the one exception. */
  lemma ActionsKeepOwned(o: Oracle, gov: Governance, c: Core, q: Caller, g: Grant, now: int)
    requires Registry.Valid(o, c) && AllOwned(c) && q.action.zone in c.zones
    requires Performed(o, gov, c, q, g, now).Done?
    ensures AllOwned(Performed(o, gov, c, q, g, now).value.0) <==> !Orphans(c, q)
  {
    hide AllOwned, Registry.Valid, Registered, Renewed, Deregistered, AnchorSet, ChallengeCreated, ChallengeDeleted,
         OperatorApplied;
    match q.action.params
    case Register(_, _, _, _, _) => RegisterOwned(o, gov, c, q, g, now);
    case Renew(_, _, _) => RenewOwned(o, gov, c, q, g, now);
    case Deregister(_, _, _) => DeregisterOwned(o, c, q);
    case SetAnchor(_) => AnchorOwned(o, gov, c, q, now);
    case ChallengeCreate(_, _, _, _) => ChallengeCreateOwned(o, gov, c, q, g, now);
    case ChallengeDelete(_) => ChallengeDeleteOwned(o, c, q);
    case Operator(_, _) => OperatorOwned(o, c, q, g);
  }

  lemma AnchorOwned(o: Oracle, gov: Governance, c: Core, q: Caller, now: int)
    requires AllOwned(c) && q.action.params.SetAnchor? && AnchorSet(o, gov, c, q, now).Done?
    ensures AllOwned(AnchorSet(o, gov, c, q, now).value.0)
  {
    hide Contributes, Anchors.Anchored, Anchors.IsIdentifier, Lapsed;
    var d := AnchorSet(o, gov, c, q, now).value.0;
    assert d == c.(anchors := d.anchors);
    SameOwners(c, d);
  }

  /** Ownership looks at registrations, challenges and rows only. */
  lemma SameOwners(c: Core, d: Core)
    requires AllOwned(c) && d.registrations == c.registrations && d.active == c.active && d.challenges == c.challenges
    requires d.zones.Keys == c.zones.Keys && forall n :: n in c.zones ==> d.zones[n].rows == c.zones[n].rows
    ensures AllOwned(d)
  {
    hide Contributes, IsRegistrationId, IsChallengeId;
    forall n | n in d.zones ensures ZoneOwned(d, n) {
      assert ZoneOwned(c, n);
      forall id | Contributes(d.zones[n].rows, id) ensures Owned(d, n, id) {
        assert Owned(c, n, id);
      }
    }
  }

  // ----- Maintenance and runs -----

  lemma CleanedContributes(o: Oracle, gov: Governance, c: Core, zone: string, now: int, id: string)
    requires zone in c.zones && ZoneAfter(o, gov, c, zone, now).Done?
    ensures Contributes(ZoneAfter(o, gov, c, zone, now).value.rows, id) ==>
              Contributes(c.zones[zone].rows, id) && id !in Gone(o, gov, c, zone, now)
  {
    hide Contributes, Contributions.Removed, Gone, Dirty;
    RemovedContributes(o.size, Contributions.OfAny(Gone(o, gov, c, zone, now)), c.zones[zone].rows, id);
  }

  /** In good standing at `now`. */
  ghost predicate InForce(o: Oracle, gov: Governance, c: Core, now: int, id: string) {
    && (IsRegistrationId(id) ==>
          id in c.registrations && c.registrations[id].status == Active && Stands(o, gov, c.registrations[id], now))
    && (IsChallengeId(id) ==>
          id in c.challenges && ChallengeStands(o, gov, c.registrations, c.challenges[id], now))
  }

  /** Who owns records and was not removed keeps them in good standing. */
  lemma StandingAfter(o: Oracle, gov: Governance, c: Core, zone: string, now: int, id: string)
    requires AllSigned(o, gov, c, now) && Owned(c, zone, id) && id !in Gone(o, gov, c, zone, now)
    requires IndexExact(c.registrations, c.active, c.activeCount, c.zones.Keys)
    ensures var d := CoreAfter(o, gov, c, now);
            Owned(d, zone, id) && InForce(o, gov, d, now, id)
  {
    hide Lapsed, ChallengeDead, AllSigned, ZoneAfter, IsRegistrationId, IsChallengeId, AuthorityInvalid, Stands,
         ChallengeStands;
    var d := CoreAfter(o, gov, c, now);
    if IsRegistrationId(id) {
      LapsedIff(o, gov, c.registrations[id], now);
    }
    if IsChallengeId(id) {
      DeadIff(o, gov, d.registrations, c.challenges[id], now);
    }
  }

  /** Right after maintenance every record has an owner whose authority is in
      force: nothing expired, revoked or out of scope is published. */
  lemma MaintenanceLeavesOnlyAuthorized(o: Oracle, db: Db, now: int)
    requires ServiceProofs.Valid(o, db) && AllOwned(db.core) && MaintenanceCommits(o, db, now)
    ensures var d := Maintained(o, db, now).0.core;
            && AllOwned(d)
            && (forall zone, id :: zone in d.zones && Contributes(d.zones[zone].rows, id) ==>
                  InForce(o, db.gov, d, now, id))
  {
    hide Contributes, Gone, ZoneAfter, AllSigned, Lapsed, ChallengeDead, RegistrationsAfter, ChallengesAfter,
         IsRegistrationId, IsChallengeId, ZonesOk, Anchors.Valid, ChallengesOk, IndexExact, NoncesOk, AttemptsOk;
    var c, d := db.core, Maintained(o, db, now).0.core;
    forall zone, id | zone in d.zones && Contributes(d.zones[zone].rows, id)
      ensures Owned(d, zone, id) && InForce(o, db.gov, d, now, id)
    {
      SignedZone(o, db.gov, c, zone, now);
      CleanedContributes(o, db.gov, c, zone, now, id);
      assert ZoneOwned(c, zone);
      StandingAfter(o, db.gov, c, zone, now, id);
    }
  }

  lemma SignedZone(o: Oracle, gov: Governance, c: Core, zone: string, now: int)
    requires AllSigned(o, gov, c, now) && zone in c.zones
    ensures ZoneAfter(o, gov, c, zone, now).Done?
  {
  }

  lemma PerformedOwned(o: Oracle, db: Db, q: Signed, g: Grant, now: int)
    requires Registry.Valid(o, db.core) && AllOwned(db.core) && q.action.zone in db.core.zones
    requires PerformedAndSigned(o, db, q, g, now).Done?
    ensures AllOwned(PerformedAndSigned(o, db, q, g, now).value.0) <==> !Orphans(db.core, CallerOf(q))
  {
    hide Registry.Valid, AllOwned, Performed, Orphans;
    var caller := CallerOf(q);
    ActionsKeepOwned(o, db.gov, db.core, caller, g, now);
    var r := Performed(o, db.gov, db.core, caller, g, now).value;
    if r.2 {
      var z := Resigned(o, r.0.zones[q.action.zone], now).value;
      var signed := r.0.(zones := r.0.zones[q.action.zone := z]);
      if AllOwned(r.0) {
        SameOwners(r.0, signed);
      } else if AllOwned(signed) {
        SameOwners(signed, r.0);
      }
    }
  }

  /** The step performs a request that leaves a record without an owner. */
  ghost predicate OrphansAt(o: Oracle, ch: Checks, db: Db, e: Event) {
    && e.Request? && e.input.Send? && Performs(o, ch, db, e, KeyOf(e.input.request))
    && Orphans(db.core, CallerOf(e.input.request))
  }

  lemma PerformingStep(o: Oracle, ch: Checks, db: Db, e: Event)
    requires ServiceProofs.Valid(o, db) && AllOwned(db.core) && e.Request? && e.input.Send?
    requires Performs(o, ch, db, e, KeyOf(e.input.request))
    ensures AllOwned(Next(o, ch, db, e).core) <==> !Orphans(db.core, CallerOf(e.input.request))
  {
    hide AllOwned, Registry.Valid, NoncesOk, AttemptsOk, PerformedAndSigned, Orphans, NonceFits, AuthorizedGrant;
    var q := e.input.request;
    var g := AuthorizedGrant(ch, db, db.config.value, q.action, e.now).value;
    GrantZone(ch, db, db.config.value, q.action, e.now);
    PerformedOwned(o, db, q, g, e.now);
  }

  /** Every step keeps every record owned, with the one exception. */
  lemma StepKeepsOwnedIff(o: Oracle, ch: Checks, db: Db, e: Event)
    requires ServiceProofs.Valid(o, db) && AllOwned(db.core)
    ensures AllOwned(Next(o, ch, db, e).core) <==> !OrphansAt(o, ch, db, e)
  {
    hide AllOwned, Orphans, Performs, ServiceProofs.Valid, Observed, Maintained, NewZoneOk, MaintenanceCommits;
    match e
    case Request(input, now) =>
      if input.Send? && Performs(o, ch, db, e, KeyOf(input.request)) {
        PerformingStep(o, ch, db, e);
      } else {
        IdleStep(o, ch, db, e);
      }
    case Maintain(now) =>
      if MaintenanceCommits(o, db, now) {
        MaintenanceLeavesOnlyAuthorized(o, db, now);
      }
    case Install(config) =>
    case Govern(gov) =>
    case AddZone(name, zone) =>
      if name !in db.core.zones && NewZoneOk(o, zone) {
        NewZoneOwned(o, db.core, name, zone);
      }
  }

  lemma StepKeepsOwned(o: Oracle, ch: Checks, db: Db, e: Event)
    requires ServiceProofs.Valid(o, db) && AllOwned(db.core)
    requires e.Request? && e.input.Send? && e.input.request.verified && KeyOf(e.input.request) !in db.results ==>
               !Orphans(db.core, CallerOf(e.input.request))
    ensures AllOwned(Next(o, ch, db, e).core)
  {
    hide AllOwned, Orphans, ServiceProofs.Valid, PerformedAndSigned, NonceFits, AuthorizedGrant, Next;
    StepKeepsOwnedIff(o, ch, db, e);
  }

  lemma NewZoneOwned(o: Oracle, c: Core, name: string, zone: Zone)
    requires AllOwned(c) && name !in c.zones && NewZoneOk(o, zone)
    ensures AllOwned(c.(zones := c.zones[name := zone]))
  {
    hide Contributions.Valid, IsRegistrationId, IsChallengeId;
    var d := c.(zones := c.zones[name := zone]);
    forall n | n in d.zones ensures ZoneOwned(d, n) {
      if n != name {
        assert ZoneOwned(c, n);
        forall id | Contributes(d.zones[n].rows, id) ensures Owned(d, n, id) {
          assert Owned(c, n, id);
        }
      }
    }
  }

  ghost predicate AlwaysOwned(o: Oracle, ch: Checks, db: Db, run: seq<Event>) {
    forall i :: 0 <= i <= |run| ==> AllOwned(After(o, ch, db, run[..i]).core)
  }

  ghost predicate NeverOrphans(o: Oracle, ch: Checks, db: Db, run: seq<Event>) {
    forall i :: 0 <= i < |run| ==> !OrphansAt(o, ch, After(o, ch, db, run[..i]), run[i])
  }

  lemma OwnedSplit(o: Oracle, ch: Checks, db: Db, run: seq<Event>)
    requires run != []
    ensures var front := run[..|run| - 1];
            && (AlwaysOwned(o, ch, db, run)
                <==> AlwaysOwned(o, ch, db, front) && AllOwned(After(o, ch, db, run).core))
            && (AlwaysOwned(o, ch, db, front) ==> AllOwned(After(o, ch, db, front).core))
            && (NeverOrphans(o, ch, db, run)
                <==> NeverOrphans(o, ch, db, front) && !OrphansAt(o, ch, After(o, ch, db, front), run[|run| - 1]))
  {
    hide AllOwned, OrphansAt, After;
    var front := run[..|run| - 1];
    assert run[..|run|] == run && front[..|front|] == front;
    assert forall i :: 0 <= i <= |front| ==> front[..i] == run[..i];
    assert forall i :: 0 <= i < |front| ==> front[i] == run[i];
  }

  /** Over every run, at every step every contributed record belongs to an active
      registration or a stored challenge of its zone, or to an operator, exactly unless
      some request that is performed takes a challenge id from another zone. */
  lemma {:induction false} AlwaysOwnedIff(o: Oracle, ch: Checks, db: Db, run: seq<Event>)
    requires ServiceProofs.Valid(o, db) && AllOwned(db.core)
    ensures AlwaysOwned(o, ch, db, run) <==> NeverOrphans(o, ch, db, run)
  {
    hide ServiceProofs.Valid, AllOwned, OrphansAt, Next, AlwaysOwned, NeverOrphans;
    if run == [] {
      OwnedAtStart(o, ch, db);
    } else {
      var front := run[..|run| - 1];
      AlwaysOwnedIff(o, ch, db, front);
      OwnedSplit(o, ch, db, run);
      RunsKeepValid(o, ch, db, front);
      if NeverOrphans(o, ch, db, front) {
        StepKeepsOwnedIff(o, ch, After(o, ch, db, front), run[|run| - 1]);
      }
    }
  }

  lemma OwnedAtStart(o: Oracle, ch: Checks, db: Db)
    requires AllOwned(db.core)
    ensures AlwaysOwned(o, ch, db, []) && NeverOrphans(o, ch, db, [])
  {
    hide AllOwned;
    var none: seq<Event> := [];
    assert none[..0] == none;
  }

  // ----- Where challenge ids come from -----

  /** The event is a request for a challenge with a valid signature. */
  predicate AsksChallenge(e: Event) {
    e.Request? && e.input.Send? && e.input.request.verified && e.input.request.action.params.ChallengeCreate?
  }

  function ChallengeId(e: Event): string
    requires AsksChallenge(e)
  {
    "chal-" + Take(e.input.request.digest, 32)
  }

  function ZoneAsked(e: Event): string
    requires AsksChallenge(e)
  {
    e.input.request.action.zone
  }

  function KeyAsked(e: Event): ResultKey
    requires AsksChallenge(e)
  {
    KeyOf(e.input.request)
  }

  /** What is asked of the requests of a run: two different requests for challenges
      in different zones do not get the same id, nor one that is stored already. */
  ghost predicate IdsTellZones(db: Db, run: seq<Event>) {
    && (forall i, j :: 0 <= i < j < |run| && AsksChallenge(run[i]) && AsksChallenge(run[j])
                       && ChallengeId(run[i]) == ChallengeId(run[j]) ==>
                         KeyAsked(run[i]) == KeyAsked(run[j]) || ZoneAsked(run[i]) == ZoneAsked(run[j]))
    && (forall i :: 0 <= i < |run| && AsksChallenge(run[i]) && ChallengeId(run[i]) in db.core.challenges ==>
                      db.core.challenges[ChallengeId(run[i])].zone == ZoneAsked(run[i]))
  }

  /** `e` created the challenge `id` of `zone`, and its result is stored. */
  ghost predicate CreatedBy(e: Event, id: string, zone: string, results: map<ResultKey, ResultRow>) {
    AsksChallenge(e) && ChallengeId(e) == id && ZoneAsked(e) == zone && KeyAsked(e) in results
  }

  /** Every stored challenge was there at the start or was created in the run. */
  ghost predicate Traced(start: Db, run: seq<Event>, now: Db) {
    forall id :: id in now.core.challenges ==>
      var zone := now.core.challenges[id].zone;
      || (id in start.core.challenges && start.core.challenges[id].zone == zone)
      || exists i :: 0 <= i < |run| && CreatedBy(run[i], id, zone, now.results)
  }

  lemma PerformedChallenges(o: Oracle, gov: Governance, c: Core, q: Caller, g: Grant, now: int, id: string)
    requires q.action.zone in c.zones && Performed(o, gov, c, q, g, now).Done?
    ensures var d := Performed(o, gov, c, q, g, now).value.0;
            id in d.challenges ==>
              || (id in c.challenges && d.challenges[id] == c.challenges[id])
              || (q.action.params.ChallengeCreate? && id == "chal-" + Take(q.digest, 32)
                  && d.challenges[id].zone == q.action.zone)
  {
    hide Contributions.Added, Contributions.AddedAll, Contributions.Removed, Take, Lapsed, Lease, PolicyCurrent,
         Anchors.Anchored, Anchors.IsIdentifier, Edited, Shortened, Unselected, Reappraised, ActiveRegistration;
  }

  lemma StepChallenges(o: Oracle, ch: Checks, db: Db, e: Event, id: string)
    requires id in Next(o, ch, db, e).core.challenges
    ensures var d := Next(o, ch, db, e);
            || (id in db.core.challenges && d.core.challenges[id] == db.core.challenges[id])
            || CreatedBy(e, id, d.core.challenges[id].zone, d.results)
  {
    hide Performed, NonceFits, AuthorizedGrant, LiveNonces, LiveAttempts, AllSigned, DirtyZones, NewZoneOk, OfGrant,
         RegistrationsAfter, ChallengeDead, ZoneAfter, Take, Resigned;
    match e
    case Request(input, now) =>
      if Mutated(o, ch, db, input, now).Done? && input.Send? && KeyOf(input.request) !in db.results {
        var q := input.request;
        var g := AuthorizedGrant(ch, db, db.config.value, q.action, now).value;
        GrantZone(ch, db, db.config.value, q.action, now);
        PerformedChallenges(o, db.gov, db.core, CallerOf(q), g, now, id);
      }
    case Maintain(now) =>
    case Install(config) =>
    case Govern(gov) =>
    case AddZone(name, zone) =>
  }

  lemma TracedStep(o: Oracle, ch: Checks, start: Db, run: seq<Event>, mid: Db, e: Event)
    requires Traced(start, run, mid)
    ensures Traced(start, run + [e], Next(o, ch, mid, e))
  {
    hide Next;
    var end := Next(o, ch, mid, e);
    StepKeepsResults(o, ch, mid, e);
    forall id | id in end.core.challenges
      ensures var zone := end.core.challenges[id].zone;
              || (id in start.core.challenges && start.core.challenges[id].zone == zone)
              || exists i :: 0 <= i < |run + [e]| && CreatedBy((run + [e])[i], id, zone, end.results)
    {
      StepChallenges(o, ch, mid, e, id);
      var zone := end.core.challenges[id].zone;
      if CreatedBy(e, id, zone, end.results) {
        assert (run + [e])[|run|] == e;
      } else if !(id in start.core.challenges && start.core.challenges[id].zone == zone) {
        var i :| 0 <= i < |run| && CreatedBy(run[i], id, zone, mid.results);
        assert (run + [e])[i] == run[i];
      }
    }
  }

  /** A request that is performed takes no id from another zone. */
  lemma NothingOrphaned(start: Db, run: seq<Event>, mid: Db, e: Event)
    requires IdsTellZones(start, run + [e]) && Traced(start, run, mid) && AllOwned(mid.core)
    requires e.Request? && e.input.Send? && e.input.request.verified && KeyOf(e.input.request) !in mid.results
    ensures !Orphans(mid.core, CallerOf(e.input.request))
  {
    hide Contributes, Take;
    var q := CallerOf(e.input.request);
    if AsksChallenge(e) {
      var id := ChallengeId(e);
      IdsApart(q.digest, "", "");
      assert (run + [e])[|run|] == e;
      forall n | n in mid.core.zones && Contributes(mid.core.zones[n].rows, id) ensures n == q.action.zone {
        assert ZoneOwned(mid.core, n) && Owned(mid.core, n, id);
        SameZone(start, run, mid, e, id);
      }
    }
  }

  lemma SameZone(start: Db, run: seq<Event>, mid: Db, e: Event, id: string)
    requires IdsTellZones(start, run + [e]) && Traced(start, run, mid)
    requires AsksChallenge(e) && KeyAsked(e) !in mid.results && id == ChallengeId(e) && id in mid.core.challenges
    ensures mid.core.challenges[id].zone == ZoneAsked(e)
  {
    hide Take, ChallengeId, ZoneAsked, KeyAsked, AsksChallenge;
    var all, zone := run + [e], mid.core.challenges[id].zone;
    assert all[|run|] == e;
    if !(id in start.core.challenges && start.core.challenges[id].zone == zone) {
      var i :| 0 <= i < |run| && CreatedBy(run[i], id, zone, mid.results);
      assert all[i] == run[i];
      assert ChallengeId(all[i]) == ChallengeId(all[|run|]);
    }
  }

  lemma {:induction false} OwnedAndTraced(o: Oracle, ch: Checks, db: Db, run: seq<Event>)
    requires ServiceProofs.Valid(o, db) && AllOwned(db.core) && IdsTellZones(db, run)
    ensures AllOwned(After(o, ch, db, run).core) && Traced(db, run, After(o, ch, db, run))
  {
    hide ServiceProofs.Valid, AllOwned, Next, CreatedBy, Orphans, Traced;
    if run == [] {
      TracedAtStart(db);
    } else {
      var front, e := run[..|run| - 1], run[|run| - 1];
      assert run == front + [e];
      FewerAsked(db, run);
      OwnedAndTraced(o, ch, db, front);
      RunsKeepValid(o, ch, db, front);
      var mid := After(o, ch, db, front);
      if e.Request? && e.input.Send? && e.input.request.verified && KeyOf(e.input.request) !in mid.results {
        NothingOrphaned(db, front, mid, e);
      }
      StepKeepsOwned(o, ch, mid, e);
      TracedStep(o, ch, db, front, mid, e);
    }
  }

  lemma TracedAtStart(db: Db)
    ensures Traced(db, [], db)
  {
  }

  lemma FewerAsked(db: Db, run: seq<Event>)
    requires run != [] && IdsTellZones(db, run)
    ensures IdsTellZones(db, run[..|run| - 1])
  {
    hide AsksChallenge, ChallengeId, ZoneAsked, KeyAsked;
  }

  /** Over every run whose requests for challenges get ids of their own, every
      contributed record belongs to an active registration or a stored challenge
      of its zone, or to an operator. */
  lemma EveryRecordHasAnOwner(o: Oracle, ch: Checks, db: Db, run: seq<Event>)
    requires ServiceProofs.Valid(o, db) && AllOwned(db.core) && IdsTellZones(db, run)
    ensures AllOwned(After(o, ch, db, run).core)
  {
    hide ServiceProofs.Valid, AllOwned, IdsTellZones, After;
    OwnedAndTraced(o, ch, db, run);
  }

  // ----- Leases -----

  /** A lease starts now and ends within the grant, the policy and the appraisal. */
  lemma RegistrationIsBounded(o: Oracle, gov: Governance, c: Core, q: Caller, g: Grant, now: int)
    returns (reg: Registration, policy: Policy)
    requires q.action.params.Register? && q.action.zone in c.zones && Registered(o, gov, c, q, g, now).Done?
    ensures q.action.zone in gov.policies && policy == gov.policies[q.action.zone]
    ensures var d := Registered(o, gov, c, q, g, now).value.0;
            && reg.id !in c.registrations && d.registrations == c.registrations[reg.id := reg]
            && d.active == c.active + {reg.id}
    ensures reg.status == Active && reg.zone == q.action.zone && reg.signer == q.signer && reg.grantId == g.id
    ensures reg.host == q.action.params.host && reg.profile == q.action.params.profile && reg.admittedAt == now
    ensures reg.ports == q.action.params.ports && reg.policyValidUntil == policy.validUntil
    ensures o.appraise(reg.profile, q, policy, now) == Done(Appraisal(reg.reappraisalDeadline, reg.policyId))
    ensures now < reg.leaseExpires <= now + q.action.params.leaseSeconds
    ensures reg.leaseExpires <= g.validUntil && reg.leaseExpires <= policy.validUntil
    ensures reg.leaseExpires <= reg.reappraisalDeadline
    ensures reg.leaseExpires
            in {now + q.action.params.leaseSeconds, g.validUntil, policy.validUntil, reg.reappraisalDeadline}
  {
    hide Contributions.AddedAll, Take, Shortened;
    policy := gov.policies[q.action.zone];
    reg := Registered(o, gov, c, q, g, now).value.0.registrations["reg-" + Take(q.digest, 32)];
  }

  /** Renewal is measured from admission, so it cannot stretch a lease past its
      bounds, and it leaves everything but the lease and the appraisal alone. */
  lemma RenewalIsBounded(o: Oracle, gov: Governance, c: Core, q: Caller, g: Grant, now: int)
    returns (was: Registration, reg: Registration, policy: Policy)
    requires q.action.params.Renew? && Renewed(o, gov, c, q, g, now).Done?
    ensures q.action.zone in gov.policies && policy == gov.policies[q.action.zone]
    ensures var id := q.action.params.registration;
            id in c.registrations && was == c.registrations[id]
            && Renewed(o, gov, c, q, g, now).value.0 == c.(registrations := c.registrations[id := reg])
    ensures was.status == Active && now < was.leaseExpires
    ensures was.grantId == q.action.grantId && was.zone == q.action.zone && was.signer == q.signer
    ensures now < reg.leaseExpires <= was.admittedAt + q.action.params.leaseSeconds
    ensures reg.leaseExpires <= g.validUntil && reg.leaseExpires <= policy.validUntil
    ensures reg.leaseExpires <= reg.reappraisalDeadline
    ensures reg.leaseExpires in {was.admittedAt + q.action.params.leaseSeconds, g.validUntil, policy.validUntil,
                                 reg.policyValidUntil, reg.reappraisalDeadline}
    ensures reg == was.(leaseExpires := reg.leaseExpires, policyValidUntil := reg.policyValidUntil,
                        reappraisalDeadline := reg.reappraisalDeadline, policyId := reg.policyId)
    ensures match q.action.params.evidence
            case None =>
              && reg == was.(leaseExpires := reg.leaseExpires) && policy.validFrom <= now < policy.validUntil
              && was.profile in policy.profiles && was.policyId == policy.id
            case Some(profile) =>
              && reg.policyValidUntil == policy.validUntil
              && o.appraise(profile, q, policy, now) == Done(Appraisal(reg.reappraisalDeadline, reg.policyId))
  {
    var id := q.action.params.registration;
    was, policy := c.registrations[id], gov.policies[q.action.zone];
    reg := Renewed(o, gov, c, q, g, now).value.0.registrations[id];
  }
}
