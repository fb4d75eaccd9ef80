/** Registrations, challenges, zones and anchors, and what each signed action
    does to them: the operation arms of `mutate` in crates/adns-server/src/service.rs
    with the indexes of limits.rs. */
module Registry {
  import opened Basics
  import opened Names
  import opened Records
  import opened App
  import Contributions
  import Anchors
  import Seqs

  const MAX_ACTIVE_REGISTRATIONS := 1024
  const MAX_ACME_CHALLENGES := 1024
  const SERIALS := 0x1_0000_0000
  const MAX_TTL := 0xffff_ffff

  datatype Status = Active | Withdrawn | Expired

  datatype Registration = Registration(
    id: string, grantId: string, zone: string, signer: string, host: string, profile: string,
    admittedAt: int, leaseExpires: int, policyValidUntil: int, reappraisalDeadline: int, policyId: string,
    status: Status, ports: seq<int>)

  datatype Challenge = Challenge(
    id: string, grantId: string, registration: string, zone: string, name: string, signer: string, expiresAt: int)

  datatype Zone = Zone(
    origin: Name, rows: Contributions.Rows, serial: int, validity: int, refreshBefore: int, expiration: int)

  datatype Grant = Grant(
    id: string, validFrom: int, validUntil: int, revoked: bool, subject: string, zones: set<string>,
    acmeNames: set<string>, mayChallenge: bool)

  datatype Policy = Policy(id: string, validFrom: int, validUntil: int, profiles: set<string>)

  datatype Core = Core(
    registrations: map<string, Registration>, active: set<string>, activeCount: int,
    challenges: map<string, Challenge>, zones: map<string, Zone>, anchors: Anchors.Table)

  /** What governance decides; requests only read it. */
  datatype Governance = Governance(grants: map<string, Grant>, policies: map<string, Policy>)

  /** One change of an operator's record set; the tag names owner and type. */
  datatype Edit =
    | Erase(tag: string, owner: Name)
    | Put(tag: string, record: RR)
    | Malformed

  datatype Params =
    | Register(host: string, profile: string, leaseSeconds: int, ports: seq<int>, records: seq<RR>)
    | Renew(registration: string, leaseSeconds: int, evidence: Option<string>)
    | Deregister(registration: string, withdrawAll: bool, ports: seq<int>)
    | SetAnchor(proposal: Anchors.Proposal)
    | ChallengeCreate(registration: string, name: string, lifetime: int, record: RR)
    | ChallengeDelete(challenge: string)
    | Operator(expectedSerial: int, edits: seq<Edit>)

  datatype Action = Action(grantId: string, requestId: string, zone: string, params: Params)

  datatype Appraisal = Appraisal(validUntil: int, policyId: string)

  /** What the action's arm needs of a verified request. */
  datatype Caller = Caller(action: Action, signer: string, digest: string)

  /** Library code, cryptography and DNSSEC signing. */
  datatype Oracle = Oracle(
    size: Contributions.Size,
    inScope: (Registration, Grant) -> bool,
    grantOk: Grant -> bool,
    appraise: (string, Caller, Policy, int) -> Outcome<Appraisal>,
    leaseOk: int -> bool,
    owners: (Registration, seq<int>) -> seq<Name>,
    sign: (Zone, int) -> Outcome<()>)

  /** The body of a committed result. */
  datatype Body = Body(target: string, until: int, serial: int, anchor: Option<Anchors.Anchor>)

  function Take(s: string, n: nat): string { if n <= |s| then s[..n] else s }

  function Min(a: int, b: int): int { if a < b then a else b }

  // ----- Authority -----

  predicate PolicyCurrent(p: Policy, r: Registration, now: int) {
    p.validFrom <= now < p.validUntil && r.profile in p.profiles && p.id == r.policyId
  }

  /** `registration_authority_invalid`. */
  predicate AuthorityInvalid(o: Oracle, gov: Governance, r: Registration, now: int) {
    || r.grantId !in gov.grants
    || (var g := gov.grants[r.grantId];
        || g.revoked || !(g.validFrom <= now < g.validUntil) || g.subject != r.signer || r.zone !in g.zones
        || !o.inScope(r, g))
    || r.zone !in gov.policies
    || !PolicyCurrent(gov.policies[r.zone], r, now)
  }

  predicate Lapsed(o: Oracle, gov: Governance, r: Registration, now: int) {
    r.leaseExpires <= now || r.reappraisalDeadline <= now || AuthorityInvalid(o, gov, r, now)
  }

  /** `active_registration`. */
  function ActiveRegistration(o: Oracle, gov: Governance, c: Core, id: string, now: int): Outcome<Registration> {
    if id !in c.registrations then Refused(MissingTarget)
    else if c.registrations[id].status != Active || Lapsed(o, gov, c.registrations[id], now) then Refused(Conflict)
    else Done(c.registrations[id])
  }

  /** `authorize_registration_target`. */
  predicate Owns(q: Caller, r: Registration) {
    q.action.grantId == r.grantId && q.action.zone == r.zone && q.signer == r.signer
  }

  /** `bounded_lease_expiration`. */
  function Lease(o: Oracle, from: int, seconds: int, grantUntil: int, policyUntil: int, deadline: int): Outcome<int> {
    if !o.leaseOk(seconds) || from + seconds > MAX_SAFE_INTEGER then Refused(Denied)
    else if grantUntil > MAX_SAFE_INTEGER || policyUntil > MAX_SAFE_INTEGER
         || deadline > MAX_SAFE_INTEGER then Refused(Denied)
    else
      var until := Min(Min(from + seconds, grantUntil), Min(policyUntil, deadline));
      if until <= from then Refused(Denied) else Done(until)
  }

  // ----- Zones -----

  function WithRows(c: Core, zone: string, rows: Contributions.Rows): Core
    requires zone in c.zones
  {
    c.(zones := c.zones[zone := c.zones[zone].(rows := rows)])
  }

  ghost function Without(o: Oracle, c: Core, zone: string, sel: Contributions.Selection): Core
    requires zone in c.zones
  {
    WithRows(c, zone, Contributions.Removed(o.size, sel, c.zones[zone].rows))
  }

  /** `resign_zone`: a new serial and a full validity period, unless signing fails. */
  function Resigned(o: Oracle, z: Zone, now: int): Outcome<Zone> {
    match o.sign(z, now)
    case Refused(e) => Refused(e)
    case Done(_) => Done(z.(serial := (z.serial + 1) % SERIALS, expiration := now + z.validity))
  }

  function Shortened(records: seq<RR>, limit: int): (r: seq<RR>)
    ensures |r| == |records|
  {
    if records == [] then []
    else
      var last := records[|records| - 1];
      Shortened(records[..|records| - 1], limit) + [last.(ttl := Min(last.ttl, Min(limit, MAX_TTL)))]
  }

  // ----- The arms -----

  function Registered(o: Oracle, gov: Governance, c: Core, q: Caller, g: Grant, now: int): Outcome<(Core, Body, bool)>
    requires q.action.params.Register? && q.action.zone in c.zones
  {
    var p := q.action.params;
    if c.activeCount >= MAX_ACTIVE_REGISTRATIONS then Refused(Limit)
    else if q.action.zone !in gov.policies then Refused(NotFound)
    else
      var policy := gov.policies[q.action.zone];
      var appraisal :- o.appraise(p.profile, q, policy, now);
      var id := "reg-" + Take(q.digest, 32);
      if id in c.registrations then Refused(Conflict)
      else
        var lease :- Lease(o, now, p.leaseSeconds, g.validUntil, policy.validUntil, appraisal.validUntil);
        var z := c.zones[q.action.zone];
        var rows :- Contributions.AddedAll(o.size, z.origin, z.rows, id, Shortened(p.records, lease - now));
        var r := Registration(id, g.id, q.action.zone, q.signer, p.host, p.profile, now, lease, policy.validUntil,
                              appraisal.validUntil, appraisal.policyId, Active, p.ports);
        Done((Admitted(c, rows, r), Body(id, lease, 0, None), true))
  }

  /** The new registration, its index entry and its records. */
  function Admitted(c: Core, rows: Contributions.Rows, r: Registration): Core
    requires r.zone in c.zones
  {
    WithRows(c, r.zone, rows).(registrations := c.registrations[r.id := r], active := c.active + {r.id},
                               activeCount := c.activeCount + 1)
  }

  /** Fresh evidence is appraised; without it the old appraisal must still stand. */
  function Reappraised(o: Oracle, r: Registration, q: Caller, policy: Policy, now: int): (n: Outcome<Registration>)
    requires q.action.params.Renew?
    ensures n.Done? ==> n.value.id == r.id && n.value.zone == r.zone && n.value.status == r.status
  {
    match q.action.params.evidence
    case Some(profile) =>
      var a :- o.appraise(profile, q, policy, now);
      Done(r.(policyValidUntil := policy.validUntil, reappraisalDeadline := a.validUntil, policyId := a.policyId))
    case None => if PolicyCurrent(policy, r, now) then Done(r) else Refused(Conflict)
  }

  function Renewed(o: Oracle, gov: Governance, c: Core, q: Caller, g: Grant, now: int): Outcome<(Core, Body, bool)>
    requires q.action.params.Renew?
  {
    var p := q.action.params;
    if p.registration !in c.registrations then Refused(MissingTarget)
    else
      var r := c.registrations[p.registration];
      if r.status != Active || r.leaseExpires <= now then Refused(Conflict)
      else if !Owns(q, r) || !o.inScope(r, g) then Refused(Denied)
      else if q.action.zone !in gov.policies then Refused(NotFound)
      else
        var policy := gov.policies[q.action.zone];
        var n :- Reappraised(o, r, q, policy, now);
        var lease :- Lease(o, r.admittedAt, p.leaseSeconds, g.validUntil, Min(n.policyValidUntil, policy.validUntil),
                           n.reappraisalDeadline);
        if lease <= now then Refused(Conflict)
        else Done((c.(registrations := c.registrations[p.registration := n.(leaseExpires := lease)]),
                   Body(r.id, lease, 0, None), false))
  }

  function Unselected(ports: seq<int>, selected: seq<int>): seq<int> {
    if ports == [] then []
    else
      var front := Unselected(ports[..|ports| - 1], selected);
      if ports[|ports| - 1] in selected then front else front + [ports[|ports| - 1]]
  }

  ghost function Deregistered(o: Oracle, c: Core, q: Caller): Outcome<(Core, Body, bool)>
    requires q.action.params.Deregister? && q.action.zone in c.zones
  {
    var p := q.action.params;
    if p.registration !in c.registrations then Refused(MissingTarget)
    else
      var r := c.registrations[p.registration];
      if !Owns(q, r) then Refused(Denied)
      else if p.withdrawAll then
        var next := Without(o, c, q.action.zone, Contributions.Of(r.id, None));
        var index := if r.status == Active then (c.active - {r.id}, c.activeCount - 1) else (c.active, c.activeCount);
        Done((next.(registrations := c.registrations[r.id := r.(status := Withdrawn, ports := [])],
                    active := index.0, activeCount := index.1),
              Body(r.id, 0, 0, None), next.zones != c.zones))
      else if exists port :: port in p.ports && port !in r.ports then Refused(Invalid)
      else
        var next := Without(o, c, q.action.zone, Contributions.Of(r.id, Some(o.owners(r, p.ports))));
        Done((next.(registrations := c.registrations[r.id := r.(ports := Unselected(r.ports, p.ports))]),
              Body(r.id, 0, 0, None), next.zones != c.zones))
  }

  function AnchorSet(o: Oracle, gov: Governance, c: Core, q: Caller, now: int): Outcome<(Core, Body, bool)>
    requires q.action.params.SetAnchor?
  {
    var p := q.action.params.proposal;
    var r :- ActiveRegistration(o, gov, c, p.registration, now);
    if !Owns(q, r) || !Anchors.IsIdentifier(p.registration) || !Anchors.IsIdentifier(p.subject) then Refused(Denied)
    else
      var a :- Anchors.Anchored(c.anchors, p, r.grantId, r.zone, now);
      Done((c.(anchors := a.0), Body(p.registration, 0, 0, Some(a.1)), false))
  }

  function ChallengeCreated(o: Oracle, gov: Governance, c: Core, q: Caller, g: Grant, now: int)
    : Outcome<(Core, Body, bool)>
    requires q.action.params.ChallengeCreate? && q.action.zone in c.zones
  {
    var p := q.action.params;
    if |c.challenges| >= MAX_ACME_CHALLENGES then Refused(Limit)
    else
      var r :- ActiveRegistration(o, gov, c, p.registration, now);
      if q.action.zone != r.zone || p.name != r.host then Refused(Denied)
      else
        var id := "chal-" + Take(q.digest, 32);
        var until := Min(Min(now + p.lifetime, g.validUntil), r.leaseExpires);
        if until <= now then Refused(Invalid)
        else
          var z := c.zones[q.action.zone];
          var record := p.record.(ttl := Min(p.record.ttl, Min(until - now, MAX_TTL)));
          var rows :- Contributions.Added(o.size, z.origin, z.rows, id, record);
          Done((Challenged(c, rows, Challenge(id, g.id, r.id, q.action.zone, p.name, q.signer, until)),
                Body(id, until, 0, None), true))
  }

  /** The new challenge and its record. */
  function Challenged(c: Core, rows: Contributions.Rows, ch: Challenge): Core
    requires ch.zone in c.zones
  {
    WithRows(c, ch.zone, rows).(challenges := c.challenges[ch.id := ch])
  }

  ghost function ChallengeDeleted(o: Oracle, c: Core, q: Caller): Outcome<(Core, Body, bool)>
    requires q.action.params.ChallengeDelete? && q.action.zone in c.zones
  {
    var id := q.action.params.challenge;
    if id !in c.challenges then Refused(MissingTarget)
    else
      var ch := c.challenges[id];
      if q.action.grantId != ch.grantId || q.action.zone != ch.zone || ch.signer != q.signer then Refused(Denied)
      else
        var next := Without(o, c, q.action.zone, Contributions.Of(ch.id, None));
        Done((next.(challenges := c.challenges - {ch.id}), Body(ch.id, 0, 0, None), next.zones != c.zones))
  }

  /** Who contributes the records a grant's operator publishes. */
  function OperatorId(grantId: string, tag: string): string { "operator:" + grantId + ":" + tag }

  ghost function Edited(o: Oracle, origin: Name, grantId: string, rows: Contributions.Rows,
          edits: seq<Edit>): Outcome<Contributions.Rows> {
    if edits == [] then Done(rows)
    else
      var front :- Edited(o, origin, grantId, rows, edits[..|edits| - 1]);
      match edits[|edits| - 1]
      case Erase(tag, owner) =>
        Done(Contributions.Removed(o.size, Contributions.Of(OperatorId(grantId, tag), Some([owner])), front))
      case Put(tag, r) => Contributions.Added(o.size, origin, front, OperatorId(grantId, tag), r)
      case Malformed => Refused(Invalid)
  }

  ghost function OperatorApplied(o: Oracle, c: Core, q: Caller, g: Grant): Outcome<(Core, Body, bool)>
    requires q.action.params.Operator? && q.action.zone in c.zones
  {
    var z := c.zones[q.action.zone];
    if z.serial != q.action.params.expectedSerial then Refused(Conflict)
    else
      var rows :- Edited(o, z.origin, g.id, z.rows, q.action.params.edits);
      Done((WithRows(c, q.action.zone, rows), Body("", 0, 0, None), true))
  }

  /** What the action does, and whether the zone must be signed again. */
  ghost function Performed(o: Oracle, gov: Governance, c: Core, q: Caller, g: Grant, now: int)
    : Outcome<(Core, Body, bool)>
    requires q.action.zone in c.zones
  {
    match q.action.params
    case Register(_, _, _, _, _) => Registered(o, gov, c, q, g, now)
    case Renew(_, _, _) => Renewed(o, gov, c, q, g, now)
    case Deregister(_, _, _) => Deregistered(o, c, q)
    case SetAnchor(_) => AnchorSet(o, gov, c, q, now)
    case ChallengeCreate(_, _, _, _) => ChallengeCreated(o, gov, c, q, g, now)
    case ChallengeDelete(_) => ChallengeDeleted(o, c, q)
    case Operator(_, _) => OperatorApplied(o, c, q, g)
  }

  // ----- What every arm keeps -----

  /** The index holds exactly the active registrations and the counter is its size. */
  ghost predicate IndexExact(registrations: map<string, Registration>, active: set<string>, count: int,
          zones: set<string>) {
    && (forall id :: id in active <==> id in registrations && registrations[id].status == Active)
    && count == |active| <= MAX_ACTIVE_REGISTRATIONS
    && (forall id :: id in registrations ==> registrations[id].id == id && registrations[id].zone in zones)
  }

  ghost predicate ChallengesOk(c: Core) {
    && |c.challenges| <= MAX_ACME_CHALLENGES
    && forall id :: id in c.challenges ==> c.challenges[id].id == id && c.challenges[id].zone in c.zones
  }

  ghost predicate ZoneOk(o: Oracle, z: Zone) {
    Contributions.Valid(o.size, z.rows) && z.refreshBefore < z.validity
  }

  ghost predicate ZonesOk(o: Oracle, c: Core) { forall n :: n in c.zones ==> ZoneOk(o, c.zones[n]) }

  ghost predicate Valid(o: Oracle, c: Core) {
    && IndexExact(c.registrations, c.active, c.activeCount, c.zones.Keys) && ChallengesOk(c) && ZonesOk(o, c)
    && Anchors.Valid(c.anchors)
  }

  lemma {:induction false} EditsKeepValid(o: Oracle, origin: Name, grantId: string, rows: Contributions.Rows,
          edits: seq<Edit>)
    requires Contributions.Valid(o.size, rows) && Edited(o, origin, grantId, rows, edits).Done?
    ensures Contributions.Valid(o.size, Edited(o, origin, grantId, rows, edits).value)
  {
    hide Contributions.Valid, Contributions.Added, Contributions.Removed;
    if edits != [] {
      var front := edits[..|edits| - 1];
      EditsKeepValid(o, origin, grantId, rows, front);
      var f := Edited(o, origin, grantId, rows, front).value;
      match edits[|edits| - 1]
      case Erase(tag, owner) =>
        Contributions.RemoveKeepsValid(o.size, Contributions.Of(OperatorId(grantId, tag), Some([owner])), f);
      case Put(tag, r) => Contributions.AddKeepsValid(o.size, origin, f, OperatorId(grantId, tag), r);
      case Malformed =>
    }
  }

  /** Replacing the rows of one zone by valid rows. */
  lemma RowsReplaced(o: Oracle, c: Core, zone: string, rows: Contributions.Rows)
    requires ZonesOk(o, c) && zone in c.zones && Contributions.Valid(o.size, rows)
    ensures ZonesOk(o, WithRows(c, zone, rows)) && WithRows(c, zone, rows).zones.Keys == c.zones.Keys
  {
    hide Contributions.Valid;
  }

  lemma AdmitKeepsValid(o: Oracle, c: Core, rows: Contributions.Rows, r: Registration)
    requires Valid(o, c) && r.zone in c.zones && Contributions.Valid(o.size, rows)
    requires r.id !in c.registrations && r.status == Active && c.activeCount < MAX_ACTIVE_REGISTRATIONS
    ensures Valid(o, Admitted(c, rows, r)) && Admitted(c, rows, r).zones.Keys == c.zones.Keys
  {
    hide Contributions.Valid, Anchors.Valid, ZonesOk, IndexExact;
    RowsReplaced(o, c, r.zone, rows);
    SameZones(o, WithRows(c, r.zone, rows), Admitted(c, rows, r));
    IndexAdmits(c.registrations, c.active, c.activeCount, c.zones.Keys, r);
  }

  lemma IndexAdmits(registrations: map<string, Registration>, active: set<string>, count: int, zones: set<string>,
          r: Registration)
    requires IndexExact(registrations, active, count, zones) && r.zone in zones
    requires r.id !in registrations && r.status == Active && count < MAX_ACTIVE_REGISTRATIONS
    ensures IndexExact(registrations[r.id := r], active + {r.id}, count + 1, zones)
  {
    assert r.id !in active;
  }

  lemma RegisterKeepsValid(o: Oracle, gov: Governance, c: Core, q: Caller, g: Grant, now: int)
    requires Valid(o, c) && q.action.params.Register? && q.action.zone in c.zones
    requires Registered(o, gov, c, q, g, now).Done?
    ensures var c' := Registered(o, gov, c, q, g, now).value.0; Valid(o, c') && c'.zones.Keys == c.zones.Keys
  {
    hide Contributions.Valid, Contributions.AddedAll, Anchors.Valid, Lease, IndexExact, ChallengesOk, ZonesOk, Take,
         Shortened, Admitted;
    var p, z := q.action.params, c.zones[q.action.zone];
    var policy := gov.policies[q.action.zone];
    var a := o.appraise(p.profile, q, policy, now).value;
    var lease := Lease(o, now, p.leaseSeconds, g.validUntil, policy.validUntil, a.validUntil).value;
    var id := "reg-" + Take(q.digest, 32);
    var records := Shortened(p.records, lease - now);
    ZoneIsOk(o, c, q.action.zone);
    Contributions.AddAllKeepsValid(o.size, z.origin, z.rows, id, records);
    var rows := Contributions.AddedAll(o.size, z.origin, z.rows, id, records).value;
    AdmitKeepsValid(o, c, rows,
                    Registration(id, g.id, q.action.zone, q.signer, p.host, p.profile, now, lease, policy.validUntil,
                                 a.validUntil, a.policyId, Active, p.ports));
  }

  lemma ZoneIsOk(o: Oracle, c: Core, zone: string)
    requires ZonesOk(o, c) && zone in c.zones
    ensures Contributions.Valid(o.size, c.zones[zone].rows)
  {
  }

  lemma SameZones(o: Oracle, c: Core, d: Core)
    requires ZonesOk(o, c) && d.zones == c.zones
    ensures ZonesOk(o, d)
  {
  }

  lemma RenewKeepsValid(o: Oracle, gov: Governance, c: Core, q: Caller, g: Grant, now: int)
    requires Valid(o, c) && q.action.params.Renew? && Renewed(o, gov, c, q, g, now).Done?
    ensures Valid(o, Renewed(o, gov, c, q, g, now).value.0) && Renewed(o, gov, c, q, g, now).value.0.zones == c.zones
  {
    hide Anchors.Valid, Lease, ZonesOk, PolicyCurrent;
    SameZones(o, c, Renewed(o, gov, c, q, g, now).value.0);
  }

  /** A registration that stays in its state, or leaves the active ones with its index entry. */
  lemma IndexReplaces(registrations: map<string, Registration>, active: set<string>, count: int, zones: set<string>,
          r: Registration)
    requires IndexExact(registrations, active, count, zones) && r.id in registrations && r.zone in zones
    requires r.status == Active ==> registrations[r.id].status == Active
    ensures if registrations[r.id].status == Active && r.status != Active
            then IndexExact(registrations[r.id := r], active - {r.id}, count - 1, zones)
            else IndexExact(registrations[r.id := r], active, count, zones)
  {
  }

  lemma WithoutKeepsValid(o: Oracle, c: Core, zone: string, sel: Contributions.Selection)
    requires ZonesOk(o, c) && zone in c.zones
    ensures ZonesOk(o, Without(o, c, zone, sel)) && Without(o, c, zone, sel).zones.Keys == c.zones.Keys
  {
    hide Contributions.Valid, Contributions.Removed, ZonesOk;
    ZoneIsOk(o, c, zone);
    Contributions.RemoveKeepsValid(o.size, sel, c.zones[zone].rows);
    RowsReplaced(o, c, zone, Contributions.Removed(o.size, sel, c.zones[zone].rows));
  }

  lemma DeregisterKeepsValid(o: Oracle, c: Core, q: Caller)
    requires Valid(o, c) && q.action.params.Deregister? && q.action.zone in c.zones && Deregistered(o, c, q).Done?
    ensures var c' := Deregistered(o, c, q).value.0; Valid(o, c') && c'.zones.Keys == c.zones.Keys
  {
    hide Contributions.Removed, Anchors.Valid, ZonesOk, IndexExact, Unselected, Without;
    var p := q.action.params;
    var r := c.registrations[p.registration];
    RegistrationFacts(c, p.registration);
    var sel := if p.withdrawAll then Contributions.Of(r.id, None)
               else Contributions.Of(r.id, Some(o.owners(r, p.ports)));
    WithoutKeepsValid(o, c, q.action.zone, sel);
    WithoutFrame(o, c, q.action.zone, sel);
    var next := if p.withdrawAll then r.(status := Withdrawn, ports := [])
                else r.(ports := Unselected(r.ports, p.ports));
    IndexReplaces(c.registrations, c.active, c.activeCount, c.zones.Keys, next);
    SameZones(o, Without(o, c, q.action.zone, sel), Deregistered(o, c, q).value.0);
  }

  lemma RegistrationFacts(c: Core, id: string)
    requires IndexExact(c.registrations, c.active, c.activeCount, c.zones.Keys) && id in c.registrations
    ensures c.registrations[id].id == id && c.registrations[id].zone in c.zones
  {
  }

  lemma WithoutFrame(o: Oracle, c: Core, zone: string, sel: Contributions.Selection)
    requires zone in c.zones
    ensures Without(o, c, zone, sel) == c.(zones := Without(o, c, zone, sel).zones)
  {
  }

  lemma AnchorKeepsValid(o: Oracle, gov: Governance, c: Core, q: Caller, now: int)
    requires Valid(o, c) && q.action.params.SetAnchor? && AnchorSet(o, gov, c, q, now).Done?
    ensures var c' := AnchorSet(o, gov, c, q, now).value.0; Valid(o, c') && c'.zones.Keys == c.zones.Keys
  {
    hide Anchors.Valid, Anchors.Anchored, Anchors.IsIdentifier, ZonesOk, Lapsed;
    var p := q.action.params.proposal;
    var r := ActiveRegistration(o, gov, c, p.registration, now).value;
    Anchors.AnchorKeepsValid(c.anchors, p, r.grantId, r.zone, now);
    SameZones(o, c, AnchorSet(o, gov, c, q, now).value.0);
  }

  lemma ChallengedKeepsValid(o: Oracle, c: Core, rows: Contributions.Rows, ch: Challenge)
    requires Valid(o, c) && ch.zone in c.zones && Contributions.Valid(o.size, rows)
    requires |c.challenges| < MAX_ACME_CHALLENGES
    ensures Valid(o, Challenged(c, rows, ch)) && Challenged(c, rows, ch).zones.Keys == c.zones.Keys
  {
    hide Contributions.Valid, Anchors.Valid, ZonesOk, IndexExact, WithRows;
    RowsReplaced(o, c, ch.zone, rows);
    WithRowsFrame(c, ch.zone, rows);
    SameZones(o, WithRows(c, ch.zone, rows), Challenged(c, rows, ch));
    Seqs.SizeAfterPut(c.challenges, ch.id, ch);
  }

  lemma WithRowsFrame(c: Core, zone: string, rows: Contributions.Rows)
    requires zone in c.zones
    ensures WithRows(c, zone, rows) == c.(zones := WithRows(c, zone, rows).zones)
  {
  }

  lemma ChallengeCreateKeepsValid(o: Oracle, gov: Governance, c: Core, q: Caller, g: Grant, now: int)
    requires Valid(o, c) && q.action.params.ChallengeCreate? && q.action.zone in c.zones
    requires ChallengeCreated(o, gov, c, q, g, now).Done?
    ensures var c' := ChallengeCreated(o, gov, c, q, g, now).value.0; Valid(o, c') && c'.zones.Keys == c.zones.Keys
  {
    hide Contributions.Valid, Contributions.Added, Anchors.Valid, IndexExact, ChallengesOk, ZonesOk, Take, Lapsed,
         Challenged;
    var p, z := q.action.params, c.zones[q.action.zone];
    var r := ActiveRegistration(o, gov, c, p.registration, now).value;
    var until := Min(Min(now + p.lifetime, g.validUntil), r.leaseExpires);
    var record := p.record.(ttl := Min(p.record.ttl, Min(until - now, MAX_TTL)));
    var id := "chal-" + Take(q.digest, 32);
    ZoneIsOk(o, c, q.action.zone);
    Contributions.AddKeepsValid(o.size, z.origin, z.rows, id, record);
    ChallengedKeepsValid(o, c, Contributions.Added(o.size, z.origin, z.rows, id, record).value,
                         Challenge(id, g.id, r.id, q.action.zone, p.name, q.signer, until));
  }

  lemma ChallengeDeleteKeepsValid(o: Oracle, c: Core, q: Caller)
    requires Valid(o, c) && q.action.params.ChallengeDelete? && q.action.zone in c.zones
    requires ChallengeDeleted(o, c, q).Done?
    ensures var c' := ChallengeDeleted(o, c, q).value.0; Valid(o, c') && c'.zones.Keys == c.zones.Keys
  {
    hide Contributions.Removed, Anchors.Valid, ZonesOk, IndexExact, Without;
    var ch := c.challenges[q.action.params.challenge];
    var sel := Contributions.Of(ch.id, None);
    WithoutKeepsValid(o, c, q.action.zone, sel);
    WithoutFrame(o, c, q.action.zone, sel);
    SameZones(o, Without(o, c, q.action.zone, sel), ChallengeDeleted(o, c, q).value.0);
    assert (c.challenges - {ch.id}).Keys == c.challenges.Keys - {ch.id};
  }

  lemma OperatorKeepsValid(o: Oracle, c: Core, q: Caller, g: Grant)
    requires Valid(o, c) && q.action.params.Operator? && q.action.zone in c.zones && OperatorApplied(o, c, q, g).Done?
    ensures var c' := OperatorApplied(o, c, q, g).value.0; Valid(o, c') && c'.zones.Keys == c.zones.Keys
  {
    hide Contributions.Valid, Edited, Anchors.Valid, ZonesOk;
    var z := c.zones[q.action.zone];
    ZoneIsOk(o, c, q.action.zone);
    EditsKeepValid(o, z.origin, g.id, z.rows, q.action.params.edits);
    RowsReplaced(o, c, q.action.zone, Edited(o, z.origin, g.id, z.rows, q.action.params.edits).value);
  }

  /** Every action keeps the index exact, the usage of every zone true, the
      challenges bounded and the anchor logs valid, and neither adds nor loses a zone. */
  lemma ActionsKeepValid(o: Oracle, gov: Governance, c: Core, q: Caller, g: Grant, now: int)
    requires Valid(o, c) && q.action.zone in c.zones && Performed(o, gov, c, q, g, now).Done?
    ensures var c' := Performed(o, gov, c, q, g, now).value.0;
            Valid(o, c') && c'.zones.Keys == c.zones.Keys
  {
    hide Valid, Registered, Renewed, Deregistered, AnchorSet, ChallengeCreated, ChallengeDeleted, OperatorApplied;
    match q.action.params
    case Register(_, _, _, _, _) => RegisterKeepsValid(o, gov, c, q, g, now);
    case Renew(_, _, _) => RenewKeepsValid(o, gov, c, q, g, now);
    case Deregister(_, _, _) => DeregisterKeepsValid(o, c, q);
    case SetAnchor(_) => AnchorKeepsValid(o, gov, c, q, now);
    case ChallengeCreate(_, _, _, _) => ChallengeCreateKeepsValid(o, gov, c, q, g, now);
    case ChallengeDelete(_) => ChallengeDeleteKeepsValid(o, c, q);
    case Operator(_, _) => OperatorKeepsValid(o, c, q, g);
  }
}
