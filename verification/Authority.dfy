/** Who may act on a registration, and by what a registration changes, over single
    requests and over whole runs: crates/adns-server/src/grants.rs and service.rs. */
module Authority {
  import opened Basics
  import opened App
  import opened Registry
  import opened Service
  import opened ServiceProofs
  import Contributions
  import Anchors

  // ----- Standing -----

  /** Neither the lease nor the appraisal of the registration has run out, and its
      grant and its zone's policy are current and still cover it. */
  predicate Stands(o: Oracle, gov: Governance, r: Registration, now: int) {
    && now < r.leaseExpires && now < r.reappraisalDeadline && Covered(o, gov, r, now)
  }

  predicate Covered(o: Oracle, gov: Governance, r: Registration, now: int) {
    && r.grantId in gov.grants && r.zone in gov.policies
    && var g, p := gov.grants[r.grantId], gov.policies[r.zone];
       && !g.revoked && g.validFrom <= now && now < g.validUntil && g.subject == r.signer && r.zone in g.zones
       && o.inScope(r, g)
       && p.validFrom <= now && now < p.validUntil && r.profile in p.profiles && p.id == r.policyId
  }

  lemma LapsedIff(o: Oracle, gov: Governance, r: Registration, now: int)
    ensures Lapsed(o, gov, r, now) <==> !Stands(o, gov, r, now)
    ensures AuthorityInvalid(o, gov, r, now) <==> !Covered(o, gov, r, now)
  {
  }

  /** A challenge that has not expired, under a current grant that still allows it,
      for an active registration of its zone and host that has not run out. */
  predicate ChallengeStands(o: Oracle, gov: Governance, registrations: map<string, Registration>, c: Challenge,
          now: int) {
    && now < c.expiresAt && c.grantId in gov.grants && c.registration in registrations
    && var g, r := gov.grants[c.grantId], registrations[c.registration];
       && o.grantOk(g) && !g.revoked && g.validFrom <= now && now < g.validUntil && g.subject == c.signer
       && c.zone in g.zones && c.name in g.acmeNames && g.mayChallenge
       && r.status == Active && now < r.leaseExpires && now < r.reappraisalDeadline
       && r.zone == c.zone && r.host == c.name
  }

  lemma DeadIff(o: Oracle, gov: Governance, registrations: map<string, Registration>, c: Challenge, now: int)
    ensures ChallengeDead(o, gov, registrations, c, now) <==> !ChallengeStands(o, gov, registrations, c, now)
  {
  }

  // ----- One request -----

  /** The registration an action is about. */
  predicate ActsOn(p: Params, id: string) {
    || (p.Renew? && p.registration == id)
    || (p.Deregister? && p.registration == id)
    || (p.SetAnchor? && p.proposal.registration == id)
  }

  /** Renewals, withdrawals and anchors succeed only for the grant, the zone and
      the signer of the registration they name; deletions likewise for a challenge. */
  lemma OnlyTheOwnerActs(o: Oracle, gov: Governance, c: Core, q: Caller, g: Grant, now: int, id: string)
    requires q.action.zone in c.zones && Performed(o, gov, c, q, g, now).Done?
    ensures ActsOn(q.action.params, id) ==>
              && id in c.registrations
              && var r := c.registrations[id];
                 r.grantId == q.action.grantId && r.zone == q.action.zone && r.signer == q.signer
    ensures q.action.params.ChallengeDelete? && q.action.params.challenge == id ==>
              && id in c.challenges
              && var ch := c.challenges[id];
                 ch.grantId == q.action.grantId && ch.zone == q.action.zone && ch.signer == q.signer
  {
    hide Contributions.Added, Contributions.AddedAll, Contributions.Removed, Take, Lapsed, Lease, PolicyCurrent,
         Anchors.Anchored, Anchors.IsIdentifier, Edited, Shortened, Unselected, Reappraised, Registered,
         ChallengeCreated, OperatorApplied;
  }

  /** A renewal needs a registration that is active and within its lease and scope,
      an anchor or a challenge one that stands; a challenge is for its zone and host. */
  lemma OnlyLiveRegistrationsAct(o: Oracle, gov: Governance, c: Core, q: Caller, g: Grant, now: int)
    requires q.action.zone in c.zones && Performed(o, gov, c, q, g, now).Done?
    ensures q.action.params.Renew? ==>
              && q.action.params.registration in c.registrations
              && var r := c.registrations[q.action.params.registration];
                 r.status == Active && now < r.leaseExpires && o.inScope(r, g)
    ensures q.action.params.SetAnchor? ==>
              && q.action.params.proposal.registration in c.registrations
              && var r := c.registrations[q.action.params.proposal.registration];
                 r.status == Active && Stands(o, gov, r, now)
    ensures q.action.params.ChallengeCreate? ==>
              && q.action.params.registration in c.registrations
              && var r := c.registrations[q.action.params.registration];
                 && r.status == Active && Stands(o, gov, r, now)
                 && r.zone == q.action.zone && r.host == q.action.params.name
  {
    hide Contributions.Added, Contributions.AddedAll, Contributions.Removed, Take, Lapsed, Lease, PolicyCurrent,
         Anchors.Anchored, Anchors.IsIdentifier, Edited, Shortened, Unselected, Reappraised, Registered,
         OperatorApplied, Deregistered, ChallengeDeleted, Stands;
    forall r ensures Lapsed(o, gov, r, now) <==> !Stands(o, gov, r, now) { LapsedIff(o, gov, r, now); }
  }

  ghost function CallerOf(q: Signed): Caller { Caller(q.action, q.signer, q.digest) }

  /** A stored nonce of this epoch, unused, issued five minutes before it runs out,
      for this very request: same nonce, end, grant, request id and intent. */
  ghost predicate HoldsNonce(ch: Checks, db: Db, q: Signed, now: int) {
    && db.config.Some? && (db.config.value.epoch, q.nonce) in db.nonces
    && var n := db.nonces[(db.config.value.epoch, q.nonce)];
       && !n.consumed && n.issuedAt <= now && now < n.expiresAt && n.expiresAt == n.issuedAt + 300
       && n.expiresAt <= 0x1f_ffff_ffff_ffff && n.nonce == q.nonce && n.expiresAt == q.expiresAt
       && n.grantId == q.action.grantId && n.requestId == q.action.requestId
       && n.intent == q.intent && n.intent == ch.intentOf(q.action)
  }

  /** The grant the action names, as governance stores it. */
  ghost predicate GrantedTo(ch: Checks, db: Db, action: Action, g: Grant, now: int) {
    && db.config.Some? && action.grantId in db.gov.grants && g == db.gov.grants[action.grantId]
    && g.id == action.grantId && ch.authorize(action, g, db.config.value.audience, now)
    && action.zone in db.core.zones
  }

  /** Exactly when a step performs a signed request: the clock has not gone back,
      route and signature are right, the id is new, the nonce fits, the grant
      authorizes it and the action succeeds. */
  lemma PerformsIff(o: Oracle, ch: Checks, db: Db, q: Signed, now: int)
    ensures Performs(o, ch, db, Request(Send(q), now), KeyOf(q))
            <==> && db.config.Some? && db.config.value.lastTime <= now
                 && q.routeOk && q.verified && (q.action.grantId, q.action.requestId) !in db.results
                 && HoldsNonce(ch, db, q, now)
                 && exists g :: GrantedTo(ch, db, q.action, g, now) && PerformedAndSigned(o, db, q, g, now).Done?
  {
    hide PerformedAndSigned, LiveNonces, LiveAttempts, OfGrant;
    if db.config.Some? && AuthorizedGrant(ch, db, db.config.value, q.action, now).Done? {
      var g := AuthorizedGrant(ch, db, db.config.value, q.action, now).value;
      assert GrantedTo(ch, db, q.action, g, now);
    }
  }

  /** A rejection is recorded exactly for a signed request that holds its nonce and has
      no result yet, when the reason is the caller's: not a missing grant, zone or
      configuration, and not a failure of cryptography or of the service. */
  lemma RejectionRecordedIff(o: Oracle, ch: Checks, db: Db, input: Input, now: int)
    ensures var e, r := Mutated(o, ch, db, input, now), Observed(o, ch, db, input, now).1;
            r.Done? && r.value.Rejected?
            <==> && e.Refused? && e.reason in {Invalid, MissingTarget, Conflict, Denied, Limit, Unappraised}
                 && db.config.Some? && db.config.value.lastTime <= now && input.Send?
                 && var q := input.request;
                    && q.routeOk && q.verified && (q.action.grantId, q.action.requestId) !in db.results
                    && HoldsNonce(ch, db, q, now)
    ensures var e, r := Mutated(o, ch, db, input, now), Observed(o, ch, db, input, now).1;
            r.Done? && r.value.Rejected? ==>
              e.Refused? && r.value.attempt.error == e.reason && r.value.attempt.failedAt == now
  {
    hide PerformedAndSigned, LiveNonces, LiveAttempts, OfGrant, AuthorizedGrant;
  }

  predicate IsLive(db: Db, k: NonceKey, now: int)
    requires db.config.Some?
  {
    && k in db.nonces && now < db.nonces[k].expiresAt && !db.nonces[k].consumed
    && k == (db.config.value.epoch, db.nonces[k].nonce)
  }

  function LiveKeys(db: Db, now: int): set<NonceKey>
    requires db.config.Some?
  {
    set k | k in db.nonces && IsLive(db, k, now)
  }

  lemma LiveAre(db: Db, now: int)
    requires db.config.Some?
    ensures LiveNonces(db.nonces, now, db.config.value.epoch).Keys == LiveKeys(db, now)
    ensures forall g :: OfGrant(LiveNonces(db.nonces, now, db.config.value.epoch), g)
                        == set k | k in LiveKeys(db, now) && db.nonces[k].grantId == g
  {
  }

  /** A nonce is issued exactly to an authorized action while fewer than 4096 nonces
      are live, fewer than 64 of them the grant's, and the one drawn is new. */
  lemma NonceIssuedIff(o: Oracle, ch: Checks, db: Db, action: Action, drawn: Option<string>, now: int)
    ensures Mutated(o, ch, db, AskNonce(action, drawn), now).Done?
            <==> && db.config.Some? && db.config.value.lastTime <= now && drawn.Some?
                 && (exists g :: GrantedTo(ch, db, action, g, now)) && now + 300 <= 0x1f_ffff_ffff_ffff
                 && |LiveKeys(db, now)| < 4096
                 && |set k | k in LiveKeys(db, now) && db.nonces[k].grantId == action.grantId| < 64
                 && (db.config.value.epoch, drawn.value) !in LiveKeys(db, now)
  {
    hide LiveNonces, LiveAttempts, OfGrant, LiveKeys;
    if db.config.Some? {
      LiveAre(db, now);
      var live := LiveNonces(db.nonces, now, db.config.value.epoch);
      assert |live| == |live.Keys|;
      if AuthorizedGrant(ch, db, db.config.value, action, now).Done? {
        assert GrantedTo(ch, db, action, AuthorizedGrant(ch, db, db.config.value, action, now).value, now);
      }
    }
  }

  /** The nonce issued is for this action, from now, for five minutes; it joins the
      live ones, all others go, and nothing but attempts and the clock changes. */
  lemma NonceIssuedIs(o: Oracle, ch: Checks, db: Db, action: Action, drawn: Option<string>, now: int)
    requires Mutated(o, ch, db, AskNonce(action, drawn), now).Done?
    ensures db.config.Some? && drawn.Some?
    ensures var d, k := Mutated(o, ch, db, AskNonce(action, drawn), now).value.0, (db.config.value.epoch, drawn.value);
            var n := Nonce(drawn.value, ch.intentOf(action), action.grantId, action.requestId, now, now + 300, false);
            && Mutated(o, ch, db, AskNonce(action, drawn), now).value.1 == Granted(n)
            && d.nonces.Keys == LiveKeys(db, now) + {k} && d.nonces[k] == n
            && (forall x :: x in LiveKeys(db, now) && x != k ==> d.nonces[x] == db.nonces[x])
            && d == db.(nonces := d.nonces, attempts := d.attempts, config := Some(db.config.value.(lastTime := now)))
  {
    hide LiveAttempts, OfGrant, AuthorizedGrant;
    LiveAre(db, now);
  }

  lemma GrantZone(ch: Checks, db: Db, config: Config, action: Action, now: int)
    requires AuthorizedGrant(ch, db, config, action, now).Done?
    ensures action.zone in db.core.zones
  {
  }

  lemma IdleStep(o: Oracle, ch: Checks, db: Db, e: Event)
    requires e.Request? && !(e.input.Send? && Performs(o, ch, db, e, KeyOf(e.input.request)))
    ensures Next(o, ch, db, e).core == db.core
  {
    hide PerformedAndSigned, NonceFits, AuthorizedGrant, LiveNonces, LiveAttempts, OfGrant;
  }

  /** After a performed request the registry is what the action left, its zone signed
      again if need be; its nonce and attempt are gone, its result is stored under its
      id with its digest, and the clock has moved. */
  lemma PerformedStep(o: Oracle, ch: Checks, db: Db, e: Event) returns (g: Grant)
    requires e.Request? && e.input.Send? && Performs(o, ch, db, e, KeyOf(e.input.request))
    ensures e.input.request.verified && db.config.Some?
    ensures GrantedTo(ch, db, e.input.request.action, g, e.now)
    ensures PerformedAndSigned(o, db, e.input.request, g, e.now).Done?
    ensures var q, done := e.input.request, PerformedAndSigned(o, db, e.input.request, g, e.now).value;
            var k := (db.config.value.epoch, q.nonce);
            Next(o, ch, db, e)
            == db.(core := done.0, nonces := db.nonces - {k}, attempts := db.attempts - {k},
                   results := db.results[(q.action.grantId, q.action.requestId) := ResultRow(q.digest, done.1)],
                   config := Some(db.config.value.(lastTime := e.now)))
  {
    hide PerformedAndSigned, NonceFits;
    g := AuthorizedGrant(ch, db, db.config.value, e.input.request.action, e.now).value;
  }

  // ----- What becomes of a registration -----

  /** Who holds a registration, for what, and since when. */
  predicate SameHolder(a: Registration, b: Registration) {
    && a.id == b.id && a.grantId == b.grantId && a.zone == b.zone && a.signer == b.signer
    && a.host == b.host && a.profile == b.profile && a.admittedAt == b.admittedAt
  }

  /** `d` differs from `c` in the registration `id` only within its holder's rights. */
  ghost predicate Evolves(c: Core, d: Core, id: string) {
    && id in c.registrations && id in d.registrations && SameHolder(c.registrations[id], d.registrations[id])
    && (c.registrations[id].status != Active ==> d.registrations[id].status != Active)
  }

  lemma RenewalOnRegistration(o: Oracle, gov: Governance, c: Core, q: Caller, g: Grant, now: int, id: string)
    requires id in c.registrations && q.action.params.Renew? && Renewed(o, gov, c, q, g, now).Done?
    ensures var d := Renewed(o, gov, c, q, g, now).value.0;
            && Evolves(c, d, id)
            && (d.registrations[id] != c.registrations[id] ==> q.action.params.registration == id)
  {
    hide Lease, PolicyCurrent;
  }

  lemma WithdrawalOnRegistration(o: Oracle, c: Core, q: Caller, id: string)
    requires IndexExact(c.registrations, c.active, c.activeCount, c.zones.Keys) && id in c.registrations
    requires q.action.zone in c.zones && q.action.params.Deregister? && Deregistered(o, c, q).Done?
    ensures var d := Deregistered(o, c, q).value.0;
            && Evolves(c, d, id)
            && (d.registrations[id] != c.registrations[id] ==> q.action.params.registration == id)
  {
    hide Contributions.Removed, Unselected, IndexExact;
    RegistrationFacts(c, q.action.params.registration);
  }

  lemma OthersLeaveRegistrations(o: Oracle, gov: Governance, c: Core, q: Caller, g: Grant, now: int, id: string)
    requires id in c.registrations && q.action.zone in c.zones && Performed(o, gov, c, q, g, now).Done?
    requires !q.action.params.Renew? && !q.action.params.Deregister?
    ensures var d := Performed(o, gov, c, q, g, now).value.0;
            id in d.registrations && d.registrations[id] == c.registrations[id]
  {
    hide Contributions.Added, Contributions.AddedAll, Contributions.Removed, Take, Lease, ActiveRegistration,
         Anchors.Anchored, Anchors.IsIdentifier, Edited, Shortened, Renewed, Deregistered;
  }

  lemma ActionOnRegistration(o: Oracle, gov: Governance, c: Core, q: Caller, g: Grant, now: int, id: string)
    requires IndexExact(c.registrations, c.active, c.activeCount, c.zones.Keys) && id in c.registrations
    requires q.action.zone in c.zones && Performed(o, gov, c, q, g, now).Done?
    ensures var d := Performed(o, gov, c, q, g, now).value.0;
            && Evolves(c, d, id)
            && (d.registrations[id] != c.registrations[id] ==>
                  ActsOn(q.action.params, id) && !q.action.params.SetAnchor?)
  {
    hide Registered, Renewed, Deregistered, AnchorSet, ChallengeCreated, ChallengeDeleted, OperatorApplied, IndexExact;
    match q.action.params
    case Renew(_, _, _) => RenewalOnRegistration(o, gov, c, q, g, now, id);
    case Deregister(_, _, _) => WithdrawalOnRegistration(o, c, q, id);
    case _ => OthersLeaveRegistrations(o, gov, c, q, g, now, id);
  }

  /** A verified request about the registration from its own grant, zone and signer. */
  predicate AskedByHolder(e: Event, id: string, r: Registration) {
    && e.Request? && e.input.Send? && e.input.request.verified
    && var q := e.input.request;
       && (q.action.params.Renew? || q.action.params.Deregister?) && q.action.params.registration == id
       && q.action.grantId == r.grantId && q.action.zone == r.zone && q.signer == r.signer
  }

  /** Maintenance finds an active registration whose lease, appraisal, grant or policy has failed. */
  predicate FailsAt(o: Oracle, db: Db, e: Event, id: string) {
    && e.Maintain? && id in db.core.registrations && db.core.registrations[id].status == Active
    && !Stands(o, db.gov, db.core.registrations[id], e.now)
  }

  /** One step changes a registration only by its holder's request or by maintenance
      that finds it failed, and then it stays or ends, it never passes to another. */
  lemma RegistrationChangesOnlyBy(o: Oracle, ch: Checks, db: Db, e: Event, id: string)
    requires ServiceProofs.Valid(o, db) && id in db.core.registrations
    ensures var r, after := db.core.registrations[id], Next(o, ch, db, e).core.registrations;
            && id in after && SameHolder(r, after[id])
            && (after[id] != r ==> AskedByHolder(e, id, r) || FailsAt(o, db, e, id))
            && (r.status != Active ==> after[id].status != Active)
  {
    hide Observed, Performs, Maintained, MaintenanceCommits, NewZoneOk, EpochInstalled, AskedByHolder, FailsAt,
         ZonesOk, ChallengesOk, Anchors.Valid, NoncesOk, AttemptsOk;
    match e
    case Request(input, now) =>
      if input.Send? && Performs(o, ch, db, e, KeyOf(input.request)) {
        RequestOnRegistration(o, ch, db, e, id);
      } else {
        IdleStep(o, ch, db, e);
      }
    case Maintain(now) =>
      if MaintenanceCommits(o, db, now) {
        MaintenanceOnRegistration(o, db, e, id);
      }
    case Install(config) => InstallKeepsCore(db, config);
    case Govern(gov) =>
    case AddZone(name, zone) =>
  }

  lemma MaintenanceOnRegistration(o: Oracle, db: Db, e: Event, id: string)
    requires e.Maintain? && MaintenanceCommits(o, db, e.now) && id in db.core.registrations
    ensures var r, after := db.core.registrations[id], Maintained(o, db, e.now).0.core.registrations;
            && id in after && SameHolder(r, after[id]) && (after[id] != r ==> FailsAt(o, db, e, id))
            && (r.status != Active ==> after[id].status != Active)
  {
    hide Stands, Lapsed, AuthorityInvalid, ZoneAfter, AllSigned, ChallengesAfter, LiveNonces, LiveAttempts, DirtyZones;
    LapsedIff(o, db.gov, db.core.registrations[id], e.now);
  }

  lemma InstallKeepsCore(db: Db, config: Config)
    ensures EpochInstalled(db, config).Done? ==> EpochInstalled(db, config).value.core == db.core
  {
  }

  lemma RequestOnRegistration(o: Oracle, ch: Checks, db: Db, e: Event, id: string)
    requires IndexExact(db.core.registrations, db.core.active, db.core.activeCount, db.core.zones.Keys)
    requires id in db.core.registrations
    requires e.Request? && e.input.Send? && Performs(o, ch, db, e, KeyOf(e.input.request))
    ensures var r, after := db.core.registrations[id], Next(o, ch, db, e).core.registrations;
            && id in after && SameHolder(r, after[id]) && (after[id] != r ==> AskedByHolder(e, id, r))
            && (r.status != Active ==> after[id].status != Active)
  {
    hide Performed, Performs, IndexExact, Next, Resigned, SameHolder;
    var g := PerformedStep(o, ch, db, e);
    var caller := CallerOf(e.input.request);
    ActionOnRegistration(o, db.gov, db.core, caller, g, e.now, id);
    OnlyTheOwnerActs(o, db.gov, db.core, caller, g, e.now, id);
  }

  /** Over every run a registration keeps its holder, host, profile and admission
      time, and it differs from what it was only if at some step its holder asked
      for it or maintenance found that it had failed. */
  lemma {:induction false} RunsChangeOnlyBy(o: Oracle, ch: Checks, db: Db, run: seq<Event>, id: string)
    requires ServiceProofs.Valid(o, db) && id in db.core.registrations
    ensures var r, after := db.core.registrations[id], After(o, ch, db, run).core.registrations;
            && id in after && SameHolder(r, after[id])
            && (after[id] != r ==>
                  exists i :: 0 <= i < |run| && (|| AskedByHolder(run[i], id, r)
                                                 || FailsAt(o, After(o, ch, db, run[..i]), run[i], id)))
            && (r.status != Active ==> after[id].status != Active)
  {
    hide ServiceProofs.Valid, Next, AskedByHolder, FailsAt, SameHolder;
    var r := db.core.registrations[id];
    if run == [] {
      SameAsItself(r);
    } else {
      var front, e := run[..|run| - 1], run[|run| - 1];
      RunsChangeOnlyBy(o, ch, db, front, id);
      RunsKeepValid(o, ch, db, front);
      var mid := After(o, ch, db, front);
      RegistrationChangesOnlyBy(o, ch, mid, e, id);
      HolderKept(r, mid.core.registrations[id], After(o, ch, db, run).core.registrations[id], e, id);
      if mid.core.registrations[id] != r {
        var i :| 0 <= i < |front| && (|| AskedByHolder(front[i], id, r)
                                      || FailsAt(o, After(o, ch, db, front[..i]), front[i], id));
        assert run[i] == front[i] && run[..i] == front[..i];
      }
    }
  }

  lemma SameAsItself(r: Registration)
    ensures SameHolder(r, r)
  {
  }

  lemma HolderKept(a: Registration, b: Registration, c: Registration, e: Event, id: string)
    requires SameHolder(a, b) && SameHolder(b, c)
    ensures SameHolder(a, c) && (AskedByHolder(e, id, b) <==> AskedByHolder(e, id, a))
  {
  }
}
