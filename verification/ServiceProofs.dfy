/** What holds in every reachable state and over every run of the service. */
module ServiceProofs {
  import opened Basics
  import opened Seqs
  import opened App
  import opened Registry
  import opened Service
  import Contributions
  import Anchors

  // ----- The invariant -----

  ghost predicate NoncesOk(nonces: map<NonceKey, Nonce>) {
    && |nonces| <= MAX_OUTSTANDING_NONCES
    && (forall g :: |OfGrant(nonces, g)| <= MAX_GRANT_NONCES)
    && (forall k :: k in nonces ==> nonces[k].nonce == k.1 && !nonces[k].consumed)
  }

  ghost predicate SameIdentity(a: Attempt, n: Nonce) {
    && a.grantId == n.grantId && a.requestId == n.requestId && a.nonce == n.nonce && a.intent == n.intent
    && a.expiresAt == n.expiresAt
  }

  /** Every failed attempt belongs to a nonce row with the same key and identity. */
  ghost predicate AttemptsOk(attempts: map<NonceKey, Attempt>, nonces: map<NonceKey, Nonce>) {
    forall k :: k in attempts ==> k in nonces && SameIdentity(attempts[k], nonces[k])
  }

  ghost predicate Valid(o: Oracle, db: Db) {
    && Registry.Valid(o, db.core) && |db.core.zones| <= MAX_ZONES
    && NoncesOk(db.nonces) && AttemptsOk(db.attempts, db.nonces)
  }

  /** Fewer rows, none changed. */
  ghost predicate Fewer(a: map<NonceKey, Nonce>, b: map<NonceKey, Nonce>) {
    forall k :: k in a ==> k in b && a[k] == b[k]
  }

  lemma FewerNonces(a: map<NonceKey, Nonce>, b: map<NonceKey, Nonce>)
    requires NoncesOk(b) && Fewer(a, b)
    ensures NoncesOk(a)
  {
    SubsetSize(a.Keys, b.Keys);
    forall g ensures |OfGrant(a, g)| <= MAX_GRANT_NONCES {
      SubsetSize(OfGrant(a, g), OfGrant(b, g));
    }
  }

  lemma IssueKeepsNonces(nonces: map<NonceKey, Nonce>, k: NonceKey, n: Nonce)
    requires NoncesOk(nonces) && k !in nonces && n.nonce == k.1 && !n.consumed
    requires |nonces| < MAX_OUTSTANDING_NONCES && |OfGrant(nonces, n.grantId)| < MAX_GRANT_NONCES
    ensures NoncesOk(nonces[k := n])
  {
    hide OfGrant;
    var more := nonces[k := n];
    assert more.Keys == nonces.Keys + {k};
    forall g ensures |OfGrant(more, g)| <= MAX_GRANT_NONCES {
      OneMoreOfGrant(nonces, k, n, g);
    }
  }

  lemma OneMoreOfGrant(nonces: map<NonceKey, Nonce>, k: NonceKey, n: Nonce, g: string)
    requires k !in nonces
    ensures |OfGrant(nonces[k := n], g)| == |OfGrant(nonces, g)| + (if g == n.grantId then 1 else 0)
  {
    var more := nonces[k := n];
    if g == n.grantId {
      assert OfGrant(more, g) == OfGrant(nonces, g) + {k};
    } else {
      assert OfGrant(more, g) == OfGrant(nonces, g);
    }
  }

  lemma IssuedKeepsValid(o: Oracle, ch: Checks, db: Db, config: Config, action: Action, drawn: Option<string>, now: int)
    requires Valid(o, db) && Issued(ch, db, config, action, drawn, now).Done?
    ensures Valid(o, Issued(ch, db, config, action, drawn, now).value.0)
  {
    hide Registry.Valid, NoncesOk;
    var live := LiveNonces(db.nonces, now, config.epoch);
    FewerNonces(live, db.nonces);
    var n := Nonce(drawn.value, ch.intentOf(action), action.grantId, action.requestId, now, now + NONCE_TTL, false);
    IssueKeepsNonces(live, (config.epoch, n.nonce), n);
  }

  lemma ResignKeepsValid(o: Oracle, c: Core, zone: string, now: int)
    requires Registry.Valid(o, c) && zone in c.zones && Resigned(o, c.zones[zone], now).Done?
    ensures Registry.Valid(o, c.(zones := c.zones[zone := Resigned(o, c.zones[zone], now).value]))
  {
    hide Contributions.Valid, Anchors.Valid;
    assert ZoneOk(o, c.zones[zone]);
    assert c.zones[zone := Resigned(o, c.zones[zone], now).value].Keys == c.zones.Keys;
  }

  lemma PerformedKeepsValid(o: Oracle, db: Db, q: Signed, g: Grant, now: int)
    requires Registry.Valid(o, db.core) && q.action.zone in db.core.zones && PerformedAndSigned(o, db, q, g, now).Done?
    ensures Registry.Valid(o, PerformedAndSigned(o, db, q, g, now).value.0)
    ensures PerformedAndSigned(o, db, q, g, now).value.0.zones.Keys == db.core.zones.Keys
  {
    hide Registry.Valid, Performed, Resigned;
    var caller := Caller(q.action, q.signer, q.digest);
    ActionsKeepValid(o, db.gov, db.core, caller, g, now);
    var r := Performed(o, db.gov, db.core, caller, g, now).value;
    if r.2 {
      ResignKeepsValid(o, r.0, q.action.zone, now);
    }
  }

  lemma SentKeepsValid(o: Oracle, ch: Checks, db: Db, config: Config, q: Signed, now: int)
    requires Valid(o, db) && Sent(o, ch, db, config, q, now).Done?
    ensures Valid(o, Sent(o, ch, db, config, q, now).value.0)
  {
    hide Registry.Valid, NoncesOk, PerformedAndSigned, NonceFits;
    if KeyOf(q) !in db.results {
      var g := AuthorizedGrant(ch, db, config, q.action, now).value;
      PerformedKeepsValid(o, db, q, g, now);
      assert |PerformedAndSigned(o, db, q, g, now).value.0.zones.Keys| == |db.core.zones.Keys|;
      FewerNonces(db.nonces - {(config.epoch, q.nonce)}, db.nonces);
    }
  }

  lemma ObservedKeepsValid(o: Oracle, ch: Checks, db: Db, input: Input, now: int)
    requires Valid(o, db)
    ensures Valid(o, Observed(o, ch, db, input, now).0)
  {
    hide Registry.Valid, NoncesOk, Issued, Sent, NonceFits;
    if Mutated(o, ch, db, input, now).Done? {
      match input
      case AskNonce(action, drawn) => IssuedKeepsValid(o, ch, db, db.config.value, action, drawn, now);
      case Send(q) => SentKeepsValid(o, ch, db, db.config.value, q, now);
      case Unreadable(_) =>
    }
  }

  lemma CleanedKeepsValid(o: Oracle, gov: Governance, c: Core, zone: string, now: int)
    requires zone in c.zones && ZoneOk(o, c.zones[zone]) && ZoneAfter(o, gov, c, zone, now).Done?
    ensures ZoneOk(o, ZoneAfter(o, gov, c, zone, now).value)
  {
    hide Contributions.Valid, Contributions.Removed, Gone, Dirty;
    Contributions.RemoveKeepsValid(o.size, Contributions.OfAny(Gone(o, gov, c, zone, now)), c.zones[zone].rows);
  }

  lemma CoreAfterKeepsValid(o: Oracle, gov: Governance, c: Core, now: int)
    requires Registry.Valid(o, c) && AllSigned(o, gov, c, now)
    ensures Registry.Valid(o, CoreAfter(o, gov, c, now)) && CoreAfter(o, gov, c, now).zones.Keys == c.zones.Keys
  {
    hide Anchors.Valid, ZoneOk, ZoneAfter, ChallengeDead, Lapsed, AuthorityInvalid;
    var c' := CoreAfter(o, gov, c, now);
    SubsetSize(ActiveIds(c'.registrations), c.active);
    SubsetSize(c'.challenges.Keys, c.challenges.Keys);
    forall n | n in c'.zones ensures ZoneOk(o, c'.zones[n]) {
      CleanedKeepsValid(o, gov, c, n, now);
    }
    assert c'.zones.Keys == c.zones.Keys;
  }

  /** Every step keeps the invariant, and so every run. */
  lemma StepKeepsValid(o: Oracle, ch: Checks, db: Db, e: Event)
    requires Valid(o, db)
    ensures Valid(o, Next(o, ch, db, e))
  {
    hide Registry.Valid, NoncesOk, Observed, CoreAfter, AllSigned, NewZoneOk;
    match e
    case Request(input, now) => ObservedKeepsValid(o, ch, db, input, now);
    case Maintain(now) =>
      if MaintenanceCommits(o, db, now) {
        CoreAfterKeepsValid(o, db.gov, db.core, now);
        assert |CoreAfter(o, db.gov, db.core, now).zones.Keys| == |db.core.zones.Keys|;
        FewerNonces(LiveNonces(db.nonces, now, db.config.value.epoch), db.nonces);
      }
    case Install(config) =>
    case Govern(gov) =>
    case AddZone(name, zone) =>
      if name !in db.core.zones && NewZoneOk(o, zone) {
        ZoneAdded(o, db.core, name, zone);
        SizeAfterPut(db.core.zones, name, zone);
      }
  }

  lemma ZoneAdded(o: Oracle, c: Core, name: string, zone: Zone)
    requires Registry.Valid(o, c) && name !in c.zones && NewZoneOk(o, zone)
    ensures Registry.Valid(o, c.(zones := c.zones[name := zone]))
  {
    hide Contributions.Valid, Anchors.Valid;
  }

  lemma {:induction false} RunsKeepValid(o: Oracle, ch: Checks, db: Db, run: seq<Event>)
    requires Valid(o, db)
    ensures Valid(o, After(o, ch, db, run))
  {
    hide Valid, Next;
    if run != [] {
      RunsKeepValid(o, ch, db, run[..|run| - 1]);
      StepKeepsValid(o, ch, After(o, ch, db, run[..|run| - 1]), run[|run| - 1]);
    }
  }

  // ----- At most once -----

  /** Once a request id has its result, a signed message under that id changes
      no table: the identical message gets the stored body back, any other is refused. */
  lemma RetryChangesNothing(o: Oracle, ch: Checks, db: Db, q: Signed, now: int)
    requires KeyOf(q) in db.results
    ensures Observed(o, ch, db, Send(q), now).0 == db
    ensures db.config.Some? && db.config.value.lastTime <= now && q.routeOk && q.verified ==>
              Observed(o, ch, db, Send(q), now).1 ==
                if q.digest == db.results[KeyOf(q)].digest then Done(Committed(db.results[KeyOf(q)].body, true))
                else Refused(Conflict)
  {
    hide PerformedAndSigned, NonceFits, AuthorizedGrant;
  }

  /** A result row, once written, is never changed. */
  ghost predicate ResultsKept(a: Db, b: Db) {
    forall k :: k in a.results ==> k in b.results && b.results[k] == a.results[k]
  }

  lemma StepKeepsResults(o: Oracle, ch: Checks, db: Db, e: Event)
    ensures ResultsKept(db, Next(o, ch, db, e))
  {
    hide PerformedAndSigned, NonceFits, AuthorizedGrant, LiveNonces, LiveAttempts, AllSigned, CoreAfter, DirtyZones;
  }

  lemma {:induction false} RunsKeepResults(o: Oracle, ch: Checks, db: Db, run: seq<Event>)
    ensures ResultsKept(db, After(o, ch, db, run))
  {
    hide Next;
    if run != [] {
      RunsKeepResults(o, ch, db, run[..|run| - 1]);
      StepKeepsResults(o, ch, After(o, ch, db, run[..|run| - 1]), run[|run| - 1]);
    }
  }

  /** The step performs the action of `key`. */
  ghost predicate Performs(o: Oracle, ch: Checks, db: Db, e: Event, key: ResultKey) {
    && e.Request? && e.input.Send? && KeyOf(e.input.request) == key
    && var r := Observed(o, ch, db, e.input, e.now).1;
       r.Done? && r.value.Committed? && !r.value.replayed
  }

  /** How often the action of `key` is performed in a run. */
  ghost function Performances(o: Oracle, ch: Checks, db: Db, run: seq<Event>, key: ResultKey): nat {
    if run == [] then 0
    else
      var front := run[..|run| - 1];
      Performances(o, ch, db, front, key)
      + (if Performs(o, ch, After(o, ch, db, front), run[|run| - 1], key) then 1 else 0)
  }

  lemma PerformingWrites(o: Oracle, ch: Checks, db: Db, e: Event, key: ResultKey)
    requires Performs(o, ch, db, e, key)
    ensures key !in db.results && key in Next(o, ch, db, e).results
    ensures db.config.Some? && (db.config.value.epoch, e.input.request.nonce) in db.nonces
    ensures Next(o, ch, db, e).nonces == db.nonces - {(db.config.value.epoch, e.input.request.nonce)}
  {
    hide PerformedAndSigned, NonceFits, AuthorizedGrant;
  }

  /** Over every run each request id takes effect at most once, and not at all
      when its result was already there. */
  lemma {:induction false} AtMostOnce(o: Oracle, ch: Checks, db: Db, run: seq<Event>, key: ResultKey)
    ensures Performances(o, ch, db, run, key) <= 1
    ensures Performances(o, ch, db, run, key) == 1 ==> key !in db.results && key in After(o, ch, db, run).results
  {
    hide Performs, Next;
    if run != [] {
      var front, e := run[..|run| - 1], run[|run| - 1];
      var mid := After(o, ch, db, front);
      AtMostOnce(o, ch, db, front, key);
      RunsKeepResults(o, ch, db, front);
      StepKeepsResults(o, ch, mid, e);
      if Performs(o, ch, mid, e, key) {
        PerformingWrites(o, ch, mid, e, key);
      }
    }
  }

  // ----- Nonces -----

  ghost predicate Issues(o: Oracle, ch: Checks, db: Db, e: Event, k: NonceKey) {
    && e.Request? && e.input.AskNonce? && db.config.Some?
    && var r := Observed(o, ch, db, e.input, e.now).1;
       r.Done? && r.value.Granted? && k == (db.config.value.epoch, r.value.nonce.nonce)
  }

  ghost predicate Consumes(o: Oracle, ch: Checks, db: Db, e: Event, k: NonceKey) {
    && e.Request? && e.input.Send? && db.config.Some? && k == (db.config.value.epoch, e.input.request.nonce)
    && Performs(o, ch, db, e, KeyOf(e.input.request))
  }

  ghost function Issuances(o: Oracle, ch: Checks, db: Db, run: seq<Event>, k: NonceKey): nat {
    if run == [] then 0
    else
      var front := run[..|run| - 1];
      Issuances(o, ch, db, front, k) + (if Issues(o, ch, After(o, ch, db, front), run[|run| - 1], k) then 1 else 0)
  }

  ghost function Consumptions(o: Oracle, ch: Checks, db: Db, run: seq<Event>, k: NonceKey): nat {
    if run == [] then 0
    else
      var front := run[..|run| - 1];
      Consumptions(o, ch, db, front, k) + (if Consumes(o, ch, After(o, ch, db, front), run[|run| - 1], k) then 1 else 0)
  }

  function Present(db: Db, k: NonceKey): nat { if k in db.nonces then 1 else 0 }

  /** A row appears only by being issued and leaves when it is used. */
  lemma StepOnNonce(o: Oracle, ch: Checks, db: Db, e: Event, k: NonceKey)
    ensures Present(Next(o, ch, db, e), k) + (if Consumes(o, ch, db, e, k) then 1 else 0)
            <= Present(db, k) + (if Issues(o, ch, db, e, k) then 1 else 0)
  {
    hide PerformedAndSigned, NonceFits, AuthorizedGrant, LiveAttempts, AllSigned, CoreAfter, DirtyZones, OfGrant;
    if Consumes(o, ch, db, e, k) {
      PerformingWrites(o, ch, db, e, KeyOf(e.input.request));
    }
  }

  /** Every nonce row admits at most one success: over every run the successes
      under a key never exceed the rows that were there or were issued. */
  lemma {:induction false} NoncesWorkOnce(o: Oracle, ch: Checks, db: Db, run: seq<Event>, k: NonceKey)
    ensures Consumptions(o, ch, db, run, k) + Present(After(o, ch, db, run), k)
            <= Present(db, k) + Issuances(o, ch, db, run, k)
  {
    hide Consumes, Issues, Next;
    if run != [] {
      var front := run[..|run| - 1];
      NoncesWorkOnce(o, ch, db, front, k);
      StepOnNonce(o, ch, After(o, ch, db, front), run[|run| - 1], k);
    }
  }

  // ----- Rejections -----

  /** A request that is not performed changes at most the time watermark and the
      attempt row of its own nonce, and the recorded attempt identifies it. */
  lemma RejectionsAreConfined(o: Oracle, ch: Checks, db: Db, input: Input, now: int)
    ensures var r := Observed(o, ch, db, input, now);
            match r.1
            case Refused(_) => r.0 == db
            case Done(Rejected(a)) =>
              && input.Send? && db.config.Some?
              && var k := (db.config.value.epoch, input.request.nonce);
                 && k in db.nonces && SameIdentity(a, db.nonces[k]) && a.digest == input.request.digest
                 && a.grantId == input.request.action.grantId && a.requestId == input.request.action.requestId
                 && r.0 == db.(config := Some(db.config.value.(lastTime := now)), attempts := db.attempts[k := a])
            case _ => true
  {
    hide PerformedAndSigned, AuthorizedGrant, LiveNonces, LiveAttempts;
  }

  // ----- Time -----

  /** The watermark never moves back, whatever happens. */
  lemma {:induction false} TimeNeverDecreases(o: Oracle, ch: Checks, db: Db, run: seq<Event>)
    requires db.config.Some?
    ensures var d := After(o, ch, db, run);
            && d.config.Some? && db.config.value.lastTime <= d.config.value.lastTime
            && db.config.value.epoch <= d.config.value.epoch
  {
    hide Next;
    if run != [] {
      TimeNeverDecreases(o, ch, db, run[..|run| - 1]);
      StepTime(o, ch, After(o, ch, db, run[..|run| - 1]), run[|run| - 1]);
    }
  }

  lemma StepTime(o: Oracle, ch: Checks, db: Db, e: Event)
    requires db.config.Some?
    ensures var d := Next(o, ch, db, e);
            && d.config.Some? && db.config.value.lastTime <= d.config.value.lastTime
            && db.config.value.epoch <= d.config.value.epoch
  {
    hide PerformedAndSigned, AuthorizedGrant, LiveNonces, LiveAttempts, AllSigned, CoreAfter, DirtyZones, NonceFits;
  }

  // ----- Maintenance -----

  lemma RegistrationsSettle(o: Oracle, gov: Governance, c: Core, c': Core, now: int)
    requires c'.registrations == RegistrationsAfter(o, gov, c, now)
    ensures RegistrationsAfter(o, gov, c', now) == c'.registrations
    ensures forall id :: id in c'.registrations && c'.registrations[id].status == Active ==>
              !Lapsed(o, gov, c'.registrations[id], now)
  {
    hide AuthorityInvalid;
  }

  lemma NobodyGone(o: Oracle, gov: Governance, c: Core, c': Core, zone: string, now: int)
    requires c'.registrations == RegistrationsAfter(o, gov, c, now)
    requires c'.challenges == ChallengesAfter(o, gov, c, c'.registrations, now)
    ensures Gone(o, gov, c', zone, now) == {}
    ensures ChallengesAfter(o, gov, c', c'.registrations, now) == c'.challenges
  {
    hide Lapsed, ChallengeDead;
    RegistrationsSettle(o, gov, c, c', now);
  }

  /** A zone maintained once needs no maintenance at the same time. */
  lemma ZoneSettles(o: Oracle, gov: Governance, c: Core, c': Core, zone: string, now: int)
    requires zone in c.zones && ZoneOk(o, c.zones[zone]) && ZoneAfter(o, gov, c, zone, now).Done?
    requires zone in c'.zones && c'.zones[zone] == ZoneAfter(o, gov, c, zone, now).value
    requires Gone(o, gov, c', zone, now) == {}
    ensures !Dirty(o, gov, c', zone, now) && ZoneAfter(o, gov, c', zone, now) == Done(c'.zones[zone])
  {
    hide Contributions.Valid, Contributions.Removed, Gone;
    CleanedKeepsValid(o, gov, c, zone, now);
    Contributions.RemoveNothing(o.size, c'.zones[zone].rows);
  }

  lemma CoreSettles(o: Oracle, gov: Governance, c: Core, now: int)
    requires Registry.Valid(o, c) && AllSigned(o, gov, c, now)
    ensures var c' := CoreAfter(o, gov, c, now);
            AllSigned(o, gov, c', now) && CoreAfter(o, gov, c', now) == c' && DirtyZones(o, gov, c', now) == {}
  {
    hide Anchors.Valid, ZoneOk, ZoneAfter, Dirty, Gone, ChallengesAfter, RegistrationsAfter, IndexExact, ChallengesOk;
    var c' := CoreAfter(o, gov, c, now);
    RegistrationsSettle(o, gov, c, c', now);
    NobodyGone(o, gov, c, c', "", now);
    forall n | n in c'.zones ensures !Dirty(o, gov, c', n, now) && ZoneAfter(o, gov, c', n, now) == Done(c'.zones[n]) {
      NobodyGone(o, gov, c, c', n, now);
      ZoneSettles(o, gov, c, c', n, now);
    }
  }

  /** One pass of maintenance is a fixed point: a second pass at the same time
      commits, changes no table and signs no zone. */
  lemma MaintenanceIsIdempotent(o: Oracle, db: Db, now: int)
    requires Valid(o, db) && MaintenanceCommits(o, db, now)
    ensures var d := Maintained(o, db, now).0;
            MaintenanceCommits(o, d, now) && Maintained(o, d, now) == (d, {})
  {
    hide Registry.Valid, AllSigned, CoreAfter, DirtyZones, NoncesOk;
    CoreSettles(o, db.gov, db.core, now);
    var d := Maintained(o, db, now).0;
    var epoch := db.config.value.epoch;
    assert LiveNonces(d.nonces, now, epoch) == d.nonces;
    assert LiveAttempts(d.attempts, d.nonces, now, epoch) == d.attempts;
  }

  /** After maintenance nothing active has lapsed and no challenge is dead, and
      everything removed was due: the rest is untouched. */
  lemma MaintenanceIsExact(o: Oracle, db: Db, now: int)
    requires Valid(o, db) && MaintenanceCommits(o, db, now)
    ensures var c, c' := db.core, Maintained(o, db, now).0.core;
            && (forall id :: id in c.registrations ==>
                  (c'.registrations[id] != c.registrations[id]
                   <==> id in c.active && Lapsed(o, db.gov, c.registrations[id], now)))
            && (forall id :: id in c'.active <==> id in c.active && !Lapsed(o, db.gov, c.registrations[id], now))
            && c'.activeCount == |c'.active| && c'.anchors == c.anchors
  {
    hide AllSigned, ZoneAfter, ChallengesAfter, Lapsed, AuthorityInvalid, ZonesOk, Anchors.Valid;
  }
}
