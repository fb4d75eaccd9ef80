/** The server's tables and the handlers that change them: `mutate_observed`
    with its staged writes, and `maintenance`. */
module Server {
  import opened Basics
  import opened Names
  import opened App
  import opened Text
  import opened Registry
  import opened Service
  import opened ServiceProofs
  import opened ServiceLoops
  import Contributions
  import ContributionLoops
  import Anchors

  /** Removes contributions of one zone. */
  method RemoveFrom(o: Oracle, c: Core, zone: string, sel: Contributions.Selection) returns (next: Core, changed: bool)
    requires ZonesOk(o, c) && zone in c.zones
    ensures next == Without(o, c, zone, sel) && (changed <==> next.zones != c.zones)
  {
    hide Contributions.Valid, Contributions.Removed;
    assert ZoneOk(o, c.zones[zone]);
    var split := ContributionLoops.SplitAll(o.size, sel, c.zones[zone].rows);
    next := WithRows(c, zone, split.value.0);
    changed := split.value.1;
    if changed {
      assert next.zones[zone] != c.zones[zone];
    } else {
      assert next.zones[zone] == c.zones[zone];
    }
  }

  method PerformDeregister(o: Oracle, c: Core, q: Caller) returns (r: Outcome<(Core, Body, bool)>)
    requires Registry.Valid(o, c) && q.action.params.Deregister? && q.action.zone in c.zones
    ensures r == Deregistered(o, c, q)
  {
    hide Contributions.Valid, Without, Unselected, IndexExact, ZonesOk;
    var p := q.action.params;
    if p.registration !in c.registrations {
      return Refused(MissingTarget);
    }
    var reg := c.registrations[p.registration];
    if !Owns(q, reg) {
      return Refused(Denied);
    }
    if p.withdrawAll {
      var next, changed := RemoveFrom(o, c, q.action.zone, Contributions.Of(reg.id, None));
      var active, count := c.active, c.activeCount;
      if reg.status == Active {
        active, count := active - {reg.id}, count - 1;
      }
      var withdrawn := reg.(status := Withdrawn, ports := []);
      return Done((next.(registrations := c.registrations[reg.id := withdrawn], active := active, activeCount := count),
                   Body(reg.id, 0, 0, None), changed));
    }
    if exists port :: port in p.ports && port !in reg.ports {
      return Refused(Invalid);
    }
    var next, changed := RemoveFrom(o, c, q.action.zone, Contributions.Of(reg.id, Some(o.owners(reg, p.ports))));
    var kept := reg.(ports := Unselected(reg.ports, p.ports));
    return Done((next.(registrations := c.registrations[reg.id := kept]), Body(reg.id, 0, 0, None), changed));
  }

  method PerformChallengeDelete(o: Oracle, c: Core, q: Caller) returns (r: Outcome<(Core, Body, bool)>)
    requires Registry.Valid(o, c) && q.action.params.ChallengeDelete? && q.action.zone in c.zones
    ensures r == ChallengeDeleted(o, c, q)
  {
    hide Contributions.Valid, Without, IndexExact, ZonesOk;
    var id := q.action.params.challenge;
    if id !in c.challenges {
      return Refused(MissingTarget);
    }
    var ch := c.challenges[id];
    if q.action.grantId != ch.grantId || q.action.zone != ch.zone || ch.signer != q.signer {
      return Refused(Denied);
    }
    var next, changed := RemoveFrom(o, c, q.action.zone, Contributions.Of(ch.id, None));
    return Done((next.(challenges := c.challenges - {ch.id}), Body(ch.id, 0, 0, None), changed));
  }

  /** An operator's mutations in turn. */
  method ApplyEdits(o: Oracle, origin: Name, grantId: string, start: Contributions.Rows,
          edits: seq<Edit>) returns (r: Outcome<Contributions.Rows>)
    requires Contributions.Valid(o.size, start)
    ensures r == Edited(o, origin, grantId, start, edits)
  {
    hide Contributions.Valid, Contributions.Added, Contributions.Removed;
    var rows := start;
    for i := 0 to |edits|
      invariant Edited(o, origin, grantId, start, edits[..i]) == Done(rows) && Contributions.Valid(o.size, rows)
    {
      EditsPrefix(o, origin, grantId, start, edits, i);
      assert edits[..i + 1][..i] == edits[..i];
      match edits[i] {
        case Erase(tag, owner) =>
          var sel := Contributions.Of(OperatorId(grantId, tag), Some([owner]));
          Contributions.RemoveKeepsValid(o.size, sel, rows);
          var split := ContributionLoops.SplitAll(o.size, sel, rows);
          rows := split.value.0;
        case Put(tag, record) =>
          var id := OperatorId(grantId, tag);
          var added := Contributions.Added(o.size, origin, rows, id, record);
          if added.Refused? {
            return Refused(added.reason);
          }
          Contributions.AddKeepsValid(o.size, origin, rows, id, record);
          rows := added.value;
        case Malformed => return Refused(Invalid);
      }
    }
    assert edits[..|edits|] == edits;
    return Done(rows);
  }

  /** A failing prefix fails the whole. */
  lemma {:induction false} EditsPrefix(o: Oracle, origin: Name, grantId: string, start: Contributions.Rows,
          edits: seq<Edit>, i: nat)
    requires i < |edits|
    ensures Edited(o, origin, grantId, start, edits[..i + 1]).Refused? ==>
              Edited(o, origin, grantId, start, edits) == Edited(o, origin, grantId, start, edits[..i + 1])
    decreases |edits|
  {
    hide Contributions.Added, Contributions.Removed;
    if i + 1 < |edits| {
      var front := edits[..|edits| - 1];
      EditsPrefix(o, origin, grantId, start, front, i);
      assert front[..i + 1] == edits[..i + 1];
    } else {
      assert edits[..i + 1] == edits;
    }
  }

  method Perform(o: Oracle, gov: Governance, c: Core, q: Caller, g: Grant, now: int)
    returns (r: Outcome<(Core, Body, bool)>)
    requires Registry.Valid(o, c) && q.action.zone in c.zones
    ensures r == Performed(o, gov, c, q, g, now)
  {
    hide Contributions.Valid, IndexExact, Registered, Renewed, Deregistered, AnchorSet, ChallengeCreated,
         ChallengeDeleted, Edited;
    match q.action.params {
      case Register(_, _, _, _, _) => r := Registered(o, gov, c, q, g, now);
      case Renew(_, _, _) => r := Renewed(o, gov, c, q, g, now);
      case Deregister(_, _, _) => r := PerformDeregister(o, c, q);
      case SetAnchor(_) => r := AnchorSet(o, gov, c, q, now);
      case ChallengeCreate(_, _, _, _) => r := ChallengeCreated(o, gov, c, q, g, now);
      case ChallengeDelete(_) => r := PerformChallengeDelete(o, c, q);
      case Operator(serial, edits) =>
        var z := c.zones[q.action.zone];
        if z.serial != serial {
          return Refused(Conflict);
        }
        assert ZoneOk(o, z);
        var rows :- ApplyEdits(o, z.origin, g.id, z.rows, edits);
        r := Done((WithRows(c, q.action.zone, rows), Body("", 0, 0, None), true));
    }
  }

  // ----- Requests on staged tables -----

  /** The capacity error of the scan is never returned. */
  method IssueNonce(ch: Checks, db: Db, config: Config, action: Action, drawn: Option<string>,
          now: int) returns (r: Outcome<(Db, Reply)>)
    requires |db.nonces| <= MAX_OUTSTANDING_NONCES
    ensures r == Issued(ch, db, config, action, drawn, now)
  {
    hide LiveNonces, LiveAttempts, OfGrant;
    var g :- AuthorizedGrant(ch, db, config, action, now);
    if |db.nonces| > MAX_OUTSTANDING_NONCES {
      return Refused(Unavailable);
    }
    var live, kept := CollectLiveNonces(db.nonces, db.attempts, now, config.epoch);
    if |live| >= MAX_OUTSTANDING_NONCES || |OfGrant(live, g.id)| >= MAX_GRANT_NONCES {
      return Refused(Limit);
    }
    if now + NONCE_TTL > MAX_SAFE_INTEGER {
      return Refused(Denied);
    }
    if drawn.None? {
      return Refused(RandomFailure);
    }
    var n := Nonce(drawn.value, ch.intentOf(action), action.grantId, action.requestId, now, now + NONCE_TTL, false);
    var k := (config.epoch, n.nonce);
    if k in live {
      return Refused(Conflict);
    }
    return Done((db.(nonces := live[k := n], attempts := kept, config := Some(config.(lastTime := now))), Granted(n)));
  }

  method PerformAndSign(o: Oracle, db: Db, q: Signed, g: Grant, now: int) returns (r: Outcome<(Core, Body)>)
    requires Registry.Valid(o, db.core) && q.action.zone in db.core.zones
    ensures r == PerformedAndSigned(o, db, q, g, now)
  {
    hide Registry.Valid, Performed, Resigned;
    var done :- Perform(o, db.gov, db.core, Caller(q.action, q.signer, q.digest), g, now);
    var core, body := done.0, done.1;
    if q.action.zone !in core.zones {
      return Refused(NotFound);
    }
    if done.2 {
      var z :- Resigned(o, core.zones[q.action.zone], now);
      core := core.(zones := core.zones[q.action.zone := z]);
    }
    return Done((core, body.(serial := core.zones[q.action.zone].serial)));
  }

  /** The tables a request leaves are valid and keep every stored result; its own
      result is stored as answered, so that sending it again, whenever and under
      whatever configuration, gives the same answer and changes nothing. */
  ghost predicate Answered(o: Oracle, ch: Checks, db: Db, q: Signed, next: Db, reply: Reply) {
    && ServiceProofs.Valid(o, next) && ResultsKept(db, next) && next.gov == db.gov
    && reply.Committed? && (reply.replayed ==> next == db)
    && KeyOf(q) in next.results && next.results[KeyOf(q)] == ResultRow(q.digest, reply.body)
    && forall config, later :: Sent(o, ch, next, config, q, later) == Done((next, Committed(reply.body, true)))
  }

  lemma SentIsAnswered(o: Oracle, ch: Checks, db: Db, q: Signed, now: int)
    requires ServiceProofs.Valid(o, db) && db.config.Some? && db.config.value.lastTime <= now
    requires Sent(o, ch, db, db.config.value, q, now).Done?
    ensures var r := Sent(o, ch, db, db.config.value, q, now).value;
            Answered(o, ch, db, q, r.0, r.1)
  {
    hide Registry.Valid, NoncesOk, AttemptsOk, PerformedAndSigned, NonceFits, AuthorizedGrant;
    ObservedKeepsValid(o, ch, db, Send(q), now);
    StepKeepsResults(o, ch, db, Request(Send(q), now));
  }

  method SendRequest(o: Oracle, ch: Checks, db: Db, config: Config, q: Signed, now: int)
    returns (r: Outcome<(Db, Reply)>)
    requires ServiceProofs.Valid(o, db) && db.config == Some(config) && config.lastTime <= now
    ensures r == Sent(o, ch, db, config, q, now)
    ensures r.Done? ==> Answered(o, ch, db, q, r.value.0, r.value.1)
  {
    hide Registry.Valid, PerformedAndSigned, NonceFits, Answered, NoncesOk, AttemptsOk;
    if Sent(o, ch, db, config, q, now).Done? {
      SentIsAnswered(o, ch, db, q, now);
    }
    if !q.routeOk {
      return Refused(Invalid);
    }
    if !q.verified {
      return Refused(Denied);
    }
    if KeyOf(q) in db.results {
      var stored := db.results[KeyOf(q)];
      if stored.digest != q.digest {
        return Refused(Conflict);
      }
      return Done((db, Committed(stored.body, true)));
    }
    var k := (config.epoch, q.nonce);
    if k !in db.nonces || !NonceFits(ch, q, db.nonces[k], now) {
      return Refused(Denied);
    }
    var g :- AuthorizedGrant(ch, db, config, q.action, now);
    var done :- PerformAndSign(o, db, q, g, now);
    return Done((db.(core := done.0, nonces := db.nonces - {k}, attempts := db.attempts - {k},
                     results := db.results[KeyOf(q) := ResultRow(q.digest, done.1)],
                     config := Some(config.(lastTime := now))), Committed(done.1, false)));
  }

  /** What a successful request may do to the tables as a whole: they stay valid, no
      stored result changes, governance and epoch stay, and the time watermark
      moves no further than to now. */
  ghost predicate Staged(o: Oracle, db: Db, next: Db, now: int) {
    && ServiceProofs.Valid(o, next) && ResultsKept(db, next) && next.gov == db.gov
    && db.config.Some? && next.config.Some?
    && next.config.value == db.config.value.(lastTime := next.config.value.lastTime)
    && db.config.value.lastTime <= next.config.value.lastTime <= now
  }

  lemma MutatedIsStaged(o: Oracle, ch: Checks, db: Db, input: Input, now: int)
    requires ServiceProofs.Valid(o, db) && Mutated(o, ch, db, input, now).Done?
    ensures Staged(o, db, Mutated(o, ch, db, input, now).value.0, now)
  {
    hide Registry.Valid, NoncesOk, AttemptsOk, PerformedAndSigned, NonceFits, AuthorizedGrant, LiveNonces, LiveAttempts,
         OfGrant;
    ObservedKeepsValid(o, ch, db, input, now);
    StepKeepsResults(o, ch, db, Request(input, now));
  }

  /** `mutate`, on a staged copy of the tables. */
  method Mutate(o: Oracle, ch: Checks, db: Db, input: Input, now: int) returns (r: Outcome<(Db, Reply)>)
    requires ServiceProofs.Valid(o, db)
    ensures r == Mutated(o, ch, db, input, now)
    ensures r.Done? ==> Staged(o, db, r.value.0, now)
  {
    hide ServiceProofs.Valid, Issued, Sent, Staged, Answered;
    WithinCapacity(o, db);
    if Mutated(o, ch, db, input, now).Done? {
      MutatedIsStaged(o, ch, db, input, now);
    }
    if db.config.None? {
      return Refused(NotFound);
    }
    var config := db.config.value;
    if now < config.lastTime {
      return Refused(Invalid);
    }
    match input {
      case Unreadable(e) => r := Refused(e);
      case AskNonce(action, drawn) => r := IssueNonce(ch, db, config, action, drawn, now);
      case Send(q) => r := SendRequest(o, ch, db, config, q, now);
    }
  }

  lemma PassFacts(o: Oracle, gov: Governance, c: Core, now: int, names: seq<string>, zones: map<string, Zone>,
          lost: set<string>, dirty: set<string>)
    requires CleanedSoFar(o, gov, c, now, names, zones, lost) && forall n :: n in names <==> n in c.zones
    requires dirty == lost + set n | n in zones && RefreshDue(zones[n], now)
    ensures dirty == DirtyZones(o, gov, c, now) && dirty <= zones.Keys
    ensures (forall n :: n in dirty ==> Resigned(o, zones[n], now).Done?) <==> AllSigned(o, gov, c, now)
  {
    hide Resigned, Gone, Contributions.Removed;
  }

  lemma PassResult(o: Oracle, gov: Governance, c: Core, now: int, names: seq<string>, zones: map<string, Zone>,
          lost: set<string>,
                   dirty: set<string>, order: seq<string>, signed: map<string, Zone>)
    requires CleanedSoFar(o, gov, c, now, names, zones, lost) && forall n :: n in names <==> n in c.zones
    requires dirty == DirtyZones(o, gov, c, now) && AllSigned(o, gov, c, now)
    requires (forall n :: n in order <==> n in dirty) && SignedSoFar(o, zones, now, order, signed)
    ensures signed == CoreAfter(o, gov, c, now).zones
  {
    hide Resigned, Cleaned, Dirty, RegistrationsAfter, ChallengesAfter;
  }

  // ----- The server -----

  class Server {
    var config: Option<Config>
    var nonces: map<NonceKey, Nonce>
    var attempts: map<NonceKey, Attempt>
    var results: map<ResultKey, ResultRow>
    var core: Core
    var gov: Governance

    function State(): Db
      reads this
    {
      Db(config, nonces, attempts, results, core, gov)
    }

    constructor (o: Oracle)
      ensures ServiceProofs.Valid(o, State())
    {
      config, nonces, attempts, results := None, map[], map[], map[];
      core, gov := Core(map[], {}, 0, map[], map[], map[]), Governance(map[], map[]);
      new;
      Anchors.EmptyIsValid();
      forall g ensures |OfGrant(nonces, g)| == 0 {
        assert OfGrant(nonces, g) == {};
      }
    }

    /** `mutate_observed`: flush the staged writes on success; on an authentic
        rejection keep nothing of them but the time and the attempt. */
    method MutateObserved(o: Oracle, ch: Checks, input: Input, now: int) returns (r: Outcome<Reply>)
      requires ServiceProofs.Valid(o, State())
      modifies this
      ensures ServiceProofs.Valid(o, State())
      ensures (State(), r) == Observed(o, ch, old(State()), input, now)
    {
      hide Registry.Valid, NoncesOk, AttemptsOk, Mutated, NonceFits;
      ObservedKeepsValid(o, ch, State(), input, now);
      WithinCapacity(o, State());
      var staged := Mutate(o, ch, State(), input, now);
      if staged.Done? {
        var db := staged.value.0;
        config, nonces, attempts, results, core, gov := db.config, db.nonces, db.attempts, db.results, db.core, db.gov;
        return Done(staged.value.1);
      }
      var e := staged.reason;
      if !Recordable(e) || !Authentic(ch, State(), input, now) {
        return Refused(e);
      }
      var k := (config.value.epoch, input.request.nonce);
      var a := AttemptOf(nonces[k], input.request.digest, now, e);
      config := Some(config.value.(lastTime := now));
      attempts := attempts[k := a];
      return Done(Rejected(a));
    }

    /** `maintenance`: the names of the zones signed again. Its capacity errors are never returned. */
    method Maintenance(o: Oracle, now: int) returns (r: Outcome<set<string>>)
      requires ServiceProofs.Valid(o, State())
      modifies this
      ensures ServiceProofs.Valid(o, State())
      ensures r.Done? <==> MaintenanceCommits(o, old(State()), now)
      ensures r.Done? ==> (State(), r.value) == Maintained(o, old(State()), now)
      ensures r.Refused? ==> State() == old(State())
    {
      hide Registry.Valid, NoncesOk, AttemptsOk, AllSigned, CoreAfter, DirtyZones, LiveNonces, LiveAttempts;
      ghost var ch := Checks((a, g, s, n) => true, a => "");
      StepKeepsValid(o, ch, State(), Maintain(now));
      if config.None? {
        return Refused(NotFound);
      }
      if now < config.value.lastTime {
        return Refused(Invalid);
      }
      WithinCapacity(o, State());
      if |core.challenges| > MAX_ACME_CHALLENGES || |nonces| > MAX_OUTSTANDING_NONCES || |core.zones| > MAX_ZONES {
        return Refused(Unavailable);
      }
      var pass := RunPass(o, gov, core, now);
      if pass.Refused? {
        return Refused(pass.reason);
      }
      var live, kept := CollectLiveNonces(nonces, attempts, now, config.value.epoch);
      nonces, attempts, core := live, kept, pass.value.0;
      config := Some(config.value.(lastTime := now));
      return Done(pass.value.1);
    }
  }

  /** One pass over registrations, challenges and zones. */
  method RunPass(o: Oracle, gov: Governance, c: Core, now: int) returns (r: Outcome<(Core, set<string>)>)
    requires Registry.Valid(o, c)
    ensures r.Done? <==> AllSigned(o, gov, c, now)
    ensures r.Done? ==> r.value == (CoreAfter(o, gov, c, now), DirtyZones(o, gov, c, now))
  {
    hide Registry.Valid, AllSigned, CoreAfter, DirtyZones, SortedText, CleanedSoFar, SignedSoFar, FoundSoFar,
         ChallengesAfter, RegistrationsAfter, RefreshDue, Resigned, Gone, At;
    CoreParts(o, c);
    var registrations, active, count, lapsed := ExpireRegistrations(o, gov, c, now);
    var challenges, removals := ExpireChallenges(o, gov, c, registrations, now, lapsed);
    RemovalsFound(o, gov, c, registrations, now, lapsed, removals);
    var zones, lost := CleanZones(o, gov, c, now, removals);
    var dirty := MarkDue(zones, lost, now);
    PassFacts(o, gov, c, now, SortedText(c.zones.Keys), zones, lost, dirty);
    var signed := SignDirty(o, zones, dirty, now);
    if signed.Refused? {
      return Refused(signed.reason);
    }
    PassResult(o, gov, c, now, SortedText(c.zones.Keys), zones, lost, dirty, SortedText(dirty), signed.value);
    CoreAfterIs(o, gov, c, now);
    return Done((Core(registrations, active, count, challenges, signed.value, c.anchors), dirty));
  }

  lemma WithinCapacity(o: Oracle, db: Db)
    requires ServiceProofs.Valid(o, db)
    ensures |db.core.challenges| <= MAX_ACME_CHALLENGES && |db.nonces| <= MAX_OUTSTANDING_NONCES
    ensures |db.core.zones| <= MAX_ZONES
    ensures db.core.activeCount == |db.core.active| <= MAX_ACTIVE_REGISTRATIONS
  {
  }

  lemma CoreParts(o: Oracle, c: Core)
    requires Registry.Valid(o, c)
    ensures IndexExact(c.registrations, c.active, c.activeCount, c.zones.Keys) && ZonesOk(o, c)
  {
  }

  lemma RemovalsFound(o: Oracle, gov: Governance, c: Core, regs: map<string, Registration>, now: int, lapsed: Removals,
          removals: Removals)
    requires IndexExact(c.registrations, c.active, c.activeCount, c.zones.Keys)
    requires regs == RegistrationsAfter(o, gov, c, now)
    requires forall zone :: At(lapsed, zone) == LapsedIn(o, gov, c, now, zone, SortedText(c.active))
    requires FoundSoFar(o, gov, c, regs, now, lapsed, removals, SortedText(c.challenges.Keys))
    ensures forall zone :: At(removals, zone) == Gone(o, gov, c, zone, now)
  {
    hide LapsedIn, DeadIn, Gone, SortedText, RegistrationsAfter, At;
    forall zone ensures At(removals, zone) == Gone(o, gov, c, zone, now) {
      FoundAll(o, gov, c, now, zone);
    }
  }

  lemma CoreAfterIs(o: Oracle, gov: Governance, c: Core, now: int)
    requires AllSigned(o, gov, c, now)
    ensures var r := RegistrationsAfter(o, gov, c, now);
            CoreAfter(o, gov, c, now)
            == Core(r, ActiveIds(r), |ActiveIds(r)|, ChallengesAfter(o, gov, c, r, now),
                    CoreAfter(o, gov, c, now).zones, c.anchors)
  {
  }
}
