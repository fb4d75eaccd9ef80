/** Requests, nonces, results, failed attempts and maintenance:
    `mutate`, `maintenance` and `collect_live_nonces` in crates/adns-server/src/service.rs,
    `mutate_observed` in attempts.rs and the epoch change of crates/adns-ccf/src/lib.rs. */
module Service {
  import opened Basics
  import opened App
  import opened Registry
  import Contributions

  const MAX_ZONES := 32
  const MAX_OUTSTANDING_NONCES := 4096
  const MAX_GRANT_NONCES := 64
  const NONCE_TTL := 300

  datatype Config = Config(audience: string, epoch: int, lastTime: int)

  /** A nonce row is stored under its epoch and its value. */
  type NonceKey = (int, string)

  datatype Nonce = Nonce(
    nonce: string, intent: string, grantId: string, requestId: string, issuedAt: int, expiresAt: int, consumed: bool)

  datatype Attempt = Attempt(
    grantId: string, requestId: string, nonce: string, intent: string, digest: string, failedAt: int, expiresAt: int,
    error: AppError)

  datatype ResultRow = ResultRow(digest: string, body: Body)

  type ResultKey = (string, string)

  datatype Db = Db(
    config: Option<Config>, nonces: map<NonceKey, Nonce>, attempts: map<NonceKey, Attempt>,
    results: map<ResultKey, ResultRow>, core: Core, gov: Governance)

  /** A parsed signed request with what hashing and signature verification made
      of it: `digest` identifies the signed message, `verified` its signature. */
  datatype Signed = Signed(
    action: Action, nonce: string, expiresAt: int, intent: string, routeOk: bool, verified: bool, digest: string,
    signer: string)

  /** A request body: unreadable, a request for a nonce (with what the random
      source yields), or a signed request. */
  datatype Input = Unreadable(error: AppError) | AskNonce(action: Action, drawn: Option<string>) | Send(request: Signed)

  datatype Reply = Granted(nonce: Nonce) | Committed(body: Body, replayed: bool) | Rejected(attempt: Attempt)

  /** Authorization of an action by a grant beyond their identifiers, and the hash of an action. */
  datatype Checks = Checks(authorize: (Action, Grant, string, int) -> bool, intentOf: Action -> string)

  function KeyOf(q: Signed): ResultKey { (q.action.grantId, q.action.requestId) }

  // ----- Nonces -----

  predicate Live(n: Nonce, k: NonceKey, now: int, epoch: int) {
    n.expiresAt > now && !n.consumed && k == (epoch, n.nonce)
  }

  function LiveNonces(nonces: map<NonceKey, Nonce>, now: int, epoch: int): map<NonceKey, Nonce> {
    map k | k in nonces && Live(nonces[k], k, now, epoch) :: nonces[k]
  }

  /** Attempts go with the nonces they belong to. */
  function LiveAttempts(attempts: map<NonceKey, Attempt>, nonces: map<NonceKey, Nonce>, now: int,
          epoch: int): map<NonceKey, Attempt> {
    map k | k in attempts && (k !in nonces || Live(nonces[k], k, now, epoch)) :: attempts[k]
  }

  function OfGrant(nonces: map<NonceKey, Nonce>, grantId: string): set<NonceKey> {
    set k | k in nonces && nonces[k].grantId == grantId
  }

  /** `validate_nonce`. */
  predicate NonceFits(ch: Checks, q: Signed, n: Nonce, now: int) {
    && !n.consumed && n.issuedAt <= now < n.expiresAt
    && n.expiresAt - n.issuedAt == NONCE_TTL && n.expiresAt <= MAX_SAFE_INTEGER
    && n.nonce == q.nonce && n.expiresAt == q.expiresAt
    && n.grantId == q.action.grantId && n.requestId == q.action.requestId
    && n.intent == q.intent && ch.intentOf(q.action) == n.intent
  }

  function AuthorizedGrant(ch: Checks, db: Db, config: Config, action: Action, now: int): Outcome<Grant> {
    if action.grantId !in db.gov.grants then Refused(NotFound)
    else if db.gov.grants[action.grantId].id != action.grantId then Refused(Denied)
    else if !ch.authorize(action, db.gov.grants[action.grantId], config.audience, now) then Refused(Denied)
    else if action.zone !in db.core.zones then Refused(NotFound)
    else Done(db.gov.grants[action.grantId])
  }

  function Issued(ch: Checks, db: Db, config: Config, action: Action, drawn: Option<string>, now: int)
    : Outcome<(Db, Reply)>
  {
    var g :- AuthorizedGrant(ch, db, config, action, now);
    var live := LiveNonces(db.nonces, now, config.epoch);
    if |live| >= MAX_OUTSTANDING_NONCES || |OfGrant(live, g.id)| >= MAX_GRANT_NONCES then Refused(Limit)
    else if now + NONCE_TTL > MAX_SAFE_INTEGER then Refused(Denied)
    else if drawn.None? then Refused(RandomFailure)
    else
      var n := Nonce(drawn.value, ch.intentOf(action), action.grantId, action.requestId, now, now + NONCE_TTL, false);
      var k := (config.epoch, n.nonce);
      if k in live then Refused(Conflict)
      else Done((db.(nonces := live[k := n], attempts := LiveAttempts(db.attempts, db.nonces, now, config.epoch),
                     config := Some(config.(lastTime := now))), Granted(n)))
  }

  // ----- Signed requests -----

  /** The action and, when it changed the zone, the new signatures. */
  ghost function PerformedAndSigned(o: Oracle, db: Db, q: Signed, g: Grant, now: int): Outcome<(Core, Body)>
    requires q.action.zone in db.core.zones
  {
    var r :- Performed(o, db.gov, db.core, Caller(q.action, q.signer, q.digest), g, now);
    if q.action.zone !in r.0.zones then Refused(NotFound)
    else if r.2 then
      var z :- Resigned(o, r.0.zones[q.action.zone], now);
      Done((r.0.(zones := r.0.zones[q.action.zone := z]), r.1.(serial := z.serial)))
    else Done((r.0, r.1.(serial := r.0.zones[q.action.zone].serial)))
  }

  ghost function Sent(o: Oracle, ch: Checks, db: Db, config: Config, q: Signed, now: int): Outcome<(Db, Reply)> {
    if !q.routeOk then Refused(Invalid)
    else if !q.verified then Refused(Denied)
    else if KeyOf(q) in db.results then
      if db.results[KeyOf(q)].digest != q.digest then Refused(Conflict)
      else Done((db, Committed(db.results[KeyOf(q)].body, true)))
    else
      var k := (config.epoch, q.nonce);
      if k !in db.nonces || !NonceFits(ch, q, db.nonces[k], now) then Refused(Denied)
      else
        var g :- AuthorizedGrant(ch, db, config, q.action, now);
        var done :- PerformedAndSigned(o, db, q, g, now);
        Done((db.(core := done.0, nonces := db.nonces - {k}, attempts := db.attempts - {k},
                  results := db.results[KeyOf(q) := ResultRow(q.digest, done.1)],
                  config := Some(config.(lastTime := now))), Committed(done.1, false)))
  }

  /** `mutate`. */
  ghost function Mutated(o: Oracle, ch: Checks, db: Db, input: Input, now: int): Outcome<(Db, Reply)> {
    if db.config.None? then Refused(NotFound)
    else if now < db.config.value.lastTime then Refused(Invalid)
    else match input
      case Unreadable(e) => Refused(e)
      case AskNonce(action, drawn) => Issued(ch, db, db.config.value, action, drawn, now)
      case Send(q) => Sent(o, ch, db, db.config.value, q, now)
  }

  // ----- Observed failures -----

  predicate Recordable(e: AppError) {
    400 <= HttpStatus(e) < 500 && e != RandomFailure && e != CryptoFailure && e != NotFound
  }

  /** The request is authentic and holds a usable nonce, so its failure may be recorded. */
  predicate Authentic(ch: Checks, db: Db, input: Input, now: int) {
    && db.config.Some? && db.config.value.lastTime <= now
    && input.Send? && input.request.routeOk && input.request.verified && KeyOf(input.request) !in db.results
    && var k := (db.config.value.epoch, input.request.nonce);
       k in db.nonces && NonceFits(ch, input.request, db.nonces[k], now)
  }

  function AttemptOf(n: Nonce, digest: string, now: int, e: AppError): Attempt {
    Attempt(n.grantId, n.requestId, n.nonce, n.intent, digest, now, n.expiresAt, e)
  }

  /** `mutate_observed`: the tables after the transaction, and the answer. */
  ghost function Observed(o: Oracle, ch: Checks, db: Db, input: Input, now: int): (Db, Outcome<Reply>) {
    match Mutated(o, ch, db, input, now)
    case Done(r) => (r.0, Done(r.1))
    case Refused(e) =>
      if !Recordable(e) || !Authentic(ch, db, input, now) then (db, Refused(e))
      else
        var k := (db.config.value.epoch, input.request.nonce);
        var a := AttemptOf(db.nonces[k], input.request.digest, now, e);
        (db.(config := Some(db.config.value.(lastTime := now)), attempts := db.attempts[k := a]), Done(Rejected(a)))
  }

  // ----- Maintenance -----

  function RegistrationAfter(o: Oracle, gov: Governance, r: Registration, now: int): Registration {
    if r.status == Active && Lapsed(o, gov, r, now)
    then r.(status := if AuthorityInvalid(o, gov, r, now) then Withdrawn else Expired, ports := [])
    else r
  }

  function RegistrationsAfter(o: Oracle, gov: Governance, c: Core, now: int): map<string, Registration> {
    map id | id in c.registrations :: RegistrationAfter(o, gov, c.registrations[id], now)
  }

  function ActiveIds(registrations: map<string, Registration>): set<string> {
    set id | id in registrations && registrations[id].status == Active
  }

  predicate ChallengeDead(o: Oracle, gov: Governance, registrations: map<string, Registration>, c: Challenge,
          now: int) {
    || c.expiresAt <= now
    || c.grantId !in gov.grants
    || (var g := gov.grants[c.grantId];
        || !o.grantOk(g) || g.revoked || !(g.validFrom <= now < g.validUntil) || g.subject != c.signer
        || c.zone !in g.zones
        || c.name !in g.acmeNames || !g.mayChallenge)
    || c.registration !in registrations
    || (var r := registrations[c.registration];
        || r.status != Active || r.leaseExpires <= now || r.reappraisalDeadline <= now || r.zone != c.zone
        || r.host != c.name)
  }

  function ChallengesAfter(o: Oracle, gov: Governance, c: Core, registrations: map<string, Registration>,
          now: int): map<string, Challenge> {
    map id | id in c.challenges && !ChallengeDead(o, gov, registrations, c.challenges[id], now) :: c.challenges[id]
  }

  /** The contributors of a zone that lose their records. */
  function Gone(o: Oracle, gov: Governance, c: Core, zone: string, now: int): set<string> {
    (set id | id in c.registrations && c.registrations[id].status == Active
              && Lapsed(o, gov, c.registrations[id], now) && c.registrations[id].zone == zone)
    + (set id | id in c.challenges && c.challenges[id].zone == zone
                && ChallengeDead(o, gov, RegistrationsAfter(o, gov, c, now), c.challenges[id], now))
  }

  ghost function Cleaned(o: Oracle, gov: Governance, c: Core, zone: string, now: int): Zone
    requires zone in c.zones
  {
    var z := c.zones[zone];
    z.(rows := Contributions.Removed(o.size, Contributions.OfAny(Gone(o, gov, c, zone, now)), z.rows))
  }

  predicate RefreshDue(z: Zone, now: int) { now + z.refreshBefore >= z.expiration }

  /** A zone is signed again when it lost records or its signatures are due. */
  ghost predicate Dirty(o: Oracle, gov: Governance, c: Core, zone: string, now: int)
    requires zone in c.zones
  {
    Cleaned(o, gov, c, zone, now).rows.sets != c.zones[zone].rows.sets || RefreshDue(c.zones[zone], now)
  }

  ghost function DirtyZones(o: Oracle, gov: Governance, c: Core, now: int): set<string> {
    set n | n in c.zones && Dirty(o, gov, c, n, now)
  }

  ghost function ZoneAfter(o: Oracle, gov: Governance, c: Core, zone: string, now: int): Outcome<Zone>
    requires zone in c.zones
  {
    var z := Cleaned(o, gov, c, zone, now);
    if Dirty(o, gov, c, zone, now) then Resigned(o, z, now) else Done(z)
  }

  /** Every zone that must be signed can be. */
  ghost predicate AllSigned(o: Oracle, gov: Governance, c: Core, now: int) {
    forall n :: n in c.zones ==> ZoneAfter(o, gov, c, n, now).Done?
  }

  ghost function CoreAfter(o: Oracle, gov: Governance, c: Core, now: int): Core
    requires AllSigned(o, gov, c, now)
  {
    var registrations := RegistrationsAfter(o, gov, c, now);
    Core(registrations, ActiveIds(registrations), |ActiveIds(registrations)|,
         ChallengesAfter(o, gov, c, registrations, now),
         map n | n in c.zones :: ZoneAfter(o, gov, c, n, now).value, c.anchors)
  }

  /** `maintenance`, when it commits: the tables and the zones signed again. */
  ghost function Maintained(o: Oracle, db: Db, now: int): (Db, set<string>)
    requires db.config.Some? && AllSigned(o, db.gov, db.core, now)
  {
    var config := db.config.value;
    (db.(core := CoreAfter(o, db.gov, db.core, now),
         nonces := LiveNonces(db.nonces, now, config.epoch),
         attempts := LiveAttempts(db.attempts, db.nonces, now, config.epoch),
         config := Some(config.(lastTime := now))),
     DirtyZones(o, db.gov, db.core, now))
  }

  ghost predicate MaintenanceCommits(o: Oracle, db: Db, now: int) {
    db.config.Some? && db.config.value.lastTime <= now && AllSigned(o, db.gov, db.core, now)
  }

  // ----- Epochs -----

  /** Installing a governed configuration: the epoch must advance, the time watermark is kept. */
  function EpochInstalled(db: Db, proposed: Config): Outcome<Db> {
    match db.config
    case None => Done(db.(config := Some(proposed)))
    case Some(c) =>
      if proposed.epoch <= c.epoch then Refused(Conflict)
      else
        var time := if proposed.lastTime < c.lastTime then c.lastTime else proposed.lastTime;
        Done(db.(config := Some(proposed.(lastTime := time))))
  }

  // ----- Runs -----

  datatype Event =
    | Request(input: Input, now: int)
    | Maintain(now: int)
    | Install(config: Config)
    | Govern(gov: Governance)
    | AddZone(name: string, zone: Zone)

  ghost function Next(o: Oracle, ch: Checks, db: Db, e: Event): Db {
    match e
    case Request(input, now) => Observed(o, ch, db, input, now).0
    case Maintain(now) => if MaintenanceCommits(o, db, now) then Maintained(o, db, now).0 else db
    case Install(config) => (match EpochInstalled(db, config) case Done(d) => d case Refused(_) => db)
    case Govern(gov) => db.(gov := gov)
    case AddZone(name, zone) =>
      if name in db.core.zones || |db.core.zones| >= MAX_ZONES || !NewZoneOk(o, zone) then db
      else db.(core := db.core.(zones := db.core.zones[name := zone]))
  }

  /** What `initialize_zone` demands and sets up: validity above refresh, no contributions yet. */
  ghost predicate NewZoneOk(o: Oracle, z: Zone) {
    z.refreshBefore < z.validity && z.rows.sets == map[] && Contributions.Valid(o.size, z.rows)
  }

  ghost function After(o: Oracle, ch: Checks, db: Db, run: seq<Event>): Db {
    if run == [] then db else Next(o, ch, After(o, ch, db, run[..|run| - 1]), run[|run| - 1])
  }
}
