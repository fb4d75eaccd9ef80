/** The secondary work scheduler of crates/adns-ccf/src/lib.rs, with the transfer
    identities that governance hands it. */
module Scheduler {
  import opened Basics
  import opened Order
  import opened Seqs
  import opened App
  import opened Text
  import opened FieldText

  // ----- Data -----

  datatype Kind = Notify | Soa

  datatype Job = Job(key: string, zone: string, kind: Kind)

  datatype Config = Config(keyName: string, endpoint: string, zones: seq<string>, secretDigest: string, revoked: bool)

  /** A stored secret: its text, and the zones it was provisioned for. */
  datatype Secret = Secret(keyName: string, text: string, zones: seq<string>)

  datatype Pending = Pending(job: Job, endpoint: string, dnsId: int, mac: string, issuedAt: int, serial: int)

  datatype Status = Status(lastNotified: Option<int>, lastObserved: Option<int>, lastObservedAt: Option<int>)

  /** The tables the scheduler reads and writes. */
  datatype Tables = Tables(
    governed: map<string, Config>, secrets: map<string, Secret>, serials: map<string, int>,
    pending: map<string, Pending>, cursor: Option<Job>, status: map<(string, string), Status>)

  /** Left to libraries: whether an IPv6 address in brackets is in canonical form, and
      the digest of a secret's text when it stands for 32 to 128 octets. */
  datatype Library = Library(ipv6Ok: string -> bool, keyDigest: string -> Option<string>)

  /** What one unit of work draws from the random source and from signing. */
  datatype Draw = Draw(id: string, dnsId: int, mac: string)

  datatype Item = Item(id: string, endpoint: string, kind: Kind)

  const MAX_GOVERNED := 512
  const MAX_WORK := 256
  const PENDING_TTL := 300

  // ----- Order of jobs -----

  function Fields(j: Job): seq<string> {
    [j.key, j.zone, if j.kind.Notify? then "notify" else "soa"]
  }

  predicate JobLess(a: Job, b: Job) { LexLess(TextLess, Fields(a), Fields(b)) }

  lemma FieldsInjective(a: Job, b: Job)
    requires Fields(a) == Fields(b)
    ensures a == b
  {
    assert Fields(a)[0] == a.key && Fields(a)[1] == a.zone;
    assert Fields(b)[0] == b.key && Fields(b)[1] == b.zone;
    assert Fields(a)[2] == Fields(b)[2] && "notify"[0] == 'n' && "soa"[0] == 's';
  }

  lemma JobOrder()
    ensures StrictTotal<Job>(JobLess)
  {
    TextOrder();
    forall a: Job ensures !JobLess(a, a) { LexIrreflexive(TextLess, Fields(a)); }
    forall a, b, c | JobLess(a, b) && JobLess(b, c) ensures JobLess(a, c) {
      LexTransitive(TextLess, Fields(a), Fields(b), Fields(c));
    }
    forall a: Job, b: Job ensures a == b || JobLess(a, b) || JobLess(b, a) {
      LexConnected(TextLess, Fields(a), Fields(b));
      if Fields(a) == Fields(b) {
        FieldsInjective(a, b);
      }
    }
  }

  function SortedJobs(s: set<Job>): (r: seq<Job>)
    ensures Sorted(JobLess, r) && |r| == |s|
    ensures forall j :: j in r <==> j in s
  {
    JobOrder();
    Enumerate(JobLess, s)
  }

  // ----- Reaping and eligibility -----

  predicate Fresh(p: Pending, now: int) { p.issuedAt <= now && now - p.issuedAt < PENDING_TTL }

  predicate Authorized(governed: map<string, Config>, p: Pending) {
    && p.job.key in governed
    && var c := governed[p.job.key];
       !c.revoked && c.keyName == p.job.key && c.endpoint == p.endpoint && p.job.zone in c.zones
  }

  function Kept(t: Tables, now: int): map<string, Pending> {
    map id | id in t.pending && Authorized(t.governed, t.pending[id]) && Fresh(t.pending[id], now) :: t.pending[id]
  }

  function Outstanding(pending: map<string, Pending>): set<Job> {
    set id | id in pending :: pending[id].job
  }

  predicate ZonesAllowed(zones: seq<string>) {
    0 < |zones| <= 128 && Distinct(zones) && forall z :: z in zones ==> CanonicalName(z)
  }

  /** `validate_transfer_configuration`. */
  predicate ConfigAllowed(lib: Library, c: Config) {
    && CanonicalName(c.keyName) && IsHexDigest(c.secretDigest) && SocketAddress(lib.ipv6Ok, c.endpoint)
    && ZonesAllowed(c.zones)
  }

  /** The secret is that of the governed digest and covers every governed zone. */
  predicate SecretMatches(lib: Library, c: Config, s: Secret) {
    lib.keyDigest(s.text) == Some(c.secretDigest) && s.keyName == c.keyName && forall z :: z in c.zones ==> z in s.zones
  }

  /** Not revoked, and its secret is provisioned. */
  predicate Serving(t: Tables, k: string) {
    k in t.governed && !t.governed[k].revoked && k in t.secrets
  }

  predicate RowAllowed(lib: Library, t: Tables, k: string)
    requires k in t.governed
  {
    ConfigAllowed(lib, t.governed[k]) && (Serving(t, k) ==> SecretMatches(lib, t.governed[k], t.secrets[k]))
  }

  predicate GovernedAllowed(lib: Library, t: Tables) {
    |t.governed| <= MAX_GOVERNED && forall k :: k in t.governed ==> RowAllowed(lib, t, k)
  }

  /** Every job that governance currently calls for. */
  function Universe(t: Tables): set<Job> {
    set k, z, kind: Kind | k in t.governed && Serving(t, k) && z in t.governed[k].zones :: Job(k, z, kind)
  }

  function Eligible(t: Tables, now: int): set<Job> {
    Universe(t) - Outstanding(Kept(t, now))
  }

  predicate JobAtMost(a: Job, b: Job) { a == b || JobLess(a, b) }

  /** `partition_point(|job| job <= cursor)`. */
  function CountAtMost(s: seq<Job>, c: Job): (n: nat)
    ensures n <= |s|
    ensures forall i :: 0 <= i < n ==> JobAtMost(s[i], c)
    ensures n < |s| ==> !JobAtMost(s[n], c)
  {
    if s == [] || !JobAtMost(s[0], c) then 0 else 1 + CountAtMost(s[1..], c)
  }

  function RotatedAfter(cursor: Option<Job>, s: seq<Job>): seq<Job> {
    match cursor
    case None => s
    case Some(c) => s[CountAtMost(s, c)..] + s[..CountAtMost(s, c)]
  }

  /** The jobs of one call, in the order they are examined. */
  function Queue(t: Tables, now: int): seq<Job> {
    RotatedAfter(t.cursor, SortedJobs(Eligible(t, now)))
  }

  // ----- One call -----

  /** A NOTIFY whose serial the secondary has already confirmed. */
  predicate Settled(t: Tables, j: Job)
    requires j.zone in t.serials && j.key in t.governed
  {
    var row := (j.zone, t.governed[j.key].endpoint);
    j.kind.Notify? && row in t.status && t.status[row].lastNotified == Some(t.serials[j.zone])
  }

  datatype Scan = Scan(pending: map<string, Pending>, work: seq<Item>, last: Option<Job>)

  function Issue(t: Tables, now: int, scan: Scan, j: Job, d: Draw): Scan
    requires j.zone in t.serials && j.key in t.governed
  {
    var endpoint := t.governed[j.key].endpoint;
    Scan(scan.pending[d.id := Pending(j, endpoint, d.dnsId, d.mac, now, t.serials[j.zone])],
         scan.work + [Item(d.id, endpoint, j.kind)], Some(j))
  }

  /** One iteration of the work loop. */
  function ExamineOne(t: Tables, now: int, draw: nat -> Option<Draw>, scan: Scan, j: Job): Outcome<Scan>
    requires j.key in t.governed
  {
    if j.zone !in t.serials then Refused(NotFound)
    else if Settled(t, j) then Done(scan.(last := Some(j)))
    else match draw(|scan.work|)
      case None => Refused(Invalid)
      case Some(d) => if d.id in scan.pending then Refused(Conflict) else Done(Issue(t, now, scan, j, d))
  }

  function Examine(t: Tables, now: int, draw: nat -> Option<Draw>, scan: Scan, jobs: seq<Job>): Outcome<Scan>
    requires forall j :: j in jobs ==> j.key in t.governed
    decreases |jobs|
  {
    if jobs == [] || |scan.work| >= MAX_WORK then Done(scan)
    else
      var next :- ExamineOne(t, now, draw, scan, jobs[0]);
      Examine(t, now, draw, next, jobs[1..])
  }

  lemma QueueMembers(t: Tables, now: int)
    ensures forall j :: j in Queue(t, now) <==> j in Eligible(t, now)
    ensures forall j :: j in Queue(t, now) ==> j.key in t.governed
  {
    RotatedMembers(t.cursor, SortedJobs(Eligible(t, now)));
  }

  lemma RotatedMembers(cursor: Option<Job>, s: seq<Job>)
    ensures forall j :: j in RotatedAfter(cursor, s) <==> j in s
  {
    if cursor.Some? {
      var n := CountAtMost(s, cursor.value);
      assert s == s[..n] + s[n..];
    }
  }

  /** `secondary_requests`: the new tables and the work handed out. */
  function Requested(lib: Library, t: Tables, now: int, draw: nat -> Option<Draw>): Outcome<(Tables, seq<Item>)> {
    if !GovernedAllowed(lib, t) then Refused(Invalid)
    else
      QueueMembers(t, now);
      var scan :- Examine(t, now, draw, Scan(Kept(t, now), [], None), Queue(t, now));
      Done((t.(pending := scan.pending, cursor := if scan.last.Some? then scan.last else t.cursor), scan.work))
  }

  // ----- Responses -----

  /** A verified reply: header, questions with whether they ask for the SOA in
      class IN, and the serials of matching SOA answers (None: not SOA data). */
  datatype Reply = Reply(dnsId: int, flags: bv16, questions: seq<(string, bool)>, soas: seq<Option<int>>)

  predicate IsWorkId(id: string) {
    |id| == 32 && forall i :: 0 <= i < 32 ==> '0' <= id[i] <= '9' || 'a' <= id[i] <= 'f'
  }

  /** `governed_transfer_key`. */
  function TransferKey(lib: Library, t: Tables, c: Config): Outcome<Secret> {
    if !ConfigAllowed(lib, c) then Refused(Invalid)
    else if c.revoked then Refused(Denied)
    else if c.keyName !in t.secrets then Refused(NotFound)
    else if SecretMatches(lib, c, t.secrets[c.keyName]) then Done(t.secrets[c.keyName])
    else Refused(Invalid)
  }

  /** The reply answers the request; flags outside the mask are not looked at. */
  predicate Bound(p: Pending, m: Reply) {
    && m.dnsId == p.dnsId && m.flags & 0xfe0f == (if p.job.kind.Notify? then 0xa400 else 0x8400)
    && m.questions == [(p.job.zone, true)]
  }

  function StatusAt(t: Tables, row: (string, string)): Status {
    if row in t.status then t.status[row] else Status(None, None, None)
  }

  function Confirmed(p: Pending, m: Reply, now: int, s: Status): Outcome<Status> {
    if p.job.kind.Notify? then Done(s.(lastNotified := Some(p.serial)))
    else if |m.soas| != 1 || m.soas[0].None? then Refused(Invalid)
    else Done(s.(lastObserved := m.soas[0], lastObservedAt := Some(now)))
  }

  /** `secondary_response`; `verify` is TSIG verification under a secret and the request's MAC. */
  function Responded(lib: Library, t: Tables, now: int, id: string, endpoint: string,
          verify: (Secret, string) -> Option<Reply>)
    : Outcome<Tables>
  {
    if !IsWorkId(id) then Refused(Invalid)
    else if id !in t.pending then Refused(NotFound)
    else
      var p := t.pending[id];
      if endpoint != p.endpoint || !Fresh(p, now) then Refused(Invalid)
      else if p.job.key !in t.governed then Refused(NotFound)
      else
        var c := t.governed[p.job.key];
        if c.endpoint != p.endpoint || p.job.zone !in c.zones then Refused(Invalid)
        else
          var secret :- TransferKey(lib, t, c);
          match verify(secret, p.mac)
          case None => Refused(Invalid)
          case Some(m) =>
            if !Bound(p, m) then Refused(Invalid)
            else
              var row := (p.job.zone, p.endpoint);
              var s :- Confirmed(p, m, now, StatusAt(t, row));
              Done(t.(status := t.status[row := s], pending := t.pending - {id}))
  }

  // ----- Governance -----

  /** The field checks of governance: the endpoint is any plain text. */
  predicate ArgumentsAllowed(c: Config) {
    && CanonicalName(c.keyName) && PlainString(c.endpoint, 128) && IsHexDigest(c.secretDigest) && ZonesAllowed(c.zones)
  }

  /** The `adns_set_transfer` action in ccf/governance/constitution.js. */
  function SetTransfer(t: Tables, c: Config): Outcome<Tables> {
    if !ArgumentsAllowed(c) then Refused(Invalid)
    else if c.keyName !in t.governed && |t.governed| >= MAX_GOVERNED then Refused(Limit)
    else if c.keyName in t.governed && t.governed[c.keyName].revoked then Refused(Denied)
    else if c.keyName in t.governed
         && (t.governed[c.keyName].secretDigest != c.secretDigest || t.governed[c.keyName].endpoint != c.endpoint)
    then Refused(Conflict)
    else Done(t.(governed := t.governed[c.keyName := c.(revoked := false)]))
  }

  /** The `adns_revoke_transfer` action. */
  function RevokeTransfer(t: Tables, k: string): Outcome<Tables> {
    if k !in t.governed then Refused(NotFound)
    else Done(t.(governed := t.governed[k := t.governed[k].(revoked := true)]))
  }

  /** `provision_transfer_key`: for exactly the governed zones, and never over another. */
  function Provisioned(lib: Library, t: Tables, s: Secret): Outcome<Tables> {
    if !CanonicalName(s.keyName) || lib.keyDigest(s.text).None? || !(0 < |s.zones| <= 128) then Refused(Invalid)
    else if s.keyName !in t.governed then Refused(NotFound)
    else
      var c := t.governed[s.keyName];
      if s.zones != c.zones || s.keyName != c.keyName || !ConfigAllowed(lib, c) then Refused(Invalid)
      else if c.revoked then Refused(Denied)
      else if lib.keyDigest(s.text).value != c.secretDigest then Refused(Invalid)
      else if s.keyName in t.secrets then (if t.secrets[s.keyName] == s then Done(t) else Refused(Conflict))
      else Done(t.(secrets := t.secrets[s.keyName := s]))
  }

  // ----- Runs -----

  datatype Event =
    | Requests(now: int, draw: nat -> Option<Draw>)
    | Response(now: int, id: string, endpoint: string, verify: (Secret, string) -> Option<Reply>)
    | Set(config: Config)
    | Revoke(key: string)
    | Provision(secret: Secret)
    | Publish(serials: map<string, int>)

  /** A refused step leaves every table as it was: its transaction is discarded. */
  function Next(lib: Library, t: Tables, e: Event): Tables {
    match e
    case Requests(now, draw) =>
      (match Requested(lib, t, now, draw) case Done(r) => r.0 case Refused(_) => t)
    case Response(now, id, endpoint, verify) =>
      (match Responded(lib, t, now, id, endpoint, verify) case Done(r) => r case Refused(_) => t)
    case Set(c) => (match SetTransfer(t, c) case Done(r) => r case Refused(_) => t)
    case Revoke(k) => (match RevokeTransfer(t, k) case Done(r) => r case Refused(_) => t)
    case Provision(s) => (match Provisioned(lib, t, s) case Done(r) => r case Refused(_) => t)
    case Publish(serials) => t.(serials := serials)
  }

  function After(lib: Library, t: Tables, run: seq<Event>): Tables {
    if run == [] then t else Next(lib, After(lib, t, run[..|run| - 1]), run[|run| - 1])
  }
}
