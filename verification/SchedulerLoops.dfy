/** The loops of `secondary_requests`, and the tables as the handlers update them. */
module SchedulerLoops {
  import opened Basics
  import opened Order
  import opened Sorting
  import opened Seqs
  import opened App
  import opened Text
  import opened FieldText
  import opened Scheduler
  import opened SchedulerProofs

  predicate Stays(t: Tables, now: int, id: string) {
    id in t.pending && Authorized(t.governed, t.pending[id]) && Fresh(t.pending[id], now)
  }

  /** The pending rows once those of `done` have been looked at. */
  ghost function Reaped(t: Tables, now: int, done: seq<string>): map<string, Pending> {
    map id | id in t.pending && (id in done ==> Stays(t, now, id)) :: t.pending[id]
  }

  ghost function Held(t: Tables, now: int, done: seq<string>): set<Job> {
    set id | id in done && Stays(t, now, id) :: t.pending[id].job
  }

  /** Drops pending rows that are stale or no longer authorized. */
  method Reap(t: Tables, now: int) returns (pending: map<string, Pending>, outstanding: set<Job>)
    ensures pending == Kept(t, now) && outstanding == Outstanding(Kept(t, now))
  {
    hide Stays, SortedText, Reaped, Held;
    var rows := SortedText(t.pending.Keys);
    pending, outstanding := t.pending, {};
    NothingReaped(t, now);
    assert rows[..0] == [];
    for i := 0 to |rows|
      invariant pending == Reaped(t, now, rows[..i]) && outstanding == Held(t, now, rows[..i])
    {
      var id := rows[i];
      assert id in t.pending.Keys && rows[..i + 1] == rows[..i] + [id];
      ReapStep(t, now, rows[..i], id);
      if !Stays(t, now, id) {
        pending := pending - {id};
      } else {
        outstanding := outstanding + {t.pending[id].job};
      }
    }
    assert rows[..|rows|] == rows;
    ReapedAll(t, now, rows);
  }

  lemma NothingReaped(t: Tables, now: int)
    ensures Reaped(t, now, []) == t.pending && Held(t, now, []) == {}
  {
  }

  lemma ReapStep(t: Tables, now: int, done: seq<string>, id: string)
    requires id in t.pending
    ensures Reaped(t, now, done + [id])
            == if Stays(t, now, id) then Reaped(t, now, done) else Reaped(t, now, done) - {id}
    ensures Held(t, now, done + [id]) == Held(t, now, done) + if Stays(t, now, id) then {t.pending[id].job} else {}
  {
    hide Authorized, Fresh;
    forall j
      ensures j in Held(t, now, done + [id])
              <==> j in Held(t, now, done) || (Stays(t, now, id) && j == t.pending[id].job)
    {
      if j in Held(t, now, done) {
        var x :| x in done && Stays(t, now, x) && t.pending[x].job == j;
        assert x in done + [id];
      }
      if Stays(t, now, id) && j == t.pending[id].job {
        assert id in done + [id];
      }
    }
  }

  lemma ReapedAll(t: Tables, now: int, rows: seq<string>)
    requires forall id :: id in t.pending ==> id in rows
    ensures Reaped(t, now, rows) == Kept(t, now) && Held(t, now, rows) == Outstanding(Kept(t, now))
  {
    hide Authorized, Fresh;
    assert Reaped(t, now, rows) == Kept(t, now);
    forall j ensures j in Held(t, now, rows) <==> j in Outstanding(Kept(t, now)) {
      if j in Held(t, now, rows) {
        var id :| id in rows && Stays(t, now, id) && t.pending[id].job == j;
        assert id in Kept(t, now) && Kept(t, now)[id].job == j;
      }
      if j in Outstanding(Kept(t, now)) {
        var id :| id in Kept(t, now) && Kept(t, now)[id].job == j;
        assert id in rows && Stays(t, now, id);
      }
    }
  }

  /** The governed rows in key order that are served, unless one is not allowed. */
  method CollectServing(lib: Library, t: Tables) returns (ok: bool, serving: seq<string>)
    ensures ok <==> GovernedAllowed(lib, t)
    ensures ok ==> Distinct(serving) && forall k :: k in serving <==> Serving(t, k)
  {
    hide RowAllowed, SortedText, Serving, TextLess;
    serving := [];
    if |t.governed| > MAX_GOVERNED {
      return false, [];
    }
    var rows := SortedText(t.governed.Keys);
    TextOrder();
    for i := 0 to |rows|
      invariant forall j :: 0 <= j < i ==> RowAllowed(lib, t, rows[j])
      invariant Distinct(serving) && forall k :: k in serving <==> k in rows[..i] && Serving(t, k)
    {
      var k := rows[i];
      assert k in t.governed.Keys && rows[..i + 1] == rows[..i] + [k];
      if !RowAllowed(lib, t, k) {
        return false, [];
      }
      SortedIsDistinct(TextLess, rows, i);
      if Serving(t, k) {
        serving := serving + [k];
      }
    }
    assert rows[..|rows|] == rows;
    forall k | k in t.governed ensures RowAllowed(lib, t, k) {
      assert k in rows;
      var j :| 0 <= j < |rows| && rows[j] == k;
    }
    ServingIsGoverned(t);
    return true, serving;
  }

  lemma ServingIsGoverned(t: Tables)
    ensures forall k :: Serving(t, k) ==> k in t.governed
  {
  }

  /** The jobs of one key, pushed in source order. */
  method PushJobs(jobs: seq<Job>, k: string, zones: seq<string>, outstanding: set<Job>) returns (r: seq<Job>)
    requires Distinct(jobs) && Distinct(zones) && forall j :: j in jobs ==> j.key != k
    ensures Distinct(r)
    ensures forall j :: j in r <==> j in jobs || (j.key == k && j.zone in zones && j !in outstanding)
  {
    r := jobs;
    for i := 0 to |zones|
      invariant Distinct(r)
      invariant forall j :: j in r <==> j in jobs || (j.key == k && j.zone in zones[..i] && j !in outstanding)
    {
      var zone := zones[i];
      assert zones[..i + 1] == zones[..i] + [zone] && zone !in zones[..i];
      var kinds := [Notify, Soa];
      ghost var start := r;
      for n := 0 to 2
        invariant Distinct(r)
        invariant forall j ::
                    j in r <==>
                      j in start || (j.key == k && j.zone == zone && j.kind in kinds[..n] && j !in outstanding)
      {
        var job := Job(k, zone, kinds[n]);
        assert kinds[..n + 1] == kinds[..n] + [kinds[n]] && kinds[n] !in kinds[..n];
        if job !in outstanding {
          r := r + [job];
        }
      }
      assert kinds[..2] == kinds && kinds[0] == Notify && kinds[1] == Soa;
      forall x: Kind ensures x in kinds {
        assert x == kinds[0] || x == kinds[1];
      }
      assert forall j :: j in r <==> j in start || (j.key == k && j.zone == zone && j !in outstanding);
      assert forall z :: z in zones[..i + 1] <==> z in zones[..i] || z == zone;
    }
    assert zones[..|zones|] == zones;
  }

  /** Sorting distinct jobs enumerates their set. */
  lemma SortDistinct(s: seq<Job>)
    requires Distinct(s)
    ensures Sorted(JobLess, SortBy(JobLess, Self, s))
    ensures forall j :: j in SortBy(JobLess, Self, s) <==> j in s
  {
    JobOrder();
    hide JobLess;
    assert DistinctKeys(Self, s);
    SortStrict(JobLess, Self, s);
    var t := SortBy(JobLess, Self, s);
    forall i, j | 0 <= i < j < |t| ensures JobLess(t[i], t[j]) {
      assert JobLess(Self(t[i]), Self(t[j]));
    }
  }

  method CollectJobs(lib: Library, t: Tables, serving: seq<string>, outstanding: set<Job>) returns (jobs: seq<Job>)
    requires GovernedAllowed(lib, t) && Distinct(serving) && forall k :: k in serving <==> Serving(t, k)
    ensures jobs == SortedJobs(Universe(t) - outstanding)
  {
    hide SortedJobs, JobLess, SecretMatches, CanonicalName, IsHexDigest, SocketAddress;
    jobs := [];
    for i := 0 to |serving|
      invariant Distinct(jobs)
      invariant forall j ::
                  j in jobs <==>
                    j.key in serving[..i] && j.key in t.governed && j.zone in t.governed[j.key].zones
                    && j !in outstanding
    {
      var k := serving[i];
      assert k in serving && Serving(t, k) && RowAllowed(lib, t, k);
      assert serving[..i + 1] == serving[..i] + [k] && k !in serving[..i];
      jobs := PushJobs(jobs, k, t.governed[k].zones, outstanding);
    }
    assert serving[..|serving|] == serving;
    SortDistinct(jobs);
    ghost var all := Universe(t) - outstanding;
    forall j ensures j in jobs <==> j in all {
      assert j == Job(j.key, j.zone, j.kind);
    }
    jobs := SortBy(JobLess, Self, jobs);
    JobOrder();
    SortedUnique(JobLess, jobs, SortedJobs(all));
  }

  method ExamineQueue(t: Tables, now: int, draw: nat -> Option<Draw>, kept: map<string, Pending>, queue: seq<Job>)
    returns (r: Outcome<Scan>)
    requires forall j :: j in queue ==> j.key in t.governed
    ensures r == Examine(t, now, draw, Scan(kept, [], None), queue)
  {
    hide ExamineOne;
    var scan := Scan(kept, [], None);
    var i := 0;
    assert queue[0..] == queue;
    while i < |queue| && |scan.work| < MAX_WORK
      invariant 0 <= i <= |queue|
      invariant Examine(t, now, draw, Scan(kept, [], None), queue) == Examine(t, now, draw, scan, queue[i..])
    {
      assert queue[i..][0] == queue[i] && queue[i..][1..] == queue[i + 1..];
      var next := ExamineOne(t, now, draw, scan, queue[i]);
      if next.Refused? {
        return Refused(next.reason);
      }
      scan, i := next.value, i + 1;
    }
    return Done(scan);
  }

  /** The tables behind the request handlers and the governance actions. */
  class Secondaries {
    var governed: map<string, Config>
    var secrets: map<string, Secret>
    var serials: map<string, int>
    var pending: map<string, Pending>
    var cursor: Option<Job>
    var status: map<(string, string), Status>

    function State(): Tables
      reads this
    {
      Tables(governed, secrets, serials, pending, cursor, status)
    }

    constructor ()
      ensures Valid(State()) && State() == Tables(map[], map[], map[], map[], None, map[])
    {
      governed, secrets, serials, pending, cursor, status := map[], map[], map[], map[], None, map[];
    }

    /** `secondary_requests`. */
    method HandleRequests(lib: Library, now: int, draw: nat -> Option<Draw>) returns (r: Outcome<seq<Item>>)
      requires Valid(State())
      modifies `pending, `cursor
      ensures Valid(State())
      ensures match Requested(lib, old(State()), now, draw)
              case Done(done) => r == Done(done.1) && State() == done.0
              case Refused(e) => r == Refused(e) && State() == old(State())
    {
      hide Valid, Examine, GovernedAllowed, Kept, SortedJobs;
      ghost var start := State();
      ghost var result := Requested(lib, start, now, draw);
      StepKeepsValid(lib, start, Requests(now, draw));
      var kept, outstanding := Reap(State(), now);
      var ok, serving := CollectServing(lib, State());
      if !ok {
        return Refused(Invalid);
      }
      var jobs := CollectJobs(lib, State(), serving, outstanding);
      QueueMembers(start, now);
      var queue := RotatedAfter(cursor, jobs);
      assert queue == Queue(start, now);
      var scan := ExamineQueue(State(), now, draw, kept, queue);
      if scan.Refused? {
        return Refused(scan.reason);
      }
      pending := scan.value.pending;
      if scan.value.last.Some? {
        cursor := scan.value.last;
      }
      return Done(scan.value.work);
    }

    /** `provision_transfer_key`; whether the secret was there already. */
    method ProvisionKey(lib: Library, s: Secret) returns (r: Outcome<bool>)
      requires Valid(State())
      modifies `secrets
      ensures Valid(State())
      ensures match Provisioned(lib, old(State()), s)
              case Done(t) => r == Done(s.keyName in old(secrets)) && State() == t && secrets[s.keyName] == s
              case Refused(e) => r == Refused(e) && State() == old(State())
      ensures forall k :: k in old(secrets) ==> k in secrets && secrets[k] == old(secrets)[k]
    {
      hide ConfigAllowed, CanonicalName;
      if !CanonicalName(s.keyName) || lib.keyDigest(s.text).None? || !(0 < |s.zones| <= 128) {
        return Refused(Invalid);
      }
      if s.keyName !in governed {
        return Refused(NotFound);
      }
      var c := governed[s.keyName];
      if s.zones != c.zones || s.keyName != c.keyName || !ConfigAllowed(lib, c) {
        return Refused(Invalid);
      }
      if c.revoked {
        return Refused(Denied);
      }
      if lib.keyDigest(s.text).value != c.secretDigest {
        return Refused(Invalid);
      }
      if s.keyName in secrets {
        if secrets[s.keyName] != s {
          return Refused(Conflict);
        }
        return Done(true);
      }
      secrets := secrets[s.keyName := s];
      return Done(false);
    }

    /** `secondary_response`. */
    method HandleResponse(lib: Library, now: int, id: string, endpoint: string,
            verify: (Secret, string) -> Option<Reply>)
      returns (r: Outcome<Status>)
      requires Valid(State())
      modifies `pending, `status
      ensures Valid(State())
      ensures match Responded(lib, old(State()), now, id, endpoint, verify)
              case Done(t) =>
                var p := old(pending)[id];
                r == Done(StatusAt(t, (p.job.zone, p.endpoint))) && State() == t
              case Refused(e) => r == Refused(e) && State() == old(State())
    {
      StepKeepsValid(lib, State(), Response(now, id, endpoint, verify));
      if !IsWorkId(id) {
        return Refused(Invalid);
      }
      if id !in pending {
        return Refused(NotFound);
      }
      var p := pending[id];
      if endpoint != p.endpoint || !Fresh(p, now) {
        return Refused(Invalid);
      }
      if p.job.key !in governed {
        return Refused(NotFound);
      }
      var c := governed[p.job.key];
      if c.endpoint != p.endpoint || p.job.zone !in c.zones {
        return Refused(Invalid);
      }
      var secret :- TransferKey(lib, State(), c);
      var m := verify(secret, p.mac);
      if m.None? || !Bound(p, m.value) {
        return Refused(Invalid);
      }
      var row := (p.job.zone, p.endpoint);
      var s :- Confirmed(p, m.value, now, StatusAt(State(), row));
      status := status[row := s];
      pending := pending - {id};
      return Done(s);
    }
  }
}
