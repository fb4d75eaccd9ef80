/** What the scheduler keeps over every run: one pending row per job, and a
    turn for every job. */
module SchedulerProofs {
  import opened Basics
  import opened Order
  import opened Seqs
  import opened App
  import opened Scheduler

  // ----- The invariant -----

  ghost predicate Keyed(governed: map<string, Config>) { forall k :: k in governed ==> governed[k].keyName == k }

  ghost predicate OnePerJob(pending: map<string, Pending>) {
    forall a, b :: a in pending && b in pending && pending[a].job == pending[b].job ==> a == b
  }

  ghost predicate Valid(t: Tables) {
    Keyed(t.governed) && |t.governed| <= MAX_GOVERNED && OnePerJob(t.pending)
  }

  lemma KeptIsOnePerJob(t: Tables, now: int)
    requires OnePerJob(t.pending)
    ensures OnePerJob(Kept(t, now))
  {
  }

  /** How many jobs of the queue one call examines. */
  function Reached(t: Tables, now: int, draw: nat -> Option<Draw>, scan: Scan, jobs: seq<Job>): (n: nat)
    requires forall j :: j in jobs ==> j.key in t.governed
    ensures n <= |jobs|
    decreases |jobs|
  {
    if jobs == [] || |scan.work| >= MAX_WORK then 0
    else match ExamineOne(t, now, draw, scan, jobs[0])
      case Refused(_) => 0
      case Done(next) => 1 + Reached(t, now, draw, next, jobs[1..])
  }

  ghost predicate HasRow(t: Tables, pending: map<string, Pending>, now: int, j: Job)
    requires j.key in t.governed && j.zone in t.serials
  {
    exists id :: id in pending && pending[id].job == j && pending[id].endpoint == t.governed[j.key].endpoint
                 && pending[id].issuedAt == now && pending[id].serial == t.serials[j.zone]
  }

  /** What examining a job came to. */
  ghost predicate Handled(t: Tables, pending: map<string, Pending>, now: int, j: Job)
    requires j.key in t.governed
  {
    j.zone in t.serials && (Settled(t, j) || HasRow(t, pending, now, j))
  }

  ghost predicate Issued(t: Tables, now: int, jobs: seq<Job>, p: Pending) {
    p.job in jobs && p.issuedAt == now && p.job.key in t.governed && p.endpoint == t.governed[p.job.key].endpoint
  }

  ghost predicate Disjoint(jobs: seq<Job>, pending: map<string, Pending>) {
    forall id :: id in pending ==> pending[id].job !in jobs
  }

  ghost predicate Extends(a: map<string, Pending>, b: map<string, Pending>) {
    forall id :: id in a ==> id in b && b[id] == a[id]
  }

  lemma ExamineOneFacts(t: Tables, now: int, draw: nat -> Option<Draw>, scan: Scan, jobs: seq<Job>)
    requires jobs != [] && (forall j :: j in jobs ==> j.key in t.governed) && Distinct(jobs)
    requires OnePerJob(scan.pending) && Disjoint(jobs, scan.pending)
    requires ExamineOne(t, now, draw, scan, jobs[0]).Done?
    ensures var next := ExamineOne(t, now, draw, scan, jobs[0]).value;
            && OnePerJob(next.pending) && Disjoint(jobs[1..], next.pending) && Extends(scan.pending, next.pending)
            && next.last == Some(jobs[0]) && |next.work| <= |scan.work| + 1
            && Handled(t, next.pending, now, jobs[0])
            && (forall id :: id in next.pending ==> id in scan.pending || Issued(t, now, jobs[..1], next.pending[id]))
  {
    hide Settled;
    var j := jobs[0];
    assert forall i :: 0 < i < |jobs| ==> jobs[i] != j;
    if !Settled(t, j) {
      var d := draw(|scan.work|).value;
      var next := Issue(t, now, scan, j, d);
      assert ExamineOne(t, now, draw, scan, j) == Done(next);
      assert next.pending[d.id].job == j;
    }
  }

  lemma HandledPersists(t: Tables, a: map<string, Pending>, b: map<string, Pending>, now: int, j: Job)
    requires j.key in t.governed && Handled(t, a, now, j) && Extends(a, b)
    ensures Handled(t, b, now, j)
  {
    hide Settled;
    if !Settled(t, j) {
      var id :| id in a && a[id].job == j && a[id].endpoint == t.governed[j.key].endpoint
                && a[id].issuedAt == now && a[id].serial == t.serials[j.zone];
      assert id in b && b[id] == a[id];
    }
  }

  /** The loop stops at the end of the queue or with a full batch, and handles all it examined. */
  lemma {:induction false} ExamineFacts(t: Tables, now: int, draw: nat -> Option<Draw>, scan: Scan, jobs: seq<Job>)
    requires (forall j :: j in jobs ==> j.key in t.governed) && Distinct(jobs)
    requires OnePerJob(scan.pending) && Disjoint(jobs, scan.pending) && |scan.work| <= MAX_WORK
    requires Examine(t, now, draw, scan, jobs).Done?
    ensures var end, n := Examine(t, now, draw, scan, jobs).value, Reached(t, now, draw, scan, jobs);
            && OnePerJob(end.pending) && Extends(scan.pending, end.pending)
            && |end.work| <= MAX_WORK && |end.work| <= |scan.work| + n && (n == |jobs| || |end.work| == MAX_WORK)
            && end.last == (if n == 0 then scan.last else Some(jobs[n - 1]))
            && (forall i :: 0 <= i < n ==> Handled(t, end.pending, now, jobs[i]))
            && (forall id :: id in end.pending ==> id in scan.pending || Issued(t, now, jobs, end.pending[id]))
    decreases |jobs|
  {
    hide ExamineOne, Handled, OnePerJob, Disjoint, Distinct;
    if jobs != [] && |scan.work| < MAX_WORK {
      ExamineOneFacts(t, now, draw, scan, jobs);
      var next := ExamineOne(t, now, draw, scan, jobs[0]).value;
      var rest := jobs[1..];
      DistinctTail(jobs);
      ExamineFacts(t, now, draw, next, rest);
      var end, n := Examine(t, now, draw, next, rest).value, Reached(t, now, draw, next, rest);
      HandledPersists(t, next.pending, end.pending, now, jobs[0]);
      forall i | 0 <= i < n + 1 ensures Handled(t, end.pending, now, jobs[i]) {
        if i > 0 {
          assert jobs[i] == rest[i - 1];
        }
      }
      assert forall j :: j in jobs[..1] || j in rest ==> j in jobs;
    }
  }

  lemma DistinctTail(jobs: seq<Job>)
    requires jobs != [] && Distinct(jobs)
    ensures Distinct(jobs[1..]) && forall j :: j in jobs[1..] ==> j in jobs
  {
  }

  // ----- The rotated order -----

  /** `a` is examined before `b` when the cursor stands at `cursor`. */
  predicate Precedes(cursor: Option<Job>, a: Job, b: Job) {
    match cursor
    case None => JobLess(a, b)
    case Some(c) =>
      (!JobAtMost(a, c) && JobAtMost(b, c)) || (JobAtMost(a, c) == JobAtMost(b, c) && JobLess(a, b))
  }

  lemma QueueOrder(cursor: Option<Job>, s: seq<Job>)
    requires Sorted(JobLess, s)
    ensures Distinct(RotatedAfter(cursor, s))
    ensures forall i, k :: 0 <= i < k < |s| ==> Precedes(cursor, RotatedAfter(cursor, s)[i], RotatedAfter(cursor, s)[k])
  {
    JobOrder();
    hide JobLess;
    var q := RotatedAfter(cursor, s);
    if cursor.Some? {
      var c := cursor.value;
      var n := CountAtMost(s, c);
      forall i | n <= i < |s| ensures !JobAtMost(s[i], c) {
        assert !JobAtMost(s[n], c);
      }
      forall i, k | 0 <= i < k < |s| ensures Precedes(cursor, q[i], q[k]) {
        var i', k' := (if i < |s| - n then i + n else i - (|s| - n)), (if k < |s| - n then k + n else k - (|s| - n));
        assert q[i] == s[i'] && q[k] == s[k'];
      }
    }
    forall i, k | 0 <= i < k < |q| ensures q[i] != q[k] {
      assert Precedes(cursor, q[i], q[k]);
    }
  }

  lemma AfterLast(cursor: Option<Job>, last: Job, u: Job, j: Job)
    requires Precedes(cursor, last, j) && Precedes(Some(last), u, j)
    ensures Precedes(cursor, u, j) && Precedes(cursor, last, u)
  {
    JobOrder();
    hide JobLess;
  }

  lemma PrecedesIsStrict(cursor: Option<Job>, a: Job, b: Job)
    ensures !(Precedes(cursor, a, b) && Precedes(cursor, b, a)) && !Precedes(cursor, a, a)
  {
    JobOrder();
    hide JobLess;
  }

  // ----- Progress -----

  /** The jobs of `u` that come before `j`. */
  function Ahead(cursor: Option<Job>, j: Job, u: set<Job>): set<Job> {
    set x | x in u && Precedes(cursor, x, j)
  }

  function Prefix(q: seq<Job>, n: nat): set<Job>
    requires n <= |q|
  {
    set i | 0 <= i < n :: q[i]
  }

  lemma {:induction false} PrefixSize(q: seq<Job>, n: nat)
    requires Distinct(q) && n <= |q|
    ensures |Prefix(q, n)| == n
  {
    if n > 0 {
      PrefixSize(q, n - 1);
      assert Prefix(q, n) == Prefix(q, n - 1) + {q[n - 1]};
    }
  }

  /** A full batch that ends before `j` shortens the way to `j` by the batch. */
  lemma BatchShortens(cursor: Option<Job>, q: seq<Job>, n: nat, p: nat, u: set<Job>)
    requires 0 < n <= p < |q| && Distinct(q) && forall i :: 0 <= i < |q| ==> q[i] in u
    requires forall i, k :: 0 <= i < k < |q| ==> Precedes(cursor, q[i], q[k])
    ensures |Ahead(Some(q[n - 1]), q[p], u)| + n <= |Ahead(cursor, q[p], u)|
  {
    hide Precedes, Distinct;
    var j, last := q[p], q[n - 1];
    var done, before, after := Prefix(q, n), Ahead(cursor, j, u), Ahead(Some(last), j, u);
    forall x | x in after ensures x in before && x !in done {
      AfterLast(cursor, last, x, j);
      if x in done {
        var i :| 0 <= i < n && q[i] == x;
        PrecedesIsStrict(cursor, q[i], last);
      }
    }
    PrefixSize(q, n);
    assert after + done <= before;
    assert after !! done;
    assert |after + done| == |after| + |done|;
    SubsetSize(after + done, before);
  }

  function ExaminedBy(t: Tables, now: int, draw: nat -> Option<Draw>): (r: seq<Job>)
    ensures |r| <= |Queue(t, now)| && r == Queue(t, now)[..|r|]
  {
    QueueMembers(t, now);
    var q := Queue(t, now);
    q[..Reached(t, now, draw, Scan(Kept(t, now), [], None), q)]
  }

  lemma QueueIsFresh(t: Tables, now: int)
    ensures Disjoint(Queue(t, now), Kept(t, now)) && Distinct(Queue(t, now))
    ensures |Queue(t, now)| == |Eligible(t, now)|
  {
    hide Kept, Universe, SortedJobs, Queue;
    assert Queue(t, now) == RotatedAfter(t.cursor, SortedJobs(Eligible(t, now))) by { QueueIs(t, now); }
    QueueMembers(t, now);
    QueueOrder(t.cursor, SortedJobs(Eligible(t, now)));
    forall id | id in Kept(t, now) ensures Kept(t, now)[id].job !in Queue(t, now) {
      assert Kept(t, now)[id].job in Outstanding(Kept(t, now));
    }
  }

  lemma QueueIs(t: Tables, now: int)
    ensures Queue(t, now) == RotatedAfter(t.cursor, SortedJobs(Eligible(t, now)))
  {
  }

  /** The effect of an accepted call, in terms of the queue. */
  lemma RequestFacts(lib: Library, t: Tables, now: int, draw: nat -> Option<Draw>)
    requires OnePerJob(t.pending) && Requested(lib, t, now, draw).Done?
    ensures var t', x := Requested(lib, t, now, draw).value.0, ExaminedBy(t, now, draw);
            && OnePerJob(t'.pending) && t' == t.(pending := t'.pending, cursor := t'.cursor)
            && t'.cursor == (if x == [] then t.cursor else Some(x[|x| - 1]))
            && (|x| == |Queue(t, now)| || |x| >= MAX_WORK)
            && (forall j :: j in x ==> j.key in t.governed && Handled(t, t'.pending, now, j))
            && Extends(Kept(t, now), t'.pending)
            && (forall id :: id in t'.pending ==> id in Kept(t, now) || Issued(t, now, Queue(t, now), t'.pending[id]))
            && |Requested(lib, t, now, draw).value.1| <= MAX_WORK
  {
    hide Kept, Queue, Eligible, Handled, OnePerJob, Examine, Reached, GovernedAllowed, Disjoint, Distinct;
    var q, start := Queue(t, now), Scan(Kept(t, now), [], None);
    QueueMembers(t, now);
    QueueIsFresh(t, now);
    KeptIsOnePerJob(t, now);
    ExamineFacts(t, now, draw, start, q);
    var n := Reached(t, now, draw, start, q);
    var x := ExaminedBy(t, now, draw);
    assert x == q[..n];
    forall j | j in x ensures j.key in t.governed && Handled(t, Requested(lib, t, now, draw).value.0.pending, now, j) {
      var i :| 0 <= i < n && q[i] == j;
    }
  }

  /** A call that misses an eligible job fills its batch and leaves the cursor at the batch's end. */
  lemma MissedMeansFull(lib: Library, t: Tables, now: int, draw: nat -> Option<Draw>, j: Job)
    requires OnePerJob(t.pending) && Requested(lib, t, now, draw).Done?
    requires j in Queue(t, now) && j !in ExaminedBy(t, now, draw)
    ensures var x := ExaminedBy(t, now, draw);
            && MAX_WORK <= |x| < |Queue(t, now)|
            && Requested(lib, t, now, draw).value.0.cursor == Some(Queue(t, now)[|x| - 1])
  {
    hide Kept, Eligible, Requested, ExaminedBy, Queue, Handled, OnePerJob;
    RequestFacts(lib, t, now, draw);
    var q, x := Queue(t, now), ExaminedBy(t, now, draw);
    assert x == q[..|x|];
    assert |x| == |q| ==> x == q;
  }

  lemma QueuePrecedes(t: Tables, now: int)
    ensures var q := Queue(t, now); forall i, k :: 0 <= i < k < |q| ==> Precedes(t.cursor, q[i], q[k])
  {
    hide Eligible, Precedes;
    QueueOrder(t.cursor, SortedJobs(Eligible(t, now)));
  }

  /** An accepted call that does not reach `j` brings the cursor 256 jobs closer to it. */
  lemma CallShortens(lib: Library, t: Tables, now: int, draw: nat -> Option<Draw>, u: set<Job>, j: Job)
    requires OnePerJob(t.pending) && Requested(lib, t, now, draw).Done?
    requires Eligible(t, now) <= u && j in Eligible(t, now) && j !in ExaminedBy(t, now, draw)
    ensures |Ahead(Requested(lib, t, now, draw).value.0.cursor, j, u)| + MAX_WORK <= |Ahead(t.cursor, j, u)|
  {
    hide Kept, Eligible, Requested, ExaminedBy, Queue, Ahead, Precedes, OnePerJob, Distinct, Disjoint;
    QueueMembers(t, now);
    MissedMeansFull(lib, t, now, draw, j);
    QueueIsFresh(t, now);
    QueuePrecedes(t, now);
    var q, x := Queue(t, now), ExaminedBy(t, now, draw);
    var p :| 0 <= p < |q| && q[p] == j;
    assert forall i :: 0 <= i < |x| ==> q[i] in x;
    BatchShortens(t.cursor, q, |x|, p, u);
  }

  // ----- Whole runs -----

  /** How many calls of a run were accepted. */
  function Calls(lib: Library, t: Tables, run: seq<Event>): nat {
    if run == [] then 0
    else Calls(lib, t, run[..|run| - 1]) + (if Accepted(lib, t, run, |run| - 1) then 1 else 0)
  }

  predicate Accepted(lib: Library, t: Tables, run: seq<Event>, i: nat)
    requires i < |run|
  {
    run[i].Requests? && Requested(lib, After(lib, t, run[..i]), run[i].now, run[i].draw).Done?
  }

  /** Every step keeps the invariant, so every run does. */
  lemma StepKeepsValid(lib: Library, t: Tables, e: Event)
    requires Valid(t)
    ensures Valid(Next(lib, t, e))
  {
    hide Requested, Responded, SetTransfer, OnePerJob;
    match e
    case Requests(now, draw) =>
      if Requested(lib, t, now, draw).Done? {
        RequestFacts(lib, t, now, draw);
      }
    case Response(now, id, endpoint, verify) =>
      if Responded(lib, t, now, id, endpoint, verify).Done? {
        ResponseRemoves(lib, t, now, id, endpoint, verify);
        FewerRows(t.pending, id);
      }
    case Set(c) => SetKeepsKeys(t, c);
    case Revoke(k) =>
      if k in t.governed {
        SizeAfterPut(t.governed, k, t.governed[k].(revoked := true));
      }
    case Provision(s) =>
    case Publish(serials) =>
  }

  lemma FewerRows(pending: map<string, Pending>, id: string)
    requires OnePerJob(pending)
    ensures OnePerJob(pending - {id})
  {
  }

  lemma SetKeepsKeys(t: Tables, c: Config)
    requires Keyed(t.governed) && |t.governed| <= MAX_GOVERNED
    ensures SetTransfer(t, c).Done? ==>
              var t' := SetTransfer(t, c).value;
              Keyed(t'.governed) && |t'.governed| <= MAX_GOVERNED && t'.pending == t.pending
  {
    SizeAfterPut(t.governed, c.keyName, c.(revoked := false));
  }

  /** An accepted response consumes exactly its own row, so it is accepted once. */
  lemma ResponseRemoves(lib: Library, t: Tables, now: int, id: string, endpoint: string, verify: (Secret,
          string) -> Option<Reply>)
    requires Keyed(t.governed) && Responded(lib, t, now, id, endpoint, verify).Done?
    ensures var t' := Responded(lib, t, now, id, endpoint, verify).value;
            && id in t.pending && t'.pending == t.pending - {id}
            && t' == t.(pending := t'.pending, status := t'.status)
            && Authorized(t.governed, t.pending[id]) && Fresh(t.pending[id], now)
  {
  }

  /** Over every run there is never more than one pending row for a key, zone and kind. */
  lemma {:induction false} AlwaysOnePerJob(lib: Library, t: Tables, run: seq<Event>)
    requires Valid(t)
    ensures Valid(After(lib, t, run))
  {
    hide Valid, Next;
    if run != [] {
      AlwaysOnePerJob(lib, t, run[..|run| - 1]);
      StepKeepsValid(lib, After(lib, t, run[..|run| - 1]), run[|run| - 1]);
    }
  }

  /** The tables just before step `i`. */
  function Before(lib: Library, t: Tables, run: seq<Event>, i: nat): Tables
    requires i < |run|
  {
    After(lib, t, run[..i])
  }

  /** `j` is eligible, within the universe `u`, at every accepted call of the run. */
  ghost predicate AlwaysEligible(lib: Library, t: Tables, run: seq<Event>, u: set<Job>, j: Job) {
    forall i :: 0 <= i < |run| && Accepted(lib, t, run, i) ==>
      var s := Before(lib, t, run, i);
      j in Eligible(s, run[i].now) && Eligible(s, run[i].now) <= u
  }

  /** Step `i` is an accepted call that took `j`: it found the NOTIFY confirmed or left a row for it. */
  ghost predicate Took(lib: Library, t: Tables, run: seq<Event>, i: nat, j: Job)
    requires i < |run|
  {
    && Accepted(lib, t, run, i) && j.key in Before(lib, t, run, i).governed
    && Handled(Before(lib, t, run, i), After(lib, t, run[..i + 1]).pending, run[i].now, j)
  }

  lemma CallsSplit(lib: Library, t: Tables, run: seq<Event>, i: nat)
    requires i < |run|
    ensures Calls(lib, t, run[..i + 1]) == Calls(lib, t, run[..i]) + (if Accepted(lib, t, run, i) then 1 else 0)
    ensures After(lib, t, run[..i + 1]) == Next(lib, Before(lib, t, run, i), run[i])
  {
    hide Next, Requested;
    var front := run[..i + 1];
    assert front[..i] == run[..i] && front[i] == run[i];
  }

  lemma OnlyCallsMoveTheCursor(lib: Library, t: Tables, e: Event)
    requires Keyed(t.governed) && !e.Requests?
    ensures Next(lib, t, e).cursor == t.cursor
  {
    hide Responded;
    if e.Response? && Responded(lib, t, e.now, e.id, e.endpoint, e.verify).Done? {
      ResponseRemoves(lib, t, e.now, e.id, e.endpoint, e.verify);
    }
  }

  /** One step of a run that does not take `j`. */
  lemma StepShortens(lib: Library, t: Tables, run: seq<Event>, u: set<Job>, j: Job, i: nat)
    requires Valid(t) && i < |run| && AlwaysEligible(lib, t, run, u, j) && !Took(lib, t, run, i, j)
    ensures |Ahead(After(lib, t, run[..i + 1]).cursor, j, u)| + (if Accepted(lib, t, run, i) then MAX_WORK else 0)
            <= |Ahead(Before(lib, t, run, i).cursor, j, u)|
  {
    hide Requested, Eligible, Ahead, Handled, ExaminedBy, OnePerJob, Keyed;
    AlwaysOnePerJob(lib, t, run[..i]);
    CallsSplit(lib, t, run, i);
    var s := Before(lib, t, run, i);
    if Accepted(lib, t, run, i) {
      RequestFacts(lib, s, run[i].now, run[i].draw);
      CallShortens(lib, s, run[i].now, run[i].draw, u, j);
    } else if !run[i].Requests? {
      OnlyCallsMoveTheCursor(lib, s, run[i]);
    }
  }

  lemma {:induction false} UntakenShortens(lib: Library, t: Tables, run: seq<Event>, u: set<Job>, j: Job, n: nat)
    requires Valid(t) && n <= |run| && AlwaysEligible(lib, t, run, u, j)
    requires forall i :: 0 <= i < n ==> !Took(lib, t, run, i, j)
    ensures MAX_WORK * Calls(lib, t, run[..n]) + |Ahead(After(lib, t, run[..n]).cursor, j, u)|
            <= |Ahead(t.cursor, j, u)|
  {
    hide Requested, Eligible, Ahead, Took, Valid, AlwaysEligible, Accepted;
    if n == 0 {
      assert run[..0] == [];
    } else {
      UntakenShortens(lib, t, run, u, j, n - 1);
      StepShortens(lib, t, run, u, j, n - 1);
      CallsSplit(lib, t, run, n - 1);
    }
  }

  /** No starvation. Whatever responses, governance changes, provisioning and
      publishing happen in between, a job eligible at every accepted call is
      taken by the time 256 times the number of those calls reaches the number
      of jobs that were ever eligible: within ceil(|u| / 256) calls. */
  lemma EveryEligibleJobIsTaken(lib: Library, t: Tables, run: seq<Event>, u: set<Job>, j: Job)
    requires Valid(t) && AlwaysEligible(lib, t, run, u, j)
    requires j in u && MAX_WORK * Calls(lib, t, run) >= |u|
    ensures exists i :: 0 <= i < |run| && Took(lib, t, run, i, j)
  {
    hide Took, Valid, AlwaysEligible, After, Calls, Precedes;
    if forall i :: 0 <= i < |run| ==> !Took(lib, t, run, i, j) {
      UntakenShortens(lib, t, run, u, j, |run|);
      assert run[..|run|] == run;
      PrecedesIsStrict(t.cursor, j, j);
      SubsetSize(Ahead(t.cursor, j, u), u - {j});
    }
  }

  // ----- What a call leaves behind -----

  lemma RowIsGoverned(lib: Library, t: Tables, now: int, draw: nat -> Option<Draw>, id: string)
    requires Valid(t) && Requested(lib, t, now, draw).Done? && id in Requested(lib, t, now, draw).value.0.pending
    ensures var p := Requested(lib, t, now, draw).value.0.pending[id];
            Authorized(t.governed, p) && Fresh(p, now)
  {
    hide Requested, Queue, Handled, OnePerJob;
    RequestFacts(lib, t, now, draw);
    QueueMembers(t, now);
  }

  function GovernedJobs(governed: map<string, Config>): set<Job> {
    set k, z, kind: Kind | k in governed && z in governed[k].zones :: Job(k, z, kind)
  }

  lemma {:induction false} RowsInject(pending: map<string, Pending>, jobs: set<Job>)
    requires OnePerJob(pending) && forall id :: id in pending ==> pending[id].job in jobs
    ensures |pending| <= |jobs|
  {
    if pending != map[] {
      var id := SomeElement(pending.Keys);
      var rest := pending - {id};
      assert rest.Keys == pending.Keys - {id};
      RowsInject(rest, jobs - {pending[id].job});
    }
  }

  /** After an accepted call every row is authorized and fresh, and the rows
      number no more than the governed jobs. */
  lemma RowsAreGoverned(lib: Library, t: Tables, now: int, draw: nat -> Option<Draw>)
    requires Valid(t) && Requested(lib, t, now, draw).Done?
    ensures var t' := Requested(lib, t, now, draw).value.0;
            && (forall id :: id in t'.pending ==> Authorized(t'.governed, t'.pending[id]) && Fresh(t'.pending[id], now))
            && |t'.pending| <= |GovernedJobs(t'.governed)|
  {
    hide Requested, Queue, Handled;
    RequestFacts(lib, t, now, draw);
    var t' := Requested(lib, t, now, draw).value.0;
    forall id | id in t'.pending
      ensures Authorized(t'.governed, t'.pending[id]) && Fresh(t'.pending[id], now)
      ensures t'.pending[id].job in GovernedJobs(t'.governed)
    {
      RowIsGoverned(lib, t, now, draw, id);
      var j := t'.pending[id].job;
      assert j == Job(j.key, j.zone, j.kind);
    }
    RowsInject(t'.pending, GovernedJobs(t'.governed));
  }

  /** Revocation is permanent and fixes the whole row; a governed identity never
      changes endpoint or secret. */
  lemma {:induction false} IdentityIsPermanent(lib: Library, t: Tables, run: seq<Event>, k: string)
    requires Valid(t) && k in t.governed
    ensures var t' := After(lib, t, run);
            && k in t'.governed && (t.governed[k].revoked ==> t'.governed[k] == t.governed[k])
            && t'.governed[k].endpoint == t.governed[k].endpoint
            && t'.governed[k].secretDigest == t.governed[k].secretDigest
  {
    hide Requested, Responded, Valid;
    if run != [] {
      var front, e := run[..|run| - 1], run[|run| - 1];
      IdentityIsPermanent(lib, t, front, k);
      AlwaysOnePerJob(lib, t, front);
      StepKeepsIdentity(lib, After(lib, t, front), e);
    }
  }

  lemma StepKeepsIdentity(lib: Library, t: Tables, e: Event)
    requires Valid(t)
    ensures e.Requests? || e.Response? || e.Provision? || e.Publish? ==> Next(lib, t, e).governed == t.governed
  {
    hide Requested, Responded;
    match e
    case Requests(now, draw) =>
      if Requested(lib, t, now, draw).Done? {
        RequestFacts(lib, t, now, draw);
      }
    case Response(now, id, endpoint, verify) =>
      if Responded(lib, t, now, id, endpoint, verify).Done? {
        ResponseRemoves(lib, t, now, id, endpoint, verify);
      }
    case _ =>
  }
}
