/** Which calls of the scheduler are accepted, and what that means for every run. */
module SchedulerLiveness {
  import opened Basics
  import opened Seqs
  import opened FieldText
  import opened Scheduler
  import opened SchedulerProofs

  // ----- When a call is accepted -----

  ghost predicate OfGoverned(t: Tables, jobs: seq<Job>) { forall j :: j in jobs ==> j.key in t.governed }

  /** Needs no request: a NOTIFY already confirmed for the current serial. */
  predicate Idle(t: Tables, j: Job)
    requires j.key in t.governed
  {
    j.zone in t.serials && Settled(t, j)
  }

  /** How many of `jobs` are looked at when `room` more requests may be made. */
  ghost function Span(t: Tables, jobs: seq<Job>, room: nat): (n: nat)
    requires OfGoverned(t, jobs)
    ensures n <= |jobs|
    decreases |jobs|
  {
    if jobs == [] || room == 0 then 0
    else 1 + Span(t, jobs[1..], if Idle(t, jobs[0]) then room else room - 1)
  }

  /** How many requests that makes. */
  ghost function Used(t: Tables, jobs: seq<Job>, room: nat): (n: nat)
    requires OfGoverned(t, jobs)
    ensures n <= room
    decreases |jobs|
  {
    if jobs == [] || room == 0 then 0
    else if Idle(t, jobs[0]) then Used(t, jobs[1..], room) else 1 + Used(t, jobs[1..], room - 1)
  }

  ghost predicate ZonesExist(t: Tables, jobs: seq<Job>) { forall j :: j in jobs ==> j.zone in t.serials }

  /** The draws from `from` up to `to` succeed with ids that are new and differ from each other. */
  ghost predicate DrawsFresh(draw: nat -> Option<Draw>, taken: set<string>, from: nat, to: nat) {
    forall m :: from <= m < to ==>
      && draw(m).Some? && draw(m).value.id !in taken
      && forall i :: from <= i < m ==> draw(i).Some? && draw(i).value.id != draw(m).value.id
  }

  lemma DrawsFreshStep(draw: nat -> Option<Draw>, taken: set<string>, from: nat, to: nat)
    requires from < to
    ensures DrawsFresh(draw, taken, from, to)
            <==> && draw(from).Some? && draw(from).value.id !in taken
                 && DrawsFresh(draw, taken + {draw(from).value.id}, from + 1, to)
  {
    if draw(from).Some? && draw(from).value.id !in taken {
      var more := taken + {draw(from).value.id};
      if DrawsFresh(draw, more, from + 1, to) {
        assert forall m :: from < m < to ==> draw(m).Some? && draw(m).value.id !in more;
      }
    }
  }

  /** The examined part of the queue has its zones, and its draws are fresh. */
  ghost predicate Succeeds(t: Tables, draw: nat -> Option<Draw>, taken: set<string>, from: nat, jobs: seq<Job>)
    requires OfGoverned(t, jobs) && from <= MAX_WORK
  {
    && ZonesExist(t, jobs[..Span(t, jobs, MAX_WORK - from)])
    && DrawsFresh(draw, taken, from, from + Used(t, jobs, MAX_WORK - from))
  }

  lemma SucceedsStep(t: Tables, draw: nat -> Option<Draw>, taken: set<string>, from: nat, jobs: seq<Job>)
    requires OfGoverned(t, jobs) && from < MAX_WORK && jobs != []
    ensures Succeeds(t, draw, taken, from, jobs)
            <==> if Idle(t, jobs[0]) then Succeeds(t, draw, taken, from, jobs[1..])
                 else && jobs[0].zone in t.serials && draw(from).Some? && draw(from).value.id !in taken
                      && Succeeds(t, draw, taken + {draw(from).value.id}, from + 1, jobs[1..])
  {
    hide Idle, DrawsFresh;
    var j, rest, room := jobs[0], jobs[1..], MAX_WORK - from;
    var n := Span(t, rest, if Idle(t, j) then room else room - 1);
    assert jobs[..n + 1] == [j] + rest[..n];
    IdleHasZone(t, j);
    if !Idle(t, j) {
      DrawsFreshStep(draw, taken, from, from + Used(t, jobs, room));
    }
  }

  lemma IdleHasZone(t: Tables, j: Job)
    requires j.key in t.governed
    ensures Idle(t, j) ==> j.zone in t.serials
  {
  }

  lemma {:induction false} ExamineAcceptedIff(t: Tables, now: int, draw: nat -> Option<Draw>, scan: Scan,
          jobs: seq<Job>)
    requires OfGoverned(t, jobs) && |scan.work| <= MAX_WORK
    ensures Examine(t, now, draw, scan, jobs).Done? <==> Succeeds(t, draw, scan.pending.Keys, |scan.work|, jobs)
    decreases |jobs|
  {
    hide Settled, Succeeds;
    if jobs == [] || |scan.work| == MAX_WORK {
      NothingDrawn(t, draw, scan.pending.Keys, |scan.work|, jobs);
    } else {
      var j, from := jobs[0], |scan.work|;
      SucceedsStep(t, draw, scan.pending.Keys, from, jobs);
      if Idle(t, j) {
        ExamineAcceptedIff(t, now, draw, scan.(last := Some(j)), jobs[1..]);
      } else if j.zone in t.serials && draw(from).Some? && draw(from).value.id !in scan.pending {
        var next := Issue(t, now, scan, j, draw(from).value);
        assert next.pending.Keys == scan.pending.Keys + {draw(from).value.id};
        ExamineAcceptedIff(t, now, draw, next, jobs[1..]);
      }
    }
  }

  lemma NothingDrawn(t: Tables, draw: nat -> Option<Draw>, taken: set<string>, from: nat, jobs: seq<Job>)
    requires OfGoverned(t, jobs) && from <= MAX_WORK && (jobs == [] || from == MAX_WORK)
    ensures Succeeds(t, draw, taken, from, jobs)
  {
  }

  /** The jobs a call looks at, and the requests it makes for them. */
  ghost function Batch(t: Tables, now: int): seq<Job> {
    QueueMembers(t, now);
    Queue(t, now)[..Span(t, Queue(t, now), MAX_WORK)]
  }

  ghost function Load(t: Tables, now: int): nat {
    QueueMembers(t, now);
    Used(t, Queue(t, now), MAX_WORK)
  }

  /** Exactly when a call is accepted: every governed row is allowed, the zone of
      every job it looks at exists, and its draws give new ids. */
  lemma RequestAcceptedIff(lib: Library, t: Tables, now: int, draw: nat -> Option<Draw>)
    ensures Requested(lib, t, now, draw).Done?
            <==> && GovernedAllowed(lib, t) && ZonesExist(t, Batch(t, now))
                 && DrawsFresh(draw, Kept(t, now).Keys, 0, Load(t, now))
  {
    hide GovernedAllowed, Queue, Kept, Examine, Span, Used, DrawsFresh, ZonesExist;
    QueueMembers(t, now);
    ExamineAcceptedIff(t, now, draw, Scan(Kept(t, now), [], None), Queue(t, now));
  }

  /** A call is refused, and everything stays as it was, while some job of its batch
      names a zone that does not exist; the first job in turn is always in the batch. */
  lemma MissingZoneStopsTheCall(lib: Library, t: Tables, now: int, draw: nat -> Option<Draw>, j: Job)
    requires j in Batch(t, now) || (Queue(t, now) != [] && j == Queue(t, now)[0])
    requires j.zone !in t.serials
    ensures Requested(lib, t, now, draw).Refused? && Next(lib, t, Requests(now, draw)) == t
  {
    hide GovernedAllowed, Queue, Kept, DrawsFresh, Requested;
    QueueMembers(t, now);
    assert Queue(t, now) != [] ==> Batch(t, now)[0] == Queue(t, now)[0];
    RequestAcceptedIff(lib, t, now, draw);
  }

  lemma {:induction false} ReachedIsSpan(t: Tables, now: int, draw: nat -> Option<Draw>, scan: Scan, jobs: seq<Job>)
    requires OfGoverned(t, jobs) && |scan.work| <= MAX_WORK && Examine(t, now, draw, scan, jobs).Done?
    ensures Reached(t, now, draw, scan, jobs) == Span(t, jobs, MAX_WORK - |scan.work|)
    decreases |jobs|
  {
    hide Settled;
    if jobs != [] && |scan.work| < MAX_WORK {
      ReachedIsSpan(t, now, draw, ExamineOne(t, now, draw, scan, jobs[0]).value, jobs[1..]);
    }
  }

  /** An accepted call examines exactly its batch. */
  lemma AcceptedExaminesBatch(lib: Library, t: Tables, now: int, draw: nat -> Option<Draw>)
    requires Requested(lib, t, now, draw).Done?
    ensures ExaminedBy(t, now, draw) == Batch(t, now)
  {
    hide GovernedAllowed, Queue, Kept, Examine, Span, Reached;
    QueueMembers(t, now);
    ReachedIsSpan(t, now, draw, Scan(Kept(t, now), [], None), Queue(t, now));
  }

  // ----- Runs in which every call is accepted -----

  /** What the operator can see to: allowed rows, a zone behind every served name,
      and 256 draws with ids that are new. */
  ghost predicate Provided(lib: Library, t: Tables, draw: nat -> Option<Draw>) {
    && GovernedAllowed(lib, t) && (forall j :: j in Universe(t) ==> j.zone in t.serials)
    && DrawsFresh(draw, t.pending.Keys, 0, MAX_WORK)
  }

  lemma ProvidedIsAccepted(lib: Library, t: Tables, now: int, draw: nat -> Option<Draw>)
    requires Provided(lib, t, draw)
    ensures Requested(lib, t, now, draw).Done?
  {
    hide GovernedAllowed, Queue, Universe, DrawsFresh;
    QueueMembers(t, now);
    FewerDraws(draw, t.pending.Keys, Kept(t, now).Keys, MAX_WORK, Load(t, now));
    forall j | j in Batch(t, now) ensures j.zone in t.serials {
      assert j in Queue(t, now);
    }
    RequestAcceptedIff(lib, t, now, draw);
  }

  lemma FewerDraws(draw: nat -> Option<Draw>, taken: set<string>, fewer: set<string>, n: nat, m: nat)
    requires DrawsFresh(draw, taken, 0, n) && fewer <= taken && m <= n
    ensures DrawsFresh(draw, fewer, 0, m)
  {
  }

  function CallsMade(run: seq<Event>): nat {
    if run == [] then 0 else CallsMade(run[..|run| - 1]) + (if run[|run| - 1].Requests? then 1 else 0)
  }

  ghost predicate AlwaysProvided(lib: Library, t: Tables, run: seq<Event>) {
    forall i :: 0 <= i < |run| && run[i].Requests? ==> Provided(lib, Before(lib, t, run, i), run[i].draw)
  }

  lemma {:induction false} AllCallsAccepted(lib: Library, t: Tables, run: seq<Event>, n: nat)
    requires n <= |run| && AlwaysProvided(lib, t, run)
    ensures Calls(lib, t, run[..n]) == CallsMade(run[..n])
  {
    hide Provided, Requested;
    if n > 0 {
      AllCallsAccepted(lib, t, run, n - 1);
      CallsSplit(lib, t, run, n - 1);
      var front := run[..n];
      assert front[..n - 1] == run[..n - 1] && front[n - 1] == run[n - 1];
      if run[n - 1].Requests? {
        ProvidedIsAccepted(lib, Before(lib, t, run, n - 1), run[n - 1].now, run[n - 1].draw);
      }
    }
  }

  /** No starvation, counting every call: while rows, zones and draws are provided
      for, a job that stays eligible is taken within ceil(|u| / 256) calls. */
  lemma EveryJobGetsItsTurn(lib: Library, t: Tables, run: seq<Event>, u: set<Job>, j: Job)
    requires Valid(t) && AlwaysProvided(lib, t, run) && AlwaysEligible(lib, t, run, u, j)
    requires j in u && MAX_WORK * CallsMade(run) >= |u|
    ensures exists i :: 0 <= i < |run| && Took(lib, t, run, i, j)
  {
    hide Took, Valid, AlwaysEligible, AlwaysProvided, Calls, CallsMade;
    AllCallsAccepted(lib, t, run, |run|);
    assert run[..|run|] == run;
    EveryEligibleJobIsTaken(lib, t, run, u, j);
  }

  // ----- Runs in which the scheduler stands still -----

  /** At every accepted call the zone of `j` does not exist. */
  ghost predicate StaysMissing(lib: Library, t: Tables, run: seq<Event>, j: Job) {
    forall i :: 0 <= i < |run| && Accepted(lib, t, run, i) ==> j.zone !in Before(lib, t, run, i).serials
  }

  /** While an eligible job's zone is missing, fewer than |u| / 256 further calls are
      accepted, however many are made and whatever else happens. */
  lemma MissingZoneStopsCalls(lib: Library, t: Tables, run: seq<Event>, u: set<Job>, j: Job)
    requires Valid(t) && AlwaysEligible(lib, t, run, u, j) && j in u && StaysMissing(lib, t, run, j)
    ensures MAX_WORK * Calls(lib, t, run) < |u|
  {
    hide Valid, AlwaysEligible, After, Calls, Precedes, Requested;
    UntakenShortens(lib, t, run, u, j, |run|);
    assert run[..|run|] == run;
    PrecedesIsStrict(t.cursor, j, j);
    SubsetSize(Ahead(t.cursor, j, u), u - {j});
  }

  // ----- A stopped scheduler -----

  /** Two provisioned keys `a` and `b` with a zone each, `x` and `y`; only `x` has been created. */
  function Stopped(a: string, b: string, x: string, y: string, digest: string): Tables {
    Tables(map[a := Config(a, DocumentationAddress('1'), [x], digest, false),
               b := Config(b, DocumentationAddress('2'), [y], digest, false)],
           map[a := Secret(a, "", [x]), b := Secret(b, "", [y])], map[x := 1], map[], None, map[])
  }

  /** Every row of this table is allowed and the jobs of `a` could be done, but each
      call is refused as long as nothing else happens. */
  lemma OneMissingZoneStopsAll(lib: Library, a: string, b: string, x: string, y: string, digest: string, now: int,
          draw: nat -> Option<Draw>)
    requires a != b && x != y && IsHexDigest(digest) && lib.keyDigest("") == Some(digest)
    requires CanonicalName(a) && CanonicalName(b) && CanonicalName(x) && CanonicalName(y)
    ensures var t := Stopped(a, b, x, y, digest);
            && Valid(t) && GovernedAllowed(lib, t)
            && Job(a, x, Soa) in Eligible(t, now) && x in t.serials
            && Requested(lib, t, now, draw).Refused?
  {
    hide Queue, Requested, DrawsFresh, Span, Eligible, GovernedAllowed, Valid, CanonicalName, IsHexDigest;
    var t := Stopped(a, b, x, y, digest);
    StoppedRows(lib, a, b, x, y, digest);
    StoppedJobs(a, b, x, y, digest, now);
    QueueMembers(t, now);
    SmallBatch(t, now);
    MissingZoneStopsTheCall(lib, t, now, draw, Job(b, y, Soa));
  }

  /** Names, digest and library code as the table needs them exist. */
  lemma StoppedTableExists() returns (lib: Library, digest: string)
    ensures IsHexDigest(digest) && lib.keyDigest("") == Some(digest)
    ensures CanonicalName("a.") && CanonicalName("b.") && CanonicalName("x.") && CanonicalName("y.")
  {
    var d := Repeated('0', 64);
    digest, lib := d, Library(s => false, s => Some(d));
    OneLetterName('a');
    OneLetterName('b');
    OneLetterName('x');
    OneLetterName('y');
  }

  lemma OneLetterName(c: char)
    requires 'a' <= c <= 'z'
    ensures CanonicalName([c] + ".")
  {
    var s := [c] + ".";
    assert s[..1] == [c] && [c][1..] == "" && [c] + "" == [c];
    assert SplitDots("") == [""] && [""][1..] == [];
    assert SplitDots([c]) == [[c]];
  }

  function DocumentationAddress(d: char): string { "192.0.2." + [d] + ":53" }

  lemma IsAddress(ipv6Ok: string -> bool, d: char)
    requires d == '1' || d == '2'
    ensures SocketAddress(ipv6Ok, DocumentationAddress(d))
  {
    hide Octet, Decimal;
    var s := DocumentationAddress(d);
    var host := "192.0.2." + [d];
    assert s[..9] == host && s[10..] == "53";
    SmallNumbers();
    assert host[..3] == "192" && host[8..] == [d] && ['1'] == "1" && ['2'] == "2";
    assert host[4..5] == "0";
    assert host[6..7] == "2";
    assert Quartered(host, 3, 5, 7);
    assert AddressSplit(ipv6Ok, s, 9);
  }

  lemma SmallNumbers()
    ensures Octet("192") && Octet("0") && Octet("1") && Octet("2") && Decimal("53", 5, 1, 65535)
  {
    assert "192"[..2] == "19" && "19"[..1] == "1" && "53"[..1] == "5";
    assert forall c: char :: [c][..0] == "";
    assert Value("1") == 1 && Value("19") == 19 && Value("192") == 192 && Value("5") == 5 && Value("53") == 53;
  }

  lemma StoppedRows(lib: Library, a: string, b: string, x: string, y: string, digest: string)
    requires a != b && x != y && IsHexDigest(digest) && lib.keyDigest("") == Some(digest)
    requires CanonicalName(a) && CanonicalName(b) && CanonicalName(x) && CanonicalName(y)
    ensures Valid(Stopped(a, b, x, y, digest)) && GovernedAllowed(lib, Stopped(a, b, x, y, digest))
  {
    hide CanonicalName, IsHexDigest, SocketAddress, DocumentationAddress;
    var t := Stopped(a, b, x, y, digest);
    IsAddress(lib.ipv6Ok, '1');
    IsAddress(lib.ipv6Ok, '2');
    assert t.governed.Keys == {a, b};
    assert RowAllowed(lib, t, a) && RowAllowed(lib, t, b);
  }

  lemma EitherKind(j: Job)
    ensures j == Job(j.key, j.zone, Soa) || j == Job(j.key, j.zone, Notify)
  {
    match j.kind
    case Notify =>
    case Soa =>
  }

  lemma StoppedJobs(a: string, b: string, x: string, y: string, digest: string, now: int)
    requires a != b
    ensures var e := Eligible(Stopped(a, b, x, y, digest), now);
            Job(a, x, Soa) in e && Job(b, y, Soa) in e && |e| <= 4
  {
    var t := Stopped(a, b, x, y, digest);
    assert Kept(t, now) == map[];
    assert Serving(t, a) && Serving(t, b);
    var all := {Job(a, x, Soa), Job(a, x, Notify), Job(b, y, Soa), Job(b, y, Notify)};
    forall j | j in Universe(t) ensures j in all {
      assert (j.key == a && j.zone == x) || (j.key == b && j.zone == y);
      EitherKind(j);
    }
    SubsetSize(Eligible(t, now), all);
  }

  /** Fewer jobs than requests fit in a call are all looked at. */
  lemma SmallBatch(t: Tables, now: int)
    requires |Eligible(t, now)| <= MAX_WORK
    ensures Batch(t, now) == Queue(t, now)
  {
    hide Queue, Eligible;
    QueueMembers(t, now);
    QueueIsFresh(t, now);
    SpanOfFew(t, Queue(t, now), MAX_WORK);
  }

  lemma {:induction false} SpanOfFew(t: Tables, jobs: seq<Job>, room: nat)
    requires OfGoverned(t, jobs) && |jobs| <= room
    ensures Span(t, jobs, room) == |jobs|
    decreases |jobs|
  {
    if jobs != [] {
      SpanOfFew(t, jobs[1..], if Idle(t, jobs[0]) then room else room - 1);
    }
  }
}
