/** When the scheduler has stopped for good, and what governance can do about a row
    that stops it. */
module SchedulerRepair {
  import opened Basics
  import opened Seqs
  import opened FieldText
  import opened Scheduler
  import opened SchedulerProofs
  import opened SchedulerLiveness

  // ----- Rows beyond repair -----

  /** A governed row that no action can make allowed again: its key name, endpoint
      or digest is refused, or it is revoked with zones that are. */
  predicate BeyondRepair(lib: Library, c: Config) {
    || !CanonicalName(c.keyName) || !SocketAddress(lib.ipv6Ok, c.endpoint) || !IsHexDigest(c.secretDigest)
    || (c.revoked && !ZonesAllowed(c.zones))
  }

  /** After the run the row of `k` is allowed, so that it does not refuse a call. */
  ghost predicate AllowedAfter(lib: Library, t: Tables, run: seq<Event>, k: string) {
    k in After(lib, t, run).governed && RowAllowed(lib, After(lib, t, run), k)
  }

  lemma NeverAllowed(lib: Library, t: Tables, run: seq<Event>, k: string)
    requires Valid(t) && k in t.governed && BeyondRepair(lib, t.governed[k])
    ensures !AllowedAfter(lib, t, run, k) && k in After(lib, t, run).governed
  {
    hide After, ZonesAllowed, OnePerJob, CanonicalName, IsHexDigest, SocketAddress;
    AlwaysOnePerJob(lib, t, run);
    IdentityIsPermanent(lib, t, run, k);
  }

  /** Such a row, even revoked, refuses every call of every later run. */
  lemma BadRowStopsEveryCall(lib: Library, t: Tables, run: seq<Event>, k: string, now: int, draw: nat -> Option<Draw>)
    requires Valid(t) && k in t.governed && BeyondRepair(lib, t.governed[k])
    ensures Requested(lib, After(lib, t, run), now, draw).Refused?
  {
    hide After, RowAllowed, BeyondRepair, Valid;
    NeverAllowed(lib, t, run, k);
  }

  lemma {:induction false} BadRowStopsTheRun(lib: Library, t: Tables, run: seq<Event>, k: string)
    requires Valid(t) && k in t.governed && BeyondRepair(lib, t.governed[k])
    ensures Calls(lib, t, run) == 0
  {
    hide Valid, BeyondRepair, Requested;
    if run != [] {
      var front, e := run[..|run| - 1], run[|run| - 1];
      BadRowStopsTheRun(lib, t, front, k);
      if e.Requests? {
        BadRowStopsEveryCall(lib, t, front, k, e.now, e.draw);
      }
    }
  }

  // ----- Repair -----

  /** Zones that pass, unless they do or the row is revoked already; then revocation. */
  function RepairRun(c: Config): seq<Event> {
    if c.revoked then []
    else if ZonesAllowed(c.zones) then [Revoke(c.keyName)]
    else [Set(c.(zones := [c.keyName])), Revoke(c.keyName)]
  }

  /** Only the row of `k` may differ. */
  ghost predicate OthersKept(t: Tables, t': Tables, k: string) {
    t'.governed.Keys == t.governed.Keys && forall x :: x in t.governed && x != k ==> t'.governed[x] == t.governed[x]
  }

  ghost predicate Retired(lib: Library, c: Config) { ConfigAllowed(lib, c) && c.revoked }

  lemma ZonesReset(lib: Library, t: Tables, k: string)
    requires Valid(t) && k in t.governed && !BeyondRepair(lib, t.governed[k]) && !t.governed[k].revoked
    ensures ZonesAllowed([k])
    ensures Next(lib, t, Set(t.governed[k].(zones := [k]))).governed == t.governed[k := t.governed[k].(zones := [k])]
  {
    hide OnePerJob, CanonicalName, IsHexDigest, SocketAddress, PlainString;
    AddressIsPlain(lib.ipv6Ok, t.governed[k].endpoint);
    assert ZonesAllowed([k]);
  }

  /** Any other row becomes allowed, and no other row changes. */
  lemma OtherRowsCanBeRepaired(lib: Library, t: Tables, k: string)
    requires Valid(t) && k in t.governed && !BeyondRepair(lib, t.governed[k])
    ensures var t' := After(lib, t, RepairRun(t.governed[k]));
            Valid(t') && OthersKept(t, t', k) && Retired(lib, t'.governed[k]) && RowAllowed(lib, t', k)
  {
    hide Valid, CanonicalName, IsHexDigest, SocketAddress, SetTransfer, ZonesAllowed;
    var c := t.governed[k];
    KeyIsName(t, k);
    AlwaysOnePerJob(lib, t, RepairRun(c));
    if !c.revoked && ZonesAllowed(c.zones) {
      SingleStep(lib, t, Revoke(k));
    } else if !c.revoked {
      ZonesReset(lib, t, k);
      TwoSteps(lib, t, Set(c.(zones := [k])), Revoke(k));
    }
  }

  lemma KeyIsName(t: Tables, k: string)
    requires Valid(t) && k in t.governed
    ensures t.governed[k].keyName == k
  {
  }

  lemma SingleStep(lib: Library, t: Tables, e: Event)
    ensures After(lib, t, [e]) == Next(lib, t, e)
  {
    hide Next;
    assert [e][..0] == [];
  }

  lemma TwoSteps(lib: Library, t: Tables, e: Event, f: Event)
    ensures After(lib, t, [e, f]) == Next(lib, Next(lib, t, e), f)
  {
    hide Next;
    assert [e, f][..1] == [e];
    SingleStep(lib, t, e);
  }

  /** A row is beyond repair exactly when no run of events makes it allowed. */
  lemma RowRepairableIff(lib: Library, t: Tables, k: string)
    requires Valid(t) && k in t.governed
    ensures BeyondRepair(lib, t.governed[k]) <==> forall run :: !AllowedAfter(lib, t, run, k)
  {
    hide Valid, BeyondRepair, After;
    if BeyondRepair(lib, t.governed[k]) {
      forall run ensures !AllowedAfter(lib, t, run, k) {
        NeverAllowed(lib, t, run, k);
      }
    } else {
      OtherRowsCanBeRepaired(lib, t, k);
      assert AllowedAfter(lib, t, RepairRun(t.governed[k]), k);
    }
  }

  // ----- The whole table -----

  /** Some run leads to a call that is accepted. */
  ghost predicate CanResume(lib: Library, t: Tables) {
    exists run, now, draw :: Requested(lib, After(lib, t, run), now, draw).Done?
  }

  lemma {:induction false} AfterConcat(lib: Library, t: Tables, a: seq<Event>, b: seq<Event>)
    ensures After(lib, t, a + b) == After(lib, After(lib, t, a), b)
    decreases |b|
  {
    hide Next;
    if b == [] {
      assert a + b == a;
    } else {
      var front := b[..|b| - 1];
      AfterConcat(lib, t, a, front);
      assert (a + b)[..|a + b| - 1] == a + front;
    }
  }

  /** Row by row, every table without a row beyond repair can be put in order. */
  lemma {:induction false} AllRepaired(lib: Library, t: Tables, todo: set<string>) returns (run: seq<Event>)
    requires Valid(t) && todo <= t.governed.Keys
    requires forall k :: k in t.governed ==>
               if k in todo then !BeyondRepair(lib, t.governed[k]) else Retired(lib, t.governed[k])
    ensures Valid(After(lib, t, run))
    ensures forall k :: k in After(lib, t, run).governed ==> Retired(lib, After(lib, t, run).governed[k])
    decreases |todo|
  {
    hide Valid, BeyondRepair, ConfigAllowed, Next;
    if todo == {} {
      run := [];
    } else {
      var k := SomeElement(todo);
      var first := RepairRun(t.governed[k]);
      OtherRowsCanBeRepaired(lib, t, k);
      var t' := After(lib, t, first);
      var rest := AllRepaired(lib, t', todo - {k});
      run := first + rest;
      AfterConcat(lib, t, first, rest);
    }
  }

  lemma RetiredTableAccepts(lib: Library, t: Tables, now: int, draw: nat -> Option<Draw>)
    requires Valid(t) && forall k :: k in t.governed ==> Retired(lib, t.governed[k])
    ensures Requested(lib, t, now, draw).Done?
  {
    hide ConfigAllowed, Requested, DrawsFresh, Span, Used;
    assert Universe(t) == {};
    assert Eligible(t, now) == {};
    QueueIsFresh(t, now);
    assert Queue(t, now) == [];
    assert Load(t, now) == 0 by { NothingUsed(t, now); }
    assert DrawsFresh(draw, Kept(t, now).Keys, 0, 0) by { NoDraws(draw, Kept(t, now).Keys); }
    RequestAcceptedIff(lib, t, now, draw);
  }

  lemma NothingUsed(t: Tables, now: int)
    requires Queue(t, now) == []
    ensures Load(t, now) == 0
  {
  }

  lemma NoDraws(draw: nat -> Option<Draw>, taken: set<string>)
    ensures DrawsFresh(draw, taken, 0, 0)
  {
  }

  /** The scheduler can accept a call again exactly when no row is beyond repair. */
  lemma CallsResumeIff(lib: Library, t: Tables)
    requires Valid(t)
    ensures CanResume(lib, t) <==> forall k :: k in t.governed ==> !BeyondRepair(lib, t.governed[k])
  {
    hide Valid, BeyondRepair, Requested, After;
    if k :| k in t.governed && BeyondRepair(lib, t.governed[k]) {
      forall run, now, draw ensures Requested(lib, After(lib, t, run), now, draw).Refused? {
        BadRowStopsEveryCall(lib, t, run, k, now, draw);
      }
    } else {
      var run := AllRepaired(lib, t, t.governed.Keys);
      var draw := (n: nat) => None;
      RetiredTableAccepts(lib, After(lib, t, run), 0, draw);
    }
  }

  // ----- Tables that governance has filled -----

  /** Every row passed the field checks of governance. */
  ghost predicate RowsChecked(t: Tables) {
    forall k :: k in t.governed ==> ArgumentsAllowed(t.governed[k])
  }

  lemma StepKeepsRowsChecked(lib: Library, t: Tables, e: Event)
    requires Valid(t) && RowsChecked(t)
    ensures RowsChecked(Next(lib, t, e))
  {
    hide Requested, Responded, Provisioned, CanonicalName, PlainString, IsHexDigest, ZonesAllowed, OnePerJob;
    StepKeepsIdentity(lib, t, e);
  }

  /** Over every run the rows are rows governance accepts, so that one is beyond
      repair exactly when its endpoint is no socket address. */
  lemma {:induction false} RunsKeepRowsChecked(lib: Library, t: Tables, run: seq<Event>)
    requires Valid(t) && RowsChecked(t)
    ensures RowsChecked(After(lib, t, run))
    ensures forall k :: k in After(lib, t, run).governed ==>
              (BeyondRepair(lib, After(lib, t, run).governed[k])
               <==> !SocketAddress(lib.ipv6Ok, After(lib, t, run).governed[k].endpoint))
  {
    hide Valid, Next, CanonicalName, SocketAddress, IsHexDigest, ZonesAllowed;
    if run != [] {
      var front := run[..|run| - 1];
      RunsKeepRowsChecked(lib, t, front);
      AlwaysOnePerJob(lib, t, front);
      StepKeepsRowsChecked(lib, After(lib, t, front), run[|run| - 1]);
    }
  }

  /** A table that governance filled has stopped for good exactly when one of its
      endpoints, even of a revoked key, is no socket address. */
  lemma StoppedForGoodIff(lib: Library, t: Tables)
    requires Valid(t) && RowsChecked(t)
    ensures !CanResume(lib, t)
            <==> exists k :: k in t.governed && !SocketAddress(lib.ipv6Ok, t.governed[k].endpoint)
  {
    hide Valid, BeyondRepair, CanResume, SocketAddress, RowsChecked;
    CallsResumeIff(lib, t);
    RunsKeepRowsChecked(lib, t, []);
    assert After(lib, t, []) == t;
  }

  /** Governance takes any plain text for an endpoint. One that is not a socket
      address stops the scheduler for good, whatever governance does afterwards. */
  lemma BadEndpointStopsTheScheduler(lib: Library, t: Tables, c: Config, run: seq<Event>)
    requires Valid(t) && SetTransfer(t, c).Done? && !SocketAddress(lib.ipv6Ok, c.endpoint)
    ensures Calls(lib, Next(lib, t, Set(c)), run) == 0
  {
    hide Valid, ArgumentsAllowed, SocketAddress;
    StepKeepsValid(lib, t, Set(c));
    BadRowStopsTheRun(lib, Next(lib, t, Set(c)), run, c.keyName);
  }

  const HOST_NAME := "ns2.example.:53"

  /** A host name with a port is such an endpoint: governance takes it for any new
      key, and no call is accepted again. */
  lemma HostNameStopsTheScheduler(lib: Library, t: Tables, k: string, zones: seq<string>, digest: string,
          run: seq<Event>)
    requires Valid(t) && k !in t.governed && |t.governed| < MAX_GOVERNED
    requires CanonicalName(k) && ZonesAllowed(zones) && IsHexDigest(digest)
    ensures var c := Config(k, HOST_NAME, zones, digest, false);
            SetTransfer(t, c).Done? && Calls(lib, Next(lib, t, Set(c)), run) == 0
  {
    hide Valid, CanonicalName, ZonesAllowed, IsHexDigest, Next, Calls, PlainString, SocketAddress;
    LettersArePlain(lib.ipv6Ok, HOST_NAME);
    BadEndpointStopsTheScheduler(lib, t, Config(k, HOST_NAME, zones, digest, false), run);
  }

  // ----- Secrets -----

  /** Every stored secret is that of its governed key, for zones that were allowed. */
  ghost predicate SecretsGoverned(lib: Library, t: Tables) {
    forall k :: k in t.secrets ==>
      && k in t.governed && t.secrets[k].keyName == k && ZonesAllowed(t.secrets[k].zones)
      && lib.keyDigest(t.secrets[k].text) == Some(t.governed[k].secretDigest)
  }

  ghost predicate SecretsKept(t: Tables, t': Tables) {
    forall k :: k in t.secrets ==> k in t'.secrets && t'.secrets[k] == t.secrets[k]
  }

  lemma GovernanceKeepsSecrets(lib: Library, t: Tables, e: Event)
    requires SecretsGoverned(lib, t) && (e.Set? || e.Revoke? || e.Publish?)
    ensures SecretsGoverned(lib, Next(lib, t, e)) && SecretsKept(t, Next(lib, t, e))
  {
    hide ArgumentsAllowed, ZonesAllowed;
  }

  lemma ProvisionKeepsSecrets(lib: Library, t: Tables, s: Secret)
    requires SecretsGoverned(lib, t)
    ensures SecretsGoverned(lib, Next(lib, t, Provision(s))) && SecretsKept(t, Next(lib, t, Provision(s)))
  {
    hide CanonicalName, IsHexDigest, SocketAddress, ZonesAllowed;
  }

  lemma SameSecrets(lib: Library, t: Tables, t': Tables)
    requires SecretsGoverned(lib, t) && t'.governed == t.governed && t'.secrets == t.secrets
    ensures SecretsGoverned(lib, t') && SecretsKept(t, t')
  {
  }

  lemma StepKeepsSecrets(lib: Library, t: Tables, e: Event)
    requires Valid(t) && SecretsGoverned(lib, t)
    ensures SecretsGoverned(lib, Next(lib, t, e)) && SecretsKept(t, Next(lib, t, e))
  {
    hide Requested, Responded, Provisioned, SetTransfer, RevokeTransfer, OnePerJob, SecretsGoverned, SecretsKept,
         Handled;
    match e
    case Requests(now, draw) =>
      if Requested(lib, t, now, draw).Done? {
        RequestFacts(lib, t, now, draw);
      }
      SameSecrets(lib, t, Next(lib, t, e));
    case Response(now, id, endpoint, verify) =>
      if Responded(lib, t, now, id, endpoint, verify).Done? {
        ResponseRemoves(lib, t, now, id, endpoint, verify);
      }
      SameSecrets(lib, t, Next(lib, t, e));
    case Provision(s) => ProvisionKeepsSecrets(lib, t, s);
    case _ => GovernanceKeepsSecrets(lib, t, e);
  }

  /** Over every run a stored secret is never overwritten, and always matches its
      governed key but for the zones governance has set since. */
  lemma {:induction false} RunsKeepSecrets(lib: Library, t: Tables, run: seq<Event>)
    requires Valid(t) && SecretsGoverned(lib, t)
    ensures SecretsGoverned(lib, After(lib, t, run)) && SecretsKept(t, After(lib, t, run))
  {
    hide Valid, Next, SecretsGoverned;
    if run != [] {
      var front := run[..|run| - 1];
      RunsKeepSecrets(lib, t, front);
      AlwaysOnePerJob(lib, t, front);
      StepKeepsSecrets(lib, After(lib, t, front), run[|run| - 1]);
    }
  }

  /** Some governed zone of `k` is outside the zones its secret was provisioned for. */
  ghost predicate Widened(t: Tables, k: string) {
    k in t.governed && k in t.secrets && exists z :: z in t.governed[k].zones && z !in t.secrets[k].zones
  }

  /** The row of an active provisioned key is allowed exactly when its endpoint is a
      socket address and governance has not widened its zones. */
  lemma ServingRowAllowedIff(lib: Library, t: Tables, k: string)
    requires Valid(t) && SecretsGoverned(lib, t) && RowsChecked(t) && Serving(t, k)
    ensures RowAllowed(lib, t, k) <==> SocketAddress(lib.ipv6Ok, t.governed[k].endpoint) && !Widened(t, k)
  {
    hide CanonicalName, PlainString, IsHexDigest, SocketAddress, ZonesAllowed, OnePerJob;
  }

  /** Governance may add a zone to a provisioned key; every call is then refused. */
  lemma WideningStopsTheCall(lib: Library, t: Tables, k: string, z: string, now: int, draw: nat -> Option<Draw>)
    requires Valid(t) && SecretsGoverned(lib, t) && RowsChecked(t) && Serving(t, k)
    requires |t.governed[k].zones| < 128 && CanonicalName(z) && z !in t.governed[k].zones && z !in t.secrets[k].zones
    ensures var c := t.governed[k].(zones := t.governed[k].zones + [z]);
            && SetTransfer(t, c).Done? && Widened(Next(lib, t, Set(c)), k) && Serving(Next(lib, t, Set(c)), k)
            && Requested(lib, Next(lib, t, Set(c)), now, draw).Refused?
  {
    hide CanonicalName, PlainString, IsHexDigest, SocketAddress, OnePerJob, Requested;
    var c := t.governed[k].(zones := t.governed[k].zones + [z]);
    assert z in c.zones;
    var t' := Next(lib, t, Set(c));
    assert t' == t.(governed := t.governed[k := c]);
    WidenedIsRefused(lib, t', k, now, draw);
  }

  lemma WidenedIsRefused(lib: Library, t: Tables, k: string, now: int, draw: nat -> Option<Draw>)
    requires Serving(t, k) && Widened(t, k)
    ensures Requested(lib, t, now, draw).Refused?
  {
    hide ConfigAllowed, Queue, Kept, Examine;
    assert !RowAllowed(lib, t, k);
  }

  /** The run neither revokes `k` nor sets its zones within those of its secret. */
  ghost predicate LeavesWide(run: seq<Event>, k: string, s: Secret) {
    forall e :: e in run ==>
      && !(e.Revoke? && e.key == k)
      && (e.Set? && e.config.keyName == k ==> exists z :: z in e.config.zones && z !in s.zones)
  }

  /** A widened key refuses every call, of all secondaries, until governance narrows
      its zones again or revokes it. */
  lemma {:induction false} WidenedKeyStopsTheRun(lib: Library, t: Tables, run: seq<Event>, k: string)
    requires Valid(t) && SecretsGoverned(lib, t) && Serving(t, k) && Widened(t, k) && LeavesWide(run, k, t.secrets[k])
    ensures Calls(lib, t, run) == 0
    ensures Serving(After(lib, t, run), k) && Widened(After(lib, t, run), k)
  {
    hide Valid, Next, SecretsGoverned, Requested, Serving, Widened;
    if run != [] {
      var front, e := run[..|run| - 1], run[|run| - 1];
      assert e in run && forall x :: x in front ==> x in run;
      WidenedKeyStopsTheRun(lib, t, front, k);
      RunsKeepSecrets(lib, t, front);
      AlwaysOnePerJob(lib, t, front);
      var mid := After(lib, t, front);
      assert k in t.secrets && mid.secrets[k] == t.secrets[k] by { ServingHasSecret(t, k); }
      if e.Requests? {
        WidenedIsRefused(lib, mid, k, e.now, e.draw);
      }
      StepLeavesWide(lib, mid, e, k);
    }
  }

  lemma ServingHasSecret(t: Tables, k: string)
    requires Serving(t, k)
    ensures k in t.secrets
  {
  }

  lemma StepLeavesWide(lib: Library, t: Tables, e: Event, k: string)
    requires Valid(t) && SecretsGoverned(lib, t) && Serving(t, k) && Widened(t, k) && LeavesWide([e], k, t.secrets[k])
    ensures Serving(Next(lib, t, e), k) && Widened(Next(lib, t, e), k)
  {
    hide Requested, Responded, Provisioned, ArgumentsAllowed, ZonesAllowed, OnePerJob;
    assert e in [e];
    StepKeepsIdentity(lib, t, e);
    StepKeepsSecrets(lib, t, e);
  }

  /** Narrowing restores it: with the zones of its secret the key is served and
      allowed again, if its endpoint is a socket address. */
  lemma NarrowingRestores(lib: Library, t: Tables, k: string)
    requires Valid(t) && SecretsGoverned(lib, t) && RowsChecked(t) && Serving(t, k)
    requires SocketAddress(lib.ipv6Ok, t.governed[k].endpoint)
    ensures var t' := Next(lib, t, Set(t.governed[k].(zones := t.secrets[k].zones)));
            Serving(t', k) && RowAllowed(lib, t', k)
  {
    hide CanonicalName, PlainString, IsHexDigest, SocketAddress, ZonesAllowed, OnePerJob;
    var c := t.governed[k].(zones := t.secrets[k].zones);
    assert Next(lib, t, Set(c)) == t.(governed := t.governed[k := c]);
  }

  /** Nothing is governed or provisioned at the start. */
  lemma StartsInOrder(lib: Library)
    ensures var t := Tables(map[], map[], map[], map[], None, map[]);
            Valid(t) && RowsChecked(t) && SecretsGoverned(lib, t) && CanResume(lib, t)
  {
    hide CanResume;
    CallsResumeIff(lib, Tables(map[], map[], map[], map[], None, map[]));
  }
}
