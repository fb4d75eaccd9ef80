/** Which requests a call hands out and which replies are believed, field by field:
    `secondary_requests` and `secondary_response` of crates/adns-ccf/src/lib.rs. */
module SchedulerReplies {
  import opened Basics
  import opened App
  import opened Scheduler

  // ----- Rows that count -----

  /** A request less than five minutes old that governance still calls for: the key
      is not revoked, and its endpoint and zones are those the request was made for. */
  predicate StillWanted(governed: map<string, Config>, p: Pending, now: int) {
    && p.issuedAt <= now && now < p.issuedAt + 300 && p.job.key in governed
    && var c := governed[p.job.key];
       !c.revoked && c.keyName == p.job.key && c.endpoint == p.endpoint && p.job.zone in c.zones
  }

  /** A job is eligible exactly if its key is governed, not revoked and provisioned,
      its zone is among the key's, and no wanted request for it is outstanding. */
  lemma EligibleIff(t: Tables, now: int, j: Job)
    ensures j in Eligible(t, now)
            <==> && j.key in t.governed && !t.governed[j.key].revoked && j.key in t.secrets
                 && j.zone in t.governed[j.key].zones
                 && forall id :: id in t.pending && t.pending[id].job == j ==>
                      !StillWanted(t.governed, t.pending[id], now)
  {
    assert Job(j.key, j.zone, j.kind) == j;
    if j in Outstanding(Kept(t, now)) {
      var id :| id in Kept(t, now) && Kept(t, now)[id].job == j;
      assert id in t.pending && StillWanted(t.governed, t.pending[id], now);
    }
    forall id | id in t.pending && t.pending[id].job == j && StillWanted(t.governed, t.pending[id], now)
      ensures j in Outstanding(Kept(t, now))
    {
      assert id in Kept(t, now);
    }
  }

  // ----- What a call hands out -----

  /** The notification of the zone's current serial has been confirmed already. */
  predicate AlreadyNotified(t: Tables, j: Job)
    requires j.key in t.governed && j.zone in t.serials
  {
    var row := (j.zone, t.governed[j.key].endpoint);
    j.kind.Notify? && row in t.status && t.status[row].lastNotified == Some(t.serials[j.zone])
  }

  /** Item `i` of the work and the row stored for it: drawn for it, for a job of the
      queue, to the governed endpoint, of now, with the zone's serial. */
  ghost predicate Handed(t: Tables, now: int, draw: nat -> Option<Draw>, jobs: seq<Job>, pending: map<string, Pending>,
          work: seq<Item>, i: nat)
    requires i < |work|
  {
    && work[i].id in pending
    && var p := pending[work[i].id];
       && p.job in jobs && p.job.key in t.governed && p.job.zone in t.serials && !AlreadyNotified(t, p.job)
       && p.endpoint == t.governed[p.job.key].endpoint && p.issuedAt == now && p.serial == t.serials[p.job.zone]
       && work[i] == Item(work[i].id, p.endpoint, p.job.kind)
       && draw(i) == Some(Draw(work[i].id, p.dnsId, p.mac))
  }

  /** `out` is `scan` and further items of `jobs`, each with its own new row. */
  ghost predicate Extends(t: Tables, now: int, draw: nat -> Option<Draw>, jobs: seq<Job>, scan: Scan, out: Scan) {
    && scan.work <= out.work
    && (forall id :: id in out.pending <==> id in scan.pending || exists i :: Added(scan, out, id, i))
    && (forall id :: id in scan.pending ==> out.pending[id] == scan.pending[id])
    && (forall i :: |scan.work| <= i < |out.work| ==>
          out.work[i].id !in scan.pending && Handed(t, now, draw, jobs, out.pending, out.work, i))
    && (forall i, j :: |scan.work| <= i < j < |out.work| ==> out.work[i].id != out.work[j].id)
  }

  predicate Added(scan: Scan, out: Scan, id: string, i: int) {
    |scan.work| <= i < |out.work| && out.work[i].id == id
  }

  lemma OneExtends(t: Tables, now: int, draw: nat -> Option<Draw>, scan: Scan, j: Job)
    requires j.key in t.governed && ExamineOne(t, now, draw, scan, j).Done?
    ensures Extends(t, now, draw, [j], scan, ExamineOne(t, now, draw, scan, j).value)
  {
    var out := ExamineOne(t, now, draw, scan, j).value;
    assert j in [j];
    if out.work != scan.work {
      var n := |scan.work|;
      assert out.work[n].id == draw(n).value.id;
      assert Added(scan, out, draw(n).value.id, n);
    }
  }

  lemma HandedMore(t: Tables, now: int, draw: nat -> Option<Draw>, few: seq<Job>, jobs: seq<Job>, b: Scan, c: Scan,
          i: nat)
    requires i < |b.work| && b.work <= c.work && Handed(t, now, draw, few, b.pending, b.work, i)
    requires forall j :: j in few ==> j in jobs
    requires forall id :: id in b.pending ==> id in c.pending && c.pending[id] == b.pending[id]
    ensures b.work[i].id in b.pending && c.work[i] == b.work[i]
    ensures Handed(t, now, draw, jobs, c.pending, c.work, i)
  {
    hide AlreadyNotified;
  }

  lemma ExtendsTwice(t: Tables, now: int, draw: nat -> Option<Draw>, j: Job, rest: seq<Job>, a: Scan, b: Scan, c: Scan)
    requires Extends(t, now, draw, [j], a, b) && Extends(t, now, draw, rest, b, c)
    ensures Extends(t, now, draw, [j] + rest, a, c)
  {
    hide Handed;
    var jobs := [j] + rest;
    assert forall i :: 0 <= i < |b.work| ==> c.work[i] == b.work[i];
    forall id ensures id in c.pending <==> id in a.pending || exists i :: Added(a, c, id, i) {
      if i :| Added(a, b, id, i) {
        assert Added(a, c, id, i);
      }
      if i :| Added(b, c, id, i) {
        assert Added(a, c, id, i);
      }
      if i :| Added(a, c, id, i) {
        assert Added(a, b, id, i) || Added(b, c, id, i);
      }
    }
    forall i | |a.work| <= i < |c.work|
      ensures c.work[i].id !in a.pending && Handed(t, now, draw, jobs, c.pending, c.work, i)
    {
      if i < |b.work| {
        HandedMore(t, now, draw, [j], jobs, b, c, i);
      } else {
        HandedMore(t, now, draw, rest, jobs, c, c, i);
      }
    }
    forall i, k | |a.work| <= i < k < |c.work| ensures c.work[i].id != c.work[k].id {
      if i < |b.work| <= k {
        HandedMore(t, now, draw, [j], jobs, b, c, i);
      }
    }
  }

  lemma {:induction false} ExamineExtends(t: Tables, now: int, draw: nat -> Option<Draw>, scan: Scan, jobs: seq<Job>)
    requires (forall j :: j in jobs ==> j.key in t.governed) && Examine(t, now, draw, scan, jobs).Done?
    ensures Extends(t, now, draw, jobs, scan, Examine(t, now, draw, scan, jobs).value)
    ensures |scan.work| <= 256 ==> |Examine(t, now, draw, scan, jobs).value.work| <= 256
    decreases |jobs|
  {
    hide ExamineOne, Extends;
    if jobs == [] || |scan.work| >= MAX_WORK {
      NothingAdded(t, now, draw, jobs, scan);
    } else {
      var next := ExamineOne(t, now, draw, scan, jobs[0]).value;
      OneExtends(t, now, draw, scan, jobs[0]);
      OneItem(t, now, draw, scan, jobs[0]);
      ExamineExtends(t, now, draw, next, jobs[1..]);
      ExtendsTwice(t, now, draw, jobs[0], jobs[1..], scan, next, Examine(t, now, draw, next, jobs[1..]).value);
      assert [jobs[0]] + jobs[1..] == jobs;
    }
  }

  lemma NothingAdded(t: Tables, now: int, draw: nat -> Option<Draw>, jobs: seq<Job>, scan: Scan)
    ensures Extends(t, now, draw, jobs, scan, scan)
  {
  }

  lemma OneItem(t: Tables, now: int, draw: nat -> Option<Draw>, scan: Scan, j: Job)
    requires j.key in t.governed && ExamineOne(t, now, draw, scan, j).Done?
    ensures |ExamineOne(t, now, draw, scan, j).value.work| <= |scan.work| + 1
  {
  }

  predicate Wanted(t: Tables, now: int, id: string) {
    id in t.pending && StillWanted(t.governed, t.pending[id], now)
  }

  ghost predicate IsItem(work: seq<Item>, id: string) { exists i :: 0 <= i < |work| && work[i].id == id }

  /** The rows are those still wanted, unchanged, and one for each item of the work,
      under an id of its own. */
  ghost predicate KeepsAndAdds(t: Tables, now: int, pending: map<string, Pending>, work: seq<Item>) {
    && (forall id :: id in pending <==> Wanted(t, now, id) || IsItem(work, id))
    && (forall id :: id in pending && Wanted(t, now, id) ==> pending[id] == t.pending[id])
    && (forall i :: 0 <= i < |work| ==> !Wanted(t, now, work[i].id))
    && (forall i, j :: 0 <= i < j < |work| ==> work[i].id != work[j].id)
  }

  lemma StartsFrom(t: Tables, now: int, draw: nat -> Option<Draw>, jobs: seq<Job>, out: Scan)
    requires Extends(t, now, draw, jobs, Scan(Kept(t, now), [], None), out)
    ensures KeepsAndAdds(t, now, out.pending, out.work)
  {
    hide AlreadyNotified, Handed;
    var start := Scan(Kept(t, now), [], None);
    assert forall id :: id in start.pending <==> Wanted(t, now, id);
    forall id ensures id in out.pending <==> Wanted(t, now, id) || IsItem(out.work, id) {
      if i :| 0 <= i < |out.work| && out.work[i].id == id {
        assert Added(start, out, id, i);
      }
    }
  }

  /** An accepted call keeps exactly the requests still wanted and adds at most 256
      new ones, each for an eligible job that is not already notified, under a new
      id, and hands out exactly those. Statuses, secrets and governance stay. */
  lemma CallHandsOut(lib: Library, t: Tables, now: int, draw: nat -> Option<Draw>)
    returns (after: Tables, work: seq<Item>)
    requires Requested(lib, t, now, draw).Done?
    ensures Requested(lib, t, now, draw) == Done((after, work))
    ensures |work| <= 256 && after == t.(pending := after.pending, cursor := after.cursor)
    ensures KeepsAndAdds(t, now, after.pending, work)
    ensures forall i :: 0 <= i < |work| ==> Handed(t, now, draw, Queue(t, now), after.pending, work, i)
    ensures forall j :: j in Queue(t, now) <==> j in Eligible(t, now)
  {
    hide GovernedAllowed, Examine, Queue, Eligible, Extends, KeepsAndAdds, Kept, Handed;
    QueueMembers(t, now);
    var start := Scan(Kept(t, now), [], None);
    var out := Examine(t, now, draw, start, Queue(t, now)).value;
    ExamineExtends(t, now, draw, start, Queue(t, now));
    StartsFrom(t, now, draw, Queue(t, now), out);
    AllHanded(t, now, draw, Queue(t, now), start, out);
    after, work := Requested(lib, t, now, draw).value.0, out.work;
  }

  lemma AllHanded(t: Tables, now: int, draw: nat -> Option<Draw>, jobs: seq<Job>, scan: Scan, out: Scan)
    requires Extends(t, now, draw, jobs, scan, out) && scan.work == []
    ensures forall i :: 0 <= i < |out.work| ==> Handed(t, now, draw, jobs, out.pending, out.work, i)
  {
    hide Handed;
  }

  // ----- Replies -----

  /** A response, authoritative, not truncated, without error, of the given opcode. */
  predicate FlagsSay(flags: bv16, opcode: bv16) {
    && flags & 0x8000 != 0 && (flags >> 11) & 0xf == opcode && flags & 0x0400 != 0
    && flags & 0x0200 == 0 && flags & 0x000f == 0
  }

  lemma MaskIs(flags: bv16)
    ensures flags & 0xfe0f == 0xa400 <==> FlagsSay(flags, 4)
    ensures flags & 0xfe0f == 0x8400 <==> FlagsSay(flags, 0)
  {
  }

  /** The reply answers the request: same id, the flags of its kind, the one question
      that was asked, and to an SOA query exactly one SOA. */
  predicate Answers(p: Pending, m: Reply) {
    && m.dnsId == p.dnsId && FlagsSay(m.flags, if p.job.kind == Notify then 4 else 0)
    && |m.questions| == 1 && m.questions[0] == (p.job.zone, true)
    && (p.job.kind == Scheduler.Soa ==> |m.soas| == 1 && m.soas[0].Some?)
  }

  /** The request a response is for, as stored. */
  predicate Awaits(t: Tables, now: int, id: string, endpoint: string) {
    && |id| == 32 && (forall i :: 0 <= i < 32 ==> '0' <= id[i] <= '9' || 'a' <= id[i] <= 'f')
    && id in t.pending && t.pending[id].endpoint == endpoint
    && t.pending[id].issuedAt <= now && now < t.pending[id].issuedAt + 300
  }

  /** The governed key of the request, current and with its secret. */
  predicate KeyHolds(lib: Library, t: Tables, p: Pending, secret: Secret) {
    && p.job.key in t.governed
    && var c := t.governed[p.job.key];
       && !c.revoked && c.endpoint == p.endpoint && p.job.zone in c.zones && ConfigAllowed(lib, c)
       && c.keyName in t.secrets && secret == t.secrets[c.keyName] && secret.keyName == c.keyName
       && lib.keyDigest(secret.text) == Some(c.secretDigest) && forall z :: z in c.zones ==> z in secret.zones
  }

  /** Exactly which replies are believed. */
  lemma ResponseAcceptedIff(lib: Library, t: Tables, now: int, id: string, endpoint: string,
          verify: (Secret, string) -> Option<Reply>)
    ensures Responded(lib, t, now, id, endpoint, verify).Done?
            <==> && Awaits(t, now, id, endpoint)
                 && exists secret :: && KeyHolds(lib, t, t.pending[id], secret)
                                     && verify(secret, t.pending[id].mac).Some?
                                     && Answers(t.pending[id], verify(secret, t.pending[id].mac).value)
  {
    hide ConfigAllowed, FlagsSay;
    if Awaits(t, now, id, endpoint) {
      var p := t.pending[id];
      if p.job.key in t.governed && t.governed[p.job.key].keyName in t.secrets {
        var secret := t.secrets[t.governed[p.job.key].keyName];
        if verify(secret, p.mac).Some? {
          BoundIff(p, verify(secret, p.mac).value);
        }
        assert KeyHolds(lib, t, p, secret) <==>
               TransferKey(lib, t, t.governed[p.job.key]) == Done(secret)
               && t.governed[p.job.key].endpoint == p.endpoint && p.job.zone in t.governed[p.job.key].zones;
      }
    }
  }

  lemma BoundIff(p: Pending, m: Reply)
    ensures Bound(p, m) && (p.job.kind.Soa? ==> |m.soas| == 1 && m.soas[0].Some?) <==> Answers(p, m)
  {
    hide FlagsSay;
    MaskIs(m.flags);
    if |m.questions| == 1 {
      assert m.questions == [m.questions[0]];
    }
  }

  /** What a believed reply records: a confirmed notification the serial the request
      was made for, an SOA answer its serial and the time. The request is consumed;
      nothing else changes. */
  lemma ResponseRecords(lib: Library, t: Tables, now: int, id: string, endpoint: string,
          verify: (Secret, string) -> Option<Reply>)
    returns (p: Pending, m: Reply)
    requires Responded(lib, t, now, id, endpoint, verify).Done?
    ensures id in t.pending && p == t.pending[id] && p.endpoint == endpoint && p.job.key in t.governed
    ensures exists secret :: KeyHolds(lib, t, p, secret) && verify(secret, p.mac) == Some(m)
    ensures var after := Responded(lib, t, now, id, endpoint, verify).value;
            var row := (p.job.zone, endpoint);
            && after == t.(pending := t.pending - {id}, status := after.status)
            && after.status.Keys == t.status.Keys + {row}
            && (forall k :: k in t.status && k != row ==> after.status[k] == t.status[k])
            && var was := if row in t.status then t.status[row] else Status(None, None, None);
               match p.job.kind
               case Notify => after.status[row] == was.(lastNotified := Some(p.serial))
               case Soa =>
                 && |m.soas| == 1
                 && after.status[row] == Status(was.lastNotified, m.soas[0], Some(now))
  {
    hide ConfigAllowed;
    p := t.pending[id];
    var c := t.governed[p.job.key];
    var secret := TransferKey(lib, t, c).value;
    m := verify(secret, p.mac).value;
    assert KeyHolds(lib, t, p, secret);
  }
}
