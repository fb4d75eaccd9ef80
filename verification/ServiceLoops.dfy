/** `maintenance` and `collect_live_nonces` as they run: scans that update tables
    row by row. */
module ServiceLoops {
  import opened Order
  import opened App
  import opened Text
  import opened Registry
  import opened Service
  import Contributions
  import ContributionLoops

  // ----- Registrations -----

  ghost function PartlyExpired(o: Oracle, gov: Governance, c: Core, now: int,
          done: seq<string>): map<string, Registration> {
    map id | id in c.registrations ::
      if id in done then RegistrationAfter(o, gov, c.registrations[id], now) else c.registrations[id]
  }

  ghost function PartlyActive(o: Oracle, gov: Governance, c: Core, now: int, done: seq<string>): set<string> {
    set id | id in c.active && (id in done && id in c.registrations ==> !Lapsed(o, gov, c.registrations[id], now))
  }

  /** The contributors found so far, by zone. */
  type Removals = map<string, set<string>>

  function At(removals: Removals, zone: string): set<string> { if zone in removals then removals[zone] else {} }

  function Noted(removals: Removals, zone: string, id: string): Removals { removals[zone := At(removals, zone) + {id}] }

  ghost function LapsedIn(o: Oracle, gov: Governance, c: Core, now: int, zone: string, done: seq<string>): set<string> {
    set id | id in done && id in c.registrations && c.registrations[id].status == Active
             && Lapsed(o, gov, c.registrations[id], now) && c.registrations[id].zone == zone
  }

  /** One index entry. */
  lemma ExpireStep(o: Oracle, gov: Governance, c: Core, now: int, done: seq<string>, id: string)
    requires IndexExact(c.registrations, c.active, c.activeCount, c.zones.Keys) && id in c.active && id !in done
    ensures id in c.registrations && id in PartlyActive(o, gov, c, now, done)
    ensures PartlyExpired(o, gov, c, now, done + [id])
            == PartlyExpired(o, gov, c, now, done)[id := RegistrationAfter(o, gov, c.registrations[id], now)]
    ensures PartlyActive(o, gov, c, now, done + [id])
            == if Lapsed(o, gov, c.registrations[id], now)
               then PartlyActive(o, gov, c, now, done) - {id} else PartlyActive(o, gov, c, now, done)
    ensures forall zone ::
              LapsedIn(o, gov, c, now, zone, done + [id])
              == LapsedIn(o, gov, c, now, zone, done)
                 + (if Lapsed(o, gov, c.registrations[id], now) && c.registrations[id].zone == zone then {id} else {})
  {
    hide Lapsed, RegistrationAfter;
  }

  lemma ExpireEnds(o: Oracle, gov: Governance, c: Core, now: int, rows: seq<string>)
    requires IndexExact(c.registrations, c.active, c.activeCount, c.zones.Keys)
    requires forall id :: id in rows <==> id in c.active
    ensures PartlyExpired(o, gov, c, now, []) == c.registrations && PartlyActive(o, gov, c, now, []) == c.active
    ensures PartlyExpired(o, gov, c, now, rows) == RegistrationsAfter(o, gov, c, now)
    ensures PartlyActive(o, gov, c, now, rows) == ActiveIds(RegistrationsAfter(o, gov, c, now))
    ensures forall zone :: LapsedIn(o, gov, c, now, zone, []) == {}
  {
    hide Lapsed;
  }

  method ExpireRegistrations(o: Oracle, gov: Governance, c: Core, now: int)
    returns (registrations: map<string, Registration>, active: set<string>, count: int, removals: Removals)
    requires IndexExact(c.registrations, c.active, c.activeCount, c.zones.Keys)
    ensures registrations == RegistrationsAfter(o, gov, c, now) && active == ActiveIds(registrations)
    ensures count == |active|
    ensures forall zone :: At(removals, zone) == LapsedIn(o, gov, c, now, zone, SortedText(c.active))
  {
    hide Lapsed, RegistrationAfter, PartlyExpired, PartlyActive, LapsedIn, SortedText, IndexExact, RegistrationsAfter;
    registrations, active, count, removals := c.registrations, c.active, c.activeCount, map[];
    var rows := SortedText(c.active);
    ExpireEnds(o, gov, c, now, rows);
    CountIsSize(c);
    assert rows[..0] == [] && rows[..|rows|] == rows;
    for i := 0 to |rows|
      invariant registrations == PartlyExpired(o, gov, c, now, rows[..i])
      invariant active == PartlyActive(o, gov, c, now, rows[..i]) && count == |active|
      invariant forall zone :: At(removals, zone) == LapsedIn(o, gov, c, now, zone, rows[..i])
    {
      var id := rows[i];
      assert id in c.active;
      TextOrder();
      SortedIsDistinct(TextLess, rows, i);
      ExpireStep(o, gov, c, now, rows[..i], id);
      var r := c.registrations[id];
      if Lapsed(o, gov, r, now) {
        removals := Noted(removals, r.zone, id);
        registrations := registrations[id := RegistrationAfter(o, gov, r, now)];
        active, count := active - {id}, count - 1;
      } else {
        UnchangedRow(o, gov, c, now, rows[..i], id);
      }
    }
  }

  lemma CountIsSize(c: Core)
    requires IndexExact(c.registrations, c.active, c.activeCount, c.zones.Keys)
    ensures c.activeCount == |c.active|
  {
  }

  lemma UnchangedRow(o: Oracle, gov: Governance, c: Core, now: int, done: seq<string>, id: string)
    requires id in c.registrations && id !in done && !Lapsed(o, gov, c.registrations[id], now)
    ensures PartlyExpired(o, gov, c, now, done)[id := RegistrationAfter(o, gov, c.registrations[id], now)]
            == PartlyExpired(o, gov, c, now, done)
  {
    hide Lapsed;
  }

  // ----- Challenges -----

  ghost function PartlyChallenges(o: Oracle, gov: Governance, c: Core, regs: map<string, Registration>, now: int,
          done: seq<string>): map<string, Challenge> {
    map id | id in c.challenges && (id in done ==> !ChallengeDead(o, gov, regs, c.challenges[id], now)) ::
      c.challenges[id]
  }

  ghost function DeadIn(o: Oracle, gov: Governance, c: Core, regs: map<string, Registration>, now: int, zone: string,
          done: seq<string>): set<string> {
    set id | id in done && id in c.challenges && c.challenges[id].zone == zone
             && ChallengeDead(o, gov, regs, c.challenges[id], now)
  }

  lemma ChallengeStep(o: Oracle, gov: Governance, c: Core, regs: map<string, Registration>, now: int, done: seq<string>,
          id: string)
    requires id in c.challenges
    ensures PartlyChallenges(o, gov, c, regs, now, done + [id])
            == if ChallengeDead(o, gov, regs, c.challenges[id], now)
               then PartlyChallenges(o, gov, c, regs, now, done) - {id}
               else PartlyChallenges(o, gov, c, regs, now, done)
  {
    hide ChallengeDead;
  }

  ghost predicate FoundSoFar(o: Oracle, gov: Governance, c: Core, regs: map<string, Registration>, now: int,
          noted: Removals, removals: Removals, done: seq<string>) {
    forall zone :: At(removals, zone) == At(noted, zone) + DeadIn(o, gov, c, regs, now, zone, done)
  }

  lemma FoundStep(o: Oracle, gov: Governance, c: Core, regs: map<string, Registration>, now: int, noted: Removals,
          removals: Removals, done: seq<string>, id: string)
    requires FoundSoFar(o, gov, c, regs, now, noted, removals, done) && id in c.challenges
    ensures FoundSoFar(o, gov, c, regs, now, noted,
                       if ChallengeDead(o, gov, regs, c.challenges[id], now)
                       then Noted(removals, c.challenges[id].zone, id) else removals,
                       done + [id])
  {
    hide ChallengeDead;
    var dead := ChallengeDead(o, gov, regs, c.challenges[id], now);
    forall zone
      ensures DeadIn(o, gov, c, regs, now, zone, done + [id])
              == DeadIn(o, gov, c, regs, now, zone, done) + (if dead && c.challenges[id].zone == zone then {id} else {})
    {
    }
    forall zone ensures At(if dead then Noted(removals, c.challenges[id].zone, id) else removals, zone)
                        == At(noted, zone) + DeadIn(o, gov, c, regs, now, zone, done + [id]) {
      assert At(removals, zone) == At(noted, zone) + DeadIn(o, gov, c, regs, now, zone, done);
    }
  }

  lemma ChallengeEnds(o: Oracle, gov: Governance, c: Core, regs: map<string, Registration>, now: int, noted: Removals,
          rows: seq<string>)
    requires forall id :: id in rows <==> id in c.challenges
    ensures PartlyChallenges(o, gov, c, regs, now, []) == c.challenges
    ensures PartlyChallenges(o, gov, c, regs, now, rows) == ChallengesAfter(o, gov, c, regs, now)
    ensures FoundSoFar(o, gov, c, regs, now, noted, noted, [])
  {
    hide ChallengeDead;
  }

  method ExpireChallenges(o: Oracle, gov: Governance, c: Core, regs: map<string, Registration>, now: int,
          noted: Removals)
    returns (challenges: map<string, Challenge>, removals: Removals)
    ensures challenges == ChallengesAfter(o, gov, c, regs, now)
    ensures FoundSoFar(o, gov, c, regs, now, noted, removals, SortedText(c.challenges.Keys))
  {
    hide ChallengeDead, PartlyChallenges, FoundSoFar, SortedText, ChallengesAfter, Noted;
    challenges, removals := c.challenges, noted;
    var rows := SortedText(c.challenges.Keys);
    ChallengeEnds(o, gov, c, regs, now, noted, rows);
    assert rows[..0] == [] && rows[..|rows|] == rows;
    for i := 0 to |rows|
      invariant challenges == PartlyChallenges(o, gov, c, regs, now, rows[..i])
      invariant FoundSoFar(o, gov, c, regs, now, noted, removals, rows[..i])
    {
      var id := rows[i];
      assert id in c.challenges.Keys && rows[..i + 1] == rows[..i] + [id];
      FoundStep(o, gov, c, regs, now, noted, removals, rows[..i], id);
      ChallengeStep(o, gov, c, regs, now, rows[..i], id);
      var ch := c.challenges[id];
      if ChallengeDead(o, gov, regs, ch, now) {
        removals := Noted(removals, ch.zone, id);
        challenges := challenges - {id};
      }
    }
  }

  /** The two scans together find exactly the contributors that lose their records. */
  lemma FoundAll(o: Oracle, gov: Governance, c: Core, now: int, zone: string)
    requires IndexExact(c.registrations, c.active, c.activeCount, c.zones.Keys)
    ensures LapsedIn(o, gov, c, now, zone, SortedText(c.active))
            + DeadIn(o, gov, c, RegistrationsAfter(o, gov, c, now), now, zone, SortedText(c.challenges.Keys))
            == Gone(o, gov, c, zone, now)
  {
    hide Lapsed, ChallengeDead, SortedText, RegistrationsAfter;
    var ids, rows := SortedText(c.active), SortedText(c.challenges.Keys);
    assert forall id :: id in ids <==> id in c.active;
    assert forall id :: id in rows <==> id in c.challenges;
  }

  // ----- Nonces -----

  ghost function PartlyLive(nonces: map<NonceKey, Nonce>, now: int, epoch: int,
          done: set<NonceKey>): map<NonceKey, Nonce> {
    map k | k in nonces && (k in done ==> Live(nonces[k], k, now, epoch)) :: nonces[k]
  }

  ghost function PartlyAttempts(attempts: map<NonceKey, Attempt>, nonces: map<NonceKey, Nonce>, now: int, epoch: int,
          done: set<NonceKey>)
    : map<NonceKey, Attempt>
  {
    map k | k in attempts && (k in done && k in nonces ==> Live(nonces[k], k, now, epoch)) :: attempts[k]
  }

  /** `collect_live_nonces`. */
  method CollectLiveNonces(nonces: map<NonceKey, Nonce>, attempts: map<NonceKey, Attempt>, now: int, epoch: int)
    returns (live: map<NonceKey, Nonce>, kept: map<NonceKey, Attempt>)
    ensures live == LiveNonces(nonces, now, epoch) && kept == LiveAttempts(attempts, nonces, now, epoch)
  {
    hide Live;
    live, kept := nonces, attempts;
    var rest := nonces.Keys;
    while rest != {}
      invariant rest <= nonces.Keys
      invariant live == PartlyLive(nonces, now, epoch, nonces.Keys - rest)
      invariant kept == PartlyAttempts(attempts, nonces, now, epoch, nonces.Keys - rest)
      decreases |rest|
    {
      var k :| k in rest;
      rest := rest - {k};
      if !Live(nonces[k], k, now, epoch) {
        live, kept := live - {k}, kept - {k};
      }
    }
  }

  // ----- Zones -----

  ghost predicate LostRecords(o: Oracle, gov: Governance, c: Core, now: int, n: string) {
    n in c.zones && Cleaned(o, gov, c, n, now).rows.sets != c.zones[n].rows.sets
  }

  ghost predicate CleanedSoFar(o: Oracle, gov: Governance, c: Core, now: int, done: seq<string>, zones: map<string,
          Zone>, dirty: set<string>) {
    && zones.Keys == c.zones.Keys
    && (forall n :: n in c.zones ==> zones[n] == if n in done then Cleaned(o, gov, c, n, now) else c.zones[n])
    && (forall n :: n in dirty <==> n in done && LostRecords(o, gov, c, now, n))
  }

  lemma CleanStep(o: Oracle, gov: Governance, c: Core, now: int, done: seq<string>, zones: map<string, Zone>,
          dirty: set<string>, n: string, lost: bool)
    requires CleanedSoFar(o, gov, c, now, done, zones, dirty) && n in c.zones
    requires (lost <==> LostRecords(o, gov, c, now, n))
    ensures CleanedSoFar(o, gov, c, now, done + [n], zones[n := Cleaned(o, gov, c, n, now)],
                         if lost then dirty + {n} else dirty)
  {
    hide Cleaned, LostRecords;
  }

  /** Removes the lapsed contributors of one zone. */
  method CleanZone(o: Oracle, gov: Governance, c: Core, now: int, removals: Removals, n: string)
    returns (z: Zone, lost: bool)
    requires ZonesOk(o, c) && n in c.zones && At(removals, n) == Gone(o, gov, c, n, now)
    ensures z == Cleaned(o, gov, c, n, now) && (lost <==> LostRecords(o, gov, c, now, n))
  {
    hide Contributions.Valid, Contributions.Removed, Gone;
    var rows := c.zones[n].rows;
    assert ZoneOk(o, c.zones[n]);
    if n in removals {
      var split := ContributionLoops.SplitAll(o.size, Contributions.OfAny(removals[n]), rows);
      return c.zones[n].(rows := split.value.0), split.value.1;
    }
    Contributions.RemoveNothing(o.size, rows);
    return c.zones[n], false;
  }

  method CleanZones(o: Oracle, gov: Governance, c: Core, now: int, removals: Removals)
    returns (zones: map<string, Zone>, dirty: set<string>)
    requires ZonesOk(o, c) && forall zone :: At(removals, zone) == Gone(o, gov, c, zone, now)
    ensures CleanedSoFar(o, gov, c, now, SortedText(c.zones.Keys), zones, dirty)
  {
    hide Gone, SortedText, ZonesOk, CleanedSoFar, Cleaned, LostRecords, At;
    zones, dirty := c.zones, {};
    var names := SortedText(c.zones.Keys);
    NothingCleaned(o, gov, c, now);
    assert names[..0] == [] && names[..|names|] == names;
    for i := 0 to |names|
      invariant CleanedSoFar(o, gov, c, now, names[..i], zones, dirty)
    {
      var n := names[i];
      assert n in c.zones.Keys && names[..i + 1] == names[..i] + [n];
      var z, lost := CleanZone(o, gov, c, now, removals, n);
      CleanStep(o, gov, c, now, names[..i], zones, dirty, n, lost);
      zones := zones[n := z];
      dirty := if lost then dirty + {n} else dirty;
    }
  }

  lemma NothingCleaned(o: Oracle, gov: Governance, c: Core, now: int)
    ensures CleanedSoFar(o, gov, c, now, [], c.zones, {})
  {
  }

  // ----- Signing what is due -----

  method MarkDue(zones: map<string, Zone>, marked: set<string>, now: int) returns (dirty: set<string>)
    ensures dirty == marked + set n | n in zones && RefreshDue(zones[n], now)
  {
    hide RefreshDue, SortedText;
    dirty := marked;
    var names := SortedText(zones.Keys);
    for i := 0 to |names|
      invariant dirty == marked + set n | n in names[..i] && n in zones && RefreshDue(zones[n], now)
    {
      assert names[i] in zones.Keys && names[..i + 1] == names[..i] + [names[i]];
      if RefreshDue(zones[names[i]], now) {
        dirty := dirty + {names[i]};
      }
    }
    assert names[..|names|] == names;
  }

  ghost predicate SignedSoFar(o: Oracle, zones: map<string, Zone>, now: int, done: seq<string>,
          signed: map<string, Zone>) {
    && signed.Keys == zones.Keys
    && forall n :: n in zones ==>
         if n in done then Resigned(o, zones[n], now) == Done(signed[n]) else signed[n] == zones[n]
  }

  /** Signs the dirty zones in turn; one failure fails the pass. */
  method SignDirty(o: Oracle, zones: map<string, Zone>, dirty: set<string>, now: int)
    returns (r: Outcome<map<string, Zone>>)
    requires dirty <= zones.Keys
    ensures r.Done? <==> forall n :: n in dirty ==> Resigned(o, zones[n], now).Done?
    ensures r.Done? ==> SignedSoFar(o, zones, now, SortedText(dirty), r.value)
  {
    hide Resigned, SortedText;
    var names := SortedText(dirty);
    var signed := zones;
    assert names[..|names|] == names;
    for i := 0 to |names|
      invariant SignedSoFar(o, zones, now, names[..i], signed)
      invariant forall j :: 0 <= j < i ==> names[j] in zones && Resigned(o, zones[names[j]], now).Done?
    {
      var n := names[i];
      TextOrder();
      SortedIsDistinct(TextLess, names, i);
      assert n in dirty;
      var z := Resigned(o, signed[n], now);
      if z.Refused? {
        return Refused(z.reason);
      }
      signed := signed[n := z.value];
    }
    forall n | n in dirty ensures Resigned(o, zones[n], now).Done? {
      assert n in names;
      var j :| 0 <= j < |names| && names[j] == n;
    }
    return Done(signed);
  }
}
