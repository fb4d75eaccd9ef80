/** When a maintenance pass can commit: the signing that `resign_zone` in
    crates/adns-server/src/zone.rs asks for, related to the zones that can be signed. */
module PassProgress {
  import opened Seqs
  import opened Names
  import opened Records
  import opened Signing
  import Dnssec = Zone
  import ZoneFacts
  import opened SigningProgress
  import Contributions
  import Registry
  import Service

  /** What signing takes besides a zone's rows: library code, the wire form of whole
      records, and the governed base records and keys of each zone. */
  datatype Setup = Setup(
    env: Env, wire: RR -> Octets, base: Name -> seq<RR>, ksks: Name -> seq<Key>, zsk: Name -> Key)

  // ----- The records that are signed -----

  /** The SOA carries the zone's serial. */
  function WithSerial(records: seq<RR>, serial: int): (r: seq<RR>)
    ensures |r| == |records| && forall i :: 0 <= i < |r| ==> r[i].name == records[i].name
  {
    if records == [] then []
    else
      var last := records[|records| - 1];
      WithSerial(records[..|records| - 1], serial)
      + [if last.rdata.Soa? then last.(rdata := last.rdata.(serial := serial)) else last]
  }

  function Contributed(s: seq<Contributions.Contribution>): seq<RR> {
    if s == [] then [] else Contributed(s[..|s| - 1]) + [s[|s| - 1].record]
  }

  function Stored(sets: map<Contributions.RecordKey, seq<Contributions.Contribution>>,
          keys: seq<Contributions.RecordKey>): seq<RR>
    requires forall k :: k in keys ==> k in sets
  {
    if keys == [] then [] else Stored(sets, keys[..|keys| - 1]) + Contributed(sets[keys[|keys| - 1]])
  }

  function Effective(wire: RR -> Octets, records: seq<RR>): seq<RR> {
    Contributions.Normalized(wire, records, |records|)
  }

  function RecordsOf(s: Setup, z: Registry.Zone): seq<RR> {
    var owned := Effective(s.wire, Stored(z.rows.sets, Dnssec.SortedKeys(z.rows.sets.Keys)));
    Effective(s.wire, WithSerial(s.base(z.origin), (z.serial + 1) % Registry.SERIALS) + owned)
  }

  /** The call of `sign_with_keysets`. */
  function RequestOf(s: Setup, z: Registry.Zone, now: int): Dnssec.Request {
    Dnssec.Request(z.origin, RecordsOf(s, z), s.ksks(z.origin), s.zsk(z.origin), now, z.validity,
                   Dnssec.Nsec3Mode(0, []))
  }

  /** The oracle signs as `resign_zone` does, at times that fit 32 bits. */
  ghost predicate SignsAs(o: Registry.Oracle, s: Setup) {
    forall z, now ::
      o.sign(z, now).Done? <==> 0 <= now < CIRCLE && Dnssec.SignZone(s.env, RequestOf(s, z, now)).Ok?
  }

  // ----- Normalization leaves one TTL to each RRset -----

  /** Aliases of one name have one content. */
  ghost predicate OneAlias(env: Env, records: seq<RR>) {
    forall r, q ::
      r in records && q in records && r.rtype == TYPE_CNAME && q.rtype == TYPE_CNAME && r.name == q.name ==>
        env.wire(r.rdata) == env.wire(q.rdata)
  }

  ghost predicate OneTtlEach(records: seq<RR>) {
    forall r, q :: r in records && q in records && Contributions.SameSet(r, q) ==> r.ttl == q.ttl
  }

  lemma EffectiveHasOneTtl(wire: RR -> Octets, records: seq<RR>)
    ensures OneTtlEach(Effective(wire, records))
  {
    hide Contributions.Normalized, Contributions.SameSet, Contributions.WithLeastTtl;
    Contributions.EffectiveRecords(wire, records);
  }

  lemma {:induction false} KeyRecordsTtl(env: Env, origin: Name, ttl: int, ksks: seq<Key>)
    ensures forall r :: r in Dnssec.KeyRecords(env, origin, ttl, ksks) ==> r.ttl == ttl && r.rtype == TYPE_DNSKEY
  {
    if ksks != [] {
      KeyRecordsTtl(env, origin, ttl, ksks[..|ksks| - 1]);
    }
  }

  /** What is published beside the retained records, by type. */
  lemma PublishedByType(env: Env, req: Dnssec.Request, kept: seq<RR>, ttl: int, r: RR)
    requires req.ksks != [] && r in Dnssec.Publish(env, req, kept, ttl)
    ensures || r in kept || (r.rtype == TYPE_DNSKEY && r.ttl == ttl)
            || (req.mode.Nsec3Mode? && r == Dnssec.ParamRecord(req.origin, req.mode))
  {
    KeyRecordsTtl(env, req.origin, ttl, req.ksks);
  }

  lemma UniformIffOneAlias(env: Env, req: Dnssec.Request)
    requires Dnssec.Prepare(env, req).Ok? && OneTtlEach(req.records)
    ensures Uniform(env, Dnssec.Prepare(env, req).value.published) <==> OneAlias(env, req.records)
  {
    hide Dnssec.Publish, Dnssec.CnameConflict, Dnssec.Cuts, Dnssec.HasApex, Dnssec.CutAccepted, Filter;
    var kept := Filter(Dnssec.NotGenerated, req.records);
    FilterMembers(Dnssec.NotGenerated, req.records);
    var plan := Dnssec.Prepare(env, req).value;
    ZoneFacts.PublishMembers(env, req, kept, plan.soa.ttl);
    assert forall r :: r in req.records && r.rtype == TYPE_CNAME ==> r in kept && r.rclass == CLASS_IN;
    if OneAlias(env, req.records) {
      forall r, q | r in plan.published && q in plan.published && Dnssec.KeyOf(r) == Dnssec.KeyOf(q)
        ensures r.ttl == q.ttl && (r.rtype == TYPE_CNAME ==> env.wire(r.rdata) == env.wire(q.rdata))
      {
        PublishedByType(env, req, kept, plan.soa.ttl, r);
        PublishedByType(env, req, kept, plan.soa.ttl, q);
      }
    }
  }

  // ----- The pass -----

  /** The zone can be signed at `now`: time and validity fit, its records are admitted,
      the denial chain can be built, and no name has two different aliases. */
  ghost predicate Ready(s: Setup, z: Registry.Zone, now: int) {
    var req := RequestOf(s, z, now);
    && 0 <= now < CIRCLE && ValidityAllowed(z.validity)
    && Dnssec.Prepare(s.env, req).Ok? && Dnssec.DenialChain(s.env, req, Dnssec.Prepare(s.env, req).value).Ok?
    && OneAlias(s.env, req.records)
  }

  lemma SignsIffReady(o: Registry.Oracle, s: Setup, z: Registry.Zone, now: int)
    requires SignsAs(o, s) && Total(s.env) && ValidNames(RecordsOf(s, z))
    ensures Registry.Resigned(o, z, now).Done? <==> Ready(s, z, now)
  {
    hide Total, ValidNames, RecordsOf, Dnssec.SignZone, Dnssec.Prepare, Dnssec.DenialChain, Uniform, OneAlias,
         OneTtlEach, ValidityAllowed;
    var req := RequestOf(s, z, now);
    SigningSucceedsIff(s.env, req);
    if Dnssec.Prepare(s.env, req).Ok? {
      RecordsHaveOneTtl(s, z);
      UniformIffOneAlias(s.env, req);
    }
  }

  lemma RecordsHaveOneTtl(s: Setup, z: Registry.Zone)
    ensures OneTtlEach(RecordsOf(s, z))
  {
    hide Effective, OneTtlEach;
    var owned := Effective(s.wire, Stored(z.rows.sets, Dnssec.SortedKeys(z.rows.sets.Keys)));
    EffectiveHasOneTtl(s.wire, WithSerial(s.base(z.origin), (z.serial + 1) % Registry.SERIALS) + owned);
  }

  /** A maintenance pass commits exactly when the service is configured, time has not
      moved back and every zone that must be signed again is ready. */
  lemma PassCommitsIff(o: Registry.Oracle, s: Setup, db: Service.Db, now: int)
    requires SignsAs(o, s) && Total(s.env)
    requires forall n :: n in db.core.zones ==> ValidNames(RecordsOf(s, Service.Cleaned(o, db.gov, db.core, n, now)))
    ensures Service.MaintenanceCommits(o, db, now)
            <==> && db.config.Some? && db.config.value.lastTime <= now
                 && forall n :: n in db.core.zones && Service.Dirty(o, db.gov, db.core, n, now) ==>
                      Ready(s, Service.Cleaned(o, db.gov, db.core, n, now), now)
  {
    hide SignsAs, Total, ValidNames, RecordsOf, Ready, Service.Cleaned, Service.Dirty, Registry.Resigned;
    forall n | n in db.core.zones && Service.Dirty(o, db.gov, db.core, n, now)
      ensures Service.ZoneAfter(o, db.gov, db.core, n, now).Done?
              <==> Ready(s, Service.Cleaned(o, db.gov, db.core, n, now), now)
    {
      SignsIffReady(o, s, Service.Cleaned(o, db.gov, db.core, n, now), now);
    }
  }
}
