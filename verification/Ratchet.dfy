/** The release authority, the signed node-join policy and the immutable
    appraisal policies of ccf/governance/constitution.js. */
module Ratchet {
  import opened Basics
  import opened App
  import opened Text

  const MAX_POLICIES := 512

  datatype Authority = Authority(did: string, key: string, svn: int, validFrom: int, validUntil: int)

  datatype Signature = Signature(did: string, svn: int, bytes: string)

  datatype Endorsement = Endorsement(did: string, feed: string, svn: string)

  datatype Tcb = Tcb(bootLoader: int, tee: int, snp: int, microcode: int)

  datatype JoinPolicy = JoinPolicy(
    svn: int, releaseId: string, measurements: seq<string>, hostData: seq<string>,
    endorsements: seq<Endorsement>, tcbVersions: map<string, Tcb>)

  /** The tables CCF consults when a node asks to join. */
  datatype JoinTables = JoinTables(
    measurements: set<string>, hostData: set<string>,
    endorsements: map<string, map<string, string>>, tcbVersions: map<string, Tcb>)

  datatype Appraisal = Appraisal(key: string, canonical: string)

  datatype Gov = Gov(
    authority: Option<Authority>, joinPolicy: Option<JoinPolicy>, join: JoinTables,
    identities: map<string, string>, workload: map<string, Appraisal>)

  datatype Payload = JoinPayload(policy: JoinPolicy) | AppraisalPayload(canonical: string)

  /** ECDSA verification of the canonical JSON of svn and payload, and the text checks of fields. */
  datatype Oracle = Oracle(
    verify: (string, int, Payload, string) -> bool, authorityOk: Authority -> bool,
    policyOk: JoinPolicy -> bool, appraisalOk: Appraisal -> bool)

  datatype Action =
    | SetAuthority(authority: Authority)
    | SetJoinPolicy(policy: JoinPolicy, signature: Signature)
    | SetAppraisal(zone: string, appraisal: Appraisal, signed: Option<Signature>)
    | Stock(join: JoinTables) // the stock actions that edit the join tables directly

  predicate SafeInteger(x: int, low: int, high: int) {
    -MAX_SAFE_INTEGER <= x <= MAX_SAFE_INTEGER && low <= x <= high
  }

  // ----- What each action does -----

  /** `adnsRequireAuthoritySignature`: the authority with its svn raised to the signature's. */
  function Ratcheted(o: Oracle, g: Gov, payload: Payload, s: Signature): Outcome<Gov> {
    if g.authority.None? then Refused(Denied)
    else
      var a := g.authority.value;
      if s.did != a.did || !SafeInteger(s.svn, a.svn, a.svn + 1) || !o.verify(a.key, s.svn, payload, s.bytes)
      then Refused(Denied)
      else Done(if s.svn > a.svn then g.(authority := Some(a.(svn := s.svn))) else g)
  }

  predicate PolicyAllowed(o: Oracle, p: JoinPolicy) {
    && o.policyOk(p) && SafeInteger(p.svn, 1, MAX_SAFE_INTEGER)
    && 0 < |p.measurements| <= 64 && 0 < |p.hostData| <= 64 && 0 < |p.endorsements| <= 64 && 0 < |p.tcbVersions| <= 16
  }

  /** The svn the last listed endorsement of a DID and feed names. */
  function LastSvn(es: seq<Endorsement>, did: string, feed: string): Option<string> {
    if es == [] then None
    else
      var e := es[|es| - 1];
      if e.did == did && e.feed == feed then Some(e.svn) else LastSvn(es[..|es| - 1], did, feed)
  }

  function Feeds(es: seq<Endorsement>, did: string): map<string, string> {
    map feed | feed in (set e | e in es :: e.feed) && LastSvn(es, did, feed).Some? :: LastSvn(es, did, feed).value
  }

  function ByDid(es: seq<Endorsement>): map<string, map<string, string>> {
    map did | did in (set e | e in es :: e.did) :: Feeds(es, did)
  }

  /** The join tables a policy stands for. */
  function TablesOf(p: JoinPolicy): JoinTables {
    JoinTables((set m | m in p.measurements), (set h | h in p.hostData), ByDid(p.endorsements), p.tcbVersions)
  }

  function Apply(o: Oracle, g: Gov, act: Action): Outcome<Gov> {
    match act
    case SetAuthority(a) =>
      if !o.authorityOk(a) || !SafeInteger(a.svn, 0, MAX_SAFE_INTEGER) then Refused(Invalid)
      else if g.authority.Some? && a.svn < g.authority.value.svn then Refused(Conflict)
      else Done(g.(authority := Some(a)))
    case SetJoinPolicy(p, s) =>
      if !PolicyAllowed(o, p) then Refused(Invalid)
      else if g.joinPolicy.Some? && p.svn <= g.joinPolicy.value.svn then Refused(Conflict)
      else
        var r :- Ratcheted(o, g, JoinPayload(p), s);
        if s.svn != p.svn then Refused(Invalid) else Done(r.(joinPolicy := Some(p), join := TablesOf(p)))
    case SetAppraisal(zone, p, signed) =>
      if !o.appraisalOk(p) then Refused(Invalid)
      else if p.key in g.identities && g.identities[p.key] != p.canonical then Refused(Conflict)
      else if p.key !in g.identities && |g.identities| >= MAX_POLICIES then Refused(Limit)
      else if g.authority.Some? && signed.None? then Refused(Denied)
      else
        var r :- if g.authority.Some? then Ratcheted(o, g, AppraisalPayload(p.canonical), signed.value) else Done(g);
        Done(r.(identities := r.identities[p.key := p.canonical], workload := r.workload[zone := p]))
    case Stock(join) => Done(g.(join := join))
  }

  /** The actions of one proposal in turn; a throw discards them all. */
  function ApplyAll(o: Oracle, g: Gov, acts: seq<Action>): Outcome<Gov> {
    if acts == [] then Done(g)
    else
      var r :- ApplyAll(o, g, acts[..|acts| - 1]);
      Apply(o, r, acts[|acts| - 1])
  }

  function Propose(o: Oracle, g: Gov, acts: seq<Action>): Gov {
    match ApplyAll(o, g, acts)
    case Done(r) => r
    case Refused(_) => g
  }

  function ProposeAll(o: Oracle, g: Gov, proposals: seq<seq<Action>>): Gov {
    if proposals == [] then g
    else Propose(o, ProposeAll(o, g, proposals[..|proposals| - 1]), proposals[|proposals| - 1])
  }

  // ----- What every run keeps -----

  ghost predicate Valid(g: Gov) {
    g.joinPolicy.Some? ==> g.authority.Some? && g.joinPolicy.value.svn <= g.authority.value.svn
  }

  /** `later` may follow `g`: nothing signed has been rolled back. */
  ghost predicate Advanced(g: Gov, later: Gov) {
    && (g.authority.Some? ==> later.authority.Some? && g.authority.value.svn <= later.authority.value.svn)
    && (g.joinPolicy.Some? ==> later.joinPolicy.Some? && g.joinPolicy.value.svn <= later.joinPolicy.value.svn)
    && (forall k :: k in g.identities ==> k in later.identities && later.identities[k] == g.identities[k])
  }

  /** One accepted action: what it kept, and what a signed action proves. */
  lemma ActionAdvances(o: Oracle, g: Gov, act: Action)
    requires Valid(g) && Apply(o, g, act).Done?
    ensures var r := Apply(o, g, act).value;
            && Valid(r) && Advanced(g, r)
            && (r.joinPolicy == g.joinPolicy || act.SetJoinPolicy?)
  {
  }

  /** The svn of the last endorsement listed for a DID and a feed. */
  ghost predicate ListedLast(es: seq<Endorsement>, did: string, feed: string, svn: string) {
    exists i :: ListedLastAt(es, did, feed, svn, i)
  }

  predicate ListedLastAt(es: seq<Endorsement>, did: string, feed: string, svn: string, i: int) {
    && 0 <= i < |es| && es[i] == Endorsement(did, feed, svn)
    && forall j :: i < j < |es| ==> es[j].did != did || es[j].feed != feed
  }

  /** The four join tables hold what the policy lists, the last endorsement winning. */
  ghost predicate Filled(join: JoinTables, p: JoinPolicy) {
    && (forall m :: m in join.measurements <==> m in p.measurements)
    && (forall h :: h in join.hostData <==> h in p.hostData)
    && join.tcbVersions == p.tcbVersions
    && (forall did :: did in join.endorsements <==> exists e :: e in p.endorsements && e.did == did)
    && (forall did, feed, svn :: did in join.endorsements ==>
          (feed in join.endorsements[did] && join.endorsements[did][feed] == svn
           <==> ListedLast(p.endorsements, did, feed, svn)))
  }

  lemma {:induction false} LastSvnIs(es: seq<Endorsement>, did: string, feed: string, svn: string)
    ensures LastSvn(es, did, feed) == Some(svn) <==> ListedLast(es, did, feed, svn)
  {
    if es != [] {
      var n := |es| - 1;
      var front := es[..n];
      LastSvnIs(front, did, feed, svn);
      if es[n].did == did && es[n].feed == feed {
        assert es[n].svn == svn ==> ListedLastAt(es, did, feed, svn, n);
        assert forall i :: ListedLastAt(es, did, feed, svn, i) ==> i == n;
      } else {
        assert forall i :: ListedLastAt(es, did, feed, svn, i) <==> ListedLastAt(front, did, feed, svn, i);
      }
    }
  }

  lemma TablesAreFilled(p: JoinPolicy)
    ensures Filled(TablesOf(p), p)
  {
    hide LastSvn, ListedLast;
    forall did, feed, svn
      ensures LastSvn(p.endorsements, did, feed) == Some(svn) <==> ListedLast(p.endorsements, did, feed, svn)
    {
      LastSvnIs(p.endorsements, did, feed, svn);
    }
    forall did, feed ensures feed in Feeds(p.endorsements, did) <==> LastSvn(p.endorsements, did, feed).Some? {
      FeedsKeys(p.endorsements, did, feed);
    }
  }

  /** Right after a node-join action: its svn is strictly above the previous
      policy's and equals the authority's high-water mark, which moved by at
      most one, the authority of that moment signed it, and the four join
      tables are those of the policy, whatever they held before. */
  lemma JoinActionIsExact(o: Oracle, g: Gov, p: JoinPolicy, s: Signature)
    requires Valid(g) && Apply(o, g, SetJoinPolicy(p, s)).Done?
    ensures var r := Apply(o, g, SetJoinPolicy(p, s)).value;
            && (g.joinPolicy.Some? ==> g.joinPolicy.value.svn < p.svn) && r.joinPolicy == Some(p)
            && g.authority.Some? && r.authority == Some(g.authority.value.(svn := p.svn))
            && g.authority.value.svn <= p.svn <= g.authority.value.svn + 1
            && s.did == g.authority.value.did && s.svn == p.svn
            && o.verify(g.authority.value.key, p.svn, JoinPayload(p), s.bytes)
            && Filled(r.join, p) && r.identities == g.identities && r.workload == g.workload
  {
    hide Filled, TablesOf;
    TablesAreFilled(p);
  }

  /** Once there is an authority, an appraisal policy is accepted only with its
      signature, whose svn is the authority's or the next and becomes it. The policy
      is stored for its zone, under a key that is new or had the same text. */
  lemma AppraisalActionIsExact(o: Oracle, g: Gov, zone: string, p: Appraisal, signed: Option<Signature>)
    requires Apply(o, g, SetAppraisal(zone, p, signed)).Done?
    ensures var r := Apply(o, g, SetAppraisal(zone, p, signed)).value;
            && r == g.(authority := r.authority, identities := g.identities[p.key := p.canonical],
                       workload := g.workload[zone := p])
            && (if p.key in g.identities then g.identities[p.key] == p.canonical else |g.identities| < 512)
            && match g.authority
               case None => r.authority == None
               case Some(a) =>
                 && signed.Some? && signed.value.did == a.did && a.svn <= signed.value.svn <= a.svn + 1
                 && o.verify(a.key, signed.value.svn, AppraisalPayload(p.canonical), signed.value.bytes)
                 && r.authority == Some(a.(svn := signed.value.svn))
  {
  }

  /** A release authority replaces another only without lowering its svn. */
  lemma AuthorityActionIsExact(o: Oracle, g: Gov, a: Authority)
    ensures Apply(o, g, SetAuthority(a)).Done?
            <==> && o.authorityOk(a) && 0 <= a.svn <= 0x1f_ffff_ffff_ffff
                 && (g.authority.Some? ==> g.authority.value.svn <= a.svn)
    ensures Apply(o, g, SetAuthority(a)).Done? ==> Apply(o, g, SetAuthority(a)).value == g.(authority := Some(a))
  {
  }

  lemma {:induction false} ProposalAdvances(o: Oracle, g: Gov, acts: seq<Action>)
    requires Valid(g) && ApplyAll(o, g, acts).Done?
    ensures Valid(ApplyAll(o, g, acts).value) && Advanced(g, ApplyAll(o, g, acts).value)
  {
    hide Apply;
    if acts != [] {
      var front := acts[..|acts| - 1];
      ProposalAdvances(o, g, front);
      ActionAdvances(o, ApplyAll(o, g, front).value, acts[|acts| - 1]);
    }
  }

  /** Over every run of proposals: the authority's svn never decreases, the
      node-join svn never decreases and never passes the authority's, and a
      governed appraisal policy never changes. */
  lemma {:induction false} RunsAdvance(o: Oracle, g: Gov, proposals: seq<seq<Action>>)
    requires Valid(g)
    ensures Valid(ProposeAll(o, g, proposals)) && Advanced(g, ProposeAll(o, g, proposals))
  {
    hide ApplyAll;
    if proposals != [] {
      var front, acts := proposals[..|proposals| - 1], proposals[|proposals| - 1];
      RunsAdvance(o, g, front);
      var h := ProposeAll(o, g, front);
      if ApplyAll(o, h, acts).Done? {
        ProposalAdvances(o, h, acts);
      }
    }
  }

  /** No replay: once a node-join policy with svn `n` has been applied, no run
      leads to a state in which a policy with svn at most `n` is accepted. */
  lemma JoinPolicyNeverReplays(o: Oracle, g: Gov, p: JoinPolicy, s: Signature, run: seq<seq<Action>>, q: JoinPolicy,
          t: Signature)
    requires Valid(g) && Apply(o, g, SetJoinPolicy(p, s)).Done? && q.svn <= p.svn
    ensures Apply(o, ProposeAll(o, Apply(o, g, SetJoinPolicy(p, s)).value, run), SetJoinPolicy(q, t)).Refused?
  {
    hide ProposeAll;
    JoinActionIsExact(o, g, p, s);
    ActionAdvances(o, g, SetJoinPolicy(p, s));
    RunsAdvance(o, Apply(o, g, SetJoinPolicy(p, s)).value, run);
  }

  // ----- The tables, updated in place -----

  lemma {:induction false} LastSvnListed(es: seq<Endorsement>, did: string, feed: string)
    ensures LastSvn(es, did, feed).Some? <==> exists e :: e in es && e.did == did && e.feed == feed
  {
    if es != [] {
      var front, last := es[..|es| - 1], es[|es| - 1];
      assert es == front + [last];
      LastSvnListed(front, did, feed);
    }
  }

  lemma FeedsKeys(es: seq<Endorsement>, did: string, feed: string)
    ensures feed in Feeds(es, did) <==> LastSvn(es, did, feed).Some?
  {
    LastSvnListed(es, did, feed);
  }

  lemma FeedsStep(es: seq<Endorsement>, e: Endorsement, did: string)
    ensures Feeds(es + [e], did) == if did == e.did then Feeds(es, did)[e.feed := e.svn] else Feeds(es, did)
  {
    hide LastSvn;
    var m := if did == e.did then Feeds(es, did)[e.feed := e.svn] else Feeds(es, did);
    forall feed ensures feed in Feeds(es + [e], did) <==> feed in m {
      FeedsKeys(es, did, feed);
      FeedsKeys(es + [e], did, feed);
      LastSvnStep(es, e, did, feed);
    }
    forall feed | feed in m ensures Feeds(es + [e], did)[feed] == m[feed] {
      LastSvnStep(es, e, did, feed);
    }
  }

  lemma UnlistedHasNoFeeds(es: seq<Endorsement>, did: string)
    requires forall e :: e in es ==> e.did != did
    ensures Feeds(es, did) == map[]
  {
    hide LastSvn;
    forall feed ensures feed !in Feeds(es, did) {
      LastSvnListed(es, did, feed);
    }
  }

  /** One more endorsement replaces or adds one feed of one DID. */
  lemma ByDidStep(es: seq<Endorsement>, e: Endorsement)
    ensures var m := ByDid(es);
            ByDid(es + [e]) == m[e.did := (if e.did in m then m[e.did] else map[])[e.feed := e.svn]]
  {
    hide Feeds;
    var m, m' := ByDid(es), ByDid(es + [e]);
    if e.did !in m {
      UnlistedHasNoFeeds(es, e.did);
    }
    forall did | did in m'
      ensures m'[did] == m[e.did := (if e.did in m then m[e.did] else map[])[e.feed := e.svn]][did]
    {
      FeedsStep(es, e, did);
    }
  }

  lemma LastSvnStep(es: seq<Endorsement>, e: Endorsement, did: string, feed: string)
    ensures LastSvn(es + [e], did, feed)
            == if e.did == did && e.feed == feed then Some(e.svn) else LastSvn(es, did, feed)
  {
    assert (es + [e])[..|es|] == es;
  }

  method Listed(list: seq<string>) returns (r: set<string>)
    ensures r == set x | x in list
  {
    r := {};
    for i := 0 to |list|
      invariant r == set x | x in list[..i]
    {
      r := r + {list[i]};
    }
    assert list[..|list|] == list;
  }

  method GroupEndorsements(es: seq<Endorsement>) returns (r: map<string, map<string, string>>)
    ensures r == ByDid(es)
  {
    hide Feeds;
    r := map[];
    for i := 0 to |es|
      invariant r == ByDid(es[..i])
    {
      var e := es[i];
      assert es[..i + 1] == es[..i] + [e];
      ByDidStep(es[..i], e);
      var feeds := if e.did in r then r[e.did] else map[];
      r := r[e.did := feeds[e.feed := e.svn]];
    }
    assert es[..|es|] == es;
  }

  method CopyVersions(versions: map<string, Tcb>) returns (r: map<string, Tcb>)
    ensures r == versions
  {
    hide SortedText;
    r := map[];
    var cpuids := SortedText(versions.Keys);
    for i := 0 to |cpuids|
      invariant forall c :: c in r <==> c in cpuids[..i]
      invariant forall c :: c in r ==> c in versions && r[c] == versions[c]
    {
      assert cpuids[i] in versions.Keys;
      r := r[cpuids[i] := versions[cpuids[i]]];
    }
    assert cpuids[..|cpuids|] == cpuids;
  }

  /** The governance tables. */
  class Constitution {
    var authority: Option<Authority>
    var joinPolicy: Option<JoinPolicy>
    var measurements: set<string>
    var hostData: set<string>
    var endorsements: map<string, map<string, string>>
    var tcbVersions: map<string, Tcb>
    var identities: map<string, string>
    var workload: map<string, Appraisal>

    function State(): Gov
      reads this
    {
      Gov(authority, joinPolicy, JoinTables(measurements, hostData, endorsements, tcbVersions), identities, workload)
    }

    constructor ()
      ensures Valid(State())
    {
      authority, joinPolicy, measurements, hostData := None, None, {}, {};
      endorsements, tcbVersions, identities, workload := map[], map[], map[], map[];
    }

    /** The signature of the payload by the current authority; its svn may be the
        next one, and what was accepted once is accepted again. */
    method RequireSignature(o: Oracle, payload: Payload, s: Signature) returns (r: Outcome<int>)
      requires Valid(State())
      modifies `authority
      ensures Valid(State()) && Advanced(old(State()), State())
      ensures r.Done? ==>
                && old(authority).Some? && authority == Some(old(authority.value).(svn := r.value))
                && old(authority.value.svn) <= r.value <= old(authority.value.svn) + 1
                && s.did == authority.value.did && o.verify(authority.value.key, r.value, payload, s.bytes)
                && Ratcheted(o, State(), payload, s) == Done(State())
      ensures match Ratcheted(o, old(State()), payload, s)
              case Done(g) => r == Done(s.svn) && State() == g
              case Refused(e) => r == Refused(e) && State() == old(State())
    {
      if authority.None? {
        return Refused(Denied);
      }
      var a := authority.value;
      if s.did != a.did || !SafeInteger(s.svn, a.svn, a.svn + 1) || !o.verify(a.key, s.svn, payload, s.bytes) {
        return Refused(Denied);
      }
      if s.svn > a.svn {
        authority := Some(a.(svn := s.svn));
      }
      return Done(s.svn);
    }

    /** Empties the four join tables and fills them from the policy. */
    method ReplaceJoinTables(p: JoinPolicy)
      modifies `measurements, `hostData, `endorsements, `tcbVersions
      ensures State() == old(State()).(join := TablesOf(p))
    {
      measurements := Listed(p.measurements);
      hostData := Listed(p.hostData);
      endorsements := GroupEndorsements(p.endorsements);
      tcbVersions := CopyVersions(p.tcbVersions);
    }

    /** One action of a proposal; after a refusal the whole proposal is discarded. */
    method ApplyAction(o: Oracle, act: Action) returns (r: Outcome<()>)
      requires Valid(State())
      modifies this
      ensures match Apply(o, old(State()), act)
              case Done(g) => r == Done(()) && State() == g && Valid(State())
              case Refused(e) => r == Refused(e)
    {
      hide ByDid, PolicyAllowed;
      if Apply(o, State(), act).Done? {
        ActionAdvances(o, State(), act);
      }
      match act {
      case SetAuthority(a) =>
        if !o.authorityOk(a) || !SafeInteger(a.svn, 0, MAX_SAFE_INTEGER) {
          return Refused(Invalid);
        }
        if authority.Some? && a.svn < authority.value.svn {
          return Refused(Conflict);
        }
        authority := Some(a);
      case SetJoinPolicy(p, s) =>
        if !PolicyAllowed(o, p) {
          return Refused(Invalid);
        }
        if joinPolicy.Some? && p.svn <= joinPolicy.value.svn {
          return Refused(Conflict);
        }
        var svn :- RequireSignature(o, JoinPayload(p), s);
        if svn != p.svn {
          return Refused(Invalid);
        }
        ReplaceJoinTables(p);
        joinPolicy := Some(p);
      case SetAppraisal(zone, p, signed) =>
        if !o.appraisalOk(p) {
          return Refused(Invalid);
        }
        if p.key in identities && identities[p.key] != p.canonical {
          return Refused(Conflict);
        }
        if p.key !in identities && |identities| >= MAX_POLICIES {
          return Refused(Limit);
        }
        if authority.Some? {
          if signed.None? {
            return Refused(Denied);
          }
          var _ :- RequireSignature(o, AppraisalPayload(p.canonical), signed.value);
        }
        identities := identities[p.key := p.canonical];
        workload := workload[zone := p];
      case Stock(join) =>
        measurements, hostData := join.measurements, join.hostData;
        endorsements, tcbVersions := join.endorsements, join.tcbVersions;
      }
      return Done(());
    }
  }
}
