/** The vote rule `resolve` and the reputation rule of ccf/governance/constitution.js. */
module Voting {
  import opened Basics
  import opened Seqs

  datatype Governor = Governor(trapdoor: bool, reputation: int)

  datatype Ratio = Ratio(num: nat, den: nat)

  datatype Params = Params(
    release: Ratio, block: Ratio, routine: Ratio, minAgentYes: nat,
    newcomerPercent: nat, memberPercent: nat,
    reputationMin: int, reputationMax: int, reputationStep: int, blockReputation: int,
    highImpact: set<string>)

  const HIGH_IMPACT: set<string> := {
    "set_constitution", "set_js_app", "set_member", "remove_member", "set_recovery_threshold",
    "transition_service_to_open", "add_snp_measurement", "add_snp_host_data", "add_snp_uvm_endorsement",
    "set_snp_minimum_tcb_version", "set_snp_minimum_tcb_version_hex", "remove_snp_measurement",
    "remove_snp_host_data", "remove_snp_uvm_endorsement", "remove_snp_minimum_tcb_version",
    "adns_set_node_join_policy", "adns_set_appraisal_policy", "adns_set_release_authority",
    "adns_set_governance_parameters", "adns_set_governor", "adns_ksk_rollover"}

  const DEFAULTS: Params :=
    Params(Ratio(2, 3), Ratio(1, 3), Ratio(1, 2), 1, 20, 34, 1, 64, 1, 2, HIGH_IMPACT)

  const RECORD_VERDICT := "adns_record_verdict"
  const CAP_ROUNDS := 12

  datatype Vote = Vote(member: string, yes: bool)

  datatype Verdict = Verdict(author: string, blocks: bool)

  datatype Decision = Rejected | Open | Accepted

  /** What `resolve` reads: active members, governors, and the verdicts recorded against the proposal. */
  datatype Assembly = Assembly(active: seq<string>, governors: map<string, Governor>, verdicts: seq<Verdict>)

  /** An unregistered member counts as an agent at minimum reputation. */
  function Registered(params: Params, governors: map<string, Governor>, id: string): Governor {
    if id in governors then governors[id] else Governor(false, params.reputationMin)
  }

  function GovernorOf(params: Params, a: Assembly, id: string): Governor {
    Registered(params, a.governors, id)
  }

  // ----- Weights -----

  function Sum(w: seq<int>): int {
    if w == [] then 0 else Sum(w[..|w| - 1]) + w[|w| - 1]
  }

  function Cap(percent: nat, subtotal: int): int {
    if subtotal * percent / 100 < 1 then 1 else subtotal * percent / 100
  }

  function Least(a: int, b: int): int { if a < b then a else b }

  function Clamp(w: seq<int>, cap: int): (r: seq<int>)
    ensures |r| == |w| && forall i :: 0 <= i < |w| ==> r[i] == Least(w[i], cap)
  {
    if w == [] then [] else Clamp(w[..|w| - 1], cap) + [Least(w[|w| - 1], cap)]
  }

  function Round(w: seq<int>, percent: nat): (r: seq<int>)
    ensures |r| == |w|
  {
    Clamp(w, Cap(percent, Sum(w)))
  }

  function Rounds(w: seq<int>, percent: nat, n: nat): (r: seq<int>)
    ensures |r| == |w|
    decreases n
  {
    if n == 0 then w else Rounds(Round(w, percent), percent, n - 1)
  }

  /** The weights of the positions in `who`, in order. */
  function Picked(w: seq<int>, who: seq<bool>): (r: int)
    requires |w| == |who|
  {
    if w == [] then 0
    else Picked(w[..|w| - 1], who[..|w| - 1]) + (if who[|w| - 1] then w[|w| - 1] else 0)
  }

  function CountTrue(who: seq<bool>): nat {
    if who == [] then 0 else CountTrue(who[..|who| - 1]) + (if who[|who| - 1] then 1 else 0)
  }

  function Replaced(w: seq<int>, who: seq<bool>, x: int): (r: seq<int>)
    requires |w| == |who|
    ensures |r| == |w| && forall i :: 0 <= i < |w| ==> r[i] == if who[i] then x else w[i]
  {
    if w == [] then []
    else Replaced(w[..|w| - 1], who[..|w| - 1], x) + [if who[|w| - 1] then x else w[|w| - 1]]
  }

  /** The share of newcomers, scaled down together when it exceeds its cap. */
  function NewcomersScaled(w: seq<int>, newcomer: seq<bool>, percent: nat): (r: seq<int>)
    requires |w| == |newcomer|
    ensures |r| == |w|
  {
    var cap := Sum(w) * percent / 100;
    var k := CountTrue(newcomer);
    if Picked(w, newcomer) > cap && k > 0 then Replaced(w, newcomer, if cap / k < 0 then 0 else cap / k) else w
  }

  /** The weights that count, from raw reputations. */
  function Counted(params: Params, raw: seq<int>): (r: seq<int>)
    ensures |r| == |raw|
  {
    if |raw| < 3 then raw
    else NewcomersScaled(Rounds(raw, params.memberPercent, CAP_ROUNDS), Newcomers(params, raw), params.newcomerPercent)
  }

  function Newcomers(params: Params, raw: seq<int>): (r: seq<bool>)
    ensures |r| == |raw| && forall i :: 0 <= i < |raw| ==> r[i] == (raw[i] == params.reputationMin)
  {
    if raw == [] then [] else Newcomers(params, raw[..|raw| - 1]) + [raw[|raw| - 1] == params.reputationMin]
  }

  // ----- The tally -----

  /** The weight of an agent. */
  function WeightOf(agents: seq<string>, w: seq<int>, id: string): int
    requires |w| == |agents| && id in agents
  {
    w[IndexOf(agents, id)]
  }

  datatype Tally = Tally(yes: int, no: int, yesCount: nat)

  function Count(agents: seq<string>, w: seq<int>, votes: seq<Vote>): Tally
    requires |w| == |agents|
  {
    if votes == [] then Tally(0, 0, 0)
    else
      var t, v := Count(agents, w, votes[..|votes| - 1]), votes[|votes| - 1];
      if v.member !in agents then t
      else if v.yes then t.(yes := t.yes + WeightOf(agents, w, v.member), yesCount := t.yesCount + 1)
      else t.(no := t.no + WeightOf(agents, w, v.member))
  }

  function Decide(params: Params, highImpact: bool, total: int, t: Tally): Decision {
    if total == 0 then Open
    else if highImpact then
      if t.no * params.block.den >= total * params.block.num then Rejected
      else if t.yes * params.release.den >= total * params.release.num && t.yesCount >= params.minAgentYes then Accepted
      else Open
    else
      if t.no * params.routine.den >= total * params.routine.num then Rejected
      else if t.yes * params.routine.den > total * params.routine.num && t.yesCount >= 1 then Accepted
      else Open
  }

  // ----- The whole rule -----

  predicate OnlyVerdicts(actions: seq<string>) {
    actions != [] && forall n :: n in actions ==> n == RECORD_VERDICT
  }

  predicate IsHighImpact(params: Params, actions: seq<string>) {
    exists n :: n in actions && n in params.highImpact
  }

  predicate Decisive(params: Params, a: Assembly, v: Vote) {
    v.member in a.active && GovernorOf(params, a, v.member).trapdoor
  }

  predicate Blocks(params: Params, a: Assembly, v: Verdict) {
    v.blocks && v.author in a.active && GovernorOf(params, a, v.author).reputation >= params.blockReputation
  }

  predicate Blocked(params: Params, a: Assembly) {
    exists v :: v in a.verdicts && Blocks(params, a, v)
  }

  function AgentsAmong(params: Params, a: Assembly, ids: seq<string>): (r: seq<string>)
    ensures forall id :: id in r <==> id in ids && !GovernorOf(params, a, id).trapdoor
  {
    if ids == [] then []
    else
      var front := AgentsAmong(params, a, ids[..|ids| - 1]);
      if GovernorOf(params, a, ids[|ids| - 1]).trapdoor then front else front + [ids[|ids| - 1]]
  }

  function Agents(params: Params, a: Assembly): seq<string> {
    AgentsAmong(params, a, a.active)
  }

  function Reputations(params: Params, a: Assembly, agents: seq<string>): (r: seq<int>)
    ensures |r| == |agents| && forall i :: 0 <= i < |agents| ==> r[i] == GovernorOf(params, a, agents[i]).reputation
  {
    if agents == [] then []
    else Reputations(params, a, agents[..|agents| - 1]) + [GovernorOf(params, a, agents[|agents| - 1]).reputation]
  }

  /** The first decisive ballot, if any. */
  function TrapdoorVote(params: Params, a: Assembly, votes: seq<Vote>): (r: Option<bool>)
    ensures r.None? <==> forall v :: v in votes ==> !Decisive(params, a, v)
  {
    if votes == [] then None
    else if Decisive(params, a, votes[0]) then Some(votes[0].yes)
    else TrapdoorVote(params, a, votes[1..])
  }

  function Resolve(params: Params, a: Assembly, actions: seq<string>, votes: seq<Vote>): Decision {
    var trapdoor := TrapdoorVote(params, a, votes);
    if OnlyVerdicts(actions) then Accepted
    else if trapdoor.Some? then (if trapdoor.value then Accepted else Rejected)
    else if IsHighImpact(params, actions) && Blocked(params, a) then Open
    else
      var agents := Agents(params, a);
      var w := Counted(params, Reputations(params, a, agents));
      Decide(params, IsHighImpact(params, actions), Sum(w), Count(agents, w, votes))
  }

  // ----- Reputation -----

  function Moved(params: Params, g: Governor, agrees: bool): Governor {
    var next := g.reputation + (if agrees then params.reputationStep else -params.reputationStep);
    var capped := Least(params.reputationMax, next);
    g.(reputation := if capped < params.reputationMin then params.reputationMin else capped)
  }

  /** `adns_settle` on the final votes of a proposal that was accepted or not. */
  function SettledGovernors(params: Params, governors: map<string, Governor>, finalVotes: map<string, bool>,
          accepted: bool)
    : map<string, Governor>
  {
    map id | id in governors.Keys + finalVotes.Keys
             && (id in governors || Changed(params, governors, id, finalVotes, accepted)) ::
      if Changed(params, governors, id, finalVotes, accepted)
      then Moved(params, Registered(params, governors, id), finalVotes[id] == accepted)
      else governors[id]
  }

  predicate Changed(params: Params, governors: map<string, Governor>, id: string, finalVotes: map<string, bool>,
          accepted: bool) {
    && id in finalVotes && !Registered(params, governors, id).trapdoor
    && Moved(params, Registered(params, governors, id), finalVotes[id] == accepted) != Registered(params, governors, id)
  }
}
