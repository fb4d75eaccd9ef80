/** Reputations and weights over every run of the governance actions that change them. */
module VotingRuns {
  import opened Basics
  import opened Seqs
  import opened Voting
  import opened VotingProofs
  import opened VotingOutcomes
  import opened VotingCaps
  import opened VotingAlone

  const REPUTATION_LIMIT := 1000000

  /** The fields `adns_set_governance_parameters` is given; the others keep their value. */
  datatype Change = Change(
    release: Option<Ratio>, block: Option<Ratio>, routine: Option<Ratio>, minAgentYes: Option<nat>,
    newcomerPercent: Option<nat>, memberPercent: Option<nat>,
    reputationMin: Option<int>, reputationMax: Option<int>, reputationStep: Option<int>, blockReputation: Option<int>,
    highImpact: Option<set<string>>)

  const NO_CHANGE := Change(None, None, None, None, None, None, None, None, None, None, None)

  predicate RatioAllowed(r: Option<Ratio>) {
    r.Some? ==> r.value.num <= r.value.den && 1 <= r.value.den <= 1000
  }

  predicate NumberAllowed(n: Option<int>, most: int) { n.Some? ==> 1 <= n.value <= most }

  /** The minimum is compared with the maximum only where both are given. */
  predicate ChangeAllowed(c: Change) {
    && RatioAllowed(c.release) && RatioAllowed(c.block) && RatioAllowed(c.routine)
    && NumberAllowed(c.minAgentYes, 64)
    && NumberAllowed(c.newcomerPercent, 100) && NumberAllowed(c.memberPercent, 100)
    && NumberAllowed(c.reputationMin, REPUTATION_LIMIT) && NumberAllowed(c.reputationMax, REPUTATION_LIMIT)
    && NumberAllowed(c.reputationStep, REPUTATION_LIMIT) && NumberAllowed(c.blockReputation, REPUTATION_LIMIT)
    && (c.reputationMin.Some? && c.reputationMax.Some? ==> c.reputationMin.value <= c.reputationMax.value)
  }

  function Or<T>(change: Option<T>, current: T): T { if change.Some? then change.value else current }

  function Merged(p: Params, c: Change): Params {
    Params(Or(c.release, p.release), Or(c.block, p.block), Or(c.routine, p.routine), Or(c.minAgentYes, p.minAgentYes),
           Or(c.newcomerPercent, p.newcomerPercent), Or(c.memberPercent, p.memberPercent),
           Or(c.reputationMin, p.reputationMin), Or(c.reputationMax, p.reputationMax),
           Or(c.reputationStep, p.reputationStep), Or(c.blockReputation, p.blockReputation),
           Or(c.highImpact, p.highImpact))
  }

  datatype GovernorAct =
    | Register(id: string, trapdoor: bool)
    | Settle(proposal: string, finalVotes: map<string, bool>, accepted: bool)
    | SetParameters(change: Change)

  datatype Ledger = Ledger(params: Params, governors: map<string, Governor>, settled: set<string>)

  /** `adns_set_governor` keeps an existing reputation, `adns_settle` acts once per
      proposal, and a refused change of parameters changes nothing. */
  function NextLedger(l: Ledger, act: GovernorAct): Ledger {
    match act
    case Register(id, trapdoor) =>
      l.(governors := l.governors[id := Governor(trapdoor, Registered(l.params, l.governors, id).reputation)])
    case Settle(p, finalVotes, accepted) =>
      if p in l.settled then l
      else Ledger(l.params, SettledGovernors(l.params, l.governors, finalVotes, accepted), l.settled + {p})
    case SetParameters(change) =>
      if ChangeAllowed(change) then l.(params := Merged(l.params, change)) else l
  }

  function Acts(l: Ledger, acts: seq<GovernorAct>): Ledger {
    if acts == [] then l else NextLedger(Acts(l, acts[..|acts| - 1]), acts[|acts| - 1])
  }

  // ----- Bounds on reputations -----

  ghost predicate WithinBounds(params: Params, governors: map<string, Governor>) {
    forall id :: id in governors ==> params.reputationMin <= governors[id].reputation <= params.reputationMax
  }

  ghost predicate KeepsParameters(acts: seq<GovernorAct>) {
    forall i :: 0 <= i < |acts| ==> !acts[i].SetParameters?
  }

  /** A change of parameters keeps reputations within bounds exactly when they already
      fit the bounds it leaves in force. */
  lemma ChangeKeepsBoundsIff(l: Ledger, c: Change)
    requires ChangeAllowed(c)
    ensures var l' := NextLedger(l, SetParameters(c));
            WithinBounds(l'.params, l'.governors)
            <==> forall id :: id in l.governors ==>
                   Or(c.reputationMin, l.params.reputationMin) <= l.governors[id].reputation
                   <= Or(c.reputationMax, l.params.reputationMax)
  {
  }

  /** What keeps reputations within bounds through the act: a change of parameters
      leaves a minimum up to the maximum, and bounds that all reputations fit. */
  ghost predicate Fits(l: Ledger, act: GovernorAct) {
    act.SetParameters? && ChangeAllowed(act.change) ==>
      var c, p := act.change, l.params;
      && Or(c.reputationMin, p.reputationMin) <= Or(c.reputationMax, p.reputationMax)
      && forall id :: id in l.governors ==>
           Or(c.reputationMin, p.reputationMin) <= l.governors[id].reputation <= Or(c.reputationMax, p.reputationMax)
  }

  ghost predicate AllFit(l: Ledger, acts: seq<GovernorAct>) {
    forall i :: 0 <= i < |acts| ==> Fits(Acts(l, acts[..i]), acts[i])
  }

  ghost predicate InOrder(l: Ledger) {
    l.params.reputationMin <= l.params.reputationMax && WithinBounds(l.params, l.governors)
  }

  lemma StepKeepsOrder(l: Ledger, act: GovernorAct)
    requires InOrder(l) && !act.SetParameters?
    ensures InOrder(NextLedger(l, act))
  {
    hide Changed;
  }

  lemma StepKeepsOrderIff(l: Ledger, act: GovernorAct)
    requires InOrder(l)
    ensures InOrder(NextLedger(l, act)) <==> Fits(l, act)
  {
    hide SettledGovernors;
    if !act.SetParameters? {
      StepKeepsOrder(l, act);
    } else if ChangeAllowed(act.change) {
      ChangeKeepsBoundsIff(l, act.change);
    }
  }

  ghost predicate AlwaysInOrder(l: Ledger, acts: seq<GovernorAct>) {
    forall i :: 0 <= i <= |acts| ==> InOrder(Acts(l, acts[..i]))
  }

  lemma FitsSplit(l: Ledger, acts: seq<GovernorAct>)
    requires acts != []
    ensures var front := acts[..|acts| - 1];
            AllFit(l, acts) <==> AllFit(l, front) && Fits(Acts(l, front), acts[|acts| - 1])
  {
    hide Fits, Acts;
    var front := acts[..|acts| - 1];
    assert forall i :: 0 <= i < |front| ==> front[..i] == acts[..i] && front[i] == acts[i];
  }

  lemma OrderSplit(l: Ledger, acts: seq<GovernorAct>)
    requires acts != []
    ensures AlwaysInOrder(l, acts) <==> AlwaysInOrder(l, acts[..|acts| - 1]) && InOrder(Acts(l, acts))
    ensures AlwaysInOrder(l, acts[..|acts| - 1]) ==> InOrder(Acts(l, acts[..|acts| - 1]))
  {
    hide InOrder, Acts;
    var front := acts[..|acts| - 1];
    assert acts[..|acts|] == acts && front[..|front|] == front;
    assert forall i :: 0 <= i <= |front| ==> front[..i] == acts[..i];
  }

  /** Reputations stay within the bounds in force at every step of a run exactly when
      every change of parameters in it fits. */
  lemma {:induction false} RunsStayInOrderIff(l: Ledger, acts: seq<GovernorAct>)
    requires InOrder(l)
    ensures AlwaysInOrder(l, acts) <==> AllFit(l, acts)
  {
    hide InOrder, Fits, NextLedger, AlwaysInOrder, AllFit;
    if acts == [] {
      NothingDone(l);
    } else {
      var front := acts[..|acts| - 1];
      RunsStayInOrderIff(l, front);
      FitsSplit(l, acts);
      OrderSplit(l, acts);
      if AllFit(l, front) {
        StepKeepsOrderIff(Acts(l, front), acts[|acts| - 1]);
      }
    }
  }

  lemma NothingDone(l: Ledger)
    requires InOrder(l)
    ensures AlwaysInOrder(l, []) && AllFit(l, [])
  {
    hide InOrder;
    var none: seq<GovernorAct> := [];
    assert none[..0] == none;
  }

  /** While the parameters stay, so do all reputations within their bounds. */
  lemma {:induction false} ReputationsStayWithinBounds(l: Ledger, acts: seq<GovernorAct>)
    requires l.params.reputationMin <= l.params.reputationMax && WithinBounds(l.params, l.governors)
    requires KeepsParameters(acts)
    ensures Acts(l, acts).params == l.params && WithinBounds(l.params, Acts(l, acts).governors)
  {
    hide Changed;
    if acts != [] {
      ReputationsStayWithinBounds(l, acts[..|acts| - 1]);
    }
  }

  /** What every reachable ledger has: parameters governance may set, and positive
      reputations up to a million. */
  ghost predicate Sound(l: Ledger) {
    && 1 <= l.params.reputationMin <= REPUTATION_LIMIT && 1 <= l.params.reputationMax <= REPUTATION_LIMIT
    && 1 <= l.params.newcomerPercent <= 100 && 1 <= l.params.memberPercent <= 100
    && forall id :: id in l.governors ==> 1 <= l.governors[id].reputation <= REPUTATION_LIMIT
  }

  /** Through every change of parameters reputations stay between one and a million. */
  lemma {:induction false} EveryLedgerIsSound(l: Ledger, acts: seq<GovernorAct>)
    requires Sound(l)
    ensures Sound(Acts(l, acts))
  {
    hide Changed;
    if acts != [] {
      EveryLedgerIsSound(l, acts[..|acts| - 1]);
    }
  }

  ghost predicate Within(l: Ledger, id: string) {
    l.params.reputationMin <= Registered(l.params, l.governors, id).reputation <= l.params.reputationMax
  }

  lemma SettlingRestores(l: Ledger, p: string, finalVotes: map<string, bool>, accepted: bool, id: string)
    requires p !in l.settled && l.params.reputationMin <= l.params.reputationMax
    requires id in finalVotes && !Registered(l.params, l.governors, id).trapdoor
    ensures Within(NextLedger(l, Settle(p, finalVotes, accepted)), id)
  {
  }

  /** Settling brings every agent who voted back within the current bounds, and there
      they stay as long as the parameters do. */
  lemma {:induction false} SettlingRestoresVoters(l: Ledger, p: string, finalVotes: map<string, bool>, accepted: bool,
          id: string, acts: seq<GovernorAct>)
    requires p !in l.settled && l.params.reputationMin <= l.params.reputationMax && KeepsParameters(acts)
    requires id in finalVotes && !Registered(l.params, l.governors, id).trapdoor
    ensures var l' := Acts(NextLedger(l, Settle(p, finalVotes, accepted)), acts);
            l'.params == l.params && Within(l', id)
  {
    hide Changed;
    if acts == [] {
      SettlingRestores(l, p, finalVotes, accepted, id);
    } else {
      SettlingRestoresVoters(l, p, finalVotes, accepted, id, acts[..|acts| - 1]);
    }
  }

  /** One change strands a newcomer below the new minimum; another, given alone,
      puts the minimum above the maximum. */
  lemma BoundsCanBeMissed(id: string)
    ensures var l := NextLedger(NextLedger(Ledger(DEFAULTS, map[], {}), Register(id, false)),
                                SetParameters(NO_CHANGE.(reputationMin := Some(5))));
            Sound(l) && !WithinBounds(l.params, l.governors)
    ensures var l := NextLedger(Ledger(DEFAULTS, map[], {}), SetParameters(NO_CHANGE.(reputationMin := Some(100))));
            Sound(l) && l.params.reputationMin > l.params.reputationMax
  {
    var l1 := NextLedger(Ledger(DEFAULTS, map[], {}), Register(id, false));
    assert l1.governors == map[id := Governor(false, 1)];
    assert id in NextLedger(l1, SetParameters(NO_CHANGE.(reputationMin := Some(5)))).governors;
  }

  // ----- Weights on every ledger -----

  /** On every ledger three or more agents' votes are counted with newcomers within
      their share of the capped subtotal. No weight exceeds the member cap where
      no reputation exceeds 13, or 142 at the default percentage. */
  lemma CapHoldsOnEveryLedger(l: Ledger, acts: seq<GovernorAct>, active: seq<string>, verdicts: seq<Verdict>)
    requires Sound(l)
    ensures var end := Acts(l, acts);
            var a := Assembly(active, end.governors, verdicts);
            var raw := Reputations(end.params, a, Agents(end.params, a));
            |raw| >= 3 ==>
              var capped := Rounds(raw, end.params.memberPercent, CAP_ROUNDS);
              && Picked(Counted(end.params, raw), Newcomers(end.params, raw))
                 <= Sum(capped) * end.params.newcomerPercent / 100
              && (AtMost(raw, 13) || (end.params.memberPercent == PERCENT && AtMost(raw, 142)) ==>
                    AtMost(capped, Cap(end.params.memberPercent, Sum(capped))))
  {
    hide Rounds, Cap, NewcomersScaled, Acts, Picked;
    EveryLedgerIsSound(l, acts);
    var end := Acts(l, acts);
    var a := Assembly(active, end.governors, verdicts);
    var raw := Reputations(end.params, a, Agents(end.params, a));
    assert AtLeast(raw, 1);
    if |raw| >= 3 {
      SharesHold(end.params, raw);
    }
  }

  lemma SharesHold(params: Params, raw: seq<int>)
    requires |raw| >= 3 && AtLeast(raw, 1)
    ensures var capped := Rounds(raw, params.memberPercent, CAP_ROUNDS);
            && Picked(Counted(params, raw), Newcomers(params, raw)) <= Sum(capped) * params.newcomerPercent / 100
            && (AtMost(raw, 13) || (params.memberPercent == PERCENT && AtMost(raw, 142)) ==>
                  AtMost(capped, Cap(params.memberPercent, Sum(capped))))
  {
    hide Rounds, Round, Cap, NewcomersScaled, Picked;
    var capped := Rounds(raw, params.memberPercent, CAP_ROUNDS);
    RoundsNonnegative(raw, params.memberPercent, CAP_ROUNDS);
    NewcomersWithinShare(capped, Newcomers(params, raw), params.newcomerPercent);
    if AtMost(raw, 13) {
      SettlesUpToThirteen(raw, params.memberPercent);
      FixedIff(capped, params.memberPercent);
    } else if params.memberPercent == PERCENT && AtMost(raw, 142) {
      CapLoopReachesFixedPoint(raw);
    }
  }

  /** Wherever the default parameters are in force, whatever was before, no ballots of
      newcomers alone settle a proposal, whoever else is a member. */
  lemma NewcomersNeverDecideOnAnyLedger(l: Ledger, acts: seq<GovernorAct>, active: seq<string>, verdicts: seq<Verdict>,
          actions: seq<string>, votes: seq<Vote>)
    requires Sound(l) && Acts(l, acts).params == DEFAULTS
    requires var a := Assembly(active, Acts(l, acts).governors, verdicts);
             && |RawWeights(a)| >= 3 && AtMost(RawWeights(a), 142)
             && !OnlyVerdicts(actions) && TrapdoorVote(DEFAULTS, a, votes).None?
             && Distinct(active) && OneBallotEach(votes) && OnlyNewcomersVote(a, votes)
    ensures Resolve(DEFAULTS, Assembly(active, Acts(l, acts).governors, verdicts), actions, votes) == Open
  {
    hide Acts, Resolve, OnlyVerdicts, TrapdoorVote, OneBallotEach, OnlyNewcomersVote, Distinct;
    EveryLedgerIsSound(l, acts);
    NewcomersNeverDecide(Assembly(active, Acts(l, acts).governors, verdicts), actions, votes);
  }
}
