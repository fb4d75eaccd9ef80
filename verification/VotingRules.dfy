/** The vote rule and the reputation rule case by case, on the tables they read:
    `resolve` and `adns_settle` of ccf/governance/constitution.js. */
module VotingRules {
  import opened Basics
  import opened Seqs
  import opened Voting
  import opened VotingAlone

  // ----- Statements, trapdoors and findings -----

  /** Every action only records a verdict. */
  ghost predicate IsStatement(actions: seq<string>) {
    actions != [] && forall n :: n in actions ==> n == "adns_record_verdict"
  }

  /** The ballot of an active member registered as a trapdoor. */
  ghost predicate IsTrapdoorBallot(a: Assembly, v: Vote) {
    v.member in a.active && v.member in a.governors && a.governors[v.member].trapdoor
  }

  function ReputationOf(params: Params, a: Assembly, id: string): int {
    if id in a.governors then a.governors[id].reputation else params.reputationMin
  }

  /** An active member of enough reputation has recorded a block against the proposal. */
  ghost predicate HasFinding(params: Params, a: Assembly) {
    exists v :: v in a.verdicts && v.blocks && v.author in a.active
                && ReputationOf(params, a, v.author) >= params.blockReputation
  }

  ghost predicate TouchesHighImpact(params: Params, actions: seq<string>) {
    exists n :: n in actions && n in params.highImpact
  }

  lemma DecisiveIff(params: Params, a: Assembly, v: Vote)
    ensures Decisive(params, a, v) <==> IsTrapdoorBallot(a, v)
  {
  }

  lemma BlockedIff(params: Params, a: Assembly)
    ensures Blocked(params, a) <==> HasFinding(params, a)
  {
    if v :| v in a.verdicts && Blocks(params, a, v) {
      assert ReputationOf(params, a, v.author) >= params.blockReputation;
    }
    if HasFinding(params, a) {
      var v :| v in a.verdicts && v.blocks && v.author in a.active
               && ReputationOf(params, a, v.author) >= params.blockReputation;
      assert Blocks(params, a, v);
    }
  }

  /** Verdicts alone are accepted at once, whatever the ballots. */
  lemma StatementIsAccepted(params: Params, a: Assembly, actions: seq<string>, votes: seq<Vote>)
    requires IsStatement(actions)
    ensures Resolve(params, a, actions, votes) == Accepted
  {
    hide TrapdoorVote, Counted, Count, Decide, Reputations, AgentsAmong;
    assert OnlyVerdicts(actions);
  }

  lemma {:induction false} FirstTrapdoor(params: Params, a: Assembly, votes: seq<Vote>, i: nat)
    requires i < |votes| && IsTrapdoorBallot(a, votes[i])
    requires forall j :: 0 <= j < i ==> !IsTrapdoorBallot(a, votes[j])
    ensures TrapdoorVote(params, a, votes) == Some(votes[i].yes)
  {
    hide Decisive, IsTrapdoorBallot;
    DecisiveIff(params, a, votes[0]);
    if i > 0 {
      assert votes[1..][i - 1] == votes[i];
      FirstTrapdoor(params, a, votes[1..], i - 1);
    }
  }

  /** The first trapdoor ballot decides: yes accepts, no rejects. */
  lemma TrapdoorDecides(params: Params, a: Assembly, actions: seq<string>, votes: seq<Vote>, i: nat)
    requires !IsStatement(actions) && i < |votes| && IsTrapdoorBallot(a, votes[i])
    requires forall j :: 0 <= j < i ==> !IsTrapdoorBallot(a, votes[j])
    ensures Resolve(params, a, actions, votes) == if votes[i].yes then Accepted else Rejected
  {
    hide TrapdoorVote, Counted, Count, Decide, Reputations, AgentsAmong, IsTrapdoorBallot;
    FirstTrapdoor(params, a, votes, i);
  }

  lemma NoTrapdoor(params: Params, a: Assembly, votes: seq<Vote>)
    requires forall v :: v in votes ==> !IsTrapdoorBallot(a, v)
    ensures TrapdoorVote(params, a, votes) == None
  {
    hide Decisive, IsTrapdoorBallot;
    forall v | v in votes ensures !Decisive(params, a, v) { DecisiveIff(params, a, v); }
  }

  /** A finding holds a high-impact proposal open, whatever the weights, until a
      trapdoor votes. */
  lemma FindingHoldsOpen(params: Params, a: Assembly, actions: seq<string>, votes: seq<Vote>)
    requires !IsStatement(actions) && TouchesHighImpact(params, actions) && HasFinding(params, a)
    requires forall v :: v in votes ==> !IsTrapdoorBallot(a, v)
    ensures Resolve(params, a, actions, votes) == Open
  {
    hide TrapdoorVote, Counted, Count, Decide, Reputations, AgentsAmong, IsTrapdoorBallot, Blocked, HasFinding;
    NoTrapdoor(params, a, votes);
    BlockedIff(params, a);
    var n :| n in actions && n in params.highImpact;
    assert IsHighImpact(params, actions);
  }

  // ----- Weighted ballots -----

  /** The weight of the agents in a set. */
  function Weigh(agents: seq<string>, w: seq<int>, chosen: set<string>): int
    requires |w| == |agents|
  {
    if agents == [] then 0 else (if agents[0] in chosen then w[0] else 0) + Weigh(agents[1..], w[1..], chosen)
  }

  function VotersFor(votes: seq<Vote>, yes: bool): set<string> { set v | v in votes && v.yes == yes :: v.member }

  lemma {:induction false} WeighMore(agents: seq<string>, w: seq<int>, chosen: set<string>, i: nat)
    requires |w| == |agents| && i < |agents| && Distinct(agents) && agents[i] !in chosen
    ensures Weigh(agents, w, chosen + {agents[i]}) == Weigh(agents, w, chosen) + w[i]
  {
    var rest := agents[1..];
    assert Distinct(rest);
    if i > 0 {
      assert rest[i - 1] == agents[i];
      WeighMore(rest, w[1..], chosen, i - 1);
    } else {
      WeighElsewhere(rest, w[1..], chosen, agents[0]);
    }
  }

  lemma {:induction false} WeighElsewhere(agents: seq<string>, w: seq<int>, chosen: set<string>, id: string)
    requires |w| == |agents| && id !in agents
    ensures Weigh(agents, w, chosen + {id}) == Weigh(agents, w, chosen)
  {
    if agents != [] {
      WeighElsewhere(agents[1..], w[1..], chosen, id);
    }
  }

  lemma {:induction false} WeighNone(agents: seq<string>, w: seq<int>)
    requires |w| == |agents|
    ensures Weigh(agents, w, {}) == 0
  {
    if agents != [] {
      WeighNone(agents[1..], w[1..]);
    }
  }

  lemma {:induction false} WeighAll(agents: seq<string>, w: seq<int>, chosen: set<string>)
    requires |w| == |agents| && forall id :: id in agents ==> id in chosen
    ensures Weigh(agents, w, chosen) == Sum(w)
  {
    if agents != [] {
      WeighAll(agents[1..], w[1..], chosen);
      SumFromFront(w);
    }
  }

  lemma {:induction false} SumFromFront(w: seq<int>)
    requires w != []
    ensures Sum(w) == w[0] + Sum(w[1..])
  {
    if |w| > 1 {
      SumFromFront(w[..|w| - 1]);
      assert w[..|w| - 1][1..] == w[1..][..|w| - 2] && w[1..][|w| - 2] == w[|w| - 1];
    } else {
      assert w[..0] == [] && w[1..] == [];
    }
  }

  /** With one ballot each, the tally is the weight of the agents that said yes, the
      weight of those that said no, and how many said yes. */
  lemma {:induction false} TallyIs(agents: seq<string>, w: seq<int>, votes: seq<Vote>)
    requires |w| == |agents| && Distinct(agents) && OneBallotEach(votes)
    ensures var t := Count(agents, w, votes);
            && t.yes == Weigh(agents, w, VotersFor(votes, true)) && t.no == Weigh(agents, w, VotersFor(votes, false))
            && t.yesCount == |set id | id in VotersFor(votes, true) && id in agents|
  {
    hide Weigh, VotersFor, OneBallotEach;
    if votes == [] {
      NobodyVoted(agents);
      WeighNone(agents, w);
    } else {
      var front, v := votes[..|votes| - 1], votes[|votes| - 1];
      VotersSplit(votes);
      TallyIs(agents, w, front);
      var said := VotersFor(front, v.yes);
      if v.member in agents {
        WeighMore(agents, w, said, IndexOf(agents, v.member));
      } else {
        WeighElsewhere(agents, w, said, v.member);
      }
      if v.yes {
        CountMore(said, agents, v.member);
      }
    }
  }

  lemma NobodyVoted(agents: seq<string>)
    ensures VotersFor([], true) == {} && VotersFor([], false) == {}
    ensures (set id | id in VotersFor([], true) && id in agents) == {}
  {
  }

  lemma CountMore(chosen: set<string>, agents: seq<string>, id: string)
    requires id !in chosen
    ensures |set x | x in chosen + {id} && x in agents|
            == |set x | x in chosen && x in agents| + (if id in agents then 1 else 0)
  {
    var s := set x | x in chosen && x in agents;
    assert (set x | x in chosen + {id} && x in agents) == if id in agents then s + {id} else s;
  }

  lemma VotersSplit(votes: seq<Vote>)
    requires votes != [] && OneBallotEach(votes)
    ensures var front, v := votes[..|votes| - 1], votes[|votes| - 1];
            && OneBallotEach(front) && v.member !in VotersFor(front, v.yes)
            && VotersFor(votes, v.yes) == VotersFor(front, v.yes) + {v.member}
            && VotersFor(votes, !v.yes) == VotersFor(front, !v.yes)
  {
    var front, v := votes[..|votes| - 1], votes[|votes| - 1];
    assert votes == front + [v];
    assert forall x :: x in front ==> x.member != v.member;
  }

  /** The agents of an assembly, their reputations, and what these weigh. */
  ghost predicate AgentsAre(params: Params, a: Assembly, agents: seq<string>, raw: seq<int>, w: seq<int>) {
    && Distinct(agents) && |raw| == |agents| && |w| == |agents|
    && (forall id :: id in agents <==> id in a.active && !(id in a.governors && a.governors[id].trapdoor))
    && (forall i :: 0 <= i < |agents| ==> raw[i] == ReputationOf(params, a, agents[i]))
    && w == Counted(params, raw)
  }

  /** Without trapdoor ballot and finding the weights decide: enough noes reject, else
      enough yeses of enough agents accept, else the proposal stays open. */
  lemma WeightsDecide(params: Params, a: Assembly, actions: seq<string>, votes: seq<Vote>)
    returns (agents: seq<string>, raw: seq<int>, w: seq<int>)
    requires !IsStatement(actions) && Distinct(a.active) && OneBallotEach(votes)
    requires forall v :: v in votes ==> !IsTrapdoorBallot(a, v)
    requires TouchesHighImpact(params, actions) ==> !HasFinding(params, a)
    ensures AgentsAre(params, a, agents, raw, w)
    ensures var high, total := TouchesHighImpact(params, actions), Weigh(agents, w, set id | id in agents);
            var yes, no := Weigh(agents, w, VotersFor(votes, true)), Weigh(agents, w, VotersFor(votes, false));
            var count := |set id | id in VotersFor(votes, true) && id in agents|;
            var rejects := if high then no * params.block.den >= total * params.block.num
                           else no * params.routine.den >= total * params.routine.num;
            var accepts := if high
                           then yes * params.release.den >= total * params.release.num && count >= params.minAgentYes
                           else yes * params.routine.den > total * params.routine.num && count >= 1;
            Resolve(params, a, actions, votes)
            == if total == 0 then Open else if rejects then Rejected else if accepts then Accepted else Open
  {
    hide TrapdoorVote, Counted, Count, AgentsAmong, IsTrapdoorBallot, Blocked, HasFinding, Weigh, Sum;
    NoTrapdoor(params, a, votes);
    BlockedIff(params, a);
    assert TouchesHighImpact(params, actions) <==> IsHighImpact(params, actions);
    agents := Agents(params, a);
    raw := Reputations(params, a, agents);
    w := Counted(params, raw);
    AgentsDistinct(params, a, a.active);
    TallyIs(agents, w, votes);
    WeighAll(agents, w, set id | id in agents);
  }

  lemma {:induction false} AgentsDistinct(params: Params, a: Assembly, ids: seq<string>)
    requires Distinct(ids)
    ensures Distinct(AgentsAmong(params, a, ids))
  {
    if ids != [] {
      var front := ids[..|ids| - 1];
      assert Distinct(front) && ids[|ids| - 1] !in front;
      AgentsDistinct(params, a, front);
    }
  }

  // ----- The newcomers' share -----

  /** The weight of the positions marked. */
  function Share(w: seq<int>, who: seq<bool>): int
    requires |w| == |who|
  {
    if w == [] then 0 else (if who[0] then w[0] else 0) + Share(w[1..], who[1..])
  }

  function Marked(who: seq<bool>): set<int> { set i | 0 <= i < |who| && who[i] }

  lemma {:induction false} PickedIs(w: seq<int>, who: seq<bool>)
    requires |w| == |who|
    ensures Picked(w, who) == Share(w, who)
  {
    if w != [] {
      PickedIs(w[1..], who[1..]);
      PickedFromFront(w, who);
    }
  }

  lemma {:induction false} PickedFromFront(w: seq<int>, who: seq<bool>)
    requires |w| == |who| && w != []
    ensures Picked(w, who) == (if who[0] then w[0] else 0) + Picked(w[1..], who[1..])
  {
    var n := |w| - 1;
    if n > 0 {
      PickedFromFront(w[..n], who[..n]);
      assert w[..n][1..] == w[1..][..n - 1] && who[..n][1..] == who[1..][..n - 1];
      assert w[1..][n - 1] == w[n] && who[1..][n - 1] == who[n];
    } else {
      assert w[..0] == [] && w[1..] == [];
    }
  }

  lemma {:induction false} MarkedCount(who: seq<bool>)
    ensures CountTrue(who) == |Marked(who)|
  {
    if who == [] {
      assert Marked(who) == {};
    } else {
      var n := |who| - 1;
      MarkedCount(who[..n]);
      assert Marked(who) == if who[n] then Marked(who[..n]) + {n} else Marked(who[..n]);
    }
  }

  /** Newcomers within their percentage of the capped subtotal keep their weights;
      beyond it each gets the same weight, the greatest that keeps them within. All
      other weights stay. */
  lemma NewcomersGetGreatestShare(w: seq<int>, newcomer: seq<bool>, percent: nat) returns (r: seq<int>, x: int)
    requires |w| == |newcomer| && Sum(w) >= 0
    ensures r == NewcomersScaled(w, newcomer, percent) && |r| == |w|
    ensures forall i :: 0 <= i < |w| && !newcomer[i] ==> r[i] == w[i]
    ensures Marked(newcomer) == {} || 100 * Share(w, newcomer) <= Sum(w) * percent ==> r == w
    ensures Marked(newcomer) != {} && 100 * Share(w, newcomer) > Sum(w) * percent ==>
              && x >= 0 && (forall i :: 0 <= i < |w| && newcomer[i] ==> r[i] == x)
              && 100 * (|Marked(newcomer)| * x) <= Sum(w) * percent < 100 * (|Marked(newcomer)| * (x + 1))
  {
    hide Picked, CountTrue, Sum, Share, Marked;
    PickedIs(w, newcomer);
    MarkedCount(newcomer);
    var total, k := Sum(w) * percent, |Marked(newcomer)|;
    TimesNonnegative(Sum(w), percent);
    var cap := total / 100;
    r, x := NewcomersScaled(w, newcomer, percent), 0;
    if k > 0 {
      x := cap / k;
      GreatestQuotient(cap, k);
      TimesHundred(k * x, cap, k * (x + 1), total);
    }
  }

  lemma TimesNonnegative(a: int, b: int)
    requires a >= 0 && b >= 0
    ensures a * b >= 0
  {
  }

  lemma GreatestQuotient(a: int, k: int)
    requires a >= 0 && k > 0
    ensures a / k >= 0 && k * (a / k) <= a < k * (a / k + 1)
  {
  }

  lemma TimesHundred(low: int, cap: int, high: int, total: int)
    requires low <= cap < high && cap == total / 100
    ensures 100 * low <= total < 100 * high
  {
  }

  // ----- Reputation -----

  /** A step up or down, stopped at the bounds. */
  ghost predicate StepsTo(params: Params, was: int, now: int, agrees: bool) {
    var target := if agrees then was + params.reputationStep else was - params.reputationStep;
    && (target > params.reputationMax ==> now == params.reputationMax)
    && (target < params.reputationMin ==> now == params.reputationMin)
    && (params.reputationMin <= target <= params.reputationMax ==> now == target)
  }

  ghost function GovernorRow(params: Params, governors: map<string, Governor>, id: string): Governor {
    if id in governors then governors[id] else Governor(false, params.reputationMin)
  }

  /** Settling moves every agent that voted one step towards or away from the
      majority it was with or against, from the least reputation if it was not
      registered; trapdoors and those who did not vote stay as they were. */
  lemma SettlementMovesVoters(params: Params, governors: map<string, Governor>, finalVotes: map<string, bool>,
          accepted: bool, id: string)
    requires params.reputationMin <= params.reputationMax
    ensures var after := SettledGovernors(params, governors, finalVotes, accepted);
            var was, now := GovernorRow(params, governors, id), GovernorRow(params, after, id);
            && now.trapdoor == was.trapdoor && (id in governors ==> id in after)
            && (id in finalVotes && !was.trapdoor ==>
                  StepsTo(params, was.reputation, now.reputation, finalVotes[id] == accepted))
            && (id !in finalVotes || was.trapdoor ==> now == was && (id in after <==> id in governors))
  {
  }
}
