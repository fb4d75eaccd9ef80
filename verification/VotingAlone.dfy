/** Who can settle a proposal on their own: one agent, or newcomers together. */
module VotingAlone {
  import opened Basics
  import opened Seqs
  import opened Voting
  import opened VotingProofs
  import opened VotingOutcomes

  // ----- Who decides alone -----

  lemma {:induction false} RoundsKeepOnes(w: seq<int>, n: nat)
    requires AtLeast(w, 1)
    ensures AtLeast(Rounds(w, PERCENT, n), 1)
    ensures forall j :: 0 <= j < |w| && w[j] == 1 ==> Rounds(w, PERCENT, n)[j] == 1
    decreases n
  {
    if n > 0 {
      SumBounds(w, 1);
      CapIs(Sum(w));
      RoundsKeepOnes(Round(w, PERCENT), n - 1);
    }
  }

  /** All weights but the one at `i` are `x`. */
  ghost predicate AllBut(w: seq<int>, i: nat, x: int) {
    i < |w| && forall j :: 0 <= j < |w| && j != i ==> w[j] == x
  }

  ghost predicate Constant(w: seq<int>, x: int) { forall j :: 0 <= j < |w| ==> w[j] == x }

  lemma {:induction false} ConstantSum(w: seq<int>, x: int)
    requires Constant(w, x)
    ensures Sum(w) == |w| * x
  {
    if w != [] {
      ConstantSum(w[..|w| - 1], x);
      assert |w| * x == (|w| - 1) * x + x;
    }
  }

  lemma {:induction false} AllButSum(w: seq<int>, i: nat, x: int)
    requires AllBut(w, i, x)
    ensures Sum(w) == w[i] + (|w| - 1) * x
  {
    var front := w[..|w| - 1];
    if i == |w| - 1 {
      ConstantSum(front, x);
    } else {
      AllButSum(front, i, x);
      assert (|w| - 1) * x == (|w| - 2) * x + x;
    }
  }

  ghost predicate EveryoneBut(who: seq<bool>, i: nat) {
    i < |who| && forall j :: 0 <= j < |who| ==> who[j] == (j != i)
  }

  ghost predicate Everyone(who: seq<bool>) { forall j :: 0 <= j < |who| ==> who[j] }

  lemma {:induction false} PickedEveryone(w: seq<int>, who: seq<bool>)
    requires |w| == |who| && Everyone(who)
    ensures Picked(w, who) == Sum(w) && CountTrue(who) == |w|
  {
    if w != [] {
      PickedEveryone(w[..|w| - 1], who[..|w| - 1]);
    }
  }

  lemma {:induction false} PickedEveryoneBut(w: seq<int>, who: seq<bool>, i: nat)
    requires |w| == |who| && EveryoneBut(who, i)
    ensures Picked(w, who) == Sum(w) - w[i] && CountTrue(who) == |w| - 1
  {
    if i == |w| - 1 {
      PickedEveryone(w[..|w| - 1], who[..|w| - 1]);
    } else {
      PickedEveryoneBut(w[..|w| - 1], who[..|w| - 1], i);
    }
  }

  /** Three or more agents, all at minimum reputation, weigh nothing at all. */
  lemma NewcomersAloneWeighNothing(raw: seq<int>)
    requires |raw| >= 3 && Constant(raw, 1)
    ensures Sum(Counted(DEFAULTS, raw)) == 0
  {
    hide Rounds, NewcomersScaled;
    RoundsKeepOnes(raw, CAP_ROUNDS);
    var w := Rounds(raw, PERCENT, CAP_ROUNDS);
    ConstantSum(w, 1);
    var who := Newcomers(DEFAULTS, raw);
    PickedEveryone(w, who);
    ScaledToNothing(w, who);
    ConstantSum(Counted(DEFAULTS, raw), 0);
  }

  lemma ScaledToNothing(w: seq<int>, who: seq<bool>)
    requires |w| == |who| && Picked(w, who) > Sum(w) * 20 / 100 >= 0 && CountTrue(who) > Sum(w) * 20 / 100
    ensures NewcomersScaled(w, who, 20) == Replaced(w, who, 0)
  {
    hide Sum, Picked, CountTrue, Replaced;
    SmallQuotient(Sum(w) * 20 / 100, CountTrue(who));
  }

  lemma SmallQuotient(a: int, b: int)
    requires 0 <= a < b
    ensures a / b == 0
  {
  }

  /** One veteran among two or more newcomers is left with all the weight. */
  lemma SoleVeteranHasAllWeight(raw: seq<int>, i: nat)
    requires |raw| >= 3 && AllBut(raw, i, 1) && 1 < raw[i] <= 142
    ensures var w := Counted(DEFAULTS, raw); w[i] >= 1 && AllBut(w, i, 0) && Sum(w) == w[i]
  {
    hide Rounds, NewcomersScaled, Cap, Sum, Picked, CountTrue;
    CapLoopReachesFixedPoint(raw);
    RoundsKeepOnes(raw, CAP_ROUNDS);
    var w, who := Rounds(raw, PERCENT, CAP_ROUNDS), Newcomers(DEFAULTS, raw);
    AllButSum(w, i, 1);
    CapIs(Sum(w));
    assert w[i] <= Cap(PERCENT, Sum(w));
    PickedEveryoneBut(w, who, i);
    VeteranArithmetic(w[i], |w| - 1, Cap(PERCENT, Sum(w)));
    ScaledToNothing(w, who);
    AllButSum(Counted(DEFAULTS, raw), i, 0);
  }

  lemma VeteranArithmetic(m: int, k: int, cap: int)
    requires 1 <= m <= cap && k >= 2 && (17 * (m + k) >= 50 ==> 50 * cap <= 17 * (m + k))
    requires 17 * (m + k) < 50 ==> cap == 1
    ensures 0 <= (m + k) * 20 / 100 < k
  {
  }

  lemma LoneBallot(params: Params, a: Assembly, actions: seq<string>, v: Vote)
    requires !OnlyVerdicts(actions) && v.member in Agents(params, a)
    requires !(IsHighImpact(params, actions) && Blocked(params, a))
    ensures var agents := Agents(params, a);
            var w := Counted(params, Reputations(params, a, agents));
            var x := WeightOf(agents, w, v.member);
            Resolve(params, a, actions, [v])
            == Decide(params, IsHighImpact(params, actions), Sum(w), if v.yes then Tally(x, 0, 1) else Tally(0, x, 0))
  {
    hide Counted, Decide, IsHighImpact, Blocked, OnlyVerdicts;
    assert [v][..0] == [] && TrapdoorVote(params, a, [v][1..]) == None;
    var agents := Agents(params, a);
    var w := Counted(params, Reputations(params, a, agents));
    assert Count(agents, w, [v][..0]) == Tally(0, 0, 0);
  }

  /** The agents' reputations as the cap loop sees them. */
  function RawWeights(a: Assembly): seq<int> {
    Reputations(DEFAULTS, a, Agents(DEFAULTS, a))
  }

  /** Under the default parameters a sole veteran decides by its own ballot,
      although the weight cap is there to prevent that. */
  lemma SoleVeteranDecides(a: Assembly, actions: seq<string>, v: Vote)
    requires !OnlyVerdicts(actions) && v.member in Agents(DEFAULTS, a)
    requires !(IsHighImpact(DEFAULTS, actions) && Blocked(DEFAULTS, a))
    requires var i := IndexOf(Agents(DEFAULTS, a), v.member);
             |RawWeights(a)| >= 3 && AllBut(RawWeights(a), i, 1) && 1 < RawWeights(a)[i] <= 142
    ensures Resolve(DEFAULTS, a, actions, [v]) == if v.yes then Accepted else Rejected
  {
    hide Counted, IsHighImpact, Blocked, OnlyVerdicts, Resolve;
    LoneBallot(DEFAULTS, a, actions, v);
    SoleVeteranHasAllWeight(RawWeights(a), IndexOf(Agents(DEFAULTS, a), v.member));
  }

  /** Under the default parameters three or more agents without a veteran can
      settle nothing: without a trapdoor ballot every proposal stays open. */
  lemma NewcomersAloneStayOpen(a: Assembly, actions: seq<string>, votes: seq<Vote>)
    requires !OnlyVerdicts(actions) && TrapdoorVote(DEFAULTS, a, votes).None?
    requires |RawWeights(a)| >= 3 && Constant(RawWeights(a), 1)
    ensures Resolve(DEFAULTS, a, actions, votes) == Open
  {
    hide Counted, IsHighImpact, Blocked, OnlyVerdicts, TrapdoorVote, Count;
    NewcomersAloneWeighNothing(RawWeights(a));
  }

  /** When the newcomer cap does not bite, no agent's yes is enough on its own. */
  lemma NoAgentCarriesAlone(raw: seq<int>, i: nat, highImpact: bool)
    requires |raw| >= 3 && AtLeast(raw, 1) && AtMost(raw, 142) && i < |raw|
    requires var w := Rounds(raw, PERCENT, CAP_ROUNDS);
             Picked(w, Newcomers(DEFAULTS, raw)) <= Sum(w) * 20 / 100
    ensures var w := Counted(DEFAULTS, raw);
            Decide(DEFAULTS, highImpact, Sum(w), Tally(w[i], 0, 1)) == Open
  {
    hide Rounds, Cap, Sum, Picked, NewcomersScaled, Decide;
    CapLoopReachesFixedPoint(raw);
    RoundsKeepOnes(raw, CAP_ROUNDS);
    var w := Rounds(raw, PERCENT, CAP_ROUNDS);
    SumBounds(w, 1);
    CapIs(Sum(w));
    Unscaled(w, Newcomers(DEFAULTS, raw), 20);
    assert w[i] <= Cap(PERCENT, Sum(w)) && Counted(DEFAULTS, raw) == w;
    NotEnough(w[i], Sum(w), Cap(PERCENT, Sum(w)), highImpact);
  }

  lemma Unscaled(w: seq<int>, who: seq<bool>, percent: nat)
    requires |w| == |who| && Picked(w, who) <= Sum(w) * percent / 100
    ensures NewcomersScaled(w, who, percent) == w
  {
    hide Picked, Sum, CountTrue, Replaced;
  }

  lemma NotEnough(x: int, total: int, cap: int, highImpact: bool)
    requires 1 <= x <= cap && 3 <= total && (17 * total >= 50 ==> 50 * cap <= 17 * total)
    requires 17 * total < 50 ==> cap == 1
    ensures Decide(DEFAULTS, highImpact, total, Tally(x, 0, 1)) == Open
  {
  }

  // ----- Exactly when one ballot decides -----

  /** The weights after the member cap and before the newcomer cap. */
  function Capped(raw: seq<int>): (r: seq<int>)
    ensures |r| == |raw|
  {
    Rounds(raw, PERCENT, CAP_ROUNDS)
  }

  function Others(who: seq<bool>): (r: seq<bool>)
    ensures |r| == |who| && forall i :: 0 <= i < |who| ==> r[i] == !who[i]
  {
    if who == [] then [] else Others(who[..|who| - 1]) + [!who[|who| - 1]]
  }

  /** The newcomer cap bites: there are more newcomers than a fifth of the capped subtotal. */
  predicate NewcomersCut(raw: seq<int>) {
    CountTrue(Newcomers(DEFAULTS, raw)) > Sum(Capped(raw)) * 20 / 100
  }

  /** What the agents above minimum reputation weigh together. */
  function VeteranWeight(raw: seq<int>): int {
    Picked(Capped(raw), Others(Newcomers(DEFAULTS, raw)))
  }

  /** Three or more agents with reputations up to 142, for which the cap loop settles;
      the default maximum is 64, but a higher one may have been in force before. */
  ghost predicate DefaultReputations(raw: seq<int>) { |raw| >= 3 && AtLeast(raw, 1) && AtMost(raw, 142) }

  lemma {:induction false} PickedOthers(w: seq<int>, who: seq<bool>)
    requires |w| == |who|
    ensures Sum(Replaced(w, who, 0)) == Picked(w, Others(who)) == Sum(w) - Picked(w, who)
  {
    if w != [] {
      PickedOthers(w[..|w| - 1], who[..|w| - 1]);
      assert Replaced(w, who, 0)[..|w| - 1] == Replaced(w[..|w| - 1], who[..|w| - 1], 0);
      assert Others(who)[..|w| - 1] == Others(who[..|w| - 1]);
    }
  }

  lemma {:induction false} PickedOnes(w: seq<int>, who: seq<bool>)
    requires |w| == |who| && forall i :: 0 <= i < |w| && who[i] ==> w[i] == 1
    ensures Picked(w, who) == CountTrue(who)
  {
    if w != [] {
      PickedOnes(w[..|w| - 1], who[..|w| - 1]);
    }
  }

  lemma CappedFacts(raw: seq<int>)
    requires DefaultReputations(raw)
    ensures AtLeast(Capped(raw), 1) && Sum(Capped(raw)) >= |raw|
    ensures Picked(Capped(raw), Newcomers(DEFAULTS, raw)) == CountTrue(Newcomers(DEFAULTS, raw))
  {
    hide Rounds, Sum, Picked, CountTrue;
    RoundsKeepOnes(raw, CAP_ROUNDS);
    SumBounds(Capped(raw), 1);
    PickedOnes(Capped(raw), Newcomers(DEFAULTS, raw));
  }

  lemma CountedUnfold(raw: seq<int>)
    requires |raw| >= 3
    ensures Counted(DEFAULTS, raw) == NewcomersScaled(Capped(raw), Newcomers(DEFAULTS, raw), 20)
  {
    hide NewcomersScaled, Rounds;
  }

  /** Under the default parameters newcomers either keep their weight of one each
      or lose all of it. */
  lemma CountedIs(raw: seq<int>)
    requires DefaultReputations(raw)
    ensures NewcomersCut(raw) ==> Counted(DEFAULTS, raw) == Replaced(Capped(raw), Newcomers(DEFAULTS, raw), 0)
                                  && Sum(Counted(DEFAULTS, raw)) == VeteranWeight(raw)
    ensures !NewcomersCut(raw) ==> Counted(DEFAULTS, raw) == Capped(raw)
  {
    hide Capped, Counted, Newcomers, Sum, Picked, CountTrue, NewcomersScaled, Replaced;
    CappedFacts(raw);
    CountedUnfold(raw);
    if NewcomersCut(raw) {
      ScaledToNothing(Capped(raw), Newcomers(DEFAULTS, raw));
      PickedOthers(Capped(raw), Newcomers(DEFAULTS, raw));
    } else {
      Unscaled(Capped(raw), Newcomers(DEFAULTS, raw), 20);
    }
  }

  lemma {:induction false} PickedAtLeast(w: seq<int>, who: seq<bool>, i: nat)
    requires |w| == |who| && i < |w| && who[i] && AtLeast(w, 0)
    ensures Picked(w, who) >= w[i]
  {
    if i == |w| - 1 {
      PickedNonnegative(w[..|w| - 1], who[..|w| - 1]);
    } else {
      PickedAtLeast(w[..|w| - 1], who[..|w| - 1], i);
    }
  }

  lemma {:induction false} PickedNonnegative(w: seq<int>, who: seq<bool>)
    requires |w| == |who| && AtLeast(w, 0)
    ensures Picked(w, who) >= 0
  {
    if w != [] {
      PickedNonnegative(w[..|w| - 1], who[..|w| - 1]);
    }
  }

  /** When agent `i` alone carries a proposal: the newcomer cap bites, it is not a
      newcomer, and its capped weight is enough of what the veterans weigh. */
  predicate CarriesAlone(raw: seq<int>, i: nat, highImpact: bool)
    requires i < |raw|
  {
    && NewcomersCut(raw) && raw[i] > 1
    && if highImpact then 3 * Capped(raw)[i] >= 2 * VeteranWeight(raw) else 2 * Capped(raw)[i] > VeteranWeight(raw)
  }

  /** When agent `i` alone stops a proposal. */
  predicate StopsAlone(raw: seq<int>, i: nat, highImpact: bool)
    requires i < |raw|
  {
    if NewcomersCut(raw) then
      raw[i] > 1 && (if highImpact then 3 else 2) * Capped(raw)[i] >= VeteranWeight(raw)
    else
      highImpact && 3 * Capped(raw)[i] >= Sum(Capped(raw))
  }

  lemma LoneTally(raw: seq<int>, i: nat, highImpact: bool)
    requires DefaultReputations(raw) && i < |raw|
    ensures var w := Counted(DEFAULTS, raw);
            && Decide(DEFAULTS, highImpact, Sum(w), Tally(w[i], 0, 1))
               == (if CarriesAlone(raw, i, highImpact) then Accepted else Open)
            && Decide(DEFAULTS, highImpact, Sum(w), Tally(0, w[i], 0))
               == (if StopsAlone(raw, i, highImpact) then Rejected else Open)
  {
    hide Capped, Counted, Sum, NewcomersCut, VeteranWeight, Cap;
    CappedFacts(raw);
    CountedIs(raw);
    var c, who := Capped(raw), Newcomers(DEFAULTS, raw);
    if NewcomersCut(raw) {
      VeteransWeigh(raw, i);
    } else {
      CappedWithin(raw, i);
      NotEnough(c[i], Sum(c), Cap(PERCENT, Sum(c)), highImpact);
    }
  }

  lemma VeteransWeigh(raw: seq<int>, i: nat)
    requires DefaultReputations(raw) && i < |raw|
    ensures VeteranWeight(raw) >= 0 && (raw[i] > 1 ==> VeteranWeight(raw) >= Capped(raw)[i] >= 1)
  {
    hide Picked, Capped, Sum, Counted, NewcomersCut;
    CappedFacts(raw);
    CountedIs(raw);
    var c, veteran := Capped(raw), Others(Newcomers(DEFAULTS, raw));
    PickedNonnegative(c, veteran);
    if raw[i] > 1 {
      PickedAtLeast(c, veteran, i);
    }
  }

  lemma CappedWithin(raw: seq<int>, i: nat)
    requires DefaultReputations(raw) && i < |raw|
    ensures var c := Capped(raw);
            var cap := Cap(PERCENT, Sum(c));
            && 1 <= c[i] <= cap && 3 <= Sum(c) && (17 * Sum(c) >= 50 ==> 50 * cap <= 17 * Sum(c))
            && (17 * Sum(c) < 50 ==> cap == 1)
  {
    hide Rounds, Round, Cap, Sum;
    CapLoopReachesFixedPoint(raw);
    RoundsKeepOnes(raw, CAP_ROUNDS);
    SumBounds(Capped(raw), 1);
    CapIs(Sum(Capped(raw)));
  }

  ghost predicate DefaultAssembly(a: Assembly) { DefaultReputations(RawWeights(a)) }

  /** Exactly when one ballot settles a proposal under the default parameters: a
      lone yes carries it, a lone no stops it, or it stays open. */
  lemma LoneBallotDecidesIff(a: Assembly, actions: seq<string>, v: Vote)
    requires !OnlyVerdicts(actions) && v.member in Agents(DEFAULTS, a) && DefaultAssembly(a)
    requires !(IsHighImpact(DEFAULTS, actions) && Blocked(DEFAULTS, a))
    ensures var i, high := IndexOf(Agents(DEFAULTS, a), v.member), IsHighImpact(DEFAULTS, actions);
            Resolve(DEFAULTS, a, actions, [v])
            == if v.yes then (if CarriesAlone(RawWeights(a), i, high) then Accepted else Open)
               else (if StopsAlone(RawWeights(a), i, high) then Rejected else Open)
  {
    hide Counted, IsHighImpact, Blocked, OnlyVerdicts, Resolve, Decide, CarriesAlone, StopsAlone, DefaultReputations;
    LoneBallot(DEFAULTS, a, actions, v);
    LoneTally(RawWeights(a), IndexOf(Agents(DEFAULTS, a), v.member), IsHighImpact(DEFAULTS, actions));
  }

  // ----- Newcomers together -----

  ghost predicate OneBallotEach(votes: seq<Vote>) {
    forall i, j :: 0 <= i < j < |votes| ==> votes[i].member != votes[j].member
  }

  /** Which agents have a ballot among `votes`. */
  ghost function HasBallot(agents: seq<string>, votes: seq<Vote>): (r: seq<bool>)
    ensures |r| == |agents|
    ensures forall i :: 0 <= i < |agents| ==> r[i] == exists v :: v in votes && v.member == agents[i]
  {
    if agents == [] then []
    else HasBallot(agents[..|agents| - 1], votes) + [exists v :: v in votes && v.member == agents[|agents| - 1]]
  }

  lemma {:induction false} PickedFlip(w: seq<int>, who: seq<bool>, more: seq<bool>, i: nat)
    requires |w| == |who| == |more| && i < |w| && !who[i] && more[i]
    requires forall j :: 0 <= j < |w| && j != i ==> who[j] == more[j]
    ensures Picked(w, more) == Picked(w, who) + w[i]
  {
    if i == |w| - 1 {
      assert who[..|w| - 1] == more[..|w| - 1];
    } else {
      PickedFlip(w[..|w| - 1], who[..|w| - 1], more[..|w| - 1], i);
    }
  }

  lemma {:induction false} PickedMore(w: seq<int>, who: seq<bool>, more: seq<bool>)
    requires |w| == |who| == |more| && AtLeast(w, 0)
    requires forall j :: 0 <= j < |w| && who[j] ==> more[j]
    ensures Picked(w, who) <= Picked(w, more)
  {
    if w != [] {
      PickedMore(w[..|w| - 1], who[..|w| - 1], more[..|w| - 1]);
    }
  }

  /** The tally of distinct ballots is the weight of the agents that cast them. */
  lemma {:induction false} TallyOfVoters(agents: seq<string>, w: seq<int>, votes: seq<Vote>)
    requires |w| == |agents| && AtLeast(w, 0) && Distinct(agents) && OneBallotEach(votes)
    ensures var t := Count(agents, w, votes);
            t.yes >= 0 && t.no >= 0 && t.yes + t.no == Picked(w, HasBallot(agents, votes))
  {
    if votes == [] {
      PickedFalse(w, HasBallot(agents, votes));
    } else {
      var front, v := votes[..|votes| - 1], votes[|votes| - 1];
      TallyOfVoters(agents, w, front);
      var who, more := HasBallot(agents, front), HasBallot(agents, votes);
      assert votes == front + [v];
      if v.member in agents {
        var i := IndexOf(agents, v.member);
        NotYetVoted(agents, votes, i);
        PickedFlip(w, who, more, i);
      } else {
        assert who == more;
      }
    }
  }

  lemma NotYetVoted(agents: seq<string>, votes: seq<Vote>, i: nat)
    requires votes != [] && Distinct(agents) && OneBallotEach(votes)
    requires i < |agents| && agents[i] == votes[|votes| - 1].member
    ensures var who, more := HasBallot(agents, votes[..|votes| - 1]), HasBallot(agents, votes);
            !who[i] && more[i] && forall j :: 0 <= j < |agents| && j != i ==> who[j] == more[j]
  {
    var front, v := votes[..|votes| - 1], votes[|votes| - 1];
    assert votes == front + [v];
    assert forall k :: 0 <= k < |front| ==> front[k] == votes[k] && front[k].member != v.member;
  }

  lemma {:induction false} PickedFalse(w: seq<int>, who: seq<bool>)
    requires |w| == |who| && forall i :: 0 <= i < |who| ==> !who[i]
    ensures Picked(w, who) == 0
  {
    if w != [] {
      PickedFalse(w[..|w| - 1], who[..|w| - 1]);
    }
  }

  lemma {:induction false} AgentsDistinct(params: Params, a: Assembly, ids: seq<string>)
    requires Distinct(ids)
    ensures Distinct(AgentsAmong(params, a, ids))
  {
    if ids != [] {
      AgentsDistinct(params, a, ids[..|ids| - 1]);
    }
  }

  /** All ballots that count come from agents at minimum reputation. */
  ghost predicate OnlyNewcomersVote(a: Assembly, votes: seq<Vote>) {
    forall v :: v in votes && v.member in Agents(DEFAULTS, a) ==> GovernorOf(DEFAULTS, a, v.member).reputation == 1
  }

  lemma NewcomerTally(raw: seq<int>, agents: seq<string>, votes: seq<Vote>)
    requires DefaultReputations(raw) && |agents| == |raw| && Distinct(agents) && OneBallotEach(votes)
    requires forall i :: 0 <= i < |raw| && HasBallot(agents, votes)[i] ==> raw[i] == 1
    ensures var w := Counted(DEFAULTS, raw);
            var t := Count(agents, w, votes);
            0 <= t.yes && 0 <= t.no && Sum(w) >= 0 && 5 * (t.yes + t.no) <= Sum(w)
  {
    hide Rounds, Sum, Picked, CountTrue, Count, NewcomersCut, Capped, Counted, VeteranWeight;
    CappedFacts(raw);
    CountedIs(raw);
    var w, who := Counted(DEFAULTS, raw), Newcomers(DEFAULTS, raw);
    CountedNonnegative(DEFAULTS, raw);
    TallyOfVoters(agents, w, votes);
    PickedMore(w, HasBallot(agents, votes), who);
    if NewcomersCut(raw) {
      NothingPicked(w, who);
    } else {
      FifthAtMost(raw);
    }
  }

  lemma {:induction false} NothingPicked(w: seq<int>, who: seq<bool>)
    requires |w| == |who| && forall i :: 0 <= i < |w| && who[i] ==> w[i] == 0
    ensures Picked(w, who) == 0
  {
    if w != [] {
      NothingPicked(w[..|w| - 1], who[..|w| - 1]);
    }
  }

  lemma FifthAtMost(raw: seq<int>)
    requires !NewcomersCut(raw)
    ensures 5 * CountTrue(Newcomers(DEFAULTS, raw)) <= Sum(Capped(raw))
  {
    hide Capped, Sum, CountTrue;
  }

  /** Under the default parameters ballots of newcomers alone, however many there
      are, never settle a proposal either way. */
  lemma NewcomersNeverDecide(a: Assembly, actions: seq<string>, votes: seq<Vote>)
    requires !OnlyVerdicts(actions) && TrapdoorVote(DEFAULTS, a, votes).None? && DefaultAssembly(a)
    requires Distinct(a.active) && OneBallotEach(votes) && OnlyNewcomersVote(a, votes)
    ensures Resolve(DEFAULTS, a, actions, votes) == Open
  {
    hide Counted, IsHighImpact, Blocked, OnlyVerdicts, TrapdoorVote, Count, Sum, DefaultReputations;
    AgentsDistinct(DEFAULTS, a, a.active);
    var agents := Agents(DEFAULTS, a);
    forall i | 0 <= i < |agents| && HasBallot(agents, votes)[i] ensures RawWeights(a)[i] == 1 {
      var v :| v in votes && v.member == agents[i];
    }
    NewcomerTally(RawWeights(a), agents, votes);
  }

  // ----- Other parameters -----

  /** What the newcomers weigh together exceeds their share. */
  predicate ShareExceeded(params: Params, raw: seq<int>) {
    var c := Rounds(raw, params.memberPercent, CAP_ROUNDS);
    Picked(c, Newcomers(params, raw)) > Sum(c) * params.newcomerPercent / 100
  }

  /** What each newcomer then gets. */
  function ShareOfEach(params: Params, raw: seq<int>): int
    requires CountTrue(Newcomers(params, raw)) > 0
  {
    var share := Sum(Rounds(raw, params.memberPercent, CAP_ROUNDS)) * params.newcomerPercent / 100;
    share / CountTrue(Newcomers(params, raw))
  }

  /** The weight agent `i` ends up with, and the total of all. */
  function FinalWeight(params: Params, raw: seq<int>, i: nat): int
    requires i < |raw|
  {
    if ShareExceeded(params, raw) && raw[i] == params.reputationMin && CountTrue(Newcomers(params, raw)) > 0
    then ShareOfEach(params, raw) else Rounds(raw, params.memberPercent, CAP_ROUNDS)[i]
  }

  function FinalTotal(params: Params, raw: seq<int>): int {
    var c, k := Rounds(raw, params.memberPercent, CAP_ROUNDS), CountTrue(Newcomers(params, raw));
    if ShareExceeded(params, raw) && k > 0
    then Sum(c) - Picked(c, Newcomers(params, raw)) + k * ShareOfEach(params, raw) else Sum(c)
  }

  lemma {:induction false} SumReplaced(w: seq<int>, who: seq<bool>, x: int)
    requires |w| == |who|
    ensures Sum(Replaced(w, who, x)) == Sum(w) - Picked(w, who) + CountTrue(who) * x
  {
    if w != [] {
      var front, flags := w[..|w| - 1], who[..|w| - 1];
      SumReplaced(front, flags, x);
      assert Replaced(w, who, x)[..|w| - 1] == Replaced(front, flags, x);
      OneMore(CountTrue(flags), x);
    }
  }

  lemma ShareNonnegative(s: int, percent: nat, k: nat)
    requires s >= 0 && k > 0
    ensures s * percent / 100 / k >= 0
  {
    PercentNonnegative(s, percent);
    ShareFits(s * percent / 100, k);
  }

  /** The weights that count, for all parameters. */
  lemma CountedInGeneral(params: Params, raw: seq<int>, i: nat)
    requires |raw| >= 3 && AtLeast(raw, 0) && i < |raw|
    ensures Counted(params, raw)[i] == FinalWeight(params, raw, i) >= 0
    ensures Sum(Counted(params, raw)) == FinalTotal(params, raw) >= 0
  {
    hide Rounds, Sum, Picked, CountTrue;
    CountedNonnegative(params, raw);
    var c, who := Rounds(raw, params.memberPercent, CAP_ROUNDS), Newcomers(params, raw);
    RoundsNonnegative(raw, params.memberPercent, CAP_ROUNDS);
    SumBounds(c, 0);
    if ShareExceeded(params, raw) && CountTrue(who) > 0 {
      ShareNonnegative(Sum(c), params.newcomerPercent, CountTrue(who));
      SumReplaced(c, who, ShareOfEach(params, raw));
    }
  }

  /** When a lone yes of weight `x` out of `total` carries, and a lone no stops. */
  predicate CarriesWith(params: Params, highImpact: bool, x: int, total: int) {
    && total > 0
    && if highImpact
       then params.block.num > 0 && params.minAgentYes <= 1 && x * params.release.den >= total * params.release.num
       else params.routine.num > 0 && x * params.routine.den > total * params.routine.num
  }

  predicate StopsWith(params: Params, highImpact: bool, x: int, total: int) {
    && total > 0
    && if highImpact then x * params.block.den >= total * params.block.num
       else x * params.routine.den >= total * params.routine.num
  }

  lemma PositiveProduct(total: int, num: nat)
    requires total > 0
    ensures total * num > 0 <==> num > 0
  {
  }

  /** Exactly when one ballot settles a proposal, for all parameters and reputations,
      in terms of the weights after both caps. */
  lemma LoneBallotInGeneral(params: Params, a: Assembly, actions: seq<string>, v: Vote)
    requires !OnlyVerdicts(actions) && v.member in Agents(params, a)
    requires !(IsHighImpact(params, actions) && Blocked(params, a))
    requires var raw := Reputations(params, a, Agents(params, a)); |raw| >= 3 && AtLeast(raw, 0)
    ensures var i, high := IndexOf(Agents(params, a), v.member), IsHighImpact(params, actions);
            var raw := Reputations(params, a, Agents(params, a));
            var x, total := FinalWeight(params, raw, i), FinalTotal(params, raw);
            if v.yes then Resolve(params, a, actions, [v]) == Accepted <==> CarriesWith(params, high, x, total)
            else Resolve(params, a, actions, [v]) == Rejected <==> StopsWith(params, high, x, total)
  {
    hide Counted, IsHighImpact, Blocked, OnlyVerdicts, Resolve, FinalWeight, FinalTotal, Reputations;
    LoneBallot(params, a, actions, v);
    var i, raw := IndexOf(Agents(params, a), v.member), Reputations(params, a, Agents(params, a));
    CountedInGeneral(params, raw, i);
    var total := FinalTotal(params, raw);
    if total > 0 {
      PositiveProduct(total, params.block.num);
      PositiveProduct(total, params.routine.num);
    }
  }

  lemma CapBelow(x: int, s: int, percent: nat, num: nat, den: nat)
    requires 100 * x <= s * percent && s > 0
    ensures percent * den < 100 * num ==> x * den < s * num
    ensures percent * den <= 100 * num ==> x * den <= s * num
  {
    assert 100 * (x * den) == (100 * x) * den <= (s * percent) * den == s * (percent * den);
    assert percent * den < 100 * num ==> s * (percent * den) < s * (100 * num);
    assert percent * den <= 100 * num ==> s * (percent * den) <= s * (100 * num);
    assert s * (100 * num) == 100 * (s * num);
  }

  /** The member cap keeps its promise for all parameters whose percentage is below
      the threshold, where the loop settles, newcomers are within their share and the
      subtotal is large enough for the percentage to mean at least one. */
  lemma CapPreventsCarrying(params: Params, raw: seq<int>, i: nat, highImpact: bool)
    requires |raw| >= 3 && AtLeast(raw, 1) && i < |raw| && !ShareExceeded(params, raw)
    requires var c := Rounds(raw, params.memberPercent, CAP_ROUNDS);
             AtMost(c, Cap(params.memberPercent, Sum(c))) && Sum(c) * params.memberPercent >= 100
    requires if highImpact then params.memberPercent * params.release.den < 100 * params.release.num
             else params.memberPercent * params.routine.den <= 100 * params.routine.num
    ensures !CarriesWith(params, highImpact, FinalWeight(params, raw, i), FinalTotal(params, raw))
  {
    hide Rounds, Sum, Picked, CountTrue, ShareExceeded;
    var c := Rounds(raw, params.memberPercent, CAP_ROUNDS);
    var s, x := Sum(c), c[i];
    RoundsNonnegative(raw, params.memberPercent, CAP_ROUNDS);
    SumBounds(c, 0);
    CapFloor(s, params.memberPercent);
    assert s > 0;
    if highImpact {
      CapBelow(x, s, params.memberPercent, params.release.num, params.release.den);
    } else {
      CapBelow(x, s, params.memberPercent, params.routine.num, params.routine.den);
    }
  }

  lemma CapFloor(s: int, percent: nat)
    requires s * percent >= 100
    ensures 100 * Cap(percent, s) <= s * percent
  {
  }

  // ----- Cases -----

  lemma OneAppended(w: seq<int>, x: int)
    ensures Sum(w + [x]) == Sum(w) + x
    ensures CountTrue(Newcomers(DEFAULTS, w + [x])) == CountTrue(Newcomers(DEFAULTS, w)) + (if x == 1 then 1 else 0)
  {
    assert (w + [x])[..|w|] == w;
    assert Newcomers(DEFAULTS, w + [x])[..|w|] == Newcomers(DEFAULTS, w);
  }

  lemma {:induction false} OnesAppended(w: seq<int>, n: nat)
    ensures Sum(w + Repeated(1, n)) == Sum(w) + n
    ensures CountTrue(Newcomers(DEFAULTS, w + Repeated(1, n))) == CountTrue(Newcomers(DEFAULTS, w)) + n
    decreases n
  {
    hide Sum, CountTrue, Newcomers;
    if n == 0 {
      assert w + Repeated(1, 0) == w;
    } else {
      OnesAppended(w, n - 1);
      assert w + Repeated(1, n) == w + Repeated(1, n - 1) + [1];
      OneAppended(w + Repeated(1, n - 1), 1);
    }
  }

  lemma CappedUnchanged(raw: seq<int>)
    requires AtMost(raw, Cap(PERCENT, Sum(raw)))
    ensures Capped(raw) == raw
  {
    hide Cap, Sum, Round;
    FixedIff(raw, PERCENT);
    FixedStays(raw, PERCENT, CAP_ROUNDS);
  }

  lemma WithNewcomers(veterans: seq<int>, n: nat)
    requires AtLeast(veterans, 2)
    ensures var raw := veterans + Repeated(1, n);
            Sum(raw) == Sum(veterans) + n && CountTrue(Newcomers(DEFAULTS, raw)) == n
  {
    OnesAppended(veterans, n);
    NoNewcomers(veterans);
  }

  lemma {:induction false} NoNewcomers(w: seq<int>)
    requires AtLeast(w, 2)
    ensures CountTrue(Newcomers(DEFAULTS, w)) == 0
  {
    if w != [] {
      var front := w[..|w| - 1];
      NoNewcomers(front);
      assert Newcomers(DEFAULTS, w)[..|front|] == Newcomers(DEFAULTS, front);
    }
  }

  lemma VeteranWeightIs(raw: seq<int>)
    requires DefaultReputations(raw) && Capped(raw) == raw
    ensures VeteranWeight(raw) == Sum(raw) - CountTrue(Newcomers(DEFAULTS, raw))
  {
    hide Capped, Sum, Picked, CountTrue, Counted;
    CappedFacts(raw);
    CountedIs(raw);
    PickedOthers(raw, Newcomers(DEFAULTS, raw));
  }

  lemma SumOfPair(a: int, b: int)
    ensures Sum([a, b]) == a + b
  {
    assert [a, b][..1] == [a] && [a][..0] == [];
    assert Sum([a]) == a;
  }

  /** Beside many newcomers one of two veterans can carry any proposal alone, or a
      routine one only. */
  lemma OneOfTwoVeteransCarries()
    ensures var raw := [4, 2] + Repeated(1, 6); CarriesAlone(raw, 0, true) && CarriesAlone(raw, 0, false)
    ensures var raw := [3, 2] + Repeated(1, 4); !CarriesAlone(raw, 0, true) && CarriesAlone(raw, 0, false)
  {
    TwoVeterans(4, 2, 6);
    TwoVeterans(3, 2, 4);
  }

  lemma TwoVeterans(a: int, b: int, n: nat)
    requires 1 < b <= a <= 64 && n >= 1 && a <= Cap(PERCENT, a + b + n)
    ensures var raw := [a, b] + Repeated(1, n);
            && Capped(raw) == raw && VeteranWeight(raw) == a + b
            && (NewcomersCut(raw) <==> n > (a + b + n) * 20 / 100)
  {
    hide Rounds, Cap, Sum, CountTrue, Newcomers, Picked, VeteranWeight;
    var raw := [a, b] + Repeated(1, n);
    SumOfPair(a, b);
    WithNewcomers([a, b], n);
    CappedUnchanged(raw);
    VeteranWeightIs(raw);
  }

  /** Without newcomers no yes is enough alone, but a third of the weight stops a
      high-impact proposal, and three equal agents each have it. */
  lemma OneOfThreeEqualsStops()
    ensures var raw := [2, 2, 2];
            StopsAlone(raw, 0, true) && !StopsAlone(raw, 0, false) && !CarriesAlone(raw, 0, true)
  {
    var raw := [2, 2, 2];
    assert raw[..2] == [2, 2];
    SumOfPair(2, 2);
    assert Sum(raw) == 6;
    NoNewcomers(raw);
    CappedUnchanged(raw);
  }

  /** The cap is relative to the capped subtotal: reputations 2, 1, 1 leave one
      agent with the whole final total. */
  lemma CapIsNotOfTheFinalTotal()
    ensures Counted(DEFAULTS, [2, 1, 1]) == [1, 0, 0]
  {
    var raw := [2, 1, 1];
    SoleVeteranHasAllWeight(raw, 0);
    RoundsUnfold(raw, 11);
    AllButSum(raw, 0, 1);
    assert Round(raw, PERCENT) == [1, 1, 1];
    RoundsKeepOnes([1, 1, 1], 11);
    assert Rounds(raw, PERCENT, CAP_ROUNDS)[0] == 1;
  }
}
