/** Newcomer shares, monotonicity of the outcome, and who can decide alone. */
module VotingOutcomes {
  import opened Voting
  import opened VotingProofs

  // ----- Newcomers -----

  lemma {:induction false} PickedReplaced(w: seq<int>, who: seq<bool>, x: int)
    requires |w| == |who|
    ensures Picked(Replaced(w, who, x), who) == CountTrue(who) * x
  {
    if w != [] {
      var front, flags := w[..|w| - 1], who[..|w| - 1];
      PickedReplaced(front, flags, x);
      assert Replaced(w, who, x)[..|w| - 1] == Replaced(front, flags, x);
      assert (CountTrue(flags) + 1) * x == CountTrue(flags) * x + x;
    }
  }

  lemma ShareFits(cap: int, k: int)
    requires k > 0 && cap >= 0
    ensures 0 <= cap / k && k * (cap / k) <= cap
  {
  }

  /** Whatever the parameters, newcomers together hold at most their percentage
      of the capped subtotal, and everyone else keeps their weight. */
  lemma NewcomersWithinShare(w: seq<int>, newcomer: seq<bool>, percent: nat)
    requires |w| == |newcomer| && AtLeast(w, 0)
    ensures Picked(NewcomersScaled(w, newcomer, percent), newcomer) <= Sum(w) * percent / 100
    ensures forall i :: 0 <= i < |w| && !newcomer[i] ==> NewcomersScaled(w, newcomer, percent)[i] == w[i]
    ensures AtLeast(NewcomersScaled(w, newcomer, percent), 0)
  {
    SumBounds(w, 0);
    var cap, k := Sum(w) * percent / 100, CountTrue(newcomer);
    assert cap >= 0 by { PercentNonnegative(Sum(w), percent); }
    if Picked(w, newcomer) > cap {
      if k > 0 {
        ShareFits(cap, k);
        PickedReplaced(w, newcomer, cap / k);
      } else {
        PickedNone(w, newcomer);
      }
    }
  }

  lemma PercentNonnegative(s: int, percent: nat)
    requires s >= 0
    ensures s * percent / 100 >= 0
  {
    assert s * percent >= 0;
  }

  lemma {:induction false} PickedNone(w: seq<int>, who: seq<bool>)
    requires |w| == |who| && CountTrue(who) == 0
    ensures Picked(w, who) == 0
  {
    if w != [] {
      PickedNone(w[..|w| - 1], who[..|w| - 1]);
    }
  }

  lemma {:induction false} RoundsNonnegative(w: seq<int>, percent: nat, n: nat)
    requires AtLeast(w, 0)
    ensures AtLeast(Rounds(w, percent, n), 0)
    decreases n
  {
    if n > 0 {
      RoundsNonnegative(Round(w, percent), percent, n - 1);
    }
  }

  lemma CountedNonnegative(params: Params, raw: seq<int>)
    requires AtLeast(raw, 0)
    ensures AtLeast(Counted(params, raw), 0) && Sum(Counted(params, raw)) >= 0
  {
    if |raw| >= 3 {
      var w := Rounds(raw, params.memberPercent, CAP_ROUNDS);
      RoundsNonnegative(raw, params.memberPercent, CAP_ROUNDS);
      NewcomersWithinShare(w, Newcomers(params, raw), params.newcomerPercent);
    }
    SumBounds(Counted(params, raw), 0);
  }

  // ----- Monotonicity -----

  function Rank(d: Decision): int {
    match d
    case Rejected => 0
    case Open => 1
    case Accepted => 2
  }

  ghost predicate NoWorse(t: Tally, u: Tally) {
    t.yes <= u.yes && u.no <= t.no && t.yesCount <= u.yesCount
  }

  lemma Scale(a: int, b: int, k: nat)
    requires a <= b
    ensures a * k <= b * k
  {
  }

  lemma DecideMonotone(params: Params, highImpact: bool, total: int, t: Tally, u: Tally)
    requires NoWorse(t, u)
    ensures Rank(Decide(params, highImpact, total, t)) <= Rank(Decide(params, highImpact, total, u))
  {
    Scale(t.yes, u.yes, params.release.den);
    Scale(t.yes, u.yes, params.routine.den);
    Scale(u.no, t.no, params.block.den);
    Scale(u.no, t.no, params.routine.den);
  }

  /** The same ballots, some of them turned from no to yes. */
  ghost predicate Turned(votes: seq<Vote>, others: seq<Vote>) {
    |votes| == |others| &&
    forall i :: 0 <= i < |votes| ==> votes[i].member == others[i].member && (votes[i].yes ==> others[i].yes)
  }

  lemma {:induction false} TurnedTally(agents: seq<string>, w: seq<int>, votes: seq<Vote>, others: seq<Vote>)
    requires |w| == |agents| && AtLeast(w, 0) && Turned(votes, others)
    ensures NoWorse(Count(agents, w, votes), Count(agents, w, others))
  {
    if votes != [] {
      TurnedTally(agents, w, votes[..|votes| - 1], others[..|votes| - 1]);
    }
  }

  lemma {:induction false} SameTrapdoor(params: Params, a: Assembly, votes: seq<Vote>, others: seq<Vote>)
    requires Turned(votes, others)
    requires forall i :: 0 <= i < |votes| && Decisive(params, a, votes[i]) ==> votes[i] == others[i]
    ensures TrapdoorVote(params, a, votes) == TrapdoorVote(params, a, others)
  {
    hide Decisive;
    if votes != [] {
      DecisiveByMember(params, a, votes[0], others[0]);
      SameTrapdoor(params, a, votes[1..], others[1..]);
    }
  }

  lemma DecisiveByMember(params: Params, a: Assembly, v: Vote, u: Vote)
    requires v.member == u.member
    ensures Decisive(params, a, v) == Decisive(params, a, u)
  {
  }

  ghost predicate NonnegativeReputations(params: Params, a: Assembly) {
    params.reputationMin >= 0 && forall id :: id in a.governors ==> a.governors[id].reputation >= 0
  }

  lemma WeightsNonnegative(params: Params, a: Assembly)
    requires NonnegativeReputations(params, a)
    ensures AtLeast(Counted(params, Reputations(params, a, Agents(params, a))), 0)
  {
    CountedNonnegative(params, Reputations(params, a, Agents(params, a)));
  }

  /** Turning agents' ballots from no to yes never turns the outcome against a proposal. */
  lemma OutcomeMonotone(params: Params, a: Assembly, actions: seq<string>, votes: seq<Vote>, others: seq<Vote>)
    requires NonnegativeReputations(params, a) && Turned(votes, others)
    requires forall i :: 0 <= i < |votes| && Decisive(params, a, votes[i]) ==> votes[i] == others[i]
    ensures Rank(Resolve(params, a, actions, votes)) <= Rank(Resolve(params, a, actions, others))
  {
    hide Decide, Counted, Count, Decisive, Blocked, OnlyVerdicts;
    SameTrapdoor(params, a, votes, others);
    WeightsNonnegative(params, a);
    var agents := Agents(params, a);
    var w := Counted(params, Reputations(params, a, agents));
    TurnedTally(agents, w, votes, others);
    DecideMonotone(params, IsHighImpact(params, actions), Sum(w), Count(agents, w, votes), Count(agents, w, others));
  }

  lemma {:induction false} AppendedTrapdoor(params: Params, a: Assembly, votes: seq<Vote>, v: Vote)
    requires !Decisive(params, a, v)
    ensures TrapdoorVote(params, a, votes + [v]) == TrapdoorVote(params, a, votes)
  {
    hide Decisive;
    if votes != [] {
      assert (votes + [v])[1..] == votes[1..] + [v];
      AppendedTrapdoor(params, a, votes[1..], v);
    } else {
      assert (votes + [v])[1..] == [];
    }
  }

  lemma AppendedTally(agents: seq<string>, w: seq<int>, votes: seq<Vote>, v: Vote)
    requires |w| == |agents| && AtLeast(w, 0)
    ensures v.yes ==> NoWorse(Count(agents, w, votes), Count(agents, w, votes + [v]))
    ensures !v.yes ==> NoWorse(Count(agents, w, votes + [v]), Count(agents, w, votes))
  {
    assert (votes + [v])[..|votes|] == votes;
  }

  /** A further agent ballot never moves the outcome away from what it says. */
  lemma FurtherBallotMonotone(params: Params, a: Assembly, actions: seq<string>, votes: seq<Vote>, v: Vote)
    requires NonnegativeReputations(params, a) && !Decisive(params, a, v)
    ensures var before, after := Resolve(params, a, actions, votes), Resolve(params, a, actions, votes + [v]);
            if v.yes then Rank(before) <= Rank(after) else Rank(after) <= Rank(before)
  {
    hide Decide, Counted, Count, Decisive, Blocked, OnlyVerdicts;
    AppendedTrapdoor(params, a, votes, v);
    WeightsNonnegative(params, a);
    var agents := Agents(params, a);
    var w := Counted(params, Reputations(params, a, agents));
    AppendedTally(agents, w, votes, v);
    var t, u := Count(agents, w, votes), Count(agents, w, votes + [v]);
    if v.yes {
      DecideMonotone(params, IsHighImpact(params, actions), Sum(w), t, u);
    } else {
      DecideMonotone(params, IsHighImpact(params, actions), Sum(w), u, t);
    }
  }
}
