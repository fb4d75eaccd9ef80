/** The loops of `resolve` and `adns_settle`, proved against module Voting. */
module VotingLoops {
  import opened Order
  import opened Voting
  import opened VotingProofs
  import opened Text

  method AddUp(w: seq<int>) returns (total: int)
    ensures total == Sum(w)
  {
    total := 0;
    for i := 0 to |w|
      invariant total == Sum(w[..i])
    {
      assert w[..i + 1][..i] == w[..i];
      total := total + w[i];
    }
    assert w[..|w|] == w;
  }

  /** Cuts every weight above the cap, in place. */
  method ClampAll(w: array<int>, cap: int) returns (changed: bool)
    modifies w
    ensures w[..] == Clamp(old(w[..]), cap)
    ensures changed <==> w[..] != old(w[..])
  {
    changed := false;
    for i := 0 to w.Length
      invariant forall j :: 0 <= j < i ==> w[j] == Least(old(w[j]), cap)
      invariant forall j :: i <= j < w.Length ==> w[j] == old(w[j])
      invariant changed <==> exists j :: 0 <= j < i && w[j] != old(w[j])
    {
      if w[i] > cap {
        w[i] := cap;
        changed := true;
      }
    }
    assert w[..] == Clamp(old(w[..]), cap);
    if changed {
      ghost var j :| 0 <= j < w.Length && w[j] != old(w[j]);
      assert w[..][j] != old(w[..])[j];
    }
  }

  /** The per-member cap: at most twelve rounds, stopping when nothing changes. */
  method CapRounds(w: array<int>, percent: nat)
    modifies w
    ensures w[..] == Rounds(old(w[..]), percent, CAP_ROUNDS)
  {
    var round := 0;
    while round < CAP_ROUNDS
      invariant 0 <= round <= CAP_ROUNDS
      invariant Rounds(old(w[..]), percent, CAP_ROUNDS) == Rounds(w[..], percent, CAP_ROUNDS - round)
    {
      ghost var before := w[..];
      var subtotal := AddUp(w[..]);
      var changed := ClampAll(w, Cap(percent, subtotal));
      assert w[..] == Round(before, percent);
      if !changed {
        FixedStays(before, percent, CAP_ROUNDS - round);
        return;
      }
      round := round + 1;
    }
  }

  /** The newcomer cap. */
  method ScaleNewcomers(w: array<int>, newcomer: seq<bool>, percent: nat)
    requires w.Length == |newcomer|
    modifies w
    ensures w[..] == NewcomersScaled(old(w[..]), newcomer, percent)
  {
    var newcomerTotal, count := 0, 0;
    for i := 0 to w.Length
      invariant w[..] == old(w[..])
      invariant newcomerTotal == Picked(w[..i], newcomer[..i]) && count == CountTrue(newcomer[..i])
    {
      assert w[..i + 1][..i] == w[..i] && newcomer[..i + 1][..i] == newcomer[..i];
      if newcomer[i] {
        newcomerTotal, count := newcomerTotal + w[i], count + 1;
      }
    }
    assert w[..w.Length] == w[..] && newcomer[..w.Length] == newcomer;
    var subtotal := AddUp(w[..]);
    var cap := subtotal * percent / 100;
    if newcomerTotal > cap && count > 0 {
      var scaled := if cap / count < 0 then 0 else cap / count;
      for i := 0 to w.Length
        invariant forall j :: 0 <= j < w.Length ==> w[j] == if j < i && newcomer[j] then scaled else old(w[j])
      {
        if newcomer[i] {
          w[i] := scaled;
        }
      }
      assert w[..] == Replaced(old(w[..]), newcomer, scaled);
    }
  }

  /** The weights that count and their total. */
  method CountedWeights(params: Params, raw: seq<int>) returns (weights: seq<int>, total: int)
    ensures weights == Counted(params, raw) && total == Sum(weights)
  {
    var w := new int[|raw|](i requires 0 <= i < |raw| => raw[i]);
    assert w[..] == raw;
    if |raw| >= 3 {
      CapRounds(w, params.memberPercent);
      ScaleNewcomers(w, Newcomers(params, raw), params.newcomerPercent);
    }
    weights := w[..];
    total := AddUp(weights);
  }

  method CountVotes(agents: seq<string>, w: seq<int>, votes: seq<Vote>) returns (t: Tally)
    requires |w| == |agents|
    ensures t == Count(agents, w, votes)
  {
    t := Tally(0, 0, 0);
    for i := 0 to |votes|
      invariant t == Count(agents, w, votes[..i])
    {
      var v := votes[i];
      assert votes[..i + 1][..i] == votes[..i];
      if v.member in agents {
        if v.yes {
          t := t.(yes := t.yes + WeightOf(agents, w, v.member), yesCount := t.yesCount + 1);
        } else {
          t := t.(no := t.no + WeightOf(agents, w, v.member));
        }
      }
    }
    assert votes[..|votes|] == votes;
  }

  /** `resolve`. */
  method ResolveProposal(params: Params, a: Assembly, actions: seq<string>, votes: seq<Vote>) returns (d: Decision)
    ensures d == Resolve(params, a, actions, votes)
  {
    hide Counted, Count, Decide, Reputations, AgentsAmong, Decisive, Blocks;
    if OnlyVerdicts(actions) {
      return Accepted;
    }
    var highImpact := IsHighImpact(params, actions);
    assert votes[0..] == votes;
    for i := 0 to |votes|
      invariant TrapdoorVote(params, a, votes) == TrapdoorVote(params, a, votes[i..])
    {
      assert votes[i..][0] == votes[i] && votes[i..][1..] == votes[i + 1..];
      if Decisive(params, a, votes[i]) {
        return if votes[i].yes then Accepted else Rejected;
      }
    }
    if highImpact {
      for i := 0 to |a.verdicts|
        invariant forall j :: 0 <= j < i ==> !Blocks(params, a, a.verdicts[j])
      {
        if Blocks(params, a, a.verdicts[i]) {
          return Open;
        }
      }
    }
    var agents := Agents(params, a);
    var weights, total := CountedWeights(params, Reputations(params, a, agents));
    var tally := CountVotes(agents, weights, votes);
    return Decide(params, highImpact, total, tally);
  }

  ghost function Restricted(m: map<string, bool>, ids: seq<string>): map<string, bool> {
    map id | id in m && id in ids :: m[id]
  }

  /** One more voter. */
  lemma SettleStep(params: Params, governors: map<string, Governor>, votes: map<string, bool>, id: string, vote: bool,
          accepted: bool)
    requires id !in votes
    ensures var before := SettledGovernors(params, governors, votes, accepted);
            var g := Registered(params, governors, id);
            var next := Moved(params, g, vote == accepted);
            && Registered(params, before, id) == g
            && SettledGovernors(params, governors, votes[id := vote], accepted)
               == if !g.trapdoor && next != g then before[id := next] else before
  {
    hide Moved, Registered, Changed;
    var more := votes[id := vote];
    var before := SettledGovernors(params, governors, votes, accepted);
    var after := SettledGovernors(params, governors, more, accepted);
    NotChanged(params, governors, votes, id, accepted);
    ChangedNow(params, governors, more, id, accepted);
    forall x | x != id ensures (x in before <==> x in after) && (x in before ==> after[x] == before[x]) {
      SameChange(params, governors, votes, id, vote, x, accepted);
    }
  }

  lemma NotChanged(params: Params, governors: map<string, Governor>, votes: map<string, bool>, id: string,
          accepted: bool)
    requires id !in votes
    ensures !Changed(params, governors, id, votes, accepted)
    ensures Registered(params, SettledGovernors(params, governors, votes, accepted), id)
            == Registered(params, governors, id)
    ensures id in SettledGovernors(params, governors, votes, accepted) <==> id in governors
  {
    hide Moved;
  }

  lemma ChangedNow(params: Params, governors: map<string, Governor>, votes: map<string, bool>, id: string,
          accepted: bool)
    requires id in votes
    ensures var g := Registered(params, governors, id);
            Changed(params, governors, id, votes, accepted)
            <==> !g.trapdoor && Moved(params, g, votes[id] == accepted) != g
  {
    hide Moved;
  }

  lemma SameChange(params: Params, governors: map<string, Governor>, votes: map<string, bool>, id: string, vote: bool,
          x: string, accepted: bool)
    requires x != id
    ensures Changed(params, governors, x, votes[id := vote], accepted) == Changed(params, governors, x, votes, accepted)
  {
    hide Moved;
  }

  /** `adns_settle`: one step for every agent that voted. */
  method SettleVotes(params: Params, governors: map<string, Governor>, finalVotes: map<string, bool>, accepted: bool)
    returns (r: map<string, Governor>)
    ensures r == SettledGovernors(params, governors, finalVotes, accepted)
  {
    hide Moved, SortedText, SettledGovernors, Registered, Restricted, TextLess;
    var ids := SortedText(finalVotes.Keys);
    r := governors;
    RestrictEnds(finalVotes, ids);
    NobodyVoted(params, governors, accepted);
    for i := 0 to |ids|
      invariant r == SettledGovernors(params, governors, Restricted(finalVotes, ids[..i]), accepted)
    {
      var id := ids[i];
      assert id in finalVotes.Keys;
      RestrictStep(finalVotes, ids, i);
      SettleStep(params, governors, Restricted(finalVotes, ids[..i]), id, finalVotes[id], accepted);
      var g := Registered(params, r, id);
      if !g.trapdoor {
        var next := Moved(params, g, finalVotes[id] == accepted);
        if next != g {
          r := r[id := next];
        }
      }
    }
    assert ids[..|ids|] == ids;
  }

  lemma RestrictStep(m: map<string, bool>, ids: seq<string>, i: nat)
    requires Sorted(TextLess, ids) && i < |ids| && ids[i] in m
    ensures ids[i] !in Restricted(m, ids[..i])
    ensures Restricted(m, ids[..i + 1]) == Restricted(m, ids[..i])[ids[i] := m[ids[i]]]
  {
    TextOrder();
    SortedIsDistinct(TextLess, ids, i);
  }

  lemma RestrictEnds(m: map<string, bool>, ids: seq<string>)
    requires forall id :: id in m ==> id in ids
    ensures Restricted(m, ids[..0]) == map[] && Restricted(m, ids) == m
  {
  }

  lemma NobodyVoted(params: Params, governors: map<string, Governor>, accepted: bool)
    ensures SettledGovernors(params, governors, map[], accepted) == governors
  {
  }
}
