/** What the twelve rounds of the weight cap compute, for every percentage the
    parameters admit and every reputation. */
module VotingCaps {
  import opened Voting
  import opened VotingProofs

  /** The loop ends in a weighting that satisfies the cap. */
  predicate Settles(raw: seq<int>, percent: nat) {
    var w := Rounds(raw, percent, CAP_ROUNDS);
    Round(w, percent) == w
  }

  // ----- The greatest weighting within the cap -----

  ghost predicate Below(v: seq<int>, w: seq<int>) {
    |v| == |w| && forall i :: 0 <= i < |v| ==> v[i] <= w[i]
  }

  lemma {:induction false} SumBelow(v: seq<int>, w: seq<int>)
    requires Below(v, w)
    ensures Sum(v) <= Sum(w)
  {
    if v != [] {
      SumBelow(v[..|v| - 1], w[..|w| - 1]);
    }
  }

  lemma CapMonotone(percent: nat, s: int, t: int)
    requires s <= t
    ensures 1 <= Cap(percent, s) <= Cap(percent, t)
  {
    assert s * percent <= t * percent;
  }

  lemma RoundMonotone(v: seq<int>, w: seq<int>, percent: nat)
    requires Below(v, w)
    ensures Below(Round(v, percent), Round(w, percent))
  {
    hide Cap, Sum;
    SumBelow(v, w);
    CapMonotone(percent, Sum(v), Sum(w));
  }

  lemma {:induction false} RoundsMonotone(v: seq<int>, w: seq<int>, percent: nat, n: nat)
    requires Below(v, w)
    ensures Below(Rounds(v, percent, n), Rounds(w, percent, n))
    decreases n
  {
    hide Round;
    if n > 0 {
      RoundMonotone(v, w, percent);
      RoundsMonotone(Round(v, percent), Round(w, percent), percent, n - 1);
    }
  }

  lemma {:induction false} RoundsLower(w: seq<int>, percent: nat, n: nat)
    ensures Below(Rounds(w, percent, n), w)
    decreases n
  {
    if n > 0 {
      RoundsLower(Round(w, percent), percent, n - 1);
    }
  }

  /** The loop never cuts deeper than the cap asks: any weighting within the
      reputations that satisfies the cap stays within its result. So where it
      settles, it gives the greatest such weighting. */
  lemma CapLoopIsGreatest(raw: seq<int>, percent: nat, v: seq<int>)
    requires Below(v, raw) && AtMost(v, Cap(percent, Sum(v)))
    ensures Below(v, Rounds(raw, percent, CAP_ROUNDS)) && Below(Rounds(raw, percent, CAP_ROUNDS), raw)
  {
    hide Round, Rounds, Cap, Sum;
    FixedIff(v, percent);
    FixedStays(v, percent, CAP_ROUNDS);
    RoundsMonotone(v, raw, percent, CAP_ROUNDS);
    RoundsLower(raw, percent, CAP_ROUNDS);
  }

  // ----- When twelve rounds are enough -----

  /** A round that changes something lowers the greatest weight. */
  lemma {:induction false} SettledWithin(w: seq<int>, percent: nat, m: int, n: nat)
    requires AtMost(w, m) && m <= n + 1
    ensures Round(Rounds(w, percent, n), percent) == Rounds(w, percent, n)
    decreases n
  {
    FixedIff(w, percent);
    if Round(w, percent) == w {
      FixedStays(w, percent, n);
    } else {
      SettledWithin(Round(w, percent), percent, m - 1, n - 1);
    }
  }

  lemma SumOfThree(a: int, b: int, c: int)
    ensures Sum([a, b, c]) == a + b + c
  {
    assert [a, b, c][..2] == [a, b] && [a, b][..1] == [a] && [a][..0] == [];
    assert Sum([a]) == a;
    assert Sum([a, b]) == a + b;
  }

  lemma TripletRound(a: int)
    requires a >= 2
    ensures Round([a, a, a], 33) == [99 * a / 100, 99 * a / 100, 99 * a / 100]
  {
    SumOfThree(a, a, a);
  }

  /** Three equal weights at 33 percent lose only one in a hundred each round. */
  lemma {:induction false} TripletsFallSlowly(a: int, n: nat) returns (b: int)
    requires n <= CAP_ROUNDS && a >= n + 2
    ensures b >= 2 && Rounds([a, a, a], 33, n) == [b, b, b]
    decreases n
  {
    hide Round;
    if n == 0 {
      b := a;
    } else {
      TripletRound(a);
      b := TripletsFallSlowly(99 * a / 100, n - 1);
    }
  }

  lemma TripletDoesNotSettle(a: int)
    requires a >= 14
    ensures !Settles([a, a, a], 33)
  {
    hide Round, Rounds;
    var b := TripletsFallSlowly(a, CAP_ROUNDS);
    TripletRound(b);
    assert [99 * b / 100, 99 * b / 100, 99 * b / 100][0] != [b, b, b][0];
  }

  /** Reputations at most `m` among the three or more agents the cap applies to,
      and a percentage governance may set. */
  ghost predicate Admitted(raw: seq<int>, m: int, percent: nat) {
    |raw| >= 3 && AtLeast(raw, 1) && AtMost(raw, m) && 1 <= percent <= 100
  }

  ghost predicate AlwaysSettles(m: int) {
    forall raw, percent: nat :: Admitted(raw, m, percent) ==> Settles(raw, percent)
  }

  /** Whatever the percentage, twelve rounds are enough exactly for reputations up to 13. */
  lemma TwelveRoundsSufficeIff(m: int)
    ensures AlwaysSettles(m) <==> m <= 13
  {
    hide Settles;
    if m <= 13 {
      forall raw, percent: nat | Admitted(raw, m, percent) ensures Settles(raw, percent) {
        SettlesUpToThirteen(raw, percent);
      }
    } else {
      TripletDoesNotSettle(m);
      assert Admitted([m, m, m], m, 33);
    }
  }

  lemma SettlesUpToThirteen(raw: seq<int>, percent: nat)
    requires AtMost(raw, 13)
    ensures Settles(raw, percent)
  {
    hide Round, Rounds;
    SettledWithin(raw, percent, 13, CAP_ROUNDS);
  }

  /** At the default percentage the loop settles whenever the greatest weight
      starts close enough to 34 percent of the sum, however large it is. */
  lemma SettlesAtDefault(raw: seq<int>, m: int)
    requires AtLeast(raw, 1) && IsMax(raw, m) && (m <= 1 || Gap(raw, m) <= Reach(12))
    ensures Settles(raw, PERCENT)
  {
    hide Round, Rounds, Gap;
    ReachedWithin(raw, m, CAP_ROUNDS);
  }

  // ----- Each percentage -----

  /** How many weights at most a round at `percent` cuts without closing the gap. */
  function MostCut(percent: int): int
    requires 1 <= percent <= 99
  {
    99 / percent
  }

  /** How far the greatest weight is above the percentage, times 100. */
  function GapAt(percent: nat, w: seq<int>, m: int): int { 100 * m - percent * Sum(w) }

  /** Gaps up to this close within `n` rounds. */
  function ReachAt(percent: int, n: nat): (r: nat)
    requires 1 <= percent <= 99
  {
    if n == 0 then 0
    else
      var r, cut := ReachAt(percent, n - 1), percent * MostCut(percent);
      CutBounds(percent);
      StepNonnegative(r, cut);
      r + (100 - cut) * (r / cut + 1)
  }

  lemma CutBounds(percent: int)
    requires 1 <= percent <= 99
    ensures MostCut(percent) >= 1 && 1 <= percent * MostCut(percent) <= 99
    ensures forall k: nat :: k > MostCut(percent) ==> k * percent >= 100
  {
    var q := MostCut(percent);
    assert percent * q <= 99 < percent * (q + 1);
    forall k: nat | k > q ensures k * percent >= 100 {
      assert (k - (q + 1)) * percent >= 0;
    }
  }

  lemma StepNonnegative(r: nat, cut: int)
    requires 1 <= cut <= 99
    ensures r / cut >= 0 && (100 - cut) * (r / cut + 1) >= 0
  {
  }

  lemma StepArithmetic(cut: int, r: nat, a: int, g: int, d: int)
    requires 1 <= cut <= 99 && cut * a <= r && g <= r + (100 - cut) * (a + 1) && g <= 100 * d
    ensures g - (100 - cut) * d <= r
  {
    if d > a {
      TimesMonotone(a + 1, d, 100 - cut);
    } else {
      TimesMonotone(d, a, cut);
      assert (100 - cut) * d == 100 * d - cut * d;
    }
  }

  /** One step of the reach, for the gap a round with `d` cut off the greatest leaves. */
  lemma ReachAtStep(percent: int, n: nat, g: int, d: int)
    requires 1 <= percent <= 99 && n > 0 && g <= ReachAt(percent, n) && g <= 100 * d
    ensures g - (100 - percent * MostCut(percent)) * d <= ReachAt(percent, n - 1)
  {
    hide MostCut;
    var r, cut := ReachAt(percent, n - 1), percent * MostCut(percent);
    CutBounds(percent);
    QuotientBelow(r, cut);
    StepArithmetic(cut, r, r / cut, g, d);
  }

  lemma QuotientBelow(r: nat, cut: int)
    requires cut >= 1
    ensures cut * (r / cut) <= r
  {
  }

  lemma CapAt(percent: nat, s: int)
    ensures Cap(percent, s) > 1 ==> 100 * Cap(percent, s) <= percent * s < 100 * Cap(percent, s) + 100
  {
    assert percent * s == s * percent;
  }

  lemma TimesMonotone(a: int, b: int, k: nat)
    requires a <= b
    ensures k * a <= k * b && a * k <= b * k
  {
  }

  /** A round at any percentage shrinks the gap by as many steps as it cuts, or closes it. */
  lemma RoundShrinksGapAt(w: seq<int>, m: int, percent: int, n: nat)
    requires 1 <= percent <= 99 && n > 0 && AtLeast(w, 1) && IsMax(w, m) && m > 1
    requires 0 < GapAt(percent, w, m) <= ReachAt(percent, n)
    ensures var c := Cap(percent, Sum(w));
            && 1 <= c < m && AtLeast(Round(w, percent), 1) && IsMax(Round(w, percent), c)
            && (c == 1 || GapAt(percent, Round(w, percent), c) <= ReachAt(percent, n - 1))
  {
    hide Clamp, Excess, Over, Sum, IsMax, ReachAt;
    MaxIsAbove(w, m);
    SumBounds(w, 1);
    var s, c := Sum(w), Cap(percent, Sum(w));
    CapBelowMax(percent, s, m);
    CapAt(percent, s);
    ClampKeeps(w, c, m);
    ClampSum(w, c);
    ExcessBound(w, c, m);
    ClampedAtLeast(w, c);
    if c > 1 {
      GapAfter(percent, n, m, c, s, Over(w, c), Excess(w, c));
    }
  }

  lemma CapBelowMax(percent: nat, s: int, m: int)
    requires m > 1 && 100 * m > percent * s
    ensures Cap(percent, s) < m
  {
    assert percent * s == s * percent;
  }

  lemma CutToMany(percent: nat, k: nat, c: int, x: int)
    requires k * percent >= 100 && x >= k * c && c >= 0
    ensures percent * x >= 100 * c
  {
    TimesMonotone(k * c, x, percent);
    TimesMonotone(100, k * percent, c);
    assert percent * (k * c) == (k * percent) * c;
  }

  lemma CutFromFew(percent: nat, most: nat, k: nat, y: int, e: int)
    requires k <= most && e <= k * y && y >= 0
    ensures percent * e <= (percent * most) * y
  {
    TimesMonotone(k, most, y);
    TimesMonotone(e, most * y, percent);
    assert percent * (most * y) == (percent * most) * y;
  }

  lemma GapAfter(percent: int, n: nat, m: int, c: int, s: int, k: nat, e: int)
    requires 1 <= percent <= 99 && n > 0 && 1 < c < m && 100 * c <= percent * s < 100 * c + 100
    requires 0 < 100 * m - percent * s <= ReachAt(percent, n) && 0 <= e <= k * (m - c) && s - e >= k * c
    ensures 100 * c - percent * (s - e) <= ReachAt(percent, n - 1)
  {
    hide ReachAt, MostCut;
    CutBounds(percent);
    var most, y := MostCut(percent), m - c;
    if k > most {
      CutToMany(percent, k, c, s - e);
    } else {
      CutFromFew(percent, most, k, y, e);
      ReachAtStep(percent, n, 100 * m - percent * s, y);
      Distributes(percent, s, e, percent * most, y);
    }
  }

  lemma Distributes(p: int, s: int, e: int, cut: int, y: int)
    ensures p * (s - e) == p * s - p * e && (100 - cut) * y == 100 * y - cut * y
  {
  }

  lemma {:induction false} SettledWithinReach(w: seq<int>, m: int, percent: int, n: nat)
    requires 1 <= percent <= 99 && AtLeast(w, 1) && IsMax(w, m)
    requires m <= 1 || GapAt(percent, w, m) <= ReachAt(percent, n)
    ensures Round(Rounds(w, percent, n), percent) == Rounds(w, percent, n)
    decreases n
  {
    hide Round, Cap, GapAt;
    if m <= 1 || GapAt(percent, w, m) <= 0 {
      ClosedAt(w, m, percent);
      FixedStays(w, percent, n);
    } else {
      RoundShrinksGapAt(w, m, percent, n);
      SettledWithinReach(Round(w, percent), Cap(percent, Sum(w)), percent, n - 1);
    }
  }

  lemma ClosedAt(w: seq<int>, m: int, percent: nat)
    requires IsMax(w, m) && (m <= 1 || GapAt(percent, w, m) <= 0)
    ensures Round(w, percent) == w
  {
    CapAtLeast(percent, Sum(w), m);
    FixedIff(w, percent);
  }

  lemma CapAtLeast(percent: nat, s: int, m: int)
    requires m <= 1 || 100 * m <= percent * s
    ensures m <= Cap(percent, s)
  {
    assert percent * s == s * percent;
  }

  /** Up to which reputation the loop is shown to settle at a percentage. */
  function SafeReputation(percent: int): int
    requires 1 <= percent <= 99
  {
    if (ReachAt(percent, CAP_ROUNDS) + 2 * percent) / (100 - percent) < 13 then 13
    else (ReachAt(percent, CAP_ROUNDS) + 2 * percent) / (100 - percent)
  }

  /** For each percentage below 100 the loop settles from any gap within its reach,
      so from all reputations up to a bound of its own; at 100 always. */
  lemma SettlesAtEachPercentage(raw: seq<int>, m: int, percent: int)
    requires |raw| >= 3 && AtLeast(raw, 1) && IsMax(raw, m) && 1 <= percent <= 100
    requires percent < 100 ==> m <= SafeReputation(percent) || GapAt(percent, raw, m) <= ReachAt(percent, CAP_ROUNDS)
    ensures Settles(raw, percent)
  {
    hide Round, Rounds, ReachAt, Sum, IsMax;
    MaxIsAbove(raw, m);
    MaxIsMember(raw, m);
    SumWithMax(raw, m);
    if percent == 100 {
      ClosedAt(raw, m, percent);
      FixedStays(raw, percent, CAP_ROUNDS);
    } else if m <= 13 {
      SettlesUpToThirteen(raw, percent);
    } else {
      if m <= SafeReputation(percent) {
        BoundGivesGap(percent, m, Sum(raw), ReachAt(percent, CAP_ROUNDS));
      }
      SettledWithinReach(raw, m, percent, CAP_ROUNDS);
    }
  }

  lemma BoundGivesGap(percent: int, m: int, s: int, reach: nat)
    requires 1 <= percent <= 99 && m <= (reach + 2 * percent) / (100 - percent) && s >= m + 2
    ensures 100 * m - percent * s <= reach
  {
    var d := 100 - percent;
    assert d * m <= reach + 2 * percent by {
      TimesMonotone(m, (reach + 2 * percent) / d, d);
    }
    TimesMonotone(m + 2, s, percent);
    assert percent * (m + 2) == percent * m + 2 * percent;
    assert d * m == 100 * m - percent * m;
  }

  /** One weight plus at least one for each of the others. */
  lemma {:induction false} SumWithMax(w: seq<int>, m: int)
    requires m in w && AtLeast(w, 1)
    ensures Sum(w) >= m + |w| - 1
  {
    var front, last := w[..|w| - 1], w[|w| - 1];
    if last == m {
      SumBounds(front, 1);
    } else {
      assert w == front + [last];
      SumWithMax(front, m);
    }
  }

  // ----- Where twelve rounds stop short at the default percentage -----

  lemma TwinRound(a: int, n: nat)
    requires a >= 15
    ensures var c := 34 * (2 * a + 14) / 100;
            && Round([a, a, 14], PERCENT) == [c, c, 14]
            && Rounds([a, a, 14], PERCENT, n + 1) == Rounds([c, c, 14], PERCENT, n)
  {
    SumOfThree(a, a, 14);
    assert Round([a, a, 14], PERCENT) == [34 * (2 * a + 14) / 100, 34 * (2 * a + 14) / 100, 14];
  }

  lemma TwinsAfterTwelve()
    ensures Rounds([143, 143, 14], PERCENT, CAP_ROUNDS) == [15, 15, 14]
  {
    hide Round, Rounds;
    TwinRound(143, 11);
    TwinRound(102, 10);
    TwinRound(74, 9);
    TwinRound(55, 8);
    TwinRound(42, 7);
    TwinRound(33, 6);
    TwinRound(27, 5);
    TwinRound(23, 4);
    TwinRound(20, 3);
    TwinRound(18, 2);
    TwinRound(17, 1);
    TwinRound(16, 0);
    NoRounds([15, 15, 14]);
  }

  lemma NoRounds(w: seq<int>)
    ensures Rounds(w, PERCENT, 0) == w
  {
  }

  /** From 143 on, for every greatest reputation, some reputations do not settle. */
  lemma CapLoopCanStopShort(m: int)
    requires m >= 143
    ensures Admitted([m, m, 14], m, PERCENT) && !Settles([m, m, 14], PERCENT)
  {
    hide Round, Rounds;
    var raw := [m, m, 14];
    assert Below([143, 143, 14], raw);
    RoundsMonotone([143, 143, 14], raw, PERCENT, CAP_ROUNDS);
    TwinsAfterTwelve();
    var w := Rounds(raw, PERCENT, CAP_ROUNDS);
    var b := TwinsStayEqual(m, CAP_ROUNDS);
    assert w[0] >= [15, 15, 14][0];
    TwinRound(b, 0);
    assert [34 * (2 * b + 14) / 100, 34 * (2 * b + 14) / 100, 14][0] != [b, b, 14][0];
  }

  ghost predicate AlwaysSettlesAtDefault(m: int) {
    forall raw :: Admitted(raw, m, PERCENT) ==> Settles(raw, PERCENT)
  }

  /** At the default percentage, twelve rounds are enough exactly for reputations up
      to 142; the parameters admit reputations up to a million. */
  lemma TwelveRoundsSufficeAtDefaultIff(m: int)
    ensures AlwaysSettlesAtDefault(m) <==> m <= 142
  {
    hide Settles, Round, Rounds, Cap;
    if m <= 142 {
      forall raw | Admitted(raw, m, PERCENT) ensures Settles(raw, PERCENT) {
        SettlesUpTo142(raw);
      }
    } else {
      CapLoopCanStopShort(m);
    }
  }

  lemma SettlesUpTo142(raw: seq<int>)
    requires |raw| >= 3 && AtLeast(raw, 1) && AtMost(raw, 142)
    ensures Settles(raw, PERCENT)
  {
    hide Round, Rounds;
    CapLoopReachesFixedPoint(raw);
  }

  lemma {:induction false} TwinsStayEqual(a: int, n: nat) returns (b: int)
    requires a >= 14
    ensures b >= 14 && Rounds([a, a, 14], PERCENT, n) == [b, b, 14]
    decreases n
  {
    hide Round;
    if n == 0 {
      b := a;
    } else if a == 14 {
      b := 14;
      SumOfThree(14, 14, 14);
      FixedIff([14, 14, 14], PERCENT);
      FixedStays([14, 14, 14], PERCENT, n);
    } else {
      TwinRound(a, n - 1);
      b := TwinsStayEqual(34 * (2 * a + 14) / 100, n - 1);
    }
  }
}
