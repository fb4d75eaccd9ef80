/** The cap loop reaches its fixed point, newcomers stay within their share, and
    the outcome is monotone in the agents' votes. */
module VotingProofs {
  import opened Voting

  // ----- Sums under a clamp -----

  function Excess(w: seq<int>, c: int): int {
    if w == [] then 0 else Excess(w[..|w| - 1], c) + (if w[|w| - 1] > c then w[|w| - 1] - c else 0)
  }

  function Over(w: seq<int>, c: int): nat {
    if w == [] then 0 else Over(w[..|w| - 1], c) + (if w[|w| - 1] > c then 1 else 0)
  }

  ghost predicate AtLeast(w: seq<int>, a: int) { forall i :: 0 <= i < |w| ==> a <= w[i] }

  ghost predicate AtMost(w: seq<int>, b: int) { forall i :: 0 <= i < |w| ==> w[i] <= b }

  ghost predicate IsMax(w: seq<int>, m: int) { m in w && AtMost(w, m) }

  lemma {:induction false} ClampSum(w: seq<int>, c: int)
    ensures Sum(Clamp(w, c)) == Sum(w) - Excess(w, c)
  {
    if w != [] {
      ClampSum(w[..|w| - 1], c);
      assert Clamp(w, c)[..|w| - 1] == Clamp(w[..|w| - 1], c);
    }
  }

  lemma {:induction false} ExcessBound(w: seq<int>, c: int, m: int)
    requires AtMost(w, m) && AtLeast(w, 0) && 0 <= c
    ensures 0 <= Excess(w, c) <= Over(w, c) * (m - c)
  {
    if w != [] {
      ExcessBound(w[..|w| - 1], c, m);
      OneMore(Over(w[..|w| - 1], c), m - c);
    }
  }

  lemma {:induction false} ClampedAtLeast(w: seq<int>, c: int)
    requires AtLeast(w, 0) && 0 <= c
    ensures Sum(Clamp(w, c)) >= Over(w, c) * c
  {
    hide Clamp;
    if w != [] {
      ClampedAtLeast(w[..|w| - 1], c);
      ClampSumStep(w, c);
      OneMore(Over(w[..|w| - 1], c), c);
    }
  }

  lemma OneMore(k: nat, x: int)
    ensures (k + 1) * x == k * x + x
  {
  }

  lemma ClampSumStep(w: seq<int>, c: int)
    requires w != []
    ensures Sum(Clamp(w, c)) == Sum(Clamp(w[..|w| - 1], c)) + Least(w[|w| - 1], c)
  {
    assert Clamp(w, c)[..|w| - 1] == Clamp(w[..|w| - 1], c);
    assert Clamp(w, c)[|w| - 1] == Least(w[|w| - 1], c);
  }

  lemma {:induction false} OverPositive(w: seq<int>, c: int, m: int)
    requires m in w && c < m
    ensures Over(w, c) > 0
  {
    if w[|w| - 1] <= c {
      assert w == w[..|w| - 1] + [w[|w| - 1]];
      OverPositive(w[..|w| - 1], c, m);
    }
  }

  lemma {:induction false} MaxExists(w: seq<int>) returns (m: int)
    requires w != []
    ensures IsMax(w, m)
  {
    var front, last := w[..|w| - 1], w[|w| - 1];
    assert w == front + [last];
    if front == [] {
      m := last;
    } else {
      var f := MaxExists(front);
      m := if f < last then last else f;
    }
    assert m in w;
  }

  lemma {:induction false} SumBounds(w: seq<int>, lo: int)
    requires AtLeast(w, lo)
    ensures Sum(w) >= |w| * lo
  {
    if w != [] {
      SumBounds(w[..|w| - 1], lo);
      assert |w| * lo == (|w| - 1) * lo + lo;
    }
  }

  // ----- One round -----

  const PERCENT := 34

  /** How far the greatest weight is above 34 percent, times 50. */
  function Gap(w: seq<int>, m: int): int { 50 * m - 17 * Sum(w) }

  lemma CapIs(s: int)
    requires s >= 0
    ensures var c := Cap(PERCENT, s);
            1 <= c && (17 * s >= 50 ==> 50 * c <= 17 * s < 50 * c + 50) && (17 * s < 50 ==> c == 1)
  {
  }

  /** A weighting is fixed exactly when no weight exceeds the cap. */
  lemma FixedIff(w: seq<int>, percent: nat)
    ensures Round(w, percent) == w <==> AtMost(w, Cap(percent, Sum(w)))
  {
    var c := Cap(percent, Sum(w));
    if AtMost(w, c) {
      assert forall i :: 0 <= i < |w| ==> Clamp(w, c)[i] == w[i];
    } else {
      var i :| 0 <= i < |w| && w[i] > c;
      assert Clamp(w, c)[i] == c;
    }
  }

  lemma {:induction false} FixedStays(w: seq<int>, percent: nat, n: nat)
    requires Round(w, percent) == w
    ensures Rounds(w, percent, n) == w
    decreases n
  {
    if n > 0 {
      FixedStays(w, percent, n - 1);
    }
  }

  lemma ClampKeeps(w: seq<int>, c: int, m: int)
    requires AtLeast(w, 1) && IsMax(w, m) && 1 <= c < m
    ensures AtLeast(Clamp(w, c), 1) && IsMax(Clamp(w, c), c)
  {
    var i :| 0 <= i < |w| && w[i] == m;
    assert Clamp(w, c)[i] == c;
  }

  lemma SmallProduct(k: nat, x: int, y: int)
    requires k <= 2 && 0 <= x && y <= k * x
    ensures y <= 2 * x
  {
  }

  lemma LargeProduct(k: nat, x: int, y: int)
    requires k >= 3 && 0 <= x && y >= k * x
    ensures y >= 3 * x
  {
    assert k * x >= 3 * x;
  }

  /** A round that changes something shrinks the gap by at least 16 of every 50, or closes it. */
  lemma RoundShrinksGap(w: seq<int>, m: int)
    requires AtLeast(w, 1) && IsMax(w, m) && m > 1 && Gap(w, m) > 0
    ensures var c, g := Cap(PERCENT, Sum(w)), Gap(w, m);
            && 1 <= c < m && AtLeast(Round(w, PERCENT), 1) && IsMax(Round(w, PERCENT), c)
            && (c == 1 || Gap(Round(w, PERCENT), c) <= 0 || Gap(Round(w, PERCENT), c) <= g - 16 * ((g + 49) / 50))
  {
    hide Clamp, Excess, Over, Sum, Cap, IsMax;
    MaxIsAbove(w, m);
    SumBounds(w, 1);
    var s, c := Sum(w), Cap(PERCENT, Sum(w));
    CapIs(s);
    ClampKeeps(w, c, m);
    ClampSum(w, c);
    ExcessBound(w, c, m);
    ClampedAtLeast(w, c);
    var k, e := Over(w, c), Excess(w, c);
    if c > 1 {
      if k >= 3 {
        LargeProduct(k, c, Sum(Clamp(w, c)));
      } else {
        SmallProduct(k, m - c, e);
        GapArithmetic(m, c, s, e);
      }
    }
  }

  lemma MaxIsAbove(w: seq<int>, m: int)
    requires IsMax(w, m) && AtLeast(w, 1)
    ensures w != [] && AtMost(w, m) && AtLeast(w, 0)
  {
  }

  lemma GapArithmetic(m: int, c: int, s: int, e: int)
    requires 50 * c <= 17 * s < 50 * c + 50 && 50 * m - 17 * s > 0 && e <= 2 * (m - c)
    ensures var g := 50 * m - 17 * s;
            50 * c - 17 * (s - e) <= g - 16 * ((g + 49) / 50)
  {
    var g := 50 * m - 17 * s;
    assert (g + 49) / 50 == m - c;
  }

  // ----- Twelve rounds -----

  /** Gaps up to this close within `n` rounds. */
  function Reach(n: nat): int {
    if n == 0 then 0 else if n == 1 then 16 else if n == 2 then 32 else if n == 3 then 48
    else if n == 4 then 80 else if n == 5 then 128 else if n == 6 then 192 else if n == 7 then 288
    else if n == 8 then 432 else if n == 9 then 640 else if n == 10 then 944 else if n == 11 then 1392
    else 2048
  }

  lemma ReachStep(n: nat, g: int)
    requires 0 < n <= 12 && 0 < g <= Reach(n)
    ensures g - 16 * ((g + 49) / 50) <= Reach(n - 1)
  {
  }

  lemma ClosedIsFixed(w: seq<int>, m: int)
    requires AtLeast(w, 1) && IsMax(w, m) && (m <= 1 || Gap(w, m) <= 0)
    ensures Round(w, PERCENT) == w
  {
    SumBounds(w, 1);
    CapIs(Sum(w));
    FixedIff(w, PERCENT);
  }

  lemma {:induction false} ReachedWithin(w: seq<int>, m: int, n: nat)
    requires AtLeast(w, 1) && IsMax(w, m) && n <= 12 && (m <= 1 || Gap(w, m) <= Reach(n))
    ensures Round(Rounds(w, PERCENT, n), PERCENT) == Rounds(w, PERCENT, n)
    decreases n
  {
    hide Round, Cap, Gap;
    if m <= 1 || Gap(w, m) <= 0 {
      ClosedIsFixed(w, m);
      FixedStays(w, PERCENT, n);
    } else {
      RoundShrinksGap(w, m);
      ReachStep(n, Gap(w, m));
      ReachedWithin(Round(w, PERCENT), Cap(PERCENT, Sum(w)), n - 1);
    }
  }

  /** Each weight over the cap leaves the cap behind, each other at least one. */
  lemma {:induction false} ClampSumBound(w: seq<int>, c: int)
    requires AtLeast(w, 1) && c >= 1
    ensures Over(w, c) <= |w| && Sum(Clamp(w, c)) >= Over(w, c) * (c - 1) + |w|
  {
    hide Clamp;
    if w != [] {
      var front := w[..|w| - 1];
      ClampSumBound(front, c);
      ClampSumStep(w, c);
      OneMore(Over(front, c), c - 1);
    }
  }

  /** What is left after a round, by how many weights it cut. */
  lemma RoundGap(w: seq<int>, m: int)
    requires |w| >= 3 && AtLeast(w, 1) && IsMax(w, m) && m > 1 && Gap(w, m) > 0 && Cap(PERCENT, Sum(w)) > 1
    ensures var c, s, k := Cap(PERCENT, Sum(w)), Sum(Round(w, PERCENT)), Over(w, Cap(PERCENT, Sum(w)));
            && c < m && k >= 1 && AtLeast(Round(w, PERCENT), 1) && IsMax(Round(w, PERCENT), c)
            && (k == 1 ==> 50 * c <= 17 * (s + m - c) && s >= c + 2)
            && (k == 2 ==> 50 * c <= 17 * (s + 2 * (m - c)) && s >= 2 * c + 1)
            && (k >= 3 ==> s >= 3 * c)
  {
    hide Clamp, Excess, Over, Sum, Cap, IsMax;
    MaxIsAbove(w, m);
    SumBounds(w, 1);
    var c := Cap(PERCENT, Sum(w));
    CapIs(Sum(w));
    ClampKeeps(w, c, m);
    ClampSum(w, c);
    ExcessBound(w, c, m);
    ClampedAtLeast(w, c);
    ClampSumBound(w, c);
    MaxIsMember(w, m);
    OverPositive(w, c, m);
    if Over(w, c) >= 3 {
      LargeProduct(Over(w, c), c, Sum(Clamp(w, c)));
    }
  }

  // ----- Two equal greatest weights -----

  /** Two agents at least hold the greatest weight `c`, and all but two hold `r` together. */
  ghost predicate Twins(w: seq<int>, c: int, r: int) { IsMax(w, c) && Over(w, c - 1) >= 2 && Sum(w) == 2 * c + r }

  /** Gaps of twins beside up to twelve close within `n` rounds up to this: modulo
      sixteen such a gap is at least four, and stays what it is. */
  function TwinReach(n: nat): int {
    if n == 0 then 3 else if n == 1 then 19 else if n == 2 then 35 else if n == 3 then 67
    else if n == 4 then 99 else if n == 5 then 147 else if n == 6 then 227 else if n == 7 then 339
    else if n == 8 then 499 else if n == 9 then 739 else if n == 10 then 1091 else 1619
  }

  lemma TwinReachStep(n: nat, c: int, r: int)
    requires 0 < n <= 11 && 1 <= r <= 12 && 0 < 16 * c - 17 * r <= TwinReach(n)
    ensures 16 * (17 * (2 * c + r) / 50) - 17 * r <= TwinReach(n - 1)
  {
    var g := 16 * c - 17 * r;
    var q := c - r - 1;
    assert g == 16 * q + (16 - r) && 4 <= 16 - r < 16;
    TwinArithmetic(g, q, 16 - r, n);
    assert 17 * (2 * c + r) == 50 * c - g;
    assert c - 17 * (2 * c + r) / 50 == (g + 49) / 50;
  }

  lemma TwinArithmetic(g: int, q: int, rest: int, n: nat)
    requires 0 < n <= 11 && g == 16 * q + rest && 4 <= rest < 16 && 0 < g <= TwinReach(n)
    ensures g - 16 * ((g + 49) / 50) <= TwinReach(n - 1)
  {
  }

  lemma {:induction false} OverMonotone(w: seq<int>, a: int, b: int)
    requires a <= b
    ensures Over(w, b) <= Over(w, a)
  {
    if w != [] {
      OverMonotone(w[..|w| - 1], a, b);
    }
  }

  /** Clamped weights are over what is below the cap. */
  lemma {:induction false} OverClamped(w: seq<int>, c: int)
    ensures Over(Clamp(w, c), c - 1) >= Over(w, c)
  {
    if w != [] {
      OverClamped(w[..|w| - 1], c);
      assert Clamp(w, c)[..|w| - 1] == Clamp(w[..|w| - 1], c);
    }
  }

  lemma {:induction false} ExcessAtLeast(w: seq<int>, c: int, t: int)
    requires AtMost(w, c) && t < c
    ensures Excess(w, t) >= Over(w, c - 1) * (c - t)
  {
    if w != [] {
      var front := w[..|w| - 1];
      ExcessAtLeast(front, c, t);
      OneMore(Over(front, c - 1), c - t);
    }
  }

  lemma TwinsRound(w: seq<int>, c: int, r: int)
    requires |w| >= 3 && AtLeast(w, 1) && Twins(w, c, r) && c > 1 && 16 * c > 17 * r && Cap(PERCENT, Sum(w)) > 1
    ensures var next := 17 * (2 * c + r) / 50;
            && next == Cap(PERCENT, Sum(w)) && AtLeast(Round(w, PERCENT), 1) && IsMax(Round(w, PERCENT), next)
            && (Gap(Round(w, PERCENT), next) <= 0 || Twins(Round(w, PERCENT), next, r))
  {
    hide Clamp, Excess, Over, Sum, IsMax;
    var next := Cap(PERCENT, Sum(w));
    assert Gap(w, c) > 0;
    RoundGap(w, c);
    CapIs(Sum(w));
    MaxIsAbove(w, c);
    OverMonotone(w, next, c - 1);
    OverClamped(w, next);
    ClampSum(w, next);
    if Over(w, next) == 2 {
      ExcessAtLeast(w, c, next);
      ExcessBound(w, next, c);
      TwoOnly(Over(w, c - 1), c - next, Excess(w, next));
    }
  }

  lemma TwoOnly(k: nat, x: int, e: int)
    requires k == 2 && k * x <= e <= 2 * x
    ensures e == 2 * x
  {
  }

  lemma {:induction false} TwinsSettle(w: seq<int>, c: int, r: int, n: nat)
    requires |w| >= 3 && AtLeast(w, 1) && Twins(w, c, r) && 1 <= r <= 12 && n <= 11
    requires c <= 1 || 16 * c - 17 * r <= TwinReach(n)
    ensures Round(Rounds(w, PERCENT, n), PERCENT) == Rounds(w, PERCENT, n)
    decreases n
  {
    hide Round, Over, Sum, IsMax, Cap, Rounds;
    if c <= 1 || 16 * c <= 17 * r {
      ReachedWithin(w, c, n);
    } else if Cap(PERCENT, Sum(w)) <= 1 {
      RoundShrinksGap(w, c);
      RoundsUnfold(w, n - 1);
      ReachedWithin(Round(w, PERCENT), Cap(PERCENT, Sum(w)), n - 1);
    } else {
      TwinsRound(w, c, r);
      TwinReachStep(n, c, r);
      RoundsUnfold(w, n - 1);
      var next := 17 * (2 * c + r) / 50;
      if Gap(Round(w, PERCENT), next) <= 0 {
        ReachedWithin(Round(w, PERCENT), next, n - 1);
      } else {
        TwinsSettle(Round(w, PERCENT), next, r, n - 1);
      }
    }
  }

  // ----- Weights up to 142 -----

  /** A first round that cuts one weight leaves a gap that eleven more close. */
  lemma OneCut(w: seq<int>, m: int)
    requires |w| >= 3 && AtLeast(w, 1) && IsMax(w, m) && 1 < m <= 142 && Gap(w, m) > 0
    requires Cap(PERCENT, Sum(w)) > 1 && Over(w, Cap(PERCENT, Sum(w))) == 1
    ensures var v := Round(w, PERCENT);
            Round(Rounds(v, PERCENT, 11), PERCENT) == Rounds(v, PERCENT, 11)
  {
    hide Round, Over, Sum, Cap, Rounds, IsMax;
    RoundGap(w, m);
    var v, c := Round(w, PERCENT), Cap(PERCENT, Sum(w));
    if Gap(v, c) <= 1392 {
      ReachedWithin(v, c, 11);
    } else {
      assert 44 <= c <= 60;
      SecondGap(v, c);
      ReachedWithin(Round(v, PERCENT), Cap(PERCENT, Sum(v)), 10);
      RoundsUnfold(v, 10);
    }
  }

  lemma SecondGap(v: seq<int>, c: int)
    requires |v| >= 3 && AtLeast(v, 1) && IsMax(v, c) && 1 < c <= 60 && Gap(v, c) > 0
    ensures var d := Cap(PERCENT, Sum(v));
            && AtLeast(Round(v, PERCENT), 1) && IsMax(Round(v, PERCENT), d)
            && (d <= 1 || Gap(Round(v, PERCENT), d) <= Reach(10))
  {
    hide Round, Over, Sum, Cap, IsMax;
    if Cap(PERCENT, Sum(v)) <= 1 {
      RoundShrinksGap(v, c);
    } else {
      RoundGap(v, c);
    }
  }

  /** A first round that cuts two weights leaves twins that eleven more settle. */
  lemma TwoCut(w: seq<int>, m: int)
    requires |w| >= 3 && AtLeast(w, 1) && IsMax(w, m) && 1 < m <= 142 && Gap(w, m) > 0
    requires Cap(PERCENT, Sum(w)) > 1 && Over(w, Cap(PERCENT, Sum(w))) == 2
    ensures var v := Round(w, PERCENT);
            Round(Rounds(v, PERCENT, 11), PERCENT) == Rounds(v, PERCENT, 11)
  {
    hide Over, Sum, Cap, Rounds, IsMax;
    RoundGap(w, m);
    var v, c := Round(w, PERCENT), Cap(PERCENT, Sum(w));
    var r := Sum(v) - 2 * c;
    if r <= 12 {
      OverClamped(w, c);
      TwinsSettle(v, c, r, 11);
    } else {
      assert Gap(v, c) <= 1392;
      ReachedWithin(v, c, 11);
    }
  }

  lemma MaxIsMember(w: seq<int>, m: int)
    requires IsMax(w, m)
    ensures m in w
  {
  }

  /** At 34 percent and weights up to 142 twelve rounds always reach the fixed point:
      no weight exceeds 34 percent of the capped subtotal (or 1). */
  lemma CapLoopReachesFixedPoint(raw: seq<int>)
    requires |raw| >= 3 && AtLeast(raw, 1) && AtMost(raw, 142)
    ensures var w := Rounds(raw, PERCENT, CAP_ROUNDS);
            Round(w, PERCENT) == w && AtMost(w, Cap(PERCENT, Sum(w)))
  {
    hide Round, Rounds, Over, Cap;
    var m := MaxExists(raw);
    if m <= 1 || Gap(raw, m) <= 0 {
      ReachedWithin(raw, m, CAP_ROUNDS);
    } else {
      var c := Cap(PERCENT, Sum(raw));
      RoundsUnfold(raw, 11);
      if c <= 1 {
        RoundShrinksGap(raw, m);
        ReachedWithin(Round(raw, PERCENT), c, 11);
      } else {
        RoundGap(raw, m);
        if Over(raw, c) == 1 {
          OneCut(raw, m);
        } else if Over(raw, c) == 2 {
          TwoCut(raw, m);
        } else {
          ReachedWithin(Round(raw, PERCENT), c, 11);
        }
      }
    }
    FixedIff(Rounds(raw, PERCENT, CAP_ROUNDS), PERCENT);
  }

  lemma RoundsUnfold(w: seq<int>, n: nat)
    ensures Rounds(w, PERCENT, n + 1) == Rounds(Round(w, PERCENT), PERCENT, n)
  {
  }
}
