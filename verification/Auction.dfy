/**
 The greedy delta auction on values: bids, weights, demand shares and the choice of a winner
 (mutate_gd.c). The methods that compute them are in AuctionSteps, the rounds in GreedyMutator.
 */
module Auction {
  import opened Common
  import opened DemandTransform

  predicate IsDirection(dir: int) {
    dir == -1 || dir == 0 || dir == 1
  }

  // ----- Rounding hints to demands

  /** Integer division that truncates towards zero. */
  function TruncDiv(a: int, b: int): int
    requires b != 0
  {
    if a >= 0 then a / b else -((-a) / b)
  }

  /** Quotient rounded to the nearest integer; 0 for a zero divisor. */
  function RoundDiv(a: int, b: int): int {
    if b != 0 then TruncDiv(2 * a + b, 2 * b) else 0
  }

  /** Cpus a state may claim when it received hints of all total hints and load cpus are needed. */
  function Procs(hints: int, total: int, load: int): int {
    if hints == 0 then 0
    else if hints == total then load
    else Max(RoundDiv(hints * load, total), 0)
  }

  function Demands(hints: seq<int>, load: int): (d: seq<int>)
    ensures |d| == |hints|
  {
    seq(|hints|, j requires 0 <= j < |hints| => Procs(hints[j], Sum(hints), load))
  }

  lemma NearestQuotient(a: nat, b: nat)
    requires b > 0
    ensures RoundDiv(a, b) >= 0 && 2 * Abs(RoundDiv(a, b) * b - a) <= b
    ensures 2 * (a - RoundDiv(a, b) * b) < b
  {
    var q := (2 * a + b) / (2 * b);
    assert 2 * a + b == q * (2 * b) + (2 * a + b) % (2 * b);
    assert q * (2 * b) == 2 * (q * b);
  }

  lemma QuotientWithin(q: nat, a: nat, total: nat, load: nat)
    requires total > 0 && 2 * Abs(q * total - a) <= total && a <= total * load
    ensures q <= load
  {
    Distribute(load, 1, total);
    assert load * total == total * load;
    if q > load {
      Scale(load + 1, q, total);
    }
  }

  /** One state: the claim is within the load and at most half a cpu off its exact share, exact halves rounded up. */
  lemma ProcsRounds(hints: int, total: int, load: nat)
    requires 0 <= hints <= total && total > 0
    ensures 0 <= Procs(hints, total, load) <= load
    ensures 2 * Abs(Procs(hints, total, load) * total - hints * load) <= total
    ensures 2 * (hints * load - Procs(hints, total, load) * total) < total
  {
    if 0 < hints < total {
      Scale(0, hints, load);
      Scale(hints, total, load);
      var a: nat := hints * load;
      NearestQuotient(a, total);
      QuotientWithin(RoundDiv(a, total), a, total, load);
    } else if hints == total {
      assert load * total == hints * load;
    }
  }

  /** Rounding errors add up to at most one half for each state. */
  lemma {:induction false} ErrorsAddUp(claims: seq<int>, hints: seq<int>, total: int, load: int)
    requires |claims| == |hints|
    requires forall j :: 0 <= j < |hints| ==> 2 * Abs(claims[j] * total - hints[j] * load) <= total
    ensures 2 * Abs(Sum(claims) * total - Sum(hints) * load) <= |hints| * total
  {
    if hints != [] {
      var n := |hints| - 1;
      ErrorsAddUp(claims[..n], hints[..n], total, load);
      Distribute(Sum(claims[..n]), claims[n], total);
      Distribute(Sum(hints[..n]), hints[n], load);
      Distribute(n, 1, total);
    }
  }

  lemma Distribute(a: int, b: int, c: int)
    ensures (a + b) * c == a * c + b * c
  {
  }

  lemma EveryClaimRounds(claims: seq<int>, hints: seq<int>, total: int, load: nat)
    requires total == Sum(hints) > 0 && forall j :: 0 <= j < |hints| ==> hints[j] >= 0
    requires claims == Demands(hints, load)
    ensures forall j :: 0 <= j < |hints| ==> 0 <= claims[j] <= load
    ensures forall j :: 0 <= j < |hints| ==> 2 * Abs(claims[j] * total - hints[j] * load) <= total
  {
    forall j | 0 <= j < |hints|
      ensures 0 <= claims[j] <= load
      ensures 2 * Abs(claims[j] * total - hints[j] * load) <= total
    {
      SumAtLeastEntry(hints, j);
      ProcsRounds(hints[j], total, load);
    }
  }

  lemma ClaimsAddUp(claims: seq<int>, hints: seq<int>, total: int, load: int)
    requires |claims| == |hints| && total == Sum(hints) > 0
    requires forall j :: 0 <= j < |hints| ==> 2 * Abs(claims[j] * total - hints[j] * load) <= total
    ensures 2 * Abs(Sum(claims) - load) <= |hints|
  {
    ErrorsAddUp(claims, hints, total, load);
    CancelFactor(Sum(claims), load, total, |hints|);
  }

  /** All states: the claims miss the load by at most half a cpu for each state. */
  lemma DemandRounding(hints: seq<int>, load: nat)
    requires Sum(hints) > 0 && forall j :: 0 <= j < |hints| ==> hints[j] >= 0
    ensures forall j :: 0 <= j < |hints| ==> 0 <= Demands(hints, load)[j] <= load
    ensures 2 * Abs(Sum(Demands(hints, load)) - load) <= |hints|
  {
    var claims, total := Demands(hints, load), Sum(hints);
    EveryClaimRounds(claims, hints, total, load);
    ClaimsAddUp(claims, hints, total, load);
  }

  lemma Scale(a: int, b: int, c: int)
    requires a <= b && c >= 0
    ensures a * c <= b * c
  {
  }

  lemma CancelFactor(x: int, y: int, total: int, n: nat)
    requires total > 0 && 2 * Abs(x * total - total * y) <= n * total
    ensures 2 * Abs(x - y) <= n
  {
    Distribute(x, -y, total);
    if 2 * (x - y) > n {
      Scale(n + 1, 2 * (x - y), total);
    } else if 2 * (y - x) > n {
      Scale(n + 1, 2 * (y - x), total);
    }
  }

  // ----- Direction

  /** Level the demands ask for: state i counts i + 1 for each cpu it claims. */
  function RequiredLevel(demand: seq<int>): int {
    if demand == [] then 0
    else RequiredLevel(demand[..|demand| - 1]) + demand[|demand| - 1] * |demand|
  }

  /** Level the awake cpus run at. */
  function PresentLevel(cur: seq<int>, info: seq<ProcInfo>): int
    requires |cur| == |info|
  {
    if cur == [] then 0
    else
      var n := |cur| - 1;
      PresentLevel(cur[..n], info[..n]) + if info[n].sleepTime > 0 then 0 else cur[n] + 1
  }

  // ----- Bids

  /** Highest bid for a lower state, before the distance is taken off. */
  function LeftBase(states: nat, dir: int): int {
    (dir * dir - dir + 2) * states / 2
  }

  function RightBase(states: nat, dir: int): int {
    (dir * dir + dir + 2) * states / 2
  }

  /** Bid of a cpu in state at for state j. */
  function Bid(states: nat, delta: int, dir: int, at: int, j: int): int {
    if j == at then 2 * states
    else if Abs(j - at) > delta then 0
    else if j < at then LeftBase(states, dir) + j - at
    else RightBase(states, dir) + at - j
  }

  /** A bid is positive exactly within delta, and the own state is the only highest bid. */
  lemma BidMeaning(states: nat, delta: nat, dir: int, at: nat, j: nat)
    requires at < states && j < states && IsDirection(dir)
    ensures 0 <= Bid(states, delta, dir, at, j) <= 2 * states
    ensures Bid(states, delta, dir, at, j) > 0 <==> Abs(j - at) <= delta
    ensures Bid(states, delta, dir, at, j) == 2 * states <==> j == at
  {
    BaseValues(states, dir);
  }

  lemma BaseValues(states: nat, dir: int)
    requires IsDirection(dir)
    ensures LeftBase(states, dir) == if dir == -1 then 2 * states else states
    ensures RightBase(states, dir) == if dir == 1 then 2 * states else states
  {
    if dir == 1 {
      assert dir * dir - dir + 2 == 2 && dir * dir + dir + 2 == 4;
    } else if dir == -1 {
      assert dir * dir - dir + 2 == 4 && dir * dir + dir + 2 == 2;
    } else {
      assert dir * dir - dir + 2 == 2 && dir * dir + dir + 2 == 2;
    }
  }

  /** Bids in the direction of the transition beat all bids against it; balance is symmetric. */
  lemma BidDirection(states: nat, delta: nat, dir: int, at: nat, up: nat, from: nat, down: nat)
    requires IsDirection(dir) && at < up < states && down < from < states
    requires up - at <= delta && from - down <= delta
    ensures dir == 1 ==> Bid(states, delta, dir, at, up) > Bid(states, delta, dir, from, down)
    ensures dir == -1 ==> Bid(states, delta, dir, at, up) < Bid(states, delta, dir, from, down)
    ensures dir == 0 ==> Bid(states, delta, dir, at, up) == states - (up - at)
    ensures dir == 0 ==> Bid(states, delta, dir, from, down) == states - (from - down)
  {
    BaseValues(states, dir);
  }

  /** Bids of all cpus for state j. */
  function Bids(states: nat, delta: int, dir: int, at: seq<int>, j: int): (b: seq<int>)
    ensures |b| == |at| && forall i :: 0 <= i < |b| ==> b[i] == Bid(states, delta, dir, at[i], j)
  {
    seq(|at|, i requires 0 <= i < |at| => Bid(states, delta, dir, at[i], j))
  }

  function Weights(states: nat, delta: int, dir: int, at: seq<int>): (w: seq<int>)
    ensures |w| == states && forall j :: 0 <= j < states ==> w[j] == Sum(Bids(states, delta, dir, at, j))
  {
    seq(states, j requires 0 <= j < states => Sum(Bids(states, delta, dir, at, j)))
  }

  /** A state has weight exactly when some cpu can reach it. */
  lemma WeightMeaning(states: nat, delta: nat, dir: int, at: seq<int>, j: nat)
    requires j < states && IsDirection(dir)
    requires forall i :: 0 <= i < |at| ==> 0 <= at[i] < states
    ensures Weights(states, delta, dir, at)[j] >= 0
    ensures Weights(states, delta, dir, at)[j] > 0 <==> CanWin(at, delta, j)
  {
    var b := Bids(states, delta, dir, at, j);
    forall i | 0 <= i < |at|
      ensures b[i] >= 0 && (b[i] > 0 <==> Abs(at[i] - j) <= delta)
    {
      BidMeaning(states, delta, dir, at[i], j);
    }
    SumNonNegative(b);
    if i :| 0 <= i < |at| && Abs(at[i] - j) <= delta {
      SumAtLeastEntry(b, i);
    } else {
      SumBounds(b, 0, 0);
    }
  }

  // ----- Demand shares

  function NonZero(weight: seq<int>): seq<bool> {
    seq(|weight|, j requires 0 <= j < |weight| => weight[j] != 0)
  }

  /** The nearer of two neighbours, ties to the left one; -1 stands for no neighbour. */
  function Closest(pos: int, left: int, right: int): int {
    if left == -1 && right == -1 then -1
    else if left == -1 then right
    else if right == -1 then left
    else if pos - left > right - pos then right else left
  }

  /** The state that bids on behalf of state i, which has no weight of its own. */
  function Heir(weight: seq<int>, dir: int, i: nat): (h: int)
    requires i < |weight|
    ensures -1 <= h < |weight| && (h != -1 ==> weight[h] != 0)
  {
    var left, right := LeftOf(NonZero(weight), i - 1), RightOf(NonZero(weight), i + 1);
    if dir == 1 then if left != -1 then left else right
    else if dir == -1 then if right != -1 then right else left
    else Closest(i, left, right)
  }

  predicate Moves(demand: seq<int>, weight: seq<int>, dir: int, i: nat)
    requires i < |weight| == |demand|
  {
    demand[i] != 0 && weight[i] == 0 && Heir(weight, dir, i) != -1
  }

  /** Demand field f after state i gave away what it cannot use. */
  function Passed(demand: seq<int>, weight: seq<int>, dir: int, i: nat, f: seq<int>): (r: seq<int>)
    requires i < |weight| == |demand| == |f|
    ensures |r| == |f|
  {
    if Moves(demand, weight, dir, i) then
      var h := Heir(weight, dir, i);
      f[h := f[h] + demand[i]][i := 0]
    else f
  }

  /** Demand field after the first k states gave away what they cannot use. */
  function Share(demand: seq<int>, weight: seq<int>, dir: int, k: nat): (f: seq<int>)
    requires k <= |weight| == |demand|
    ensures |f| == |demand|
  {
    if k == 0 then demand else Passed(demand, weight, dir, k - 1, Share(demand, weight, dir, k - 1))
  }

  /** The last of the first k states that gave its demand to s, or s itself. */
  function Source(demand: seq<int>, weight: seq<int>, dir: int, k: nat, s: int): int
    requires k <= |weight| == |demand|
  {
    if k == 0 then s
    else if Moves(demand, weight, dir, k - 1) && Heir(weight, dir, k - 1) == s then k - 1
    else Source(demand, weight, dir, k - 1, s)
  }

  /** A state without weight keeps its demand until it gives all of it away. */
  lemma {:induction false} ShareOfWeightless(demand: seq<int>, weight: seq<int>, dir: int, k: nat, i: nat)
    requires k <= |weight| == |demand| && i < |weight| && weight[i] == 0
    ensures Share(demand, weight, dir, k)[i] == if i < k && Moves(demand, weight, dir, i) then 0 else demand[i]
  {
    if k > 0 {
      ShareOfWeightless(demand, weight, dir, k - 1, i);
    }
  }

  /** The demand field holds exactly the demand. */
  lemma {:induction false} ShareConserves(demand: seq<int>, weight: seq<int>, dir: int, k: nat)
    requires k <= |weight| == |demand|
    ensures Sum(Share(demand, weight, dir, k)) == Sum(demand)
  {
    if k > 0 {
      ShareConserves(demand, weight, dir, k - 1);
      if Moves(demand, weight, dir, k - 1) {
        var f, h := Share(demand, weight, dir, k - 1), Heir(weight, dir, k - 1);
        ShareOfWeightless(demand, weight, dir, k - 1, k - 1);
        SumUpdate(f, h, f[h] + demand[k - 1]);
        SumUpdate(f[h := f[h] + demand[k - 1]], k - 1, 0);
      }
    }
  }

  lemma SomeHeir(weight: seq<int>, dir: int, i: nat, j: nat)
    requires i < |weight| && j < |weight| && weight[i] == 0 && weight[j] != 0
    ensures Heir(weight, dir, i) != -1
  {
    assert NonZero(weight)[j] && !NonZero(weight)[i];
  }

  /** When some state has weight, only states with weight are left with demand. */
  lemma ShareHasWeight(demand: seq<int>, weight: seq<int>, dir: int, j: nat, s: nat)
    requires |weight| == |demand| && j < |weight| && weight[j] != 0
    requires s < |weight| && Share(demand, weight, dir, |weight|)[s] != 0
    ensures weight[s] != 0
  {
    if weight[s] == 0 {
      ShareOfWeightless(demand, weight, dir, |weight|, s);
      SomeHeir(weight, dir, s, j);
    }
  }

  /** A source is the state itself or a weightless state whose demand moved to it. */
  lemma {:induction false} SourceMeaning(demand: seq<int>, weight: seq<int>, dir: int, k: nat, s: nat)
    requires k <= |weight| == |demand| && s < |weight|
    ensures var p := Source(demand, weight, dir, k, s);
      && 0 <= p < |weight|
      && (p != s ==> p < k && Moves(demand, weight, dir, p) && Heir(weight, dir, p) == s)
      && (p == s && weight[s] != 0 ==> Share(demand, weight, dir, k)[s] == demand[s])
  {
    if k > 0 {
      SourceMeaning(demand, weight, dir, k - 1, s);
    }
  }

  // ----- Winners

  /** p is the first unselected cpu with the highest positive bid, -1 when there is none. */
  ghost predicate IsWinningProc(bids: seq<int>, selected: seq<int>, p: int)
    requires |bids| == |selected|
  {
    if p == -1 then forall i :: 0 <= i < |bids| ==> selected[i] * bids[i] <= 0
    else
      && 0 <= p < |bids| && selected[p] * bids[p] > 0
      && (forall i :: 0 <= i < |bids| ==> selected[i] * bids[i] <= selected[p] * bids[p])
      && forall i :: 0 <= i < p ==> selected[i] * bids[i] < selected[p] * bids[p]
  }

  predicate Beats(weight: int, bid: int, weight': int, bid': int) {
    weight > weight' || (weight == weight' && bid > bid')
  }

  /**
   r is the first state with the highest weight, ties to the higher bid; a state that does not
   beat weight 0 with bid 0 cannot win, and -1 says that no state can.
   */
  ghost predicate IsWinningState(scores: seq<int>, bids: seq<int>, r: int)
    requires |scores| == |bids|
  {
    if r == -1 then forall j :: 0 <= j < |scores| ==> !Beats(scores[j], bids[j], 0, 0)
    else
      && 0 <= r < |scores| && Beats(scores[r], bids[r], 0, 0)
      && (forall j :: 0 <= j < |scores| ==> !Beats(scores[j], bids[j], scores[r], bids[r]))
      && forall j :: 0 <= j < r ==> Beats(scores[r], bids[r], scores[j], bids[j])
  }

  /** Weight times demand field, state by state. */
  function Scores(weight: seq<int>, field: seq<int>): (s: seq<int>)
    requires |weight| == |field|
    ensures |s| == |weight| && forall j :: 0 <= j < |s| ==> s[j] == weight[j] * field[j]
  {
    seq(|weight|, j requires 0 <= j < |weight| => weight[j] * field[j])
  }

  lemma PositiveProduct(a: int, b: int)
    requires a > 0 && b > 0
    ensures a * b > 0
  {
  }

  /** With a positive score somewhere, the winner has the highest score. */
  lemma HighestScoreWins(scores: seq<int>, bids: seq<int>, r: int, s: nat)
    requires |scores| == |bids| && IsWinningState(scores, bids, r)
    requires s < |scores| && scores[s] > 0
    ensures 0 <= r < |scores| && scores[r] > 0
    ensures forall j :: 0 <= j < |scores| ==> scores[j] <= scores[r]
  {
    assert Beats(scores[s], bids[s], 0, 0);
    forall j | 0 <= j < |scores|
      ensures scores[j] <= scores[r]
    {
      assert !Beats(scores[j], bids[j], scores[r], bids[r]);
    }
    assert scores[s] <= scores[r];
  }

  lemma PositiveFactor(a: int, b: int)
    requires a >= 0 && a * b > 0
    ensures a > 0 && b > 0
  {
  }

  /**
   While there is demand, whatever the bids, the winner has the highest and a positive score,
   and the state that pays for it has demand.
   */
  lemma WinnerSpendsDemand(demand: seq<int>, weight: seq<int>, dir: int, bids: seq<int>, r: int, j: nat)
    requires |demand| == |weight| == |bids| && j < |weight| && weight[j] != 0
    requires forall s :: 0 <= s < |weight| ==> weight[s] >= 0 && demand[s] >= 0
    requires Sum(demand) > 0
    requires IsWinningState(Scores(weight, Share(demand, weight, dir, |weight|)), bids, r)
    ensures var scores := Scores(weight, Share(demand, weight, dir, |weight|));
      && 0 <= r < |weight| && scores[r] > 0
      && (forall s :: 0 <= s < |weight| ==> scores[s] <= scores[r])
      && 0 <= Source(demand, weight, dir, |weight|, r) < |weight|
      && demand[Source(demand, weight, dir, |weight|, r)] > 0
  {
    var field := Share(demand, weight, dir, |weight|);
    var scores := Scores(weight, field);
    ShareConserves(demand, weight, dir, |weight|);
    var s := PositiveEntry(field);
    ShareHasWeight(demand, weight, dir, j, s);
    PositiveProduct(weight[s], field[s]);
    HighestScoreWins(scores, bids, r, s);
    PositiveFactor(weight[r], field[r]);
    SourceMeaning(demand, weight, dir, |weight|, r);
  }

  /** Paying one from a demand vector without negative entries keeps it so iff there was demand. */
  lemma SpendKeepsNonNegative(demand: seq<int>, src: nat)
    requires src < |demand| && forall s :: 0 <= s < |demand| ==> demand[s] >= 0
    requires Sum(demand) > 0 ==> demand[src] > 0
    ensures var after := demand[src := demand[src] - 1];
      && Sum(after) == Sum(demand) - 1
      && ((forall s :: 0 <= s < |demand| ==> after[s] >= 0) <==> Sum(demand) > 0)
  {
    SumUpdate(demand, src, demand[src] - 1);
    if Sum(demand) <= 0 {
      SumAtLeastEntry(demand, src);
      assert demand[src := demand[src] - 1][src] < 0;
    }
  }

  // ----- A whole round

  /** The bid that wins each state; junk stands for the stray read when no cpu can win it. */
  function WinningBids(states: nat, delta: int, dir: int, layout: seq<int>, procs: seq<int>, junk: seq<int>): (b: seq<int>)
    requires |procs| == |junk| == states
    ensures |b| == states
  {
    seq(states, j requires 0 <= j < states =>
      if 0 <= procs[j] < |layout| then Bid(states, delta, dir, layout[procs[j]], j) else junk[j])
  }

  /** procs, winner and src are what a round computes from layout, selected cpus and demand. */
  ghost predicate Auctioned(states: nat, delta: int, dir: int, layout: seq<int>, selected: seq<int>, demand: seq<int>,
                            junk: seq<int>, procs: seq<int>, winner: int, src: int)
    requires |selected| == |layout| && |demand| == |junk| == |procs| == states
  {
    var weight := Weights(states, delta, dir, layout);
    && (forall j :: 0 <= j < states ==> IsWinningProc(Bids(states, delta, dir, layout, j), selected, procs[j]))
    && IsWinningState(Scores(weight, Share(demand, weight, dir, states)),
                      WinningBids(states, delta, dir, layout, procs, junk), winner)
    && (0 <= winner < states ==> src == Source(demand, weight, dir, states, winner))
  }

  /** The winning cpu was not selected before and can afford the winning state. */
  lemma WinnerIsAffordable(states: nat, delta: nat, dir: int, layout: seq<int>, selected: seq<int>, demand: seq<int>,
                           junk: seq<int>, procs: seq<int>, winner: nat, src: int)
    requires |selected| == |layout| && |demand| == |junk| == |procs| == states && IsDirection(dir)
    requires forall i :: 0 <= i < |layout| ==> 0 <= layout[i] < states && (selected[i] == 0 || selected[i] == 1)
    requires Auctioned(states, delta, dir, layout, selected, demand, junk, procs, winner, src)
    requires winner < states && procs[winner] != -1
    ensures 0 <= procs[winner] < |layout| && selected[procs[winner]] == 1
    ensures Abs(winner - layout[procs[winner]]) <= delta
    ensures 0 <= src < states
  {
    WinningProcIsAffordable(states, delta, dir, layout, selected, winner, procs[winner]);
    SourceMeaning(demand, Weights(states, delta, dir, layout), dir, states, winner);
  }

  lemma WinningProcIsAffordable(states: nat, delta: nat, dir: int, layout: seq<int>, selected: seq<int>, j: nat, p: int)
    requires |selected| == |layout| && IsDirection(dir) && j < states && p != -1
    requires forall i :: 0 <= i < |layout| ==> 0 <= layout[i] < states && (selected[i] == 0 || selected[i] == 1)
    requires IsWinningProc(Bids(states, delta, dir, layout, j), selected, p)
    ensures 0 <= p < |layout| && selected[p] == 1 && Abs(j - layout[p]) <= delta
  {
    MarkedFactor(selected[p], Bids(states, delta, dir, layout, j)[p]);
    BidMeaning(states, delta, dir, layout[p], j);
  }

  lemma MarkedFactor(mark: int, bid: int)
    requires (mark == 0 || mark == 1) && mark * bid > 0
    ensures mark == 1 && bid > 0
  {
  }

  /** While there is demand a round has a winner with the highest, positive score, paid by real demand. */
  lemma RoundSpendsDemand(states: nat, delta: nat, dir: int, layout: seq<int>, selected: seq<int>, demand: seq<int>,
                          junk: seq<int>, procs: seq<int>, winner: int, src: int)
    requires |selected| == |layout| && |demand| == |junk| == |procs| == states && IsDirection(dir)
    requires layout != [] && forall i :: 0 <= i < |layout| ==> 0 <= layout[i] < states
    requires Auctioned(states, delta, dir, layout, selected, demand, junk, procs, winner, src)
    requires Sum(demand) > 0 && forall s :: 0 <= s < states ==> demand[s] >= 0
    ensures var weight := Weights(states, delta, dir, layout);
      var field := Share(demand, weight, dir, states);
      && 0 <= winner < states && weight[winner] * field[winner] > 0
      && forall s :: 0 <= s < states ==> weight[s] * field[s] <= weight[winner] * field[winner]
    ensures 0 <= src < states && demand[src] > 0
  {
    var weight := Weights(states, delta, dir, layout);
    forall s | 0 <= s < states
      ensures weight[s] >= 0
    {
      WeightMeaning(states, delta, dir, layout, s);
    }
    WeightMeaning(states, delta, dir, layout, layout[0]);
    assert CanWin(layout, delta, layout[0]) by {
      assert Abs(layout[0] - layout[0]) <= delta;
    }
    WinnerSpendsDemand(demand, weight, dir, WinningBids(states, delta, dir, layout, procs, junk), winner, layout[0]);
  }
}
