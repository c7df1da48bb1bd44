/**
 Demand of states no cpu can reach within delta, credited to reachable neighbours. The
 method that computes it is DynMutator.Mutator.DeltaBasedDemandTransform.
 */
module DemandTransform {
  import opened Common

  /** Some cpu can move to state j by a change of at most delta. */
  predicate CanWin(curs: seq<int>, delta: int, j: int) {
    exists i :: 0 <= i < |curs| && Abs(curs[i] - j) <= delta
  }

  function Reach(curs: seq<int>, delta: int, states: nat): seq<bool> {
    seq(states, j => CanWin(curs, delta, j))
  }

  /** Some state can be reached exactly when the budget is not negative: every cpu can stay where it is. */
  lemma SomeReachable(curs: seq<int>, delta: int, states: nat)
    requires curs != [] && forall i :: 0 <= i < |curs| ==> 0 <= curs[i] < states
    ensures true in Reach(curs, delta, states) <==> delta >= 0
  {
    if delta >= 0 {
      assert Abs(curs[0] - curs[0]) <= delta;
      assert Reach(curs, delta, states)[curs[0]];
    }
  }

  /** Closest reachable state at or below j, -1 when there is none. */
  function LeftOf(can: seq<bool>, j: int): (l: int)
    requires -1 <= j < |can|
    ensures -1 <= l <= j && (l >= 0 ==> can[l]) && forall i :: l < i <= j ==> !can[i]
    decreases j + 1
  {
    if j < 0 || can[j] then j else LeftOf(can, j - 1)
  }

  /** Closest reachable state at or above j, -1 when there is none. */
  function RightOf(can: seq<bool>, j: nat): (r: int)
    requires j <= |can|
    ensures r == -1 || (j <= r < |can| && can[r])
    ensures forall i :: j <= i < (if r == -1 then |can| else r) ==> !can[i]
    decreases |can| - j
  {
    if j == |can| then -1 else if can[j] then j else RightOf(can, j + 1)
  }

  /** The state that inherits the demand of j: the nearer neighbour, ties to the larger demand. */
  function Friend(demand: seq<int>, can: seq<bool>, j: nat): int
    requires j < |can| == |demand|
  {
    var left, right := LeftOf(can, j), RightOf(can, j);
    if left == -1 then right
    else if right == -1 then left
    else if Abs(left - j) == Abs(right - j) then
      if demand[left] > demand[right] then left else right
    else if Abs(left - j) < Abs(right - j) then left else right
  }

  /** Demands after the first k states were looked at. */
  function Transform(demand: seq<int>, can: seq<bool>, k: nat): (d: seq<int>)
    requires k <= |can| == |demand| && true in can
    ensures |d| == |demand|
  {
    if k == 0 then demand else GiveToFriend(Transform(demand, can, k - 1), can, k - 1)
  }

  /** The friend is reachable, no reachable state is nearer, and the tie rule decides. */
  lemma FriendIsNearest(demand: seq<int>, can: seq<bool>, j: nat)
    requires j < |can| == |demand| && true in can
    ensures var f := Friend(demand, can, j);
      && 0 <= f < |can| && can[f]
      && forall r :: 0 <= r < |can| && can[r] ==>
        && Abs(f - j) <= Abs(r - j)
        && (Abs(f - j) == Abs(r - j) && r != f ==> demand[r] < demand[f] || (demand[r] == demand[f] && r < f))
  {
    var i :| 0 <= i < |can| && can[i];
  }

  /** f takes over from j: reachable, no reachable state nearer, of equally near ones the larger demand, then the higher. */
  ghost predicate TakesOver(demand: seq<int>, can: seq<bool>, j: nat, f: nat)
    requires j < |can| == |demand| && f < |can|
  {
    && can[f]
    && forall r :: 0 <= r < |can| && can[r] && r != f ==>
      || Abs(f - j) < Abs(r - j)
      || (Abs(f - j) == Abs(r - j) && (demand[r] < demand[f] || (demand[r] == demand[f] && r < f)))
  }

  lemma FriendTakesOver(demand: seq<int>, can: seq<bool>, j: nat)
    requires j < |can| == |demand| && true in can
    ensures 0 <= Friend(demand, can, j) < |can| && TakesOver(demand, can, j, Friend(demand, can, j))
  {
    FriendIsNearest(demand, can, j);
  }

  ghost predicate HandsOver(demand: seq<int>, can: seq<bool>, j: nat, next: seq<int>, f: int)
    requires j < |can| == |demand|
  {
    0 <= f < |can| && TakesOver(demand, can, j, f) && next == demand[f := demand[f] + demand[j]]
  }

  ghost predicate IsHandedOver(demand: seq<int>, can: seq<bool>, j: nat, next: seq<int>)
    requires j < |can| == |demand|
  {
    exists f :: HandsOver(demand, can, j, next, f)
  }

  /**
   One state of the transfer: its demand is added to the state that takes over by the demands as
   they are by then, earlier gifts included; nothing else changes.
   */
  lemma TransformGift(demand: seq<int>, can: seq<bool>, j: nat)
    requires j < |can| == |demand| && true in can
    ensures can[j] || demand[j] == 0 ==> Transform(demand, can, j + 1) == Transform(demand, can, j)
    ensures !can[j] && demand[j] != 0 ==>
      IsHandedOver(Transform(demand, can, j), can, j, Transform(demand, can, j + 1))
  {
    var d, next := Transform(demand, can, j), Transform(demand, can, j + 1);
    UnreachableKeep(demand, can, j, j);
    FriendTakesOver(d, can, j);
    assert next == GiveToFriend(d, can, j);
    if !can[j] && demand[j] != 0 {
      assert HandsOver(d, can, j, next, Friend(d, can, j));
    }
  }

  /** What is out of reach is only ever taken from, not added to, and reachable states give nothing. */
  lemma {:induction false} UnreachableKeep(demand: seq<int>, can: seq<bool>, k: nat, j: nat)
    requires k <= |can| == |demand| && true in can && j < |can|
    ensures !can[j] ==> Transform(demand, can, k)[j] == demand[j]
  {
    if k > 0 {
      UnreachableKeep(demand, can, k - 1, j);
      FriendTakesOver(Transform(demand, can, k - 1), can, k - 1);
    }
  }

  /** Demand held by the reachable states. */
  function ReachableDemand(demand: seq<int>, can: seq<bool>): int
    requires |demand| == |can|
  {
    SumWhere(can, demand)
  }

  /** Demand of the first k states that are out of reach. */
  function StrandedDemand(demand: seq<int>, can: seq<bool>, k: nat): int
    requires k <= |demand| == |can|
  {
    if k == 0 then 0
    else StrandedDemand(demand, can, k - 1) + if can[k - 1] then 0 else demand[k - 1]
  }

  lemma ReachableDemandUpdate(demand: seq<int>, can: seq<bool>, f: nat, v: int)
    requires f < |demand| == |can| && can[f]
    ensures ReachableDemand(demand[f := v], can) == ReachableDemand(demand, can) - demand[f] + v
  {
    SumUpdate(Pick(can, demand), f, v);
    assert Pick(can, demand[f := v]) == Pick(can, demand)[f := v];
  }

  /** Demands after state j was looked at, when they were d before. */
  function GiveToFriend(d: seq<int>, can: seq<bool>, j: nat): (r: seq<int>)
    requires j < |can| == |d| && true in can
    ensures |r| == |d|
  {
    if can[j] || d[j] == 0 then d
    else
      FriendIsNearest(d, can, j);
      var f := Friend(d, can, j);
      d[f := d[f] + d[j]]
  }

  lemma GiftArrives(d: seq<int>, can: seq<bool>, j: nat)
    requires j < |can| == |d| && true in can
    ensures forall i :: 0 <= i < |can| && !can[i] ==> GiveToFriend(d, can, j)[i] == d[i]
    ensures ReachableDemand(GiveToFriend(d, can, j), can) == ReachableDemand(d, can) + if can[j] then 0 else d[j]
  {
    if !can[j] && d[j] != 0 {
      FriendIsNearest(d, can, j);
      var f := Friend(d, can, j);
      ReachableDemandUpdate(d, can, f, d[f] + d[j]);
    }
  }

  lemma {:induction false} ReachableCollect(demand: seq<int>, can: seq<bool>, k: nat)
    requires k <= |can| == |demand| && true in can
    ensures ReachableDemand(Transform(demand, can, k), can)
      == ReachableDemand(demand, can) + StrandedDemand(demand, can, k)
  {
    if k > 0 {
      var j := k - 1;
      var d := Transform(demand, can, j);
      ReachableCollect(demand, can, j);
      UnreachableKeep(demand, can, j, j);
      GiftArrives(d, can, j);
      assert Transform(demand, can, k) == GiveToFriend(d, can, j);
    }
  }

  /** Nothing is lost step by step: reachable states collect exactly the stranded demand so far. */
  lemma TransformConserves(demand: seq<int>, can: seq<bool>, k: nat)
    requires k <= |can| == |demand| && true in can
    ensures var d := Transform(demand, can, k);
      && (forall j :: 0 <= j < |can| && !can[j] ==> d[j] == demand[j])
      && ReachableDemand(d, can) == ReachableDemand(demand, can) + StrandedDemand(demand, can, k)
  {
    ReachableCollect(demand, can, k);
    forall j: nat | j < |can| && !can[j]
      ensures Transform(demand, can, k)[j] == demand[j]
    {
      UnreachableKeep(demand, can, k, j);
    }
  }

  lemma {:induction false} ReachableAndStranded(demand: seq<int>, can: seq<bool>)
    requires |demand| == |can|
    ensures ReachableDemand(demand, can) + StrandedDemand(demand, can, |demand|) == Sum(demand)
  {
    if demand != [] {
      var n := |demand| - 1;
      ReachableAndStranded(demand[..n], can[..n]);
      StrandedPrefix(demand, can, n);
      assert Pick(can, demand)[..n] == Pick(can[..n], demand[..n]);
    }
  }

  lemma {:induction false} StrandedPrefix(demand: seq<int>, can: seq<bool>, k: nat)
    requires k < |demand| == |can|
    ensures StrandedDemand(demand[..|demand| - 1], can[..|can| - 1], k) == StrandedDemand(demand, can, k)
  {
    if k > 0 {
      StrandedPrefix(demand, can, k - 1);
    }
  }

  /** After the transform the reachable states hold the demand of all states. */
  lemma TransformLosesNothing(demand: seq<int>, can: seq<bool>)
    requires |can| == |demand| && true in can
    ensures ReachableDemand(Transform(demand, can, |demand|), can) == Sum(demand)
  {
    TransformConserves(demand, can, |demand|);
    ReachableAndStranded(demand, can);
  }

  /** Demands only grow. */
  lemma {:induction false} TransformGrows(demand: seq<int>, can: seq<bool>, k: nat)
    requires k <= |can| == |demand| && true in can
    requires forall j :: 0 <= j < |demand| ==> demand[j] > 0
    ensures forall j :: 0 <= j < |demand| ==> Transform(demand, can, k)[j] >= demand[j]
  {
    if k > 0 {
      TransformGrows(demand, can, k - 1);
    }
  }

  /** A state that can win is used by some layout within budget delta. */
  lemma ReachableIsUsable(curs: seq<int>, delta: int, j: int) returns (a: seq<int>)
    requires CanWin(curs, delta, j)
    ensures |a| == |curs| && Distance(a, curs) <= delta && j in a
  {
    var i :| 0 <= i < |curs| && Abs(curs[i] - j) <= delta;
    a := curs[i := j];
    DistanceSelf(curs);
    DistanceUpdate(curs, curs, i, j);
    assert a[i] == j;
  }

  /** A layout within budget delta only uses states that can win. */
  lemma WithinBudgetIsReachable(a: seq<int>, curs: seq<int>, delta: int)
    requires |a| == |curs| && Distance(a, curs) <= delta
    ensures forall k :: 0 <= k < |a| ==> CanWin(curs, delta, a[k])
  {
    forall k | 0 <= k < |a|
      ensures CanWin(curs, delta, a[k])
    {
      DistanceAtLeastGap(a, curs, k);
      assert Abs(curs[k] - a[k]) <= delta;
    }
  }
}
