/**
 The multiple choice knapsack behind the dynamic programming mutator. Every cpu picks one
 state; moving a cpu from its current state costs the distance moved; a state is worth its
 demand; the total cost may not exceed the budget.
 */
module Knapsack {
  import opened Common

  /** A layout gives each of the cpus whose current states are cur one of m states. */
  ghost predicate IsLayout(a: seq<int>, cur: seq<int>, m: nat) {
    |a| == |cur| && forall i :: 0 <= i < |a| ==> 0 <= a[i] < m
  }

  function Value(demand: seq<int>, a: seq<int>): int
    requires forall i :: 0 <= i < |a| ==> 0 <= a[i] < |demand|
  {
    if a == [] then 0 else Value(demand, a[..|a| - 1]) + demand[a[|a| - 1]]
  }

  lemma {:induction false} ValueConcat(demand: seq<int>, a: seq<int>, c: seq<int>)
    requires forall i :: 0 <= i < |a| ==> 0 <= a[i] < |demand|
    requires forall i :: 0 <= i < |c| ==> 0 <= c[i] < |demand|
    ensures Value(demand, a + c) == Value(demand, a) + Value(demand, c)
  {
    if c == [] {
      assert a + c == a;
    } else {
      assert (a + c)[..|a + c| - 1] == a + c[..|c| - 1];
      ValueConcat(demand, a, c[..|c| - 1]);
    }
  }

  lemma ValuePrepend(demand: seq<int>, s: nat, a: seq<int>)
    requires s < |demand| && forall i :: 0 <= i < |a| ==> 0 <= a[i] < |demand|
    ensures Value(demand, [s] + a) == demand[s] + Value(demand, a)
  {
    ValueConcat(demand, [s], a);
    assert [s][..0] == [];
  }

  /** a is a layout within budget b that no other layout within the budget beats. */
  ghost predicate IsOptimal(cur: seq<int>, demand: seq<int>, b: int, a: seq<int>) {
    && IsLayout(a, cur, |demand|)
    && Distance(a, cur) <= b
    && forall other | IsLayout(other, cur, |demand|) && Distance(other, cur) <= b ::
      Value(demand, other) <= Value(demand, a)
  }

  /** a and c agree after i, and a is lower at i. */
  ghost predicate LowerAt(a: seq<int>, c: seq<int>, i: int) {
    && 0 <= i < |a| == |c| && a[i] < c[i]
    && forall k :: i < k < |a| ==> a[k] == c[k]
  }

  /** Where a and c differ last, a is lower. */
  ghost predicate Lower(a: seq<int>, c: seq<int>) {
    exists i :: LowerAt(a, c, i)
  }

  /** a is optimal, and of all optimal layouts it is the one that is lower than every other. */
  ghost predicate IsLowestOptimal(cur: seq<int>, demand: seq<int>, b: int, a: seq<int>) {
    && IsOptimal(cur, demand, b, a)
    && forall other :: IsOptimal(cur, demand, b, other) ==> other == a || Lower(a, other)
  }

  /** Layouts within budget b whose last cpu is in a state below s are worth less than v. */
  ghost predicate WorthLessBelow(cur: seq<int>, demand: seq<int>, b: int, s: int, v: int) {
    forall a | IsLayout(a, cur, |demand|) && Distance(a, cur) <= b && a != [] && a[|a| - 1] < s ::
      Value(demand, a) < v
  }

  /** Some layout worth v that no other within budget b beats ends with state s. */
  ghost predicate AttainedWith(cur: seq<int>, demand: seq<int>, b: int, s: int, v: int) {
    exists a :: IsOptimal(cur, demand, b, a) && Value(demand, a) == v && a != [] && a[|a| - 1] == s
  }

  /** v is the largest total demand reachable within budget b. */
  ghost predicate IsOptimum(cur: seq<int>, demand: seq<int>, b: int, v: int) {
    exists a :: IsOptimal(cur, demand, b, a) && Value(demand, a) == v
  }

  ghost predicate WellPosed(cur: seq<int>, demand: seq<int>) {
    && (forall i :: 0 <= i < |cur| ==> 0 <= cur[i] < |demand|)
    && forall j :: 0 <= j < |demand| ==> demand[j] > 0
  }

  /** Best total demand of the cpus cur within budget b, by recursion on the last cpu. */
  ghost function Best(cur: seq<int>, demand: seq<int>, b: nat): int
    decreases |cur|, 0
  {
    if cur == [] then 0 else BestOver(cur, demand, b, |demand|)
  }

  /** As Best, with the last cpu restricted to the first j states; -1 when none is affordable. */
  ghost function BestOver(cur: seq<int>, demand: seq<int>, b: nat, j: nat): int
    requires cur != [] && j <= |demand|
    decreases |cur|, 0, j
  {
    if j == 0 then -1
    else
      var prev := BestOver(cur, demand, b, j - 1);
      if Affordable(cur, b, j - 1) then Max(prev, TakeState(cur, demand, b, j - 1)) else prev
  }

  ghost predicate Affordable(cur: seq<int>, b: nat, j: int)
    requires cur != []
  {
    Abs(j - cur[|cur| - 1]) <= b
  }

  /** Best total demand when the last cpu takes state j. */
  ghost function TakeState(cur: seq<int>, demand: seq<int>, b: nat, j: nat): int
    requires cur != [] && j < |demand| && Affordable(cur, b, j)
    decreases |cur|, 0, 0
  {
    Best(cur[..|cur| - 1], demand, b - Abs(j - cur[|cur| - 1])) + demand[j]
  }

  lemma {:induction false} BestOverAtLeast(cur: seq<int>, demand: seq<int>, b: nat, j: nat, s: nat)
    requires cur != [] && s < j <= |demand| && Affordable(cur, b, s)
    ensures BestOver(cur, demand, b, j) >= TakeState(cur, demand, b, s)
  {
    if s < j - 1 {
      BestOverAtLeast(cur, demand, b, j - 1, s);
    }
  }

  lemma DistanceLast(a: seq<int>, cur: seq<int>)
    requires |a| == |cur| > 0
    ensures var n := |cur| - 1;
      Distance(a, cur) == Distance(a[..n], cur[..n]) + Abs(a[n] - cur[n])
  {
    var n := |cur| - 1;
    assert a == a[..n] + [a[n]] && cur == cur[..n] + [cur[n]];
    DistanceAppend(a[..n], cur[..n], a[n], cur[n]);
  }

  /** No layout within the budget beats Best. */
  lemma {:induction false} BestIsUpperBound(cur: seq<int>, demand: seq<int>, b: nat, a: seq<int>)
    requires IsLayout(a, cur, |demand|) && Distance(a, cur) <= b
    ensures Value(demand, a) <= Best(cur, demand, b)
    decreases |cur|
  {
    if cur != [] {
      var n := |cur| - 1;
      DistanceLast(a, cur);
      BestIsUpperBound(cur[..n], demand, b - Abs(a[n] - cur[n]), a[..n]);
      BestOverAtLeast(cur, demand, b, |demand|, a[n]);
    }
  }

  /** More budget never hurts. */
  lemma {:induction false} BestMonotone(cur: seq<int>, demand: seq<int>, b: nat, c: nat)
    requires b <= c
    ensures Best(cur, demand, b) <= Best(cur, demand, c)
    decreases |cur|, 0
  {
    if cur != [] {
      BestOverMonotone(cur, demand, b, c, |demand|);
    }
  }

  lemma {:induction false} BestOverMonotone(cur: seq<int>, demand: seq<int>, b: nat, c: nat, j: nat)
    requires b <= c && cur != [] && j <= |demand|
    ensures BestOver(cur, demand, b, j) <= BestOver(cur, demand, c, j)
    decreases |cur|, 0, j
  {
    if j > 0 {
      BestOverMonotone(cur, demand, b, c, j - 1);
      if Affordable(cur, b, j - 1) {
        var w := Abs(j - 1 - cur[|cur| - 1]);
        BestMonotone(cur[..|cur| - 1], demand, b - w, c - w);
      }
    }
  }

  /** No affordable state of the last cpu below s attains v. */
  ghost predicate NoneBelow(cur: seq<int>, demand: seq<int>, b: nat, s: int, v: int)
    requires cur != [] && s <= |demand|
  {
    forall j: nat :: j < s && Affordable(cur, b, j) ==> TakeState(cur, demand, b, j) < v
  }

  /** What that means for layouts. */
  lemma NoneBelowMeaning(cur: seq<int>, demand: seq<int>, b: nat, s: int, v: int)
    requires cur != [] && s <= |demand| && NoneBelow(cur, demand, b, s, v)
    ensures WorthLessBelow(cur, demand, b, s, v)
  {
    forall a | IsLayout(a, cur, |demand|) && Distance(a, cur) <= b && a != [] && a[|a| - 1] < s
      ensures Value(demand, a) < v
    {
      LastStateBounds(cur, demand, b, a);
    }
  }

  /** A layout is worth at most what the state of its last cpu allows. */
  lemma LastStateBounds(cur: seq<int>, demand: seq<int>, b: nat, a: seq<int>)
    requires cur != [] && IsLayout(a, cur, |demand|) && Distance(a, cur) <= b
    ensures Affordable(cur, b, a[|a| - 1])
    ensures Value(demand, a) <= TakeState(cur, demand, b, a[|a| - 1])
  {
    var n := |cur| - 1;
    DistanceLast(a, cur);
    BestIsUpperBound(cur[..n], demand, b - Abs(a[n] - cur[n]), a[..n]);
  }

  /** Staying put is always affordable, so with positive demand Best is positive. */
  lemma {:induction false} BestIsPositive(cur: seq<int>, demand: seq<int>, b: nat)
    requires WellPosed(cur, demand)
    ensures cur != [] ==> Best(cur, demand, b) > 0
    ensures Best(cur, demand, b) >= 0
  {
    if cur != [] {
      var n := |cur| - 1;
      BestIsPositive(cur[..n], demand, b);
      BestOverAtLeast(cur, demand, b, |demand|, cur[n]);
    }
  }

  /** A layout that attains a state of the last cpu. */
  lemma Attain(cur: seq<int>, demand: seq<int>, b: nat, s: nat, rest: seq<int>)
    requires cur != [] && s < |demand| && Affordable(cur, b, s)
    requires Best(cur, demand, b) == TakeState(cur, demand, b, s)
    requires IsOptimal(cur[..|cur| - 1], demand, b - Abs(s - cur[|cur| - 1]), rest)
    requires Value(demand, rest) == Best(cur[..|cur| - 1], demand, b - Abs(s - cur[|cur| - 1]))
    ensures IsOptimal(cur, demand, b, rest + [s])
    ensures Value(demand, rest + [s]) == Best(cur, demand, b)
  {
    var n := |cur| - 1;
    var a := rest + [s];
    assert a[..n] == rest;
    DistanceLast(a, cur);
    forall other | IsLayout(other, cur, |demand|) && Distance(other, cur) <= b
      ensures Value(demand, other) <= Value(demand, a)
    {
      BestIsUpperBound(cur, demand, b, other);
    }
  }

  /** The state that realises BestOver. */
  lemma {:induction false} BestChoice(cur: seq<int>, demand: seq<int>, b: nat, j: nat) returns (s: nat)
    requires cur != [] && j <= |demand| && BestOver(cur, demand, b, j) > -1
    ensures s < j && Affordable(cur, b, s) && BestOver(cur, demand, b, j) == TakeState(cur, demand, b, s)
  {
    if BestOver(cur, demand, b, j) == BestOver(cur, demand, b, j - 1) {
      s := BestChoice(cur, demand, b, j - 1);
    } else {
      s := j - 1;
    }
  }

  /** Best is the optimum over all layouts within the budget. */
  lemma {:induction false} BestIsOptimum(cur: seq<int>, demand: seq<int>, b: nat) returns (a: seq<int>)
    requires WellPosed(cur, demand)
    ensures IsOptimal(cur, demand, b, a) && Value(demand, a) == Best(cur, demand, b)
    ensures IsOptimum(cur, demand, b, Best(cur, demand, b))
    decreases |cur|
  {
    if cur == [] {
      a := [];
      assert forall other | IsLayout(other, cur, |demand|) :: other == [];
      assert Distance(a, cur) == 0;
      assert IsOptimal(cur, demand, b, a);
    } else {
      BestIsPositive(cur, demand, b);
      var s := BestChoice(cur, demand, b, |demand|);
      var rest := BestIsOptimum(cur[..|cur| - 1], demand, b - Abs(s - cur[|cur| - 1]));
      Attain(cur, demand, b, s, rest);
      a := rest + [s];
    }
  }
}
