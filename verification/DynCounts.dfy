/**
 The counts of cpus per state after an interval of the dynamic programming mutator (mutate_dyn.c),
 which commits counts first and lets the speed changes count again as the greedy mutator does.
 */
module DynCounts {
  import opened Common
  import opened Power
  import opened StateIndex
  import opened Interval
  import opened DynPlan
  import opened CountDrift

  // ----- Two requests for one cpu

  /** On the way through state 0 nothing is counted again, if the masks name the cpu where it goes and only there. */
  lemma ThroughZero(states: seq<StateDesc>, i: nat, at: int, to: int)
    requires 0 <= at < |states| && 0 <= to < |states|
    requires forall j :: 0 <= j < |states| ==> (i in states[j].cpumask <==> j == to)
    ensures Told(Told(states, i, at, 0), i, 0, to) == Told(states, i, at, to)
  {
    if at != 0 && to != 0 {
      var down := Told(states, i, at, 0);
      forall j | 0 <= j < |states|
        ensures Told(down, i, 0, to)[j] == Told(states, i, at, to)[j]
      {
        ThroughZeroAt(states[j].cpumask, i);
      }
    }
  }

  lemma ThroughZeroAt(mask: set<nat>, i: nat)
    ensures i in mask ==> mask - {i} + {i} == mask && mask + {i} == mask
    ensures i !in mask ==> mask + {i} - {i} == mask && mask - {i} == mask
  {
  }

  /** Both requests of a cpu together, when they work. */
  lemma ToldOnce(q: Requests, states: seq<StateDesc>, i: nat, at: int)
    requires |q.ready| == |q.marks| == |q.layout| == |q.sleepWorks| == |q.runWorks| && i < |q.ready|
    requires 0 <= at < |states| && 0 <= q.layout[i] < |states| && q.sleepWorks[i] && q.runWorks[i]
    requires forall j :: 0 <= j < |states| ==> (i in states[j].cpumask <==> q.ready[i].awake != 0 && j == q.layout[i])
    ensures ToldTwice(q, states, i, at)
      == Told(states, i, at, Applied2(at, q.marks[i], q.ready[i].awake, q.layout[i], true, true))
  {
    if q.ready[i].awake != 0 && q.marks[i] == 1 {
      ThroughZero(states, i, at, q.layout[i]);
    }
  }

  ghost predicate Succeeds(q: Requests) {
    (forall i :: 0 <= i < |q.sleepWorks| ==> q.sleepWorks[i]) && forall i :: 0 <= i < |q.runWorks| ==> q.runWorks[i]
  }

  /** Post is where the requests take the cpus when all of them work. */
  ghost predicate Reached(q: Requests, cur: seq<int>, post: seq<int>) {
    && |q.ready| == |q.marks| == |q.layout| == |q.sleepWorks| == |q.runWorks| == |cur| == |post|
    && forall i :: 0 <= i < |cur| ==> post[i] == Applied2(cur[i], q.marks[i], q.ready[i].awake, q.layout[i], true, true)
  }

  lemma ReachedMoves(q: Requests, cur: seq<int>, post: seq<int>)
    requires Reached(q, cur, post)
    ensures Moving(cur, post, Asleep(q.ready), q.layout)
  {
  }

  lemma NotYetParked(cur: seq<int>, post: seq<int>, selected: seq<int>, layout: seq<int>, j: int, i: nat)
    requires i < |cur| == |post| == |selected| == |layout|
    ensures i in MaskAt(cur, post, selected, layout, j, i) <==> selected[i] != 1 && layout[i] == j
  {
    ChosenMember(selected, layout, j, i);
  }

  /** When all requests work the index is told what it would be told without the detour over state 0. */
  lemma {:induction false} ToldAsInformed(q: Requests, cur: seq<int>, post: seq<int>, committed: seq<StateDesc>, k: nat)
    requires CanApply(q, cur, |committed|) && Reached(q, cur, post) && Succeeds(q) && InRange(post, |committed|)
    requires Describes(committed, Asleep(q.ready), q.layout, |q.layout|) && k <= |cur|
    ensures ToldAll(q, cur, committed, k) == InformAll(cur, post, committed, k)
  {
    if k > 0 {
      var i := k - 1;
      ToldAsInformed(q, cur, post, committed, i);
      var states := InformAll(cur, post, committed, i);
      ReachedMoves(q, cur, post);
      forall j | 0 <= j < |committed|
        ensures i in states[j].cpumask <==> q.ready[i].awake != 0 && j == q.layout[i]
      {
        MasksAndDrift(committed, cur, post, Asleep(q.ready), q.layout, j, i);
        NotYetParked(cur, post, Asleep(q.ready), q.layout, j, i);
      }
      ToldOnce(q, states, i, cur[i]);
    }
  }

  // ----- The condition

  /** Selected ones of the first k cpus in state j. */
  function Held(selected: seq<int>, at: seq<int>, j: int, k: nat): nat
    requires k <= |selected| == |at|
  {
    if k == 0 then 0 else Held(selected, at, j, k - 1) + if selected[k - 1] != 1 && at[k - 1] == j then 1 else 0
  }

  /** Unselected ones of the first k cpus that left state j. */
  function FellFrom(cur: seq<int>, post: seq<int>, selected: seq<int>, j: int, k: nat): nat
    requires k <= |cur| == |post| == |selected|
  {
    if k == 0 then 0
    else FellFrom(cur, post, selected, j, k - 1) + if selected[k - 1] == 1 && Leaves(cur, post, k - 1, j) then 1 else 0
  }

  /** Unselected ones of the first k cpus that moved. */
  function Fell(cur: seq<int>, post: seq<int>, selected: seq<int>, k: nat): nat
    requires k <= |cur| == |post| == |selected|
  {
    if k == 0 then 0
    else Fell(cur, post, selected, k - 1) + if selected[k - 1] == 1 && post[k - 1] != cur[k - 1] then 1 else 0
  }

  /** All selected cpus are where the layout wants them. */
  ghost predicate Arrived(post: seq<int>, selected: seq<int>, layout: seq<int>) {
    |post| == |selected| == |layout| && forall i :: 0 <= i < |post| && selected[i] != 1 ==> post[i] == layout[i]
  }

  lemma {:induction false} DriftMeaning(cur: seq<int>, post: seq<int>, selected: seq<int>, layout: seq<int>, j: int, k: nat)
    requires Moving(cur, post, selected, layout) && Arrived(post, selected, layout) && k <= |cur|
    ensures Drift(cur, post, selected, j, k)
      == Held(selected, layout, j, k) - Held(selected, cur, j, k) - FellFrom(cur, post, selected, j, k)
  {
    if k > 0 {
      DriftMeaning(cur, post, selected, layout, j, k - 1);
    }
  }

  function Drifts(cur: seq<int>, post: seq<int>, selected: seq<int>, states: nat, k: nat): (d: seq<int>)
    requires k <= |cur| == |post| == |selected|
    ensures |d| == states && forall j :: 0 <= j < states ==> d[j] == Drift(cur, post, selected, j, k)
  {
    seq(states, j requires 0 <= j < states => Drift(cur, post, selected, j, k))
  }

  /** A selected cpu that moves is one more here and one less there; an unselected one is only missed. */
  lemma DriftsStep(cur: seq<int>, post: seq<int>, selected: seq<int>, states: nat, i: nat)
    requires i < |cur| == |post| == |selected| && InRange(cur, states) && InRange(post, states)
    ensures var d, next := Drifts(cur, post, selected, states, i), Drifts(cur, post, selected, states, i + 1);
      if post[i] == cur[i] then next == d
      else if selected[i] == 1 then next == d[cur[i] := d[cur[i]] - 1]
      else next == d[cur[i] := d[cur[i]] - 1][post[i] := d[post[i]] + 1]
  {
  }

  lemma {:induction false} DriftTotal(cur: seq<int>, post: seq<int>, selected: seq<int>, states: nat, k: nat)
    requires k <= |cur| == |post| == |selected| && InRange(cur, states) && InRange(post, states)
    ensures Sum(Drifts(cur, post, selected, states, k)) == 0 - Fell(cur, post, selected, k)
  {
    if k == 0 {
      SumBounds(Drifts(cur, post, selected, states, 0), 0, 0);
    } else {
      var i := k - 1;
      DriftTotal(cur, post, selected, states, i);
      DriftsStep(cur, post, selected, states, i);
      var d := Drifts(cur, post, selected, states, i);
      SumUpdate(d, cur[i], d[cur[i]] - 1);
      SumUpdate(d[cur[i] := d[cur[i]] - 1], post[i], d[post[i]] + 1);
    }
  }

  lemma {:induction false} NobodyFell(cur: seq<int>, post: seq<int>, selected: seq<int>, k: nat)
    requires k <= |cur| == |post| == |selected|
    ensures Fell(cur, post, selected, k) == 0 <==> forall i :: 0 <= i < k && selected[i] == 1 ==> post[i] == cur[i]
    ensures Fell(cur, post, selected, k) == 0 ==> forall j :: FellFrom(cur, post, selected, j, k) == 0
  {
    if k > 0 {
      NobodyFell(cur, post, selected, k - 1);
    }
  }

  /** The same selected cpus in every state as before, and nobody else moved. */
  ghost predicate Rearranges(cur: seq<int>, post: seq<int>, selected: seq<int>, layout: seq<int>, states: nat)
    requires |cur| == |post| == |selected| == |layout|
  {
    && (forall i :: 0 <= i < |cur| && selected[i] == 1 ==> post[i] == cur[i])
    && forall j :: 0 <= j < states ==> Held(selected, layout, j, |cur|) == Held(selected, cur, j, |cur|)
  }

  lemma WithoutDriftNobodyFell(cur: seq<int>, post: seq<int>, selected: seq<int>, states: nat)
    requires |cur| == |post| == |selected| && InRange(cur, states) && InRange(post, states)
    requires NoDrift(cur, post, selected, states)
    ensures Fell(cur, post, selected, |cur|) == 0
  {
    DriftTotal(cur, post, selected, states, |cur|);
    SumBounds(Drifts(cur, post, selected, states, |cur|), 0, 0);
  }

  /** All drifts are 0 exactly when nobody fell and every state holds as many selected cpus as before. */
  lemma DriftsVanish(cur: seq<int>, post: seq<int>, selected: seq<int>, layout: seq<int>, states: nat)
    requires Moving(cur, post, selected, layout) && Arrived(post, selected, layout)
    requires InRange(cur, states) && InRange(post, states)
    ensures NoDrift(cur, post, selected, states) <==> Rearranges(cur, post, selected, layout, states)
  {
    var n := |cur|;
    NobodyFell(cur, post, selected, n);
    if NoDrift(cur, post, selected, states) {
      WithoutDriftNobodyFell(cur, post, selected, states);
    }
    if Fell(cur, post, selected, n) == 0 {
      forall j | 0 <= j < states
        ensures Drift(cur, post, selected, j, n) == 0 <==> Held(selected, layout, j, n) == Held(selected, cur, j, n)
      {
        DriftMeaning(cur, post, selected, layout, j, n);
      }
    }
  }

  /**
   A whole interval in which every speed change works: afterwards every count is the size of its
   mask exactly when no sleeping cpu left its state and the layout only rearranges the awake
   cpus, with as many of them in each state as before.
   */
  lemma CountsAgreeIffRearranged(pre: DynSnapshot, d: DynDecision, post: DynSnapshot, committed: seq<StateDesc>,
                                 states: seq<StateDesc>)
    requires DynStep(pre, d, post) && AllWork(d)
    requires |post.planned| == |d.ready| && Describes(committed, Asleep(d.ready), post.planned, |post.planned|)
    requires Retold(committed, Requests(d.ready, post.marks, post.planned, d.sleepWorks, d.runWorks), pre.s.cur, states)
    ensures |d.ready| == |pre.s.cur| == |post.planned| == |post.s.cur|
    ensures CountsRight(states) <==> Rearranges(pre.s.cur, post.s.cur, Asleep(d.ready), post.planned, |states|)
  {
    StepOutcome(pre, d, post);
    var q := Requests(d.ready, post.marks, post.planned, d.sleepWorks, d.runWorks);
    RequestsReach(q, pre.s.cur, post.s);
    RetoldCounts(q, committed, pre.s.cur, post.s.cur, states);
  }

  lemma RequestsReach(q: Requests, cur: seq<int>, post: Snapshot)
    requires ParksAndRuns(q.ready, cur, q.marks, q.layout, q.sleepWorks, q.runWorks, post) && Succeeds(q)
    ensures Reached(q, cur, post.cur)
  {
  }

  lemma RetoldCounts(q: Requests, committed: seq<StateDesc>, cur: seq<int>, post: seq<int>, states: seq<StateDesc>)
    requires Reached(q, cur, post) && Succeeds(q) && Retold(committed, q, cur, states)
    requires Describes(committed, Asleep(q.ready), q.layout, |q.layout|)
    ensures CountsRight(states) <==> Rearranges(cur, post, Asleep(q.ready), q.layout, |states|)
  {
    var asleep := Asleep(q.ready);
    ReachedMoves(q, cur, post);
    ToldAsInformed(q, cur, post, committed, |cur|);
    CountsAreDrifts(committed, cur, post, asleep, q.layout, states);
    DriftsVanish(cur, post, asleep, q.layout, |states|);
  }
}
