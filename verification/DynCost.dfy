/**
 What a layout of the dynamic programming mutator costs when the list of awake cpus is stale, and
 what an interval really changes (mutate_dyn.c, mutate_common.c).
 */
module DynCost {
  import opened Common
  import opened Knapsack
  import opened DemandTransform
  import opened DynMutator
  import opened Power
  import opened StateIndex
  import opened Interval
  import opened DynPlan

  function Awake(info: seq<ProcInfo>): (m: seq<bool>)
    ensures |m| == |info| && forall i :: 0 <= i < |m| ==> (m[i] <==> info[i].awake != 0)
  {
    seq(|info|, i requires 0 <= i < |info| => info[i].awake != 0)
  }

  /** The cpus on a list. */
  function Named(proxies: seq<int>, n: nat): (m: seq<bool>)
    ensures |m| == n && forall i :: 0 <= i < |m| ==> (m[i] <==> i in proxies)
  {
    seq(n, i requires 0 <= i < n => i in proxies)
  }

  function Both(a: seq<bool>, b: seq<bool>): (m: seq<bool>)
    requires |a| == |b|
    ensures |m| == |a| && forall i :: 0 <= i < |m| ==> (m[i] <==> a[i] && b[i])
  {
    seq(|a|, i requires 0 <= i < |a| => a[i] && b[i])
  }

  function Without(a: seq<bool>, b: seq<bool>): (m: seq<bool>)
    requires |a| == |b|
    ensures |m| == |a| && forall i :: 0 <= i < |m| ==> (m[i] <==> a[i] && !b[i])
  {
    seq(|a|, i requires 0 <= i < |a| => a[i] && !b[i])
  }

  /** What the layout costs on the awake cpus, which are the ones it is made for. */
  function AwakeCost(ready: seq<ProcInfo>, cur: seq<int>, layout: seq<int>): int
    requires |ready| == |cur| == |layout|
  {
    SumWhere(Awake(ready), Gaps(layout, cur))
  }

  /** The part of it on cpus that are on the list. */
  function NamedCost(ready: seq<ProcInfo>, proxies: seq<int>, cur: seq<int>, layout: seq<int>): int
    requires |ready| == |cur| == |layout|
  {
    SumWhere(Both(Awake(ready), Named(proxies, |cur|)), Gaps(layout, cur))
  }

  /** The part of it on cpus that are awake but not on the list, if their planned states are these. */
  function UnnamedCost(ready: seq<ProcInfo>, proxies: seq<int>, cur: seq<int>, planned: seq<int>): int
    requires |ready| == |cur| == |planned|
  {
    SumWhere(Without(Awake(ready), Named(proxies, |cur|)), Gaps(planned, cur))
  }

  lemma {:induction false} ScatterElsewhere(layout: seq<int>, proxies: seq<int>, a: seq<int>, i: nat)
    requires |proxies| == |a| && InRange(proxies, |layout|) && i < |layout| && i !in proxies
    ensures Scatter(layout, proxies, a)[i] == layout[i]
    decreases |a|
  {
    if a != [] {
      ScatterElsewhere(layout, proxies[1..], a[1..], i);
    }
  }

  lemma NamedMore(proxies: seq<int>, n: nat)
    requires proxies != [] && InRange(proxies, n)
    ensures Named(proxies, n) == Named(proxies[1..], n)[proxies[0] := true]
  {
    assert proxies == [proxies[0]] + proxies[1..];
  }

  lemma WriteOne(mask: seq<bool>, layout: seq<int>, cur: seq<int>, p: nat, v: int)
    requires |mask| == |layout| == |cur| && p < |cur|
    ensures SumWhere(mask[p := true], Gaps(layout[p := v], cur)) <= SumWhere(mask, Gaps(layout, cur)) + Abs(v - cur[p])
  {
    var picked := Pick(mask, Gaps(layout, cur));
    SumUpdate(picked, p, Abs(v - cur[p]));
    assert Pick(mask[p := true], Gaps(layout[p := v], cur)) == picked[p := Abs(v - cur[p])];
  }

  lemma CurOfRest(cur: seq<int>, proxies: seq<int>)
    requires proxies != [] && InRange(proxies, |cur|)
    ensures CurOf(cur, proxies) == [cur[proxies[0]]] + CurOf(cur, proxies[1..])
  {
  }

  /** Writing choices through a list, with repetitions or not, costs the listed cpus at most what the choices cost. */
  lemma {:induction false} ScatterCost(before: seq<int>, proxies: seq<int>, a: seq<int>, cur: seq<int>)
    requires |proxies| == |a| && |before| == |cur| && InRange(proxies, |cur|)
    ensures SumWhere(Named(proxies, |cur|), Gaps(Scatter(before, proxies, a), cur)) <= Distance(a, CurOf(cur, proxies))
    decreases |a|
  {
    if a == [] {
      SumWhereZero(Named(proxies, |cur|), Gaps(Scatter(before, proxies, a), cur));
    } else {
      var rest := Scatter(before, proxies[1..], a[1..]);
      ScatterCost(before, proxies[1..], a[1..], cur);
      WriteOne(Named(proxies[1..], |cur|), rest, cur, proxies[0], a[0]);
      NamedMore(proxies, |cur|);
      CurOfRest(cur, proxies);
      assert a == [a[0]] + a[1..];
      DistancePrepend(a[0], cur[proxies[0]], a[1..], CurOf(cur, proxies[1..]));
    }
  }

  lemma NamedWithinBudget(ready: seq<ProcInfo>, cur: seq<int>, proxies: seq<int>, choices: seq<int>, planned: seq<int>)
    requires |ready| == |cur| == |planned| && |proxies| == |choices| && InRange(proxies, |cur|)
    ensures var cost := NamedCost(ready, proxies, cur, Scatter(planned, proxies, choices));
      0 <= cost <= Distance(choices, CurOf(cur, proxies))
  {
    var gaps := Gaps(Scatter(planned, proxies, choices), cur);
    var named := Named(proxies, |cur|);
    ScatterCost(planned, proxies, choices, cur);
    SumWhereNonNegative(Both(Awake(ready), named), gaps);
    SumMonotone(Pick(Both(Awake(ready), named), gaps), Pick(named, gaps));
  }

  /**
   For any list, stale or not: the layout costs what it costs on the listed awake cpus, which the
   budget covers, and what it takes to bring the awake cpus that are not listed to the states
   that were planned for them some time before.
   */
  lemma StaleListCost(ready: seq<ProcInfo>, cur: seq<int>, hints: seq<int>, delta: nat, proxies: seq<int>,
                      demand: seq<int>, choices: seq<int>, planned: seq<int>, layout: seq<int>)
    requires PlannedLayout(cur, hints, delta, proxies, demand, choices, planned, layout) && |ready| == |cur|
    ensures |layout| == |cur| && 0 <= NamedCost(ready, proxies, cur, layout) <= delta
    ensures AwakeCost(ready, cur, layout)
      == NamedCost(ready, proxies, cur, layout) + UnnamedCost(ready, proxies, cur, planned)
  {
    var awake, named := Awake(ready), Named(proxies, |cur|);
    NamedWithinBudget(ready, cur, proxies, choices, planned);
    forall i: nat | i < |cur| && i !in proxies
      ensures layout[i] == planned[i]
    {
      ScatterElsewhere(planned, proxies, choices, i);
    }
    SumWhereSame(Without(awake, named), Gaps(layout, cur), Gaps(planned, cur));
    SumWhereUnion(Both(awake, named), Without(awake, named), awake, Gaps(layout, cur));
  }

  /** Awake cpus that are not listed stay where they are. */
  ghost predicate UnnamedStay(ready: seq<ProcInfo>, proxies: seq<int>, cur: seq<int>, planned: seq<int>)
    requires |ready| == |cur| == |planned|
  {
    forall i :: 0 <= i < |cur| && ready[i].awake != 0 && i !in proxies ==> planned[i] == cur[i]
  }

  /**
   When the budget is respected: exactly if what is left of it pays for the cpus that are not
   listed. Surely so when all of them are planned where they are, surely not when they alone cost
   more than the budget.
   */
  lemma StaleListBudget(ready: seq<ProcInfo>, cur: seq<int>, hints: seq<int>, delta: nat, proxies: seq<int>,
                        demand: seq<int>, choices: seq<int>, planned: seq<int>, layout: seq<int>)
    requires PlannedLayout(cur, hints, delta, proxies, demand, choices, planned, layout) && |ready| == |cur|
    ensures |layout| == |cur|
    ensures AwakeCost(ready, cur, layout) <= delta
      <==> UnnamedCost(ready, proxies, cur, planned) <= delta - NamedCost(ready, proxies, cur, layout)
    ensures UnnamedStay(ready, proxies, cur, planned) ==> AwakeCost(ready, cur, layout) <= delta
    ensures UnnamedCost(ready, proxies, cur, planned) > delta ==> AwakeCost(ready, cur, layout) > delta
  {
    StaleListCost(ready, cur, hints, delta, proxies, demand, choices, planned, layout);
    if UnnamedStay(ready, proxies, cur, planned) {
      SumWhereZero(Without(Awake(ready), Named(proxies, |cur|)), Gaps(planned, cur));
    }
  }

  /** The same seen from before an interval that retires nobody: who is awake then is determined by waking up. */
  lemma StaleIntervalBudget(pre: DynSnapshot, d: DynDecision, post: DynSnapshot, after: seq<ProcInfo>)
    requires DynStep(pre, d, post) && PowerInv(pre.s.info)
    requires AwakeCount(pre.s.info) <= Required(d.running) && WokeUp(pre.s.info, Required(d.running), after)
    ensures |pre.s.cur| == |pre.planned| == |post.planned| == |after| && Required(d.running) <= |pre.proxies|
    ensures var l := pre.proxies[..Required(d.running)];
      && (UnnamedStay(after, l, pre.s.cur, pre.planned) ==> AwakeCost(after, pre.s.cur, post.planned) <= d.delta)
      && (UnnamedCost(after, l, pre.s.cur, pre.planned) > d.delta ==> AwakeCost(after, pre.s.cur, post.planned) > d.delta)
  {
    var scanned: nat, demand, choices :| DynStepWith(pre, d, post, scanned, demand, choices);
    WakingIsDetermined(pre.s.info, Required(d.running), d.ready, after);
    StaleListBudget(d.ready, pre.s.cur, d.hints, d.delta, post.proxies[..Required(d.running)], demand, choices,
                    pre.planned, post.planned);
  }

  lemma CurrentListNamesAll(ready: seq<ProcInfo>, cur: seq<int>, planned: seq<int>)
    requires PowerInv(ready) && |ready| == |cur| == |planned|
    ensures UnnamedStay(ready, AwakeList(ready), cur, planned)
  {
    AwakeListMeaning(ready);
    forall i | 0 <= i < |ready| && ready[i].awake != 0
      ensures i in AwakeList(ready)
    {
      assert Consistent(ready[i]);
    }
  }

  /** With a current list the layout never costs more than the budget. */
  lemma CurrentListKeepsBudget(pre: DynSnapshot, d: DynDecision, post: DynSnapshot)
    requires DynStep(pre, d, post) && PowerInv(pre.s.info) && SleepsAtMost(pre.s.info, UINT_MAX - 1)
    requires HasCurrentList(d, post)
    ensures |d.ready| == |pre.s.cur| == |post.planned| && AwakeCost(d.ready, pre.s.cur, post.planned) <= d.delta
  {
    StepReady(pre, d, post);
    var scanned: nat, demand, choices :| DynStepWith(pre, d, post, scanned, demand, choices);
    CurrentListNamesAll(d.ready, pre.s.cur, pre.planned);
    StaleListBudget(d.ready, pre.s.cur, d.hints, d.delta, post.proxies[..Required(d.running)], demand, choices,
                    pre.planned, post.planned);
  }

  // ----- The first intervals

  /**
   While the proxies still name cpu 0 everywhere, as they do before cpus were ever retired, only
   cpu 0 gets a planned state; every other cpu keeps the planned state it had.
   */
  lemma {:induction false} StaleProxies(before: seq<int>, proxy: seq<int>, choices: seq<int>)
    requires |proxy| == |choices| >= 1 && before != []
    requires forall k :: 0 <= k < |proxy| ==> proxy[k] == 0
    ensures Scatter(before, proxy, choices) == before[0 := choices[0]]
    decreases |choices|
  {
    if |choices| > 1 {
      StaleProxies(before, proxy[1..], choices[1..]);
    } else {
      assert Scatter(before, proxy[1..], choices[1..]) == before;
    }
  }

  lemma ZerosCost(layout: seq<int>, cur: seq<int>)
    requires |layout| == |cur| && forall i :: 0 <= i < |cur| ==> cur[i] >= 0 && layout[i] == 0
    ensures Distance(layout, cur) == Sum(cur)
  {
    forall i | 0 <= i < |cur|
      ensures Gaps(layout, cur)[i] == cur[i]
    {
      assert Abs(layout[i] - cur[i]) == cur[i];
    }
    assert Gaps(layout, cur) == cur;
  }

  lemma HeadAndZeros(layout: seq<int>, cur: seq<int>)
    requires |layout| == |cur| >= 1
    requires forall i :: 1 <= i < |cur| ==> cur[i] >= 0 && layout[i] == 0
    ensures Distance(layout, cur) == Abs(layout[0] - cur[0]) + Sum(cur[1..])
  {
    assert layout == [layout[0]] + layout[1..] && cur == [cur[0]] + cur[1..];
    DistancePrepend(layout[0], cur[0], layout[1..], cur[1..]);
    ZerosCost(layout[1..], cur[1..]);
  }

  /**
   The first intervals, as long as nobody is retired: all cpus but cpu 0 are planned for state 0.
   The budget is respected exactly when it covers bringing all of them down.
   */
  lemma FirstLayoutCost(cur: seq<int>, before: seq<int>, proxy: seq<int>, choices: seq<int>, delta: int)
    requires |cur| == |before| >= 1 && |proxy| == |choices| >= 1
    requires forall i :: 0 <= i < |cur| ==> cur[i] >= 0 && before[i] == 0
    requires forall k :: 0 <= k < |proxy| ==> proxy[k] == 0
    ensures |Scatter(before, proxy, choices)| == |cur|
    ensures Distance(Scatter(before, proxy, choices), cur) <= delta
      <==> Abs(choices[0] - cur[0]) + Sum(cur[1..]) <= delta
  {
    StaleProxies(before, proxy, choices);
    HeadAndZeros(before[0 := choices[0]], cur);
  }

  /** Two cpus in state 2 of 3, both needed, budget 1: the layout moves cpu 1 down by 2. */
  lemma StaleProxiesOverspend(choices: seq<int>, demand: seq<int>)
    requires |demand| == 3 && IsOptimal(CurOf([2, 2], [0, 0]), demand, 1, choices)
    ensures Distance(Scatter([0, 0], [0, 0], choices), [2, 2]) > 1
  {
    FirstLayoutCost([2, 2], [0, 0], [0, 0], choices, 1);
    assert [2, 2][1..] == [2] && Sum([2]) == Sum([2][..0]) + 2 && [2][..0] == [];
  }

  // ----- Actual changes

  /** Sleeping cpus that are marked: the ones the interval asks to go to state 0. */
  function Retiring(ready: seq<ProcInfo>, marks: seq<int>): (m: seq<bool>)
    requires |ready| == |marks|
    ensures |m| == |ready| && forall i :: 0 <= i < |m| ==> (m[i] <==> ready[i].awake == 0 && marks[i] == 1)
  {
    seq(|ready|, i requires 0 <= i < |ready| => ready[i].awake == 0 && marks[i] == 1)
  }

  /** What they give up, which nobody pays for. */
  function RetiredCost(ready: seq<ProcInfo>, cur: seq<int>, marks: seq<int>): int
    requires |ready| == |cur| == |marks|
  {
    SumWhere(Retiring(ready, marks), cur)
  }

  /** Awake cpus whose run request works. */
  function Ran(ready: seq<ProcInfo>, runWorks: seq<bool>): (m: seq<bool>)
    requires |ready| == |runWorks|
    ensures |m| == |ready| && forall i :: 0 <= i < |m| ==> (m[i] <==> ready[i].awake != 0 && runWorks[i])
  {
    seq(|ready|, i requires 0 <= i < |ready| => ready[i].awake != 0 && runWorks[i])
  }

  /** The other cpus, as far as they are marked and their sleep request works. */
  function Slept(ready: seq<ProcInfo>, marks: seq<int>, sleepWorks: seq<bool>, runWorks: seq<bool>): (m: seq<bool>)
    requires |ready| == |marks| == |sleepWorks| == |runWorks|
    ensures |m| == |ready|
    ensures forall i :: 0 <= i < |m| ==> (m[i] <==> !(ready[i].awake != 0 && runWorks[i]) && marks[i] == 1 && sleepWorks[i])
  {
    seq(|ready|, i requires 0 <= i < |ready| =>
      !(ready[i].awake != 0 && runWorks[i]) && marks[i] == 1 && sleepWorks[i])
  }

  /** Whatever works: an interval changes the states of the cpus that run and of the ones sent to state 0. */
  lemma DynActualParts(pre: DynSnapshot, d: DynDecision, post: DynSnapshot, states: nat)
    requires DynStep(pre, d, post) && InRange(pre.s.cur, states)
    ensures |d.ready| == |pre.s.cur| == |post.planned| == |post.marks| == |post.s.cur| == |d.sleepWorks| == |d.runWorks|
    ensures Distance(post.s.cur, pre.s.cur)
      == SumWhere(Ran(d.ready, d.runWorks), Gaps(post.planned, pre.s.cur))
         + SumWhere(Slept(d.ready, post.marks, d.sleepWorks, d.runWorks), pre.s.cur)
  {
    StepOutcome(pre, d, post);
    SumAdd(Pick(Ran(d.ready, d.runWorks), Gaps(post.planned, pre.s.cur)),
           Pick(Slept(d.ready, post.marks, d.sleepWorks, d.runWorks), pre.s.cur), Gaps(post.s.cur, pre.s.cur));
  }

  /**
   If every speed change works, an interval changes exactly what its layout costs on the awake
   cpus and what the retired cpus give up, so it stays within any limit exactly when the layout
   leaves room for the latter.
   */
  lemma DynActualChange(pre: DynSnapshot, d: DynDecision, post: DynSnapshot, states: nat, limit: int)
    requires DynStep(pre, d, post) && AllWork(d) && InRange(pre.s.cur, states)
    ensures |d.ready| == |pre.s.cur| == |post.planned| == |post.marks| == |post.s.cur|
    ensures Distance(post.s.cur, pre.s.cur)
      == AwakeCost(d.ready, pre.s.cur, post.planned) + RetiredCost(d.ready, pre.s.cur, post.marks)
    ensures Distance(post.s.cur, pre.s.cur) <= limit
      <==> RetiredCost(d.ready, pre.s.cur, post.marks) <= limit - AwakeCost(d.ready, pre.s.cur, post.planned)
  {
    DynActualParts(pre, d, post, states);
    assert Ran(d.ready, d.runWorks) == Awake(d.ready);
    assert Slept(d.ready, post.marks, d.sleepWorks, d.runWorks) == Retiring(d.ready, post.marks);
  }

  /** Cpus that were awake before and are asleep now. */
  function FallenAsleep(before: seq<ProcInfo>, ready: seq<ProcInfo>): (m: seq<bool>)
    requires |before| == |ready|
    ensures |m| == |ready| && forall i :: 0 <= i < |m| ==> (m[i] <==> before[i].awake != 0 && ready[i].awake == 0)
  {
    seq(|ready|, i requires 0 <= i < |ready| => before[i].awake != 0 && ready[i].awake == 0)
  }

  /** With sleepers in state 0 before, exactly the cpus that fall asleep now give something up. */
  lemma RetiredAreFallen(pre: DynSnapshot, d: DynDecision, post: DynSnapshot)
    requires DynStep(pre, d, post) && PowerInv(pre.s.info) && SleepsAtMost(pre.s.info, UINT_MAX - 1)
    requires Parked(pre.s)
    ensures |d.ready| == |pre.s.cur| == |pre.s.info| == |post.marks|
    ensures RetiredCost(d.ready, pre.s.cur, post.marks) == SumWhere(FallenAsleep(pre.s.info, d.ready), pre.s.cur)
  {
    StepReady(pre, d, post);
    assert Pick(Retiring(d.ready, post.marks), pre.s.cur) == Pick(FallenAsleep(pre.s.info, d.ready), pre.s.cur);
  }

  /** When nobody is awake in excess nobody falls asleep, and the budget covers the actual change of a current layout. */
  lemma SteadyIntervalKeepsBudget(pre: DynSnapshot, d: DynDecision, post: DynSnapshot, states: nat)
    requires DynStep(pre, d, post) && PowerInv(pre.s.info) && SleepsAtMost(pre.s.info, UINT_MAX - 1)
    requires Parked(pre.s) && AllWork(d) && InRange(pre.s.cur, states)
    requires AwakeCount(pre.s.info) <= Required(d.running) && HasCurrentList(d, post)
    ensures |post.s.cur| == |pre.s.cur| && Distance(post.s.cur, pre.s.cur) <= d.delta
  {
    StepReady(pre, d, post);
    NobodyFallsAsleep(pre, d, post);
    RetiredAreFallen(pre, d, post);
    SumWhereZero(FallenAsleep(pre.s.info, d.ready), pre.s.cur);
    CurrentListKeepsBudget(pre, d, post);
    DynActualChange(pre, d, post, states, d.delta);
  }

  lemma NobodyFallsAsleep(pre: DynSnapshot, d: DynDecision, post: DynSnapshot)
    requires DynStep(pre, d, post) && PowerInv(pre.s.info) && AwakeCount(pre.s.info) <= Required(d.running)
    ensures |d.ready| == |pre.s.info|
    ensures forall i :: 0 <= i < |d.ready| && d.ready[i].awake == 0 ==> pre.s.info[i].awake == 0
  {
    var scanned: nat, demand, choices :| DynStepWith(pre, d, post, scanned, demand, choices);
    assert OnlyWoke(pre.s.info, d.ready);
  }

  /** With more cpus awake than needed somebody falls asleep; from states above delta that breaks the budget. */
  lemma RetiringBreaksBudget(pre: DynSnapshot, d: DynDecision, post: DynSnapshot, states: nat)
    requires DynStep(pre, d, post) && PowerInv(pre.s.info) && SleepsAtMost(pre.s.info, UINT_MAX - 1)
    requires Parked(pre.s) && AllWork(d) && InRange(pre.s.cur, states)
    requires AwakeCount(pre.s.info) > Required(d.running)
    requires forall i :: 0 <= i < |pre.s.info| && pre.s.info[i].awake == 1 ==> pre.s.cur[i] > d.delta
    ensures |post.s.cur| == |pre.s.cur| && Distance(post.s.cur, pre.s.cur) > d.delta
  {
    StepReady(pre, d, post);
    var i := SomebodyFell(pre.s.info, d.ready);
    RetiredAreFallen(pre, d, post);
    SumWhereNonNegative(FallenAsleep(pre.s.info, d.ready), pre.s.cur);
    SumWhereNonNegative(Awake(d.ready), Gaps(post.planned, pre.s.cur));
    DynActualChange(pre, d, post, states, d.delta);
  }

  lemma {:induction false} SomebodyFell(before: seq<ProcInfo>, ready: seq<ProcInfo>) returns (i: nat)
    requires PowerInv(before) && PowerInv(ready) && |ready| == |before| && AwakeCount(before) > AwakeCount(ready)
    ensures i < |before| && before[i].awake == 1 && ready[i].awake == 0
  {
    var n := |before| - 1;
    assert Consistent(before[n]) && Consistent(ready[n]);
    if before[n].awake == 1 && ready[n].awake == 0 {
      i := n;
    } else {
      i := SomebodyFell(before[..n], ready[..n]);
    }
  }

  /**
   In any run from all cpus awake in which every speed change works: from an interval that
   retires somebody on, as long as the number of cpus needed does not rise, every interval that
   retires nobody keeps its actual state change within its budget.
   */
  lemma SteadyRunKeepsBudget(trace: seq<DynSnapshot>, decisions: seq<DynDecision>, m: nat, k: nat, states: nat)
    requires IsDynRun(trace, decisions) && m < k <= |decisions| && k < UINT_MAX && NeverRises(decisions, m, k)
    requires AllAwake(trace[0].s.info) && |trace[0].s.cur| == |trace[0].s.info|
    requires forall q :: 0 <= q < k ==> AllWork(decisions[q])
    requires AwakeCount(trace[m].s.info) > Required(decisions[m].running)
    requires AwakeCount(trace[k - 1].s.info) <= Required(decisions[k - 1].running)
    requires states >= 1 && forall q :: 0 <= q < |decisions| ==> |decisions[q].hints| == states
    requires InRange(trace[0].s.cur, states) && InRange(trace[0].planned, states)
    ensures |trace[k].s.cur| == |trace[k - 1].s.cur|
    ensures Distance(trace[k].s.cur, trace[k - 1].s.cur) <= decisions[k - 1].delta
  {
    RunKeepsList(trace, decisions, m, k);
    DynRunKeepsPower(trace, decisions, k - 1);
    RunStaysInRange(trace, decisions, states, k - 1);
    SteadyInRun(trace, decisions, k, states);
  }

  lemma SteadyInRun(trace: seq<DynSnapshot>, decisions: seq<DynDecision>, k: nat, states: nat)
    requires IsDynRun(trace, decisions) && 0 < k <= |decisions|
    requires PowerInv(trace[k - 1].s.info) && SleepsAtMost(trace[k - 1].s.info, UINT_MAX - 1)
    requires Parked(trace[k - 1].s) && AllWork(decisions[k - 1]) && InRange(trace[k - 1].s.cur, states)
    requires AwakeCount(trace[k - 1].s.info) <= Required(decisions[k - 1].running)
    requires HasCurrentList(decisions[k - 1], trace[k])
    ensures |trace[k].s.cur| == |trace[k - 1].s.cur|
    ensures Distance(trace[k].s.cur, trace[k - 1].s.cur) <= decisions[k - 1].delta
  {
    StepOf(trace, decisions, k);
    SteadyIntervalKeepsBudget(trace[k - 1], decisions[k - 1], trace[k], states);
  }

  // ----- A concrete interval

  const AWAKE := ProcInfo(0, 1, 1)

  lemma OneChoice(j: int)
    requires 0 <= j < 3
    ensures Value([1, 2, 1], [j]) == [1, 2, 1][j] && Distance([j], [2]) == Abs(j - 2)
  {
    assert [j][..0] == [];
    DistanceAppend([], [], j, 2);
    assert [] + [j] == [j] && [] + [2] == [2];
    DistanceSelf([]);
  }

  lemma BestChoiceOfOne()
    ensures IsLowestOptimal([2], [1, 2, 1], 1, [1])
  {
    OneChoice(1);
    forall other | IsLayout(other, [2], 3) && Distance(other, [2]) <= 1
      ensures Value([1, 2, 1], other) <= 2
      ensures Value([1, 2, 1], other) == 2 ==> other == [1]
    {
      assert other == [other[0]];
      OneChoice(other[0]);
    }
  }

  lemma ReachOfOne()
    ensures Reach([2], 1, 3) == [false, true, true]
    ensures Transform([1, 1, 1], [false, true, true], 3) == [1, 2, 1]
  {
    assert CanWin([2], 1, 1) && CanWin([2], 1, 2) by {
      assert Abs([2][0] - 1) <= 1 && Abs([2][0] - 2) <= 1;
    }
    var can := [false, true, true];
    assert Transform([1, 1, 1], can, 0) == [1, 1, 1];
    assert Friend([1, 1, 1], can, 0) == 1;
    assert Transform([1, 1, 1], can, 1) == [1, 2, 1];
    assert Transform([1, 1, 1], can, 2) == [1, 2, 1];
  }

  lemma PlanOfOne(cur: seq<int>, l: seq<int>, planned: seq<int>, layout: seq<int>)
    requires cur == [2, 2] && l == [1] && planned == [0, 0] && layout == [0, 1]
    ensures PlannedLayout(cur, [0, 0, 0], 1, l, [1, 2, 1], [1], planned, layout)
  {
    assert CurOf(cur, l) == [2];
    assert PositiveDemands([0, 0, 0]) == [1, 1, 1];
    ReachOfOne();
    BestChoiceOfOne();
    assert Scatter(planned, l[1..], [1][1..]) == planned;
  }

  lemma RetireFirst(before: seq<ProcInfo>, ready: seq<ProcInfo>, running: seq<nat>)
    requires before == [AWAKE, AWAKE] && ready == [RETIRED, AWAKE] && running == [0, 1]
    ensures Required(running) == 1
    ensures ChoseAwake(before, running, 1, 1, ready, [0, 0], [1, 0], [0, 0], [1, 0])
  {
    TasksOfTwo(running);
    CountTwo(before);
    CountTwo(ready);
  }

  lemma TasksOfOne(running: seq<nat>)
    requires |running| == 1
    ensures TotalTasks(running) == running[0]
  {
    assert running[..0] == [];
  }

  lemma TasksOfTwo(running: seq<nat>)
    requires |running| == 2
    ensures TotalTasks(running) == running[0] + running[1]
  {
    TasksOfOne(running[..1]);
  }

  lemma CountOne(info: seq<ProcInfo>)
    requires |info| == 1
    ensures AwakeCount(info) == info[0].awake
    ensures AwakeList(info) == if info[0].awake == 1 then [0] else []
  {
    assert info[..0] == [];
  }

  lemma CountTwo(info: seq<ProcInfo>)
    requires |info| == 2
    ensures AwakeCount(info) == info[0].awake + info[1].awake
    ensures AwakeList(info) == (if info[0].awake == 1 then [0] else []) + (if info[1].awake == 1 then [1] else [])
  {
    CountOne(info[..1]);
  }

  lemma ParkFirst(ready: seq<ProcInfo>, post: Snapshot)
    requires ready == [RETIRED, AWAKE] && post == Snapshot([RETIRED.(sleepTime := 2), AWAKE], [0, 1])
    ensures ParksAndRuns(ready, [2, 2], [1, 0], [0, 1], [true, true], [true, true], post)
  {
  }

  /**
   Two awake cpus in state 2 of 3, one with a task, budget 1, every speed change works: cpu 1 moves
   down by 1, which the budget pays for, and cpu 0 retires and moves down by 2.
   */
  lemma RetiringOverspends() returns (pre: DynSnapshot, d: DynDecision, post: DynSnapshot)
    ensures DynStep(pre, d, post) && AllWork(d) && d.delta == 1 && HasCurrentList(d, post)
    ensures pre.s == Snapshot([AWAKE, AWAKE], [2, 2]) && d.running == [0, 1]
    ensures post.s.cur == [0, 1] && Distance(post.s.cur, pre.s.cur) == 3
  {
    pre := DynSnapshot(Snapshot([AWAKE, AWAKE], [2, 2]), [0, 0], [0, 0], [0, 0]);
    d := DynDecision([0, 1], [0, 0, 0], 1, [true, true], [true, true], [RETIRED, AWAKE]);
    post := DynSnapshot(Snapshot([RETIRED.(sleepTime := 2), AWAKE], [0, 1]), [1, 0], [1, 0], [0, 1]);
    RetiringStep(pre, d, post);
    ThreeDown();
  }

  lemma RetiringStep(pre: DynSnapshot, d: DynDecision, post: DynSnapshot)
    requires pre == DynSnapshot(Snapshot([AWAKE, AWAKE], [2, 2]), [0, 0], [0, 0], [0, 0])
    requires d == DynDecision([0, 1], [0, 0, 0], 1, [true, true], [true, true], [RETIRED, AWAKE])
    requires post == DynSnapshot(Snapshot([RETIRED.(sleepTime := 2), AWAKE], [0, 1]), [1, 0], [1, 0], [0, 1])
    ensures DynStep(pre, d, post) && HasCurrentList(d, post)
  {
    RetireFirst(pre.s.info, d.ready, d.running);
    CountTwo(d.ready);
    PlanOfOne(pre.s.cur, post.proxies[..1], pre.planned, post.planned);
    ParkFirst(d.ready, post.s);
    StepFromChoices(pre, d, post, 1, [1, 2, 1], [1]);
  }

  lemma StepFromChoices(pre: DynSnapshot, d: DynDecision, post: DynSnapshot, scanned: nat, demand: seq<int>,
                        choices: seq<int>)
    requires |pre.s.cur| == |pre.s.info| == |pre.proxies| && Required(d.running) <= |post.proxies|
    requires ChoseAwake(pre.s.info, d.running, Required(d.running), scanned, d.ready, pre.proxies, post.proxies,
                        pre.marks, post.marks)
    requires PlannedLayout(pre.s.cur, d.hints, d.delta, post.proxies[..Required(d.running)], demand, choices,
                           pre.planned, post.planned)
    requires ParksAndRuns(d.ready, pre.s.cur, post.marks, post.planned, d.sleepWorks, d.runWorks, post.s)
    ensures DynStep(pre, d, post)
  {
    assert DynStepWith(pre, d, post, scanned, demand, choices);
  }

  lemma ThreeDown()
    ensures Distance([0, 1], [2, 2]) == 3
  {
    DistanceSelf([2, 2]);
    DistanceUpdate([2, 2], [2, 2], 0, 0);
    DistanceUpdate([2, 2][0 := 0], [2, 2], 1, 1);
    assert [2, 2][0 := 0][1 := 1] == [0, 1];
  }
}
