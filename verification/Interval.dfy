/**
 One greedy interval on values: the budget and load bookkeeping of the auction, the commit, and
 the sleep/wake step; and what holds over any sequence of intervals.
 */
module Interval {
  import opened Common
  import opened Power
  import opened StateIndex

  // ----- Auction bookkeeping

  ghost predicate IsSelection(selected: seq<int>) {
    forall i :: 0 <= i < |selected| ==> selected[i] == 0 || selected[i] == 1
  }

  /** Cpus already selected: those whose mark is 0. */
  function Chosen(selected: seq<int>): int {
    |selected| - Sum(selected)
  }

  /**
   After some rounds: spent budget plus what is left is the budget, each round selected another
   cpu, and only selected cpus were given new states.
   */
  ghost predicate Accounts(cur: seq<int>, states: nat, budget: int, layout: seq<int>, selected: seq<int>,
                           left: int, rounds: nat) {
    && |layout| == |selected| == |cur|
    && IsSelection(selected) && Chosen(selected) == rounds
    && InRange(layout, states)
    && (forall i :: 0 <= i < |cur| && selected[i] == 1 ==> layout[i] == cur[i])
    && left + Distance(layout, cur) == budget
    && (rounds > 0 ==> left >= 0)
  }

  lemma AccountsStart(cur: seq<int>, states: nat, budget: int, selected: seq<int>)
    requires InRange(cur, states) && |selected| == |cur|
    requires forall i :: 0 <= i < |selected| ==> selected[i] == 1
    ensures Accounts(cur, states, budget, cur, selected, budget, 0)
  {
    DistanceSelf(cur);
    SumBounds(selected, 1, 1);
  }

  /** A round that assigns an affordable state to an unselected cpu keeps the accounts. */
  lemma AccountsStep(cur: seq<int>, states: nat, budget: int, layout: seq<int>, selected: seq<int>, left: int,
                     rounds: nat, winner: nat, proc: nat)
    requires Accounts(cur, states, budget, layout, selected, left, rounds)
    requires proc < |cur| && selected[proc] == 1 && winner < states && Abs(winner - layout[proc]) <= left
    ensures Accounts(cur, states, budget, layout[proc := winner], selected[proc := 0],
                     left - Abs(cur[proc] - winner), rounds + 1)
  {
    SumUpdate(selected, proc, 0);
    DistanceUpdate(layout, cur, proc, winner);
  }

  /** The layout never costs more than the budget (or nothing at all). */
  lemma AccountsWithinBudget(cur: seq<int>, states: nat, budget: int, layout: seq<int>, selected: seq<int>,
                             left: int, rounds: nat)
    requires Accounts(cur, states, budget, layout, selected, left, rounds)
    ensures Distance(layout, cur) <= Max(budget, 0)
  {
    if rounds == 0 {
      forall i | 0 <= i < |cur|
        ensures selected[i] == 1
      {
        if selected[i] == 0 {
          SumUpdate(selected, i, 1);
          SumBounds(selected[i := 1], 0, 1);
        }
      }
      assert layout == cur;
      DistanceSelf(cur);
    }
  }

  // ----- Fill-in

  /** Unselected awake cpus among the first k. */
  function Fillable(selected: seq<int>, info: seq<ProcInfo>, k: nat): nat
    requires k <= |selected| == |info|
  {
    if k == 0 then 0
    else Fillable(selected, info, k - 1) + if selected[k - 1] != 0 && info[k - 1].sleepTime == 0 then 1 else 0
  }

  /** Every awake cpu is selected already or can be filled in. */
  lemma {:induction false} FillableCovers(selected: seq<int>, info: seq<ProcInfo>, k: nat)
    requires k <= |selected| == |info| && IsSelection(selected) && PowerInv(info)
    ensures Fillable(selected, info, k) + Chosen(selected[..k]) >= AwakeCount(info[..k])
  {
    if k > 0 {
      FillableCovers(selected, info, k - 1);
      SumPrefix(selected, k - 1);
      CountPrefix(info, k - 1);
      assert Consistent(info[k - 1]);
    }
  }

  /** Awake cpus among the first s were selected, nothing else changed. */
  ghost predicate FilledUpTo(before: seq<int>, info: seq<ProcInfo>, s: nat, after: seq<int>) {
    && |after| == |before| == |info|
    && forall i :: 0 <= i < |before| ==>
      after[i] == if i < s && info[i].sleepTime == 0 then 0 else before[i]
  }

  /** Awake cpus were selected in index order. */
  ghost predicate Filled(before: seq<int>, info: seq<ProcInfo>, after: seq<int>) {
    exists scanned: nat :: FilledUpTo(before, info, scanned, after)
  }

  /** Whoever is filled in was awake, and no awake cpu with a lower index is left out. */
  lemma FillingOrder(before: seq<int>, info: seq<ProcInfo>, after: seq<int>, i: nat, j: nat)
    requires IsSelection(before) && Filled(before, info, after) && i < j < |before|
    ensures |after| == |before| == |info|
    ensures after[j] != before[j] ==> after[j] == 0 && info[j].sleepTime == 0
    ensures after[j] != before[j] && info[i].sleepTime == 0 ==> after[i] == 0
  {
    var s: nat :| FilledUpTo(before, info, s, after);
  }

  // ----- Commit

  /** Cpus among the first k that are selected and placed in state j. */
  function ChosenMask(selected: seq<int>, layout: seq<int>, j: int, k: nat): set<nat>
    requires |selected| == |layout| && k <= |layout|
  {
    set i | i in Indices(k) && selected[i] != 1 && layout[i] == j
  }

  /** Masks and counts describe exactly the selected ones among the first k cpus. */
  ghost predicate Describes(states: seq<StateDesc>, selected: seq<int>, layout: seq<int>, k: nat)
    requires |selected| == |layout| && k <= |layout|
  {
    forall j :: 0 <= j < |states| ==>
      states[j].cpumask == ChosenMask(selected, layout, j, k) && states[j].cpus == |states[j].cpumask|
  }

  lemma ChosenMaskStep(selected: seq<int>, layout: seq<int>, j: int, k: nat)
    requires |selected| == |layout| && k < |layout|
    ensures ChosenMask(selected, layout, j, k + 1)
      == ChosenMask(selected, layout, j, k) + if selected[k] != 1 && layout[k] == j then {k} else {}
    ensures k !in ChosenMask(selected, layout, j, k)
  {
  }

  /** Putting the next cpu into its state, or passing over it, keeps the description. */
  lemma DescribesStep(states: seq<StateDesc>, selected: seq<int>, layout: seq<int>, k: nat)
    requires |selected| == |layout| && k < |layout| && 0 <= layout[k] < |states|
    requires Describes(states, selected, layout, k)
    ensures selected[k] == 1 ==> Describes(states, selected, layout, k + 1)
    ensures selected[k] != 1 ==> Describes(Entered(states, k, layout[k]), selected, layout, k + 1)
  {
    var after := if selected[k] != 1 then Entered(states, k, layout[k]) else states;
    forall j | 0 <= j < |states|
      ensures after[j].cpumask == ChosenMask(selected, layout, j, k + 1) && after[j].cpus == |after[j].cpumask|
    {
      ChosenMaskStep(selected, layout, j, k);
      assert after[j].cpumask == states[j].cpumask + if selected[k] != 1 && layout[k] == j then {k} else {};
    }
  }

  /** Cpus that are chosen, state by state, add up to all chosen cpus. */
  lemma {:induction false} DescribedTotal(states: seq<StateDesc>, selected: seq<int>, layout: seq<int>, k: nat)
    requires |selected| == |layout| && IsSelection(selected) && InRange(layout, |states|) && k <= |states|
    requires Describes(states, selected, layout, |layout|)
    ensures Sum(CpuCounts(states)[..k]) == |ChosenBelow(selected, layout, k)|
  {
    if k == 0 {
      assert ChosenBelow(selected, layout, 0) == {};
    } else {
      DescribedTotal(states, selected, layout, k - 1);
      SumPrefix(CpuCounts(states), k - 1);
      assert ChosenBelow(selected, layout, k) == ChosenBelow(selected, layout, k - 1) + states[k - 1].cpumask;
      assert ChosenBelow(selected, layout, k - 1) !! states[k - 1].cpumask;
    }
  }

  function ChosenBelow(selected: seq<int>, layout: seq<int>, k: int): set<nat>
    requires |selected| == |layout|
  {
    set i | i in Indices(|layout|) && selected[i] != 1 && 0 <= layout[i] < k
  }

  function ChosenSet(selected: seq<int>, k: nat): (s: set<nat>)
    requires k <= |selected|
    ensures forall i: nat :: i in s <==> i < k && selected[i] != 1
  {
    if k == 0 then {}
    else ChosenSet(selected, k - 1) + if selected[k - 1] != 1 then {k - 1} else {}
  }

  lemma ChosenPrefix(selected: seq<int>, k: nat)
    requires k < |selected| && IsSelection(selected)
    ensures Chosen(selected[..k + 1]) == Chosen(selected[..k]) + if selected[k] != 1 then 1 else 0
  {
    SumPrefix(selected, k);
  }

  lemma ChosenSetStep(selected: seq<int>, k: nat)
    requires k < |selected|
    ensures |ChosenSet(selected, k + 1)| == |ChosenSet(selected, k)| + if selected[k] != 1 then 1 else 0
  {
    assert k !in ChosenSet(selected, k);
  }

  lemma {:induction false} ChosenSetSize(selected: seq<int>, k: nat)
    requires k <= |selected| && IsSelection(selected)
    ensures |ChosenSet(selected, k)| == Chosen(selected[..k])
  {
    if k == 0 {
      assert selected[..0] == [];
    } else {
      var j := k - 1;
      ChosenSetSize(selected, j);
      ChosenPrefix(selected, j);
      ChosenSetStep(selected, j);
      assert selected[..k] == selected[..j + 1];
    }
  }

  /** The committed counts add up to the number of selected cpus. */
  lemma CommittedTotal(states: seq<StateDesc>, selected: seq<int>, layout: seq<int>)
    requires |selected| == |layout| && IsSelection(selected) && InRange(layout, |states|)
    requires Describes(states, selected, layout, |layout|)
    ensures TotalCpus(states) == Chosen(selected)
  {
    DescribedTotal(states, selected, layout, |states|);
    ChosenSetSize(selected, |selected|);
    assert CpuCounts(states)[..|states|] == CpuCounts(states) && selected[..|selected|] == selected;
    assert ChosenBelow(selected, layout, |states|) == ChosenSet(selected, |selected|);
  }

  /**
   The commit counts a selected cpu in its new state already, so the speed change that follows
   counts it twice there and takes one too many from the state it leaves; the masks stay right.
   */
  lemma CommittedMoveCountsTwice(states: seq<StateDesc>, selected: seq<int>, layout: seq<int>, cur: seq<int>, i: nat)
    requires |selected| == |layout| == |cur| && i < |cur| && InRange(cur, |states|) && InRange(layout, |states|)
    requires Describes(states, selected, layout, |layout|)
    requires selected[i] != 1 && layout[i] != cur[i]
    ensures var after := Informed(cur, states, i, layout[i]);
      && (forall j :: 0 <= j < |states| ==> after[j].cpumask == ChosenMask(selected, layout, j, |layout|))
      && after[layout[i]].cpus == |after[layout[i]].cpumask| + 1
      && after[cur[i]].cpus == |after[cur[i]].cpumask| - 1
  {
    var after := Informed(cur, states, i, layout[i]);
    assert i in ChosenMask(selected, layout, layout[i], |layout|);
    assert i !in ChosenMask(selected, layout, cur[i], |layout|);
    forall j | 0 <= j < |states|
      ensures after[j].cpumask == states[j].cpumask
    {
      if j == layout[i] {
        assert after[j].cpumask == states[j].cpumask + {i};
      } else if j == cur[i] {
        assert after[j].cpumask == states[j].cpumask - {i};
      }
    }
  }

  // ----- Sleep and wake

  /** The 32-bit sleep counter after one more interval. */
  function NextSleep(t: nat): nat {
    (t + 1) % (UINT_MAX + 1)
  }

  /** What the end of an interval does to one cpu. */
  function Settle(p: ProcInfo, selected: int): ProcInfo {
    if selected == 0 then p.(sleepTime := 0, awake := 1)
    else if p.awake == 0 then p.(sleepTime := NextSleep(p.sleepTime))
    else p.(awake := 0, sleepTime := 1)
  }

  function SettleAll(info: seq<ProcInfo>, selected: seq<int>): (r: seq<ProcInfo>)
    requires |info| == |selected|
    ensures |r| == |info| && forall i :: 0 <= i < |r| ==> r[i] == Settle(info[i], selected[i])
  {
    seq(|info|, i requires 0 <= i < |info| => Settle(info[i], selected[i]))
  }

  /** State of one cpu after the interval asked for its speed change. */
  function Applied(at: int, target: int, selected: int, awake: nat, works: bool): int {
    if selected == 0 then if works then target else at
    else if awake == 0 then at
    else if works then 0 else at
  }

  function SettledCur(info: seq<ProcInfo>, cur: seq<int>, selected: seq<int>, layout: seq<int>,
                      works: seq<bool>): (r: seq<int>)
    requires |info| == |cur| == |selected| == |layout| == |works|
    ensures |r| == |cur|
    ensures forall i :: 0 <= i < |r| ==> r[i] == Applied(cur[i], layout[i], selected[i], info[i].awake, works[i])
  {
    seq(|cur|, i requires 0 <= i < |cur| => Applied(cur[i], layout[i], selected[i], info[i].awake, works[i]))
  }

  /** States is what the speed changes from cur to post make of the committed masks and counts. */
  ghost predicate Recounts(committed: seq<StateDesc>, cur: seq<int>, post: seq<int>, states: seq<StateDesc>) {
    && |post| == |cur| && InRange(cur, |committed|) && InRange(post, |committed|)
    && states == InformAll(cur, post, committed, |cur|)
  }

  /** Settling keeps awake and sleepTime consistent exactly when no sleeper's counter wraps. */
  lemma SettleKeepsConsistent(p: ProcInfo, selected: int)
    requires Consistent(p)
    ensures Consistent(Settle(p, selected)) <==> selected == 0 || p.sleepTime < UINT_MAX
  {
    if p.sleepTime == UINT_MAX {
      assert NextSleep(p.sleepTime) == 0;
    }
  }

  /** Awake afterwards are exactly the selected cpus. */
  lemma {:induction false} SettledAwake(info: seq<ProcInfo>, selected: seq<int>)
    requires |info| == |selected| && IsSelection(selected) && PowerInv(info)
    ensures AwakeCount(SettleAll(info, selected)) == Chosen(selected)
  {
    if info != [] {
      var n := |info| - 1;
      SettledAwake(info[..n], selected[..n]);
      assert Consistent(info[n]);
      assert SettleAll(info, selected)[..n] == SettleAll(info[..n], selected[..n]);
    }
  }

  // ----- Sequences of intervals

  /** The state that survives from one interval to the next. */
  datatype Snapshot = Snapshot(info: seq<ProcInfo>, cur: seq<int>)

  /** What one interval saw and decided. */
  datatype Decision = Decision(load: nat, works: seq<bool>, woken: seq<ProcInfo>, selected: seq<int>, layout: seq<int>)

  /** Post is what settling every cpu makes of the woken cpus and their states. */
  ghost predicate Settles(woken: seq<ProcInfo>, cur: seq<int>, selected: seq<int>, layout: seq<int>, works: seq<bool>,
                          post: Snapshot) {
    && |post.info| == |post.cur| == |woken| == |cur| == |selected| == |layout| == |works|
    && post.info == SettleAll(woken, selected)
    && post.cur == SettledCur(woken, cur, selected, layout, works)
  }

  /** One greedy interval takes pre to post. */
  ghost predicate Step(pre: Snapshot, d: Decision, post: Snapshot) {
    var n := |pre.info|;
    && |pre.cur| == |d.works| == |d.woken| == |d.selected| == |d.layout| == |post.info| == |post.cur| == n
    && WokeUp(pre.info, d.load, d.woken)
    && IsSelection(d.selected) && Chosen(d.selected) == Max(1, d.load)
    && Settles(d.woken, pre.cur, d.selected, d.layout, d.works, post)
  }

  ghost predicate SleepsAtMost(info: seq<ProcInfo>, t: nat) {
    forall i :: 0 <= i < |info| ==> info[i].sleepTime <= t
  }

  /** Every sleeping cpu is in the lowest state. */
  ghost predicate Parked(s: Snapshot) {
    |s.cur| == |s.info| && forall i :: 0 <= i < |s.info| && s.info[i].awake == 0 ==> s.cur[i] == 0
  }

  /** One interval keeps the power invariant and leaves exactly max(1, load) cpus awake. */
  lemma StepKeepsPower(pre: Snapshot, d: Decision, post: Snapshot, t: nat)
    requires PowerInv(pre.info) && SleepsAtMost(pre.info, t) && t < UINT_MAX && Step(pre, d, post)
    ensures PowerInv(post.info) && SleepsAtMost(post.info, t + 1)
    ensures AwakeCount(post.info) == Max(1, d.load)
    ensures Parked(pre) && (forall i :: 0 <= i < |d.works| ==> d.works[i]) ==> Parked(post)
  {
    forall i | 0 <= i < |pre.info|
      ensures Consistent(d.woken[i]) && d.woken[i].sleepTime <= t
      ensures d.woken[i].awake == 0 ==> pre.info[i].awake == 0
      ensures Consistent(post.info[i]) && post.info[i].sleepTime <= t + 1
    {
      assert Consistent(pre.info[i]);
      SettleKeepsConsistent(d.woken[i], d.selected[i]);
    }
    SettledAwake(d.woken, d.selected);
  }

  ghost predicate IsRun(trace: seq<Snapshot>, decisions: seq<Decision>) {
    |trace| == |decisions| + 1 && forall k :: 0 <= k < |decisions| ==> Step(trace[k], decisions[k], trace[k + 1])
  }

  /**
   Over any run of intervals, as long as no sleep counter can overflow: awake is 0 or 1 and 1
   exactly when the sleep time is 0; every interval ends with max(1, load) cpus awake; and if
   every speed change works, sleeping cpus are in the lowest state.
   */
  lemma {:induction false} RunKeepsPower(trace: seq<Snapshot>, decisions: seq<Decision>, k: nat)
    requires IsRun(trace, decisions) && k <= |decisions| && k <= UINT_MAX
    requires AllAwake(trace[0].info) && |trace[0].cur| == |trace[0].info|
    ensures PowerInv(trace[k].info) && SleepsAtMost(trace[k].info, k)
    ensures k > 0 ==> AwakeCount(trace[k].info) == Max(1, decisions[k - 1].load)
    ensures (forall q, i :: 0 <= q < k && 0 <= i < |decisions[q].works| ==> decisions[q].works[i]) ==> Parked(trace[k])
  {
    if k > 0 {
      RunKeepsPower(trace, decisions, k - 1);
      StepKeepsPower(trace[k - 1], decisions[k - 1], trace[k], k - 1);
    }
  }
}
