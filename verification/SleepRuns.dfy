/**
 What the sleep counters mean over runs of either mutator, and hence which cpus wake up
 (mutate_common.c, mutate_gd.c, mutate_dyn.c).
 */
module SleepRuns {
  import opened Common
  import opened Power
  import opened Interval
  import opened DynPlan

  // ----- The greedy mutator

  /** Cpu i was awake in interval q, from before or woken for it. */
  ghost predicate UpIn(decisions: seq<Decision>, q: int, i: nat) {
    0 <= q < |decisions| && i < |decisions[q].woken| && decisions[q].woken[i].awake == 1
  }

  /** Before interval k, q was the last interval in which cpu i was awake. */
  ghost predicate LastUp(decisions: seq<Decision>, k: nat, i: nat, q: int) {
    q < k && UpIn(decisions, q, i) && forall r :: q < r < k ==> !UpIn(decisions, r, i)
  }

  /** t intervals ended since cpu i was last awake, the one it was last awake in included. */
  ghost predicate AsleepFor(decisions: seq<Decision>, k: nat, i: nat, t: int) {
    exists q :: LastUp(decisions, k, i, q) && t == k - q
  }

  /** What a step does to one cpu: run on, stay asleep, or go to sleep. */
  lemma StepOfCpu(pre: Snapshot, d: Decision, post: Snapshot, i: nat)
    requires Step(pre, d, post) && PowerInv(pre.info) && i < |pre.info|
    requires pre.info[i].sleepTime < UINT_MAX
    ensures |d.woken| == |post.info| == |pre.info|
    ensures pre.info[i].awake == 1 ==> d.woken[i].awake == 1
    ensures d.woken[i].awake == 0 ==> pre.info[i].awake == 0
    ensures post.info[i].awake == 1 ==> post.info[i].sleepTime == 0
    ensures post.info[i].awake == 0 && d.woken[i].awake == 1 ==> post.info[i].sleepTime == 1
    ensures post.info[i].awake == 0 && d.woken[i].awake == 0 ==> post.info[i].sleepTime == pre.info[i].sleepTime + 1
    ensures post.info[i].awake <= 1 && d.woken[i].awake <= 1
  {
    assert Consistent(pre.info[i]);
  }

  lemma LastUpNow(decisions: seq<Decision>, k: nat, i: nat)
    requires UpIn(decisions, k, i)
    ensures AsleepFor(decisions, k + 1, i, 1)
  {
    assert LastUp(decisions, k + 1, i, k);
  }

  lemma LastUpBefore(decisions: seq<Decision>, k: nat, i: nat, t: int)
    requires AsleepFor(decisions, k, i, t) && !UpIn(decisions, k, i)
    ensures AsleepFor(decisions, k + 1, i, t + 1)
  {
    var q :| LastUp(decisions, k, i, q) && t == k - q;
    assert LastUp(decisions, k + 1, i, q);
  }

  lemma GreedyStep(trace: seq<Snapshot>, decisions: seq<Decision>, k: nat)
    requires IsRun(trace, decisions) && k < |decisions|
    ensures Step(trace[k], decisions[k], trace[k + 1])
  {
  }

  /** One more interval of a run for one cpu. */
  lemma CountsOneMore(trace: seq<Snapshot>, decisions: seq<Decision>, k: nat, i: nat)
    requires IsRun(trace, decisions) && k < |decisions| && k < UINT_MAX
    requires PowerInv(trace[k].info) && SleepsAtMost(trace[k].info, k) && i < |trace[k].info|
    requires trace[k].info[i].awake == 0 ==> AsleepFor(decisions, k, i, trace[k].info[i].sleepTime)
    ensures |trace[k + 1].info| == |trace[k].info|
    ensures trace[k + 1].info[i].awake == 1 ==> trace[k + 1].info[i].sleepTime == 0
    ensures trace[k + 1].info[i].awake == 0 ==> AsleepFor(decisions, k + 1, i, trace[k + 1].info[i].sleepTime)
  {
    GreedyStep(trace, decisions, k);
    StepOfCpu(trace[k], decisions[k], trace[k + 1], i);
    if UpIn(decisions, k, i) {
      LastUpNow(decisions, k, i);
    } else if trace[k].info[i].awake == 0 {
      LastUpBefore(decisions, k, i, trace[k].info[i].sleepTime);
    }
  }

  /**
   Over any run from all cpus awake, as long as the counters cannot wrap: the sleep time of a
   sleeping cpu is the number of intervals ended since it was last awake.
   */
  lemma {:induction false} SleepTimeCounts(trace: seq<Snapshot>, decisions: seq<Decision>, k: nat, i: nat)
    requires IsRun(trace, decisions) && k <= |decisions| && k <= UINT_MAX
    requires AllAwake(trace[0].info) && |trace[0].cur| == |trace[0].info| && i < |trace[0].info|
    ensures |trace[k].info| == |trace[0].info|
    ensures trace[k].info[i].awake == 1 ==> trace[k].info[i].sleepTime == 0
    ensures trace[k].info[i].awake == 0 ==> AsleepFor(decisions, k, i, trace[k].info[i].sleepTime)
  {
    if k > 0 {
      var j := k - 1;
      SleepTimeCounts(trace, decisions, j, i);
      RunKeepsPower(trace, decisions, j);
      CountsOneMore(trace, decisions, j, i);
    }
  }

  lemma LastUpIsUnique(decisions: seq<Decision>, k: nat, i: nat, p: int, q: int)
    requires LastUp(decisions, k, i, p) && LastUp(decisions, k, i, q)
    ensures p == q
  {
  }

  /** With counters that count, whom waking up picks is a matter of when they were last awake. */
  lemma FreshestIsLatest(before: seq<ProcInfo>, req: int, after: seq<ProcInfo>, i: nat, j: nat)
    requires PowerInv(before) && WokeUp(before, req, after) && i < |before| && j < |before|
    requires before[i].awake == 0 && after[i].awake == 1 && after[j].awake == 0
    ensures before[j].awake == 0
    ensures before[i].sleepTime < before[j].sleepTime || (before[i].sleepTime == before[j].sleepTime && i < j)
  {
    assert Consistent(before[i]) && Consistent(before[j]);
    assert Fresher(before, i, j);
  }

  /** Whoever wakes up was awake in a later interval than anyone left asleep, or in the same with a lower index. */
  lemma LatestWakes(trace: seq<Snapshot>, decisions: seq<Decision>, k: nat, i: nat, j: nat, p: int, q: int)
    requires IsRun(trace, decisions) && k < |decisions| && k <= UINT_MAX
    requires AllAwake(trace[0].info) && |trace[0].cur| == |trace[0].info| && i < |trace[0].info| && j < |trace[0].info|
    requires |trace[k].info| == |trace[0].info| && trace[k].info[i].awake == 0
    requires UpIn(decisions, k, i) && !UpIn(decisions, k, j)
    requires LastUp(decisions, k, i, p) && LastUp(decisions, k, j, q)
    ensures p > q || (p == q && i < j)
  {
    SleepTimeCounts(trace, decisions, k, i);
    SleepTimeCounts(trace, decisions, k, j);
    RunKeepsPower(trace, decisions, k);
    WakersInRun(trace, decisions, k, i, j);
    var r :| LastUp(decisions, k, i, r) && trace[k].info[i].sleepTime == k - r;
    var s :| LastUp(decisions, k, j, s) && trace[k].info[j].sleepTime == k - s;
    LastUpIsUnique(decisions, k, i, p, r);
    LastUpIsUnique(decisions, k, j, q, s);
  }

  lemma WakersInRun(trace: seq<Snapshot>, decisions: seq<Decision>, k: nat, i: nat, j: nat)
    requires IsRun(trace, decisions) && k < |decisions| && PowerInv(trace[k].info)
    requires i < |trace[k].info| && j < |trace[k].info| && trace[k].info[i].awake == 0
    requires UpIn(decisions, k, i) && !UpIn(decisions, k, j)
    ensures trace[k].info[j].awake == 0
    ensures trace[k].info[i].sleepTime < trace[k].info[j].sleepTime
      || (trace[k].info[i].sleepTime == trace[k].info[j].sleepTime && i < j)
  {
    GreedyStep(trace, decisions, k);
    var before, d := trace[k].info, decisions[k];
    assert Consistent(before[i]) && Consistent(before[j]);
    FreshestIsLatest(before, d.load, d.woken, i, j);
  }

  // ----- The dynamic programming mutator

  /** Cpu i was awake in interval q, at its start or woken for it. */
  ghost predicate DynUpIn(trace: seq<DynSnapshot>, decisions: seq<DynDecision>, q: int, i: nat) {
    && 0 <= q < |decisions| && q < |trace| && i < |trace[q].s.info| && i < |decisions[q].ready|
    && (trace[q].s.info[i].awake == 1 || decisions[q].ready[i].awake == 1)
  }

  ghost predicate DynLastUp(trace: seq<DynSnapshot>, decisions: seq<DynDecision>, k: nat, i: nat, q: int) {
    q < k && DynUpIn(trace, decisions, q, i) && forall r :: q < r < k ==> !DynUpIn(trace, decisions, r, i)
  }

  ghost predicate DynAsleepFor(trace: seq<DynSnapshot>, decisions: seq<DynDecision>, k: nat, i: nat, t: int) {
    exists q :: DynLastUp(trace, decisions, k, i, q) && t == k - q
  }

  /** What a step does to one cpu: nothing, waking, or retiring, and then one interval passes for the sleepers. */
  lemma DynStepOfCpu(pre: DynSnapshot, d: DynDecision, post: DynSnapshot, i: nat)
    requires DynStep(pre, d, post) && PowerInv(pre.s.info) && i < |pre.s.info|
    requires pre.s.info[i].sleepTime < UINT_MAX
    ensures |d.ready| == |post.s.info| == |pre.s.info|
    ensures post.s.info[i].awake == d.ready[i].awake <= 1
    ensures post.s.info[i].awake == 1 ==> post.s.info[i].sleepTime == 0
    ensures post.s.info[i].awake == 0 ==>
      post.s.info[i].sleepTime == if pre.s.info[i].awake == 1 then 2 else pre.s.info[i].sleepTime + 1
  {
    AgedOfCpu(pre, d, post, i);
    ReadyOfCpu(pre, d, post, i);
    assert Consistent(pre.s.info[i]);
    OneIntervalPasses(d.ready[i]);
  }

  lemma AgedOfCpu(pre: DynSnapshot, d: DynDecision, post: DynSnapshot, i: nat)
    requires DynStep(pre, d, post) && i < |pre.s.info|
    ensures |d.ready| == |post.s.info| == |pre.s.info| && post.s.info[i] == Age(d.ready[i])
  {
    StepOutcome(pre, d, post);
  }

  lemma OneIntervalPasses(p: ProcInfo)
    requires p.sleepTime < UINT_MAX
    ensures Age(p).awake == p.awake
    ensures Age(p).sleepTime == if p.awake == 0 then p.sleepTime + 1 else p.sleepTime
  {
  }

  lemma ReadyOfCpu(pre: DynSnapshot, d: DynDecision, post: DynSnapshot, i: nat)
    requires DynStep(pre, d, post) && PowerInv(pre.s.info) && i < |pre.s.info|
    ensures |d.ready| == |pre.s.info|
    ensures || d.ready[i] == pre.s.info[i]
            || (pre.s.info[i].awake == 0 && d.ready[i].awake == 1 && d.ready[i].sleepTime == 0)
            || (pre.s.info[i].awake == 1 && d.ready[i].awake == 0 && d.ready[i].sleepTime == 1)
  {
    var scanned: nat, demand, choices :| DynStepWith(pre, d, post, scanned, demand, choices);
    assert Consistent(pre.s.info[i]);
  }

  lemma DynLastUpNow(trace: seq<DynSnapshot>, decisions: seq<DynDecision>, k: nat, i: nat)
    requires DynUpIn(trace, decisions, k, i)
    ensures DynAsleepFor(trace, decisions, k + 1, i, 1)
  {
    assert DynLastUp(trace, decisions, k + 1, i, k);
  }

  lemma DynLastUpBefore(trace: seq<DynSnapshot>, decisions: seq<DynDecision>, k: nat, i: nat, t: int)
    requires DynAsleepFor(trace, decisions, k, i, t) && !DynUpIn(trace, decisions, k, i)
    ensures DynAsleepFor(trace, decisions, k + 1, i, t + 1)
  {
    var q :| DynLastUp(trace, decisions, k, i, q) && t == k - q;
    assert DynLastUp(trace, decisions, k + 1, i, q);
  }

  lemma DynCountsOneMore(trace: seq<DynSnapshot>, decisions: seq<DynDecision>, k: nat, i: nat)
    requires IsDynRun(trace, decisions) && k < |decisions| && k + 1 < UINT_MAX
    requires PowerInv(trace[k].s.info) && SleepsAtMost(trace[k].s.info, k + 1) && i < |trace[k].s.info|
    requires trace[k].s.info[i].awake == 0 ==> DynAsleepFor(trace, decisions, k, i, trace[k].s.info[i].sleepTime - 1)
    ensures |trace[k + 1].s.info| == |trace[k].s.info|
    ensures trace[k + 1].s.info[i].awake == 1 ==> trace[k + 1].s.info[i].sleepTime == 0
    ensures trace[k + 1].s.info[i].awake == 0 ==>
      DynAsleepFor(trace, decisions, k + 1, i, trace[k + 1].s.info[i].sleepTime - 1)
  {
    StepOf(trace, decisions, k + 1);
    DynStepOfCpu(trace[k], decisions[k], trace[k + 1], i);
    assert Consistent(trace[k].s.info[i]);
    if DynUpIn(trace, decisions, k, i) {
      DynLastUpNow(trace, decisions, k, i);
    } else {
      DynLastUpBefore(trace, decisions, k, i, trace[k].s.info[i].sleepTime - 1);
    }
  }

  /**
   The same for the dynamic programming mutator, which counts one more: the interval in which a cpu
   retires counts twice.
   */
  lemma {:induction false} DynSleepTimeCounts(trace: seq<DynSnapshot>, decisions: seq<DynDecision>, k: nat, i: nat)
    requires IsDynRun(trace, decisions) && k <= |decisions| && k < UINT_MAX
    requires AllAwake(trace[0].s.info) && |trace[0].s.cur| == |trace[0].s.info| && i < |trace[0].s.info|
    ensures |trace[k].s.info| == |trace[0].s.info|
    ensures trace[k].s.info[i].awake == 1 ==> trace[k].s.info[i].sleepTime == 0
    ensures trace[k].s.info[i].awake == 0 ==> DynAsleepFor(trace, decisions, k, i, trace[k].s.info[i].sleepTime - 1)
  {
    if k > 0 {
      var j := k - 1;
      DynSleepTimeCounts(trace, decisions, j, i);
      DynRunKeepsPower(trace, decisions, j);
      DynCountsOneMore(trace, decisions, j, i);
    }
  }

  lemma DynLastUpIsUnique(trace: seq<DynSnapshot>, decisions: seq<DynDecision>, k: nat, i: nat, p: int, q: int)
    requires DynLastUp(trace, decisions, k, i, p) && DynLastUp(trace, decisions, k, i, q)
    ensures p == q
  {
  }

  /** Whoever wakes up was awake in a later interval than anyone left asleep, or in the same with a lower index. */
  lemma DynLatestWakes(trace: seq<DynSnapshot>, decisions: seq<DynDecision>, k: nat, i: nat, j: nat, p: int, q: int)
    requires IsDynRun(trace, decisions) && k < |decisions| && k < UINT_MAX
    requires AllAwake(trace[0].s.info) && |trace[0].s.cur| == |trace[0].s.info|
    requires i < |trace[0].s.info| && j < |trace[0].s.info|
    requires |trace[k].s.info| == |trace[0].s.info| && trace[k].s.info[i].awake == 0
    requires DynUpIn(trace, decisions, k, i) && !DynUpIn(trace, decisions, k, j)
    requires DynLastUp(trace, decisions, k, i, p) && DynLastUp(trace, decisions, k, j, q)
    ensures p > q || (p == q && i < j)
  {
    DynSleepTimeCounts(trace, decisions, k, i);
    DynSleepTimeCounts(trace, decisions, k, j);
    DynRunKeepsPower(trace, decisions, k);
    DynWakersInRun(trace, decisions, k, i, j);
    var r :| DynLastUp(trace, decisions, k, i, r) && trace[k].s.info[i].sleepTime - 1 == k - r;
    var s :| DynLastUp(trace, decisions, k, j, s) && trace[k].s.info[j].sleepTime - 1 == k - s;
    DynLastUpIsUnique(trace, decisions, k, i, p, r);
    DynLastUpIsUnique(trace, decisions, k, j, q, s);
  }

  lemma DynWakersInRun(trace: seq<DynSnapshot>, decisions: seq<DynDecision>, k: nat, i: nat, j: nat)
    requires IsDynRun(trace, decisions) && k < |decisions| && PowerInv(trace[k].s.info)
    requires i < |trace[k].s.info| && j < |trace[k].s.info| && trace[k].s.info[i].awake == 0
    requires DynUpIn(trace, decisions, k, i) && !DynUpIn(trace, decisions, k, j)
    ensures trace[k].s.info[j].awake == 0
    ensures trace[k].s.info[i].sleepTime < trace[k].s.info[j].sleepTime
      || (trace[k].s.info[i].sleepTime == trace[k].s.info[j].sleepTime && i < j)
  {
    StepOf(trace, decisions, k + 1);
    DynWakers(trace[k], decisions[k], trace[k + 1], i, j);
  }

  lemma DynWakers(pre: DynSnapshot, d: DynDecision, post: DynSnapshot, i: nat, j: nat)
    requires DynStep(pre, d, post) && PowerInv(pre.s.info) && i < |pre.s.info| && j < |pre.s.info|
    requires |d.ready| == |pre.s.info| && pre.s.info[i].awake == 0 && d.ready[i].awake == 1
    requires pre.s.info[j].awake != 1 && d.ready[j].awake != 1
    ensures pre.s.info[j].awake == 0
    ensures pre.s.info[i].sleepTime < pre.s.info[j].sleepTime
      || (pre.s.info[i].sleepTime == pre.s.info[j].sleepTime && i < j)
  {
    var scanned: nat, demand, choices :| DynStepWith(pre, d, post, scanned, demand, choices);
    ReadyOfCpu(pre, d, post, j);
    assert Consistent(pre.s.info[i]) && Consistent(pre.s.info[j]);
    FreshestIsLatest(pre.s.info, Required(d.running), d.ready, i, j);
  }
}
