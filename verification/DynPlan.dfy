/**
 One interval of the dynamic programming mutator on values: who is awake, what is planned for them
 and what is done about it; and what holds over any sequence of intervals (mutate_dyn.c).
 */
module DynPlan {
  import opened Common
  import opened Knapsack
  import opened DemandTransform
  import opened DynMutator
  import opened Power
  import opened StateIndex
  import opened Interval

  /** 1 for cpus that sleep, 0 for cpus that are awake: the selection this mutator commits. */
  function Asleep(info: seq<ProcInfo>): (s: seq<int>)
    ensures |s| == |info| && forall i :: 0 <= i < |s| ==> s[i] == if info[i].awake == 0 then 1 else 0
  {
    seq(|info|, i requires 0 <= i < |info| => if info[i].awake == 0 then 1 else 0)
  }

  /** Demands the knapsack works with: one more than the hints. */
  function PositiveDemands(hints: seq<int>): (d: seq<int>)
    ensures |d| == |hints| && forall j :: 0 <= j < |d| ==> d[j] == hints[j] + 1
  {
    seq(|hints|, j requires 0 <= j < |hints| => hints[j] + 1)
  }

  /** State of a cpu after the sleep request and the run request of one interval. */
  function Applied2(at: int, mark: int, awake: nat, target: int, sleepWorks: bool, runWorks: bool): int {
    if awake != 0 && runWorks then target else AfterSleep(at, mark, sleepWorks)
  }

  /** State of a cpu between the two requests. */
  function AfterSleep(at: int, mark: int, sleepWorks: bool): int {
    if mark == 1 && sleepWorks then 0 else at
  }

  /** Info after the interval: sleepers sleep one interval longer. */
  function Age(p: ProcInfo): ProcInfo {
    if p.awake == 0 then p.(sleepTime := NextSleep(p.sleepTime)) else p
  }

  /** Who is awake for the layout, what the proxies name, and who is marked for sleep. */
  ghost predicate ChoseAwake(before: seq<ProcInfo>, running: seq<nat>, req: nat, scanned: nat, ready: seq<ProcInfo>,
                             oldProxies: seq<int>, proxies: seq<int>, oldMarks: seq<int>, marks: seq<int>) {
    && |running| == |before| == |proxies| == |oldMarks| && req <= |proxies|
    && if AwakeCount(before) > req then
        && proxies[..req] == AwakeList(ready)
        && RetiredUpTo(before, running, scanned, ready)
        && MarkedUpTo(before, running, scanned, oldMarks, marks)
        && (AwakeCount(ready) == req || (AwakeCount(ready) > req && scanned == |before|))
      else proxies == oldProxies && marks == oldMarks && WokeUp(before, req, ready)
  }

  /** Post is what the sleep and run requests make of the cpus that are ready. */
  ghost predicate ParksAndRuns(ready: seq<ProcInfo>, cur: seq<int>, marks: seq<int>, layout: seq<int>,
                               sleepWorks: seq<bool>, runWorks: seq<bool>, post: Snapshot) {
    && |ready| == |cur| == |marks| == |layout| == |sleepWorks| == |runWorks| == |post.info| == |post.cur|
    && forall i :: 0 <= i < |cur| ==>
      && post.info[i] == Age(ready[i])
      && post.cur[i] == Applied2(cur[i], marks[i], ready[i].awake, layout[i], sleepWorks[i], runWorks[i])
  }

  /** The layout planned for the proxied cpus with the demands that hints give. */
  ghost predicate PlannedLayout(cur: seq<int>, hints: seq<int>, delta: nat, proxies: seq<int>, demand: seq<int>,
                                choices: seq<int>, before: seq<int>, layout: seq<int>) {
    && InRange(proxies, |cur|) && |before| == |cur| && |choices| == |proxies|
    && var can := Reach(CurOf(cur, proxies), delta, |hints|);
    && true in can && demand == Transform(PositiveDemands(hints), can, |hints|)
    && IsLowestOptimal(CurOf(cur, proxies), demand, delta, choices)
    && layout == Scatter(before, proxies, choices)
  }

  // ----- Speed changes one by one

  /** Everything the sleep and run requests of an interval depend on, but the present states. */
  datatype Requests = Requests(ready: seq<ProcInfo>, marks: seq<int>, layout: seq<int>,
    sleepWorks: seq<bool>, runWorks: seq<bool>)

  ghost predicate CanApply(q: Requests, cur: seq<int>, states: nat) {
    && |q.ready| == |q.marks| == |q.layout| == |q.sleepWorks| == |q.runWorks| == |cur|
    && 1 <= states && InRange(cur, states) && InRange(q.layout, states)
  }

  /** What the index makes of the requests of cpu i, which is in state at. */
  function ToldTwice(q: Requests, states: seq<StateDesc>, i: nat, at: int): (r: seq<StateDesc>)
    requires |q.ready| == |q.marks| == |q.layout| == |q.sleepWorks| == |q.runWorks| && i < |q.ready|
    requires 0 <= at < |states| && 0 <= q.layout[i] < |states|
    ensures |r| == |states|
  {
    var parked := AfterSleep(at, q.marks[i], q.sleepWorks[i]);
    Told(Told(states, i, at, parked), i, parked,
         Applied2(at, q.marks[i], q.ready[i].awake, q.layout[i], q.sleepWorks[i], q.runWorks[i]))
  }

  /** Masks and counts after the requests of the first k cpus. */
  ghost function ToldAll(q: Requests, cur: seq<int>, states: seq<StateDesc>, k: nat): (r: seq<StateDesc>)
    requires CanApply(q, cur, |states|) && k <= |cur|
    ensures |r| == |states|
  {
    if k == 0 then states else ToldTwice(q, ToldAll(q, cur, states, k - 1), k - 1, cur[k - 1])
  }

  /** Sleep times and states after the requests of the first k cpus. */
  ghost function AppliedPrefix(q: Requests, cur: seq<int>, states: nat, k: nat): (r: Snapshot)
    requires CanApply(q, cur, states) && k <= |cur|
    ensures |r.info| == |r.cur| == |cur| && InRange(r.cur, states)
  {
    if k == 0 then Snapshot(q.ready, cur)
    else
      var r, i := AppliedPrefix(q, cur, states, k - 1), k - 1;
      Snapshot(r.info[i := Age(r.info[i])],
               r.cur[i := Applied2(r.cur[i], q.marks[i], r.info[i].awake, q.layout[i], q.sleepWorks[i], q.runWorks[i])])
  }

  lemma {:induction false} AppliedOneByOne(q: Requests, cur: seq<int>, states: nat, k: nat)
    requires CanApply(q, cur, states) && k <= |cur|
    ensures var r := AppliedPrefix(q, cur, states, k);
      forall i :: 0 <= i < |cur| ==>
        && r.info[i] == (if i < k then Age(q.ready[i]) else q.ready[i])
        && r.cur[i] == if i < k then
          Applied2(cur[i], q.marks[i], q.ready[i].awake, q.layout[i], q.sleepWorks[i], q.runWorks[i]) else cur[i]
  {
    if k > 0 {
      AppliedOneByOne(q, cur, states, k - 1);
    }
  }

  /** One more cpu, which nothing was done to so far. */
  lemma AppliedNext(q: Requests, cur: seq<int>, committed: seq<StateDesc>, i: nat)
    requires CanApply(q, cur, |committed|) && i < |cur|
    ensures var now, next := AppliedPrefix(q, cur, |committed|, i), AppliedPrefix(q, cur, |committed|, i + 1);
      var parked := AfterSleep(now.cur[i], q.marks[i], q.sleepWorks[i]);
      var final := Applied2(now.cur[i], q.marks[i], now.info[i].awake, q.layout[i], q.sleepWorks[i], q.runWorks[i]);
      && 0 <= now.cur[i] < |committed| && 0 <= final < |committed|
      && next == Snapshot(now.info[i := Age(now.info[i])], now.cur[i := final])
      && ToldAll(q, cur, committed, i + 1)
        == Told(Told(ToldAll(q, cur, committed, i), i, now.cur[i], parked), i, parked, final)
  {
    AppliedOneByOne(q, cur, |committed|, i);
  }

  /** States is what the requests make of the committed masks and counts. */
  ghost predicate Retold(committed: seq<StateDesc>, q: Requests, cur: seq<int>, states: seq<StateDesc>) {
    CanApply(q, cur, |committed|) && states == ToldAll(q, cur, committed, |cur|)
  }

  lemma {:induction false} ToldKeepsTotals(q: Requests, cur: seq<int>, states: seq<StateDesc>, k: nat)
    requires CanApply(q, cur, |states|) && k <= |cur|
    ensures TotalCpus(ToldAll(q, cur, states, k)) == TotalCpus(states)
    ensures forall j :: 0 <= j < |states| ==> ToldAll(q, cur, states, k)[j].demand == states[j].demand
  {
    if k > 0 {
      var i := k - 1;
      ToldKeepsTotals(q, cur, states, i);
      var s := ToldAll(q, cur, states, i);
      var parked := AfterSleep(cur[i], q.marks[i], q.sleepWorks[i]);
      ToldKeepsTotal(s, i, cur[i], parked);
      ToldKeepsTotal(Told(s, i, cur[i], parked), i, parked,
                     Applied2(cur[i], q.marks[i], q.ready[i].awake, q.layout[i], q.sleepWorks[i], q.runWorks[i]));
    }
  }

  /** After the requests of all cpus. */
  lemma AppliedMeaning(q: Requests, cur: seq<int>, committed: seq<StateDesc>, post: Snapshot, states: seq<StateDesc>)
    requires CanApply(q, cur, |committed|) && post == AppliedPrefix(q, cur, |committed|, |cur|)
    requires states == ToldAll(q, cur, committed, |cur|)
    ensures ParksAndRuns(q.ready, cur, q.marks, q.layout, q.sleepWorks, q.runWorks, post)
    ensures Retold(committed, q, cur, states) && InRange(post.cur, |committed|)
    ensures TotalCpus(states) == TotalCpus(committed)
    ensures forall j :: 0 <= j < |states| ==> states[j].demand == committed[j].demand
  {
    AppliedOneByOne(q, cur, |committed|, |cur|);
    ToldKeepsTotals(q, cur, committed, |cur|);
  }

  // ----- Steps and runs

  /** What one interval leaves for the next: cpus, list of awake cpus, sleep marks and planned states. */
  datatype DynSnapshot = DynSnapshot(s: Snapshot, proxies: seq<int>, marks: seq<int>, planned: seq<int>)

  /** What one interval saw, and the sleep information it planned for. */
  datatype DynDecision = DynDecision(running: seq<nat>, hints: seq<int>, delta: nat, sleepWorks: seq<bool>,
    runWorks: seq<bool>, ready: seq<ProcInfo>)

  /** Cpus an interval needs. */
  function Required(running: seq<nat>): nat {
    Max(1, Load(running))
  }

  /** Waking, retiring and planning, with the end of the retiring scan, the demands and the choices made. */
  ghost predicate PreparesWith(pre: DynSnapshot, running: seq<nat>, hints: seq<int>, delta: nat, ready: seq<ProcInfo>,
                               proxies: seq<int>, marks: seq<int>, planned: seq<int>,
                               scanned: nat, demand: seq<int>, choices: seq<int>) {
    && ChoseAwake(pre.s.info, running, Required(running), scanned, ready, pre.proxies, proxies, pre.marks, marks)
    && PlannedLayout(pre.s.cur, hints, delta, proxies[..Required(running)], demand, choices, pre.planned, planned)
  }

  ghost predicate Prepares(pre: DynSnapshot, running: seq<nat>, hints: seq<int>, delta: nat, ready: seq<ProcInfo>,
                           proxies: seq<int>, marks: seq<int>, planned: seq<int>) {
    exists scanned: nat, demand, choices ::
      PreparesWith(pre, running, hints, delta, ready, proxies, marks, planned, scanned, demand, choices)
  }

  ghost predicate DynStepWith(pre: DynSnapshot, d: DynDecision, post: DynSnapshot,
                              scanned: nat, demand: seq<int>, choices: seq<int>) {
    && |pre.s.cur| == |pre.s.info| == |pre.proxies|
    && PreparesWith(pre, d.running, d.hints, d.delta, d.ready, post.proxies, post.marks, post.planned,
                    scanned, demand, choices)
    && ParksAndRuns(d.ready, pre.s.cur, post.marks, post.planned, d.sleepWorks, d.runWorks, post.s)
  }

  /** One interval of this mutator takes pre to post. */
  ghost predicate DynStep(pre: DynSnapshot, d: DynDecision, post: DynSnapshot) {
    exists scanned: nat, demand, choices :: DynStepWith(pre, d, post, scanned, demand, choices)
  }

  lemma StepFromParts(pre: DynSnapshot, d: DynDecision, post: DynSnapshot)
    requires |pre.s.cur| == |pre.s.info| == |pre.proxies|
    requires Prepares(pre, d.running, d.hints, d.delta, d.ready, post.proxies, post.marks, post.planned)
    requires ParksAndRuns(d.ready, pre.s.cur, post.marks, post.planned, d.sleepWorks, d.runWorks, post.s)
    ensures DynStep(pre, d, post)
  {
    var scanned: nat, demand, choices :| PreparesWith(pre, d.running, d.hints, d.delta, d.ready, post.proxies,
                                                      post.marks, post.planned, scanned, demand, choices);
    assert DynStepWith(pre, d, post, scanned, demand, choices);
  }

  ghost predicate AllWork(d: DynDecision) {
    (forall i :: 0 <= i < |d.sleepWorks| ==> d.sleepWorks[i]) && forall i :: 0 <= i < |d.runWorks| ==> d.runWorks[i]
  }

  /** With more cpus awake than needed nobody wakes up. */
  lemma NobodyToWake(before: seq<ProcInfo>, req: int, woken: seq<ProcInfo>)
    requires PowerInv(before) && WokeUp(before, req, woken)
    ensures AwakeCount(before) > req ==> woken == before
  {
    if AwakeCount(before) > req {
      assert WokeUp(before, req, before);
      WakingIsDetermined(before, req, woken, before);
    }
  }

  lemma RetiringKeepsPower(before: seq<ProcInfo>, running: seq<nat>, scanned: nat, ready: seq<ProcInfo>)
    requires PowerInv(before) && |running| == |before| && RetiredUpTo(before, running, scanned, ready)
    ensures PowerInv(ready)
  {
    forall i | 0 <= i < |before|
      ensures Consistent(ready[i])
    {
      assert Consistent(before[i]);
    }
  }

  /** Waking and retiring end with exactly the required cpus awake, with awake and sleep time consistent. */
  lemma ReadyCount(before: seq<ProcInfo>, running: seq<nat>, req: nat, scanned: nat, ready: seq<ProcInfo>,
                   oldProxies: seq<int>, proxies: seq<int>, oldMarks: seq<int>, marks: seq<int>)
    requires PowerInv(before) && SleepsAtMost(before, UINT_MAX - 1) && Load(running) <= req
    requires ChoseAwake(before, running, req, scanned, ready, oldProxies, proxies, oldMarks, marks)
    ensures PowerInv(ready) && |ready| == |before| && AwakeCount(ready) == req
  {
    if AwakeCount(before) > req {
      RetiringKeepsPower(before, running, scanned, ready);
      RetireMeetsLoad(before, running, req, scanned, ready);
    } else {
      WakingIsConsistent(before, req, ready);
      AllWakeable(before);
    }
  }

  lemma WakingIsConsistent(before: seq<ProcInfo>, req: int, after: seq<ProcInfo>)
    requires PowerInv(before) && WokeUp(before, req, after)
    ensures PowerInv(after)
  {
    forall i | 0 <= i < |before|
      ensures Consistent(after[i])
    {
      assert Consistent(before[i]);
    }
  }

  /** A cpu that is asleep after the choice was asleep before, or was marked and is parked now. */
  lemma SleeperWasMarked(before: seq<ProcInfo>, running: seq<nat>, req: nat, scanned: nat, ready: seq<ProcInfo>,
                         oldProxies: seq<int>, proxies: seq<int>, oldMarks: seq<int>, marks: seq<int>, i: nat)
    requires PowerInv(before) && |ready| == |before| && i < |before|
    requires ChoseAwake(before, running, req, scanned, ready, oldProxies, proxies, oldMarks, marks)
    ensures |marks| == |before|
    ensures ready[i].awake == 0 ==> before[i].awake == 0 || marks[i] == 1
    ensures ready[i].sleepTime <= Max(1, before[i].sleepTime)
  {
    assert Consistent(before[i]);
  }

  lemma AgeKeepsConsistent(p: ProcInfo, t: nat)
    requires Consistent(p) && p.sleepTime <= t < UINT_MAX
    ensures Consistent(Age(p)) && Age(p).sleepTime <= t + 1 && Age(p).awake == p.awake
  {
  }

  lemma {:induction false} AgeKeepsCount(ready: seq<ProcInfo>, after: seq<ProcInfo>)
    requires |after| == |ready| && forall i :: 0 <= i < |ready| ==> after[i] == Age(ready[i])
    ensures AwakeCount(after) == AwakeCount(ready)
  {
    if ready != [] {
      AgeKeepsCount(ready[..|ready| - 1], after[..|after| - 1]);
    }
  }

  /** The sleep information an interval plans for. */
  lemma StepReady(pre: DynSnapshot, d: DynDecision, post: DynSnapshot)
    requires PowerInv(pre.s.info) && SleepsAtMost(pre.s.info, UINT_MAX - 1) && DynStep(pre, d, post)
    ensures |d.ready| == |pre.s.info| == |post.marks|
    ensures PowerInv(d.ready) && AwakeCount(d.ready) == Required(d.running)
    ensures forall i :: 0 <= i < |d.ready| ==>
      && d.ready[i].sleepTime <= Max(1, pre.s.info[i].sleepTime)
      && (d.ready[i].awake == 0 ==> pre.s.info[i].awake == 0 || post.marks[i] == 1)
  {
    var req := Required(d.running);
    var scanned: nat, demand, choices :| DynStepWith(pre, d, post, scanned, demand, choices);
    ReadyCount(pre.s.info, d.running, req, scanned, d.ready, pre.proxies, post.proxies, pre.marks, post.marks);
    forall i | 0 <= i < |d.ready|
      ensures d.ready[i].sleepTime <= Max(1, pre.s.info[i].sleepTime)
      ensures d.ready[i].awake == 0 ==> pre.s.info[i].awake == 0 || post.marks[i] == 1
    {
      SleeperWasMarked(pre.s.info, d.running, req, scanned, d.ready, pre.proxies, post.proxies, pre.marks, post.marks, i);
    }
  }

  lemma StepOutcome(pre: DynSnapshot, d: DynDecision, post: DynSnapshot)
    requires DynStep(pre, d, post)
    ensures |pre.s.info| == |pre.s.cur|
    ensures ParksAndRuns(d.ready, pre.s.cur, post.marks, post.planned, d.sleepWorks, d.runWorks, post.s)
  {
    var scanned: nat, demand, choices :| DynStepWith(pre, d, post, scanned, demand, choices);
  }

  lemma AgingKeepsPower(ready: seq<ProcInfo>, after: seq<ProcInfo>, t: nat)
    requires PowerInv(ready) && SleepsAtMost(ready, t) && t < UINT_MAX
    requires |after| == |ready| && forall i :: 0 <= i < |ready| ==> after[i] == Age(ready[i])
    ensures PowerInv(after) && SleepsAtMost(after, t + 1) && AwakeCount(after) == AwakeCount(ready)
  {
    forall i | 0 <= i < |ready|
      ensures Consistent(after[i]) && after[i].sleepTime <= t + 1
    {
      AgeKeepsConsistent(ready[i], t);
    }
    AgeKeepsCount(ready, after);
  }

  lemma ParkingKeepsParked(pre: DynSnapshot, d: DynDecision, post: DynSnapshot)
    requires PowerInv(pre.s.info) && SleepsAtMost(pre.s.info, UINT_MAX - 1) && DynStep(pre, d, post)
    requires Parked(pre.s) && AllWork(d)
    ensures Parked(post.s)
  {
    StepReady(pre, d, post);
    StepOutcome(pre, d, post);
  }

  /** One interval of this mutator keeps the power invariant as the greedy one does. */
  lemma DynStepKeepsPower(pre: DynSnapshot, d: DynDecision, post: DynSnapshot, t: nat)
    requires PowerInv(pre.s.info) && SleepsAtMost(pre.s.info, t) && 1 <= t < UINT_MAX
    requires DynStep(pre, d, post)
    ensures PowerInv(d.ready) && AwakeCount(d.ready) == Required(d.running)
    ensures PowerInv(post.s.info) && SleepsAtMost(post.s.info, t + 1)
    ensures AwakeCount(post.s.info) == Required(d.running)
    ensures Parked(pre.s) && AllWork(d) ==> Parked(post.s)
  {
    StepReady(pre, d, post);
    StepOutcome(pre, d, post);
    AgingKeepsPower(d.ready, post.s.info, t);
    if Parked(pre.s) && AllWork(d) {
      ParkingKeepsParked(pre, d, post);
    }
  }

  ghost predicate StepAt(trace: seq<DynSnapshot>, decisions: seq<DynDecision>, k: nat)
    requires k + 1 < |trace| && k < |decisions|
  {
    DynStep(trace[k], decisions[k], trace[k + 1])
  }

  ghost predicate IsDynRun(trace: seq<DynSnapshot>, decisions: seq<DynDecision>) {
    |trace| == |decisions| + 1 && forall k :: 0 <= k < |decisions| ==> StepAt(trace, decisions, k)
  }

  lemma StepOf(trace: seq<DynSnapshot>, decisions: seq<DynDecision>, k: nat)
    requires IsDynRun(trace, decisions) && 0 < k <= |decisions|
    ensures DynStep(trace[k - 1], decisions[k - 1], trace[k])
  {
    assert StepAt(trace, decisions, k - 1);
  }

  lemma PowerInRun(trace: seq<DynSnapshot>, decisions: seq<DynDecision>, k: nat)
    requires IsDynRun(trace, decisions) && 0 < k <= |decisions| && k < UINT_MAX
    requires PowerInv(trace[k - 1].s.info) && SleepsAtMost(trace[k - 1].s.info, k)
    ensures PowerInv(trace[k].s.info) && SleepsAtMost(trace[k].s.info, k + 1)
    ensures AwakeCount(trace[k].s.info) == Required(decisions[k - 1].running)
    ensures Parked(trace[k - 1].s) && AllWork(decisions[k - 1]) ==> Parked(trace[k].s)
  {
    StepOf(trace, decisions, k);
    DynStepKeepsPower(trace[k - 1], decisions[k - 1], trace[k], k);
  }

  /**
   Over any run from all cpus awake, as long as no sleep counter can overflow: awake and sleep
   time agree, every interval ends with max(1, load) cpus awake, and if every speed change works
   sleeping cpus are in state 0, although proxies and marks may be stale.
   */
  lemma {:induction false} DynRunKeepsPower(trace: seq<DynSnapshot>, decisions: seq<DynDecision>, k: nat)
    requires IsDynRun(trace, decisions) && k <= |decisions| && k < UINT_MAX
    requires AllAwake(trace[0].s.info) && |trace[0].s.cur| == |trace[0].s.info|
    ensures PowerInv(trace[k].s.info) && SleepsAtMost(trace[k].s.info, k + 1)
    ensures k > 0 ==> AwakeCount(trace[k].s.info) == Required(decisions[k - 1].running)
    ensures (forall q :: 0 <= q < k ==> AllWork(decisions[q])) ==> Parked(trace[k].s)
  {
    if k > 0 {
      DynRunKeepsPower(trace, decisions, k - 1);
      PowerInRun(trace, decisions, k);
    }
  }

  // ----- States in range

  lemma {:induction false} ScatterInRange(layout: seq<int>, proxy: seq<int>, a: seq<int>, m: nat)
    requires |proxy| == |a| && InRange(layout, m) && InRange(a, m) && InRange(proxy, |layout|)
    ensures InRange(Scatter(layout, proxy, a), m)
    decreases |a|
  {
    if a != [] {
      ScatterInRange(layout, proxy[1..], a[1..], m);
    }
  }

  lemma StepStaysInRange(pre: DynSnapshot, d: DynDecision, post: DynSnapshot)
    requires DynStep(pre, d, post) && InRange(pre.s.cur, |d.hints|) && InRange(pre.planned, |d.hints|) && |d.hints| >= 1
    ensures InRange(post.s.cur, |d.hints|) && InRange(post.planned, |d.hints|)
  {
    var scanned: nat, demand, choices :| DynStepWith(pre, d, post, scanned, demand, choices);
    ScatterInRange(pre.planned, post.proxies[..Required(d.running)], choices, |d.hints|);
  }

  /** Present and planned states of all cpus stay in the range of states. */
  lemma {:induction false} RunStaysInRange(trace: seq<DynSnapshot>, decisions: seq<DynDecision>, states: nat, k: nat)
    requires IsDynRun(trace, decisions) && k <= |decisions| && states >= 1
    requires forall q :: 0 <= q < |decisions| ==> |decisions[q].hints| == states
    requires InRange(trace[0].s.cur, states) && InRange(trace[0].planned, states)
    ensures InRange(trace[k].s.cur, states) && InRange(trace[k].planned, states)
  {
    if k > 0 {
      RunStaysInRange(trace, decisions, states, k - 1);
      StepOf(trace, decisions, k);
      StepStaysInRange(trace[k - 1], decisions[k - 1], trace[k]);
    }
  }

  // ----- Layouts planned through a list that is current

  lemma ChoicesOfAwake(ready: seq<ProcInfo>, before: seq<int>, choices: seq<int>, layout: seq<int>)
    requires PowerInv(ready) && |before| == |ready| && |choices| == |AwakeList(ready)|
    requires InRange(AwakeList(ready), |ready|)
    requires layout == Scatter(before, AwakeList(ready), choices)
    ensures CurOf(layout, AwakeList(ready)) == choices
    ensures forall i :: 0 <= i < |ready| && ready[i].awake == 0 ==> layout[i] == before[i]
  {
    var l := AwakeList(ready);
    AwakeListMeaning(ready);
    ScatterDistinct(before, l, choices);
    assert CurOf(layout, l) == choices;
    forall i | 0 <= i < |ready| && ready[i].awake == 0
      ensures layout[i] == before[i]
    {
      assert i !in l;
    }
  }

  /** Demands the knapsack works with for the cpus on a list: what states out of reach would need goes to friends. */
  ghost function ListDemands(cur: seq<int>, hints: seq<int>, delta: nat, l: seq<int>): seq<int>
    requires InRange(l, |cur|) && true in Reach(CurOf(cur, l), delta, |hints|)
  {
    Transform(PositiveDemands(hints), Reach(CurOf(cur, l), delta, |hints|), |hints|)
  }

  /** The layout of the awake cpus is optimal within the budget, for demands that lose nothing. */
  ghost predicate PlansOptimally(ready: seq<ProcInfo>, cur: seq<int>, hints: seq<int>, delta: nat,
                                 planned: seq<int>, layout: seq<int>) {
    var l := AwakeList(ready);
    && |ready| == |cur| == |planned| == |layout| && InRange(l, |cur|)
    && var can := Reach(CurOf(cur, l), delta, |hints|);
    && true in can
    && var demand := ListDemands(cur, hints, delta, l);
    && IsLowestOptimal(CurOf(cur, l), demand, delta, CurOf(layout, l))
    && (forall k :: 0 <= k < |l| ==> CanWin(CurOf(cur, l), delta, layout[l[k]]))
    && ReachableDemand(demand, can) == Sum(PositiveDemands(hints))
    && forall i :: 0 <= i < |cur| && ready[i].awake == 0 ==> layout[i] == planned[i]
  }

  /**
   When the list names exactly the awake cpus: their layout is the lowest of those optimal within
   the budget for the demands, which together are worth what all states asked for; every awake cpu goes to a state
   some awake cpu can reach, and sleeping cpus keep the state planned before.
   */
  lemma CurrentListIsOptimal(ready: seq<ProcInfo>, cur: seq<int>, hints: seq<int>, delta: nat, proxies: seq<int>,
                             demand: seq<int>, choices: seq<int>, planned: seq<int>, layout: seq<int>)
    requires PowerInv(ready) && |cur| == |ready| && proxies == AwakeList(ready)
    requires PlannedLayout(cur, hints, delta, proxies, demand, choices, planned, layout)
    ensures PlansOptimally(ready, cur, hints, delta, planned, layout)
  {
    var l := AwakeList(ready);
    ChoicesOfAwake(ready, planned, choices, layout);
    WithinBudgetIsReachable(choices, CurOf(cur, l), delta);
    forall k | 0 <= k < |l|
      ensures CanWin(CurOf(cur, l), delta, layout[l[k]])
    {
      assert layout[l[k]] == CurOf(layout, l)[k];
    }
    TransformLosesNothing(PositiveDemands(hints), Reach(CurOf(cur, l), delta, |hints|));
  }

  /**
   When the list is current: exactly if somebody had to retire, or the list left by earlier
   intervals happens to name the cpus that are awake after waking up.
   */
  lemma ListIsCurrent(before: seq<ProcInfo>, running: seq<nat>, req: nat, scanned: nat, ready: seq<ProcInfo>,
                      oldProxies: seq<int>, proxies: seq<int>, oldMarks: seq<int>, marks: seq<int>)
    requires PowerInv(before) && |oldProxies| == |before|
    requires ChoseAwake(before, running, req, scanned, ready, oldProxies, proxies, oldMarks, marks)
    ensures proxies[..req] == AwakeList(ready) <==>
      AwakeCount(before) > req || forall after :: WokeUp(before, req, after) ==> oldProxies[..req] == AwakeList(after)
  {
    if AwakeCount(before) <= req {
      forall after | WokeUp(before, req, after)
        ensures after == ready
      {
        WakingIsDetermined(before, req, after, ready);
      }
    }
  }

  /** With exactly the required cpus awake nobody changes, and a list that was current stays so. */
  lemma SteadyListIsCurrent(before: seq<ProcInfo>, running: seq<nat>, req: nat, scanned: nat, ready: seq<ProcInfo>,
                            oldProxies: seq<int>, proxies: seq<int>, oldMarks: seq<int>, marks: seq<int>)
    requires PowerInv(before) && |oldProxies| == |before| && AwakeCount(before) == req
    requires ChoseAwake(before, running, req, scanned, ready, oldProxies, proxies, oldMarks, marks)
    ensures ready == before
    ensures proxies[..req] == AwakeList(ready) <==> oldProxies[..req] == AwakeList(before)
  {
    assert WokeUp(before, req, before);
    WakingIsDetermined(before, req, ready, before);
  }

  lemma {:induction false} AgeKeepsList(ready: seq<ProcInfo>, after: seq<ProcInfo>)
    requires |after| == |ready| && forall i :: 0 <= i < |ready| ==> after[i] == Age(ready[i])
    ensures AwakeList(after) == AwakeList(ready)
  {
    if ready != [] {
      AgeKeepsList(ready[..|ready| - 1], after[..|after| - 1]);
    }
  }

  /** The interval planned for exactly the awake cpus. */
  ghost predicate HasCurrentList(d: DynDecision, post: DynSnapshot) {
    Required(d.running) <= |post.proxies| && post.proxies[..Required(d.running)] == AwakeList(d.ready)
  }

  /** After an interval with a current list, one that needs no more cpus has a current list as well. */
  lemma ListStaysCurrent(a: DynSnapshot, d: DynDecision, b: DynSnapshot, e: DynDecision, c: DynSnapshot)
    requires DynStep(a, d, b) && DynStep(b, e, c) && PowerInv(b.s.info)
    requires HasCurrentList(d, b) && AwakeCount(b.s.info) == Required(d.running) >= Required(e.running)
    ensures HasCurrentList(e, c)
  {
    var req := Required(e.running);
    if AwakeCount(b.s.info) == req {
      AgeKeepsList(d.ready, b.s.info);
      var scanned: nat, demand, choices :| DynStepWith(b, e, c, scanned, demand, choices);
      SteadyListIsCurrent(b.s.info, e.running, req, scanned, e.ready, b.proxies, c.proxies, b.marks, c.marks);
    } else {
      RetiringListIsCurrent(b, e, c);
    }
  }

  lemma RetiringListIsCurrent(pre: DynSnapshot, d: DynDecision, post: DynSnapshot)
    requires DynStep(pre, d, post) && AwakeCount(pre.s.info) > Required(d.running)
    ensures HasCurrentList(d, post)
  {
    var scanned: nat, demand, choices :| DynStepWith(pre, d, post, scanned, demand, choices);
  }

  lemma ListStaysCurrentInRun(trace: seq<DynSnapshot>, decisions: seq<DynDecision>, k: nat)
    requires IsDynRun(trace, decisions) && 1 < k <= |decisions| && PowerInv(trace[k - 1].s.info)
    requires HasCurrentList(decisions[k - 2], trace[k - 1])
    requires AwakeCount(trace[k - 1].s.info) == Required(decisions[k - 2].running) >= Required(decisions[k - 1].running)
    ensures HasCurrentList(decisions[k - 1], trace[k])
  {
    StepOf(trace, decisions, k - 1);
    StepOf(trace, decisions, k);
    ListStaysCurrent(trace[k - 2], decisions[k - 2], trace[k - 1], decisions[k - 1], trace[k]);
  }

  lemma RetiringInRun(trace: seq<DynSnapshot>, decisions: seq<DynDecision>, k: nat)
    requires IsDynRun(trace, decisions) && 0 < k <= |decisions|
    requires AwakeCount(trace[k - 1].s.info) > Required(decisions[k - 1].running)
    ensures HasCurrentList(decisions[k - 1], trace[k])
  {
    StepOf(trace, decisions, k);
    RetiringListIsCurrent(trace[k - 1], decisions[k - 1], trace[k]);
  }

  /** An interval with a current list plans optimally. */
  lemma StepPlansOptimally(pre: DynSnapshot, d: DynDecision, post: DynSnapshot, t: nat)
    requires PowerInv(pre.s.info) && SleepsAtMost(pre.s.info, t) && 1 <= t < UINT_MAX
    requires DynStep(pre, d, post) && HasCurrentList(d, post)
    ensures PlansOptimally(d.ready, pre.s.cur, d.hints, d.delta, pre.planned, post.planned)
  {
    DynStepKeepsPower(pre, d, post, t);
    var scanned: nat, demand, choices :| DynStepWith(pre, d, post, scanned, demand, choices);
    CurrentListIsOptimal(d.ready, pre.s.cur, d.hints, d.delta, post.proxies[..Required(d.running)], demand, choices,
                         pre.planned, post.planned);
  }

  lemma PlansOptimallyInRun(trace: seq<DynSnapshot>, decisions: seq<DynDecision>, k: nat)
    requires IsDynRun(trace, decisions) && 0 < k <= |decisions| && k < UINT_MAX
    requires PowerInv(trace[k - 1].s.info) && SleepsAtMost(trace[k - 1].s.info, k)
    requires HasCurrentList(decisions[k - 1], trace[k])
    ensures PlansOptimally(decisions[k - 1].ready, trace[k - 1].s.cur, decisions[k - 1].hints, decisions[k - 1].delta,
                           trace[k - 1].planned, trace[k].planned)
  {
    StepOf(trace, decisions, k);
    StepPlansOptimally(trace[k - 1], decisions[k - 1], trace[k], k);
  }

  /** From interval m on, before interval k, no interval needs more cpus than an earlier one. */
  ghost predicate NeverRises(decisions: seq<DynDecision>, m: nat, k: nat) {
    && k <= |decisions|
    && forall i, j :: m <= i <= j < k ==> Required(decisions[j].running) <= Required(decisions[i].running)
  }

  lemma {:induction false} RunKeepsList(trace: seq<DynSnapshot>, decisions: seq<DynDecision>, m: nat, k: nat)
    requires IsDynRun(trace, decisions) && m < k <= |decisions| && k <= UINT_MAX && NeverRises(decisions, m, k)
    requires AllAwake(trace[0].s.info) && |trace[0].s.cur| == |trace[0].s.info|
    requires AwakeCount(trace[m].s.info) > Required(decisions[m].running)
    ensures HasCurrentList(decisions[k - 1], trace[k])
    decreases k
  {
    if m < k - 1 {
      RunKeepsList(trace, decisions, m, k - 1);
      DynRunKeepsPower(trace, decisions, k - 1);
      ListStaysCurrentInRun(trace, decisions, k);
    } else {
      RetiringInRun(trace, decisions, k);
    }
  }

  /**
   In any run from all cpus awake: from an interval that retires somebody on, as long as the
   number of cpus needed does not rise, every interval plans optimally for exactly the cpus that
   are awake.
   */
  lemma RunPlansOptimally(trace: seq<DynSnapshot>, decisions: seq<DynDecision>, m: nat, k: nat)
    requires IsDynRun(trace, decisions) && m < k <= |decisions| && k < UINT_MAX && NeverRises(decisions, m, k)
    requires AllAwake(trace[0].s.info) && |trace[0].s.cur| == |trace[0].s.info|
    requires AwakeCount(trace[m].s.info) > Required(decisions[m].running)
    ensures HasCurrentList(decisions[k - 1], trace[k])
    ensures PlansOptimally(decisions[k - 1].ready, trace[k - 1].s.cur, decisions[k - 1].hints, decisions[k - 1].delta,
                           trace[k - 1].planned, trace[k].planned)
  {
    RunKeepsList(trace, decisions, m, k);
    DynRunKeepsPower(trace, decisions, k - 1);
    PlansOptimallyInRun(trace, decisions, k);
  }
}
