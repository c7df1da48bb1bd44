/** A whole interval of the dynamic programming mutator (mem_dynamic_prog in mutate_dyn.c). */
module DynInterval {
  import opened Common
  import Knapsack
  import opened DemandTransform
  import opened DynMutator
  import opened Power
  import opened StateIndex
  import opened Interval
  import opened DynPlan
  import CommitSteps
  import TaskCount

  lemma {:induction false} AsleepCounts(info: seq<ProcInfo>)
    requires PowerInv(info)
    ensures Chosen(Asleep(info)) == AwakeCount(info)
  {
    if info != [] {
      var n := |info| - 1;
      AsleepCounts(info[..n]);
      assert Consistent(info[n]);
      assert Asleep(info)[..n] == Asleep(info[..n]);
    }
  }

  lemma ListedInRange(info: seq<ProcInfo>, proxies: seq<int>)
    requires PowerInv(info) && |proxies| == |info| && InRange(proxies, |info|)
    ensures |AwakeList(info)| <= |info| && InRange(Overlay(proxies, AwakeList(info)), |info|)
    ensures Overlay(proxies, AwakeList(info))[..|AwakeList(info)|] == AwakeList(info)
  {
    var l := AwakeList(info);
    AwakeListMeaning(info);
    CountBounds(info, 0);
    forall k | 0 <= k < |l|
      ensures 0 <= l[k] < |info|
    {
      assert l[k] in l;
    }
  }

  /** Count the awake cpus into their planned states. */
  method DescribeAwake(newStates: array<StateDesc>, info: array<ProcInfo>, layout: array<int>)
    requires info.Length == layout.Length && InRange(layout[..], newStates.Length)
    modifies newStates
    ensures Describes(newStates[..], Asleep(info[..]), layout[..], layout.Length)
  {
    ghost var sel, lay := Asleep(info[..]), layout[..];
    CommitSteps.ClearMasks(newStates);
    var i := 0;
    while i < info.Length
      invariant 0 <= i <= info.Length && Describes(newStates[..], sel, lay, i)
    {
      DescribesStep(newStates[..], sel, lay, i);
      if info[i].awake != 0 {
        CommitSteps.Enter(newStates, i, layout[i]);
      }
      i := i + 1;
    }
  }

  class DynScheduler {
    const core: Mutator
    const states: array<StateDesc>
    const newStates: array<StateDesc>
    const info: array<ProcInfo>
    const putToSleep: array<int>

    constructor (cur: array<int>, states: array<StateDesc>, info: array<ProcInfo>, maxDelta: nat)
      requires 1 <= states.Length && 1 <= cur.Length == info.Length <= UINT_MAX
      requires InRange(cur[..], states.Length)
      ensures Usable() && core.curCpuState == cur && this.states == states && this.info == info
      ensures core.dyna.Length1 == maxDelta + 1
      ensures forall i :: 0 <= i < cur.Length ==>
        core.newCpuState[i] == 0 && core.cpuAwakeProxy[i] == 0 && putToSleep[i] == 0
    {
      core := new Mutator(cur, states.Length, maxDelta);
      this.states, this.info := states, info;
      newStates := new StateDesc[states.Length](_ => StateDesc(0, {}, 0));
      putToSleep := new int[cur.Length](_ => 0);
    }

    ghost predicate Valid()
      reads core.curCpuState
    {
      && core.Valid()
      && 1 <= core.curCpuState.Length <= UINT_MAX
      && info.Length == putToSleep.Length == core.curCpuState.Length
      && 1 <= states.Length == newStates.Length == core.demand.Length && states != newStates
      && putToSleep != core.curCpuState && putToSleep != core.newCpuState && putToSleep != core.cpuAwakeProxy
      && putToSleep != core.demand
      && core.cpuAwakeProxy != core.curCpuState
    }

    /** Proxies and planned states may be stale, but they are in range. */
    ghost predicate Usable()
      reads core.curCpuState, core.cpuAwakeProxy, core.newCpuState
    {
      && Valid() && core.ProxiesInRange(core.cpuAwakeProxy.Length)
      && InRange(core.newCpuState[..], states.Length)
    }

    /** What the interval before left behind. */
    ghost function Now(): DynSnapshot
      reads info, core.curCpuState, core.cpuAwakeProxy, putToSleep, core.newCpuState
    {
      DynSnapshot(Snapshot(info[..], core.curCpuState[..]), core.cpuAwakeProxy[..], putToSleep[..], core.newCpuState[..])
    }

    method ComputeDemand()
      requires Valid()
      modifies core.demand
      ensures core.demand[..] == PositiveDemands(Hints(states[..]))
    {
      var j := 0;
      while j < states.Length
        invariant 0 <= j <= states.Length
        invariant forall k :: 0 <= k < j ==> core.demand[k] == states[k].demand + 1
      {
        core.demand[j] := states[j].demand + 1;
        j := j + 1;
      }
    }

    /** Wake and retire cpus; ready is the sleep information the layout is made for. */
    method ChooseAwake(running: seq<nat>, req: nat) returns (ghost ready: seq<ProcInfo>, ghost scanned: nat)
      requires Usable() && PowerInv(info[..]) && SleepsAtMost(info[..], UINT_MAX - 1)
      requires |running| == info.Length && Load(running) <= req && 1 <= req <= info.Length
      modifies info, putToSleep, core.cpuAwakeProxy
      ensures Usable() && PowerInv(info[..]) && ready == info[..] && AwakeCount(ready) == req
      ensures ChoseAwake(old(info[..]), running, req, scanned, ready,
                         old(core.cpuAwakeProxy[..]), core.cpuAwakeProxy[..],
                         old(putToSleep[..]), putToSleep[..])
    {
      ghost var before, proxies := info[..], core.cpuAwakeProxy[..];
      WakeUpProcs(info, req);
      ghost var woken := info[..];
      AllWakeable(before);
      NobodyToWake(before, req, woken);
      scanned := RetireProcs(info, running, req, putToSleep, core.cpuAwakeProxy);
      ready := info[..];
      if AwakeCount(woken) > req {
        RetireMeetsLoad(woken, running, req, scanned, ready);
        AwakeListMeaning(ready);
        ListedInRange(ready, proxies);
        assert core.cpuAwakeProxy[..][..req] == AwakeList(ready);
      }
    }

    /** What the requests of this interval depend on. */
    ghost function Wanted(sleepWorks: seq<bool>, runWorks: seq<bool>): Requests
      reads info, putToSleep, core.newCpuState
    {
      Requests(info[..], putToSleep[..], core.newCpuState[..], sleepWorks, runWorks)
    }

    /** The sleep request of one cpu. */
    method ParkOne(i: nat, sleepWorks: bool)
      requires Usable() && i < info.Length
      modifies core.curCpuState, states
      ensures Usable()
      ensures core.curCpuState[..] ==
        old(core.curCpuState[..])[i := AfterSleep(old(core.curCpuState[i]), putToSleep[i], sleepWorks)]
      ensures states[..] == Told(old(states[..]), i, old(core.curCpuState[i]), core.curCpuState[i])
    {
      if putToSleep[i] == 1 {
        RequestSpeed(core.curCpuState, states, i, 0, sleepWorks);
      }
    }

    /** Speeds and sleep time of one cpu. */
    method ApplyOne(i: nat, sleepWorks: bool, runWorks: bool)
      requires Usable() && i < info.Length
      modifies core.curCpuState, states, info
      ensures Usable()
      ensures core.curCpuState[..] == old(core.curCpuState[..])[i := Applied2(old(core.curCpuState[i]), putToSleep[i],
        old(info[i].awake), core.newCpuState[i], sleepWorks, runWorks)]
      ensures info[..] == old(info[..])[i := Age(old(info[i]))]
      ensures var parked := AfterSleep(old(core.curCpuState[i]), putToSleep[i], sleepWorks);
        states[..] == Told(Told(old(states[..]), i, old(core.curCpuState[i]), parked), i, parked, core.curCpuState[i])
    {
      ParkOne(i, sleepWorks);
      if info[i].awake == 0 {
        info[i] := info[i].(sleepTime := NextSleep(info[i].sleepTime));
      } else if core.newCpuState[i] != core.curCpuState[i] {
        RequestSpeed(core.curCpuState, states, i, core.newCpuState[i], runWorks);
      }
    }

    /** Speeds and sleep times of all cpus. */
    method ApplyAll(sleepWorks: seq<bool>, runWorks: seq<bool>)
      requires Usable() && |sleepWorks| == |runWorks| == info.Length
      modifies core.curCpuState, states, info
      ensures Usable()
      ensures Retold(old(states[..]), old(Wanted(sleepWorks, runWorks)), old(core.curCpuState[..]), states[..])
      ensures ParksAndRuns(old(info[..]), old(core.curCpuState[..]), putToSleep[..], core.newCpuState[..],
                           sleepWorks, runWorks, Snapshot(info[..], core.curCpuState[..]))
      ensures TotalCpus(states[..]) == old(TotalCpus(states[..]))
      ensures forall j :: 0 <= j < states.Length ==> states[j].demand == old(states[j].demand)
    {
      ghost var q, cur, committed := Wanted(sleepWorks, runWorks), core.curCpuState[..], states[..];
      var i := 0;
      while i < info.Length
        invariant 0 <= i <= info.Length && Usable()
        invariant Snapshot(info[..], core.curCpuState[..]) == AppliedPrefix(q, cur, |committed|, i)
        invariant states[..] == ToldAll(q, cur, committed, i)
      {
        AppliedNext(q, cur, committed, i);
        ApplyOne(i, sleepWorks[i], runWorks[i]);
        i := i + 1;
      }
      AppliedMeaning(q, cur, committed, Snapshot(info[..], core.curCpuState[..]), states[..]);
    }

    /** Transform and knapsack for the first req proxied cpus. */
    method PlanLayout(req: nat, delta: nat) returns (ghost choices: seq<int>)
      requires Usable() && 1 <= req <= info.Length && delta < core.dyna.Length1
      requires forall j :: 0 <= j < states.Length ==> core.demand[j] > 0
      modifies core.demand, core.dyna, core.wt, core.newCpuState
      ensures Usable() && |choices| == req
      ensures var can := Reach(core.Curs(req), delta, states.Length);
        true in can && core.demand[..] == Transform(old(core.demand[..]), can, states.Length)
      ensures Knapsack.IsLowestOptimal(core.Curs(req), core.demand[..], delta, choices)
      ensures core.newCpuState[..] == Scatter(old(core.newCpuState[..]), core.cpuAwakeProxy[..req], choices)
    {
      ghost var demands := core.demand[..];
      core.DeltaBasedDemandTransform(req, delta);
      TransformGrows(demands, Reach(core.Curs(req), delta, states.Length), states.Length);
      choices := core.Mck(req, delta);
      ScatterInRange(old(core.newCpuState[..]), core.cpuAwakeProxy[..req], choices, states.Length);
    }

    /** Everything before the commit: who is awake, and the best layout for the proxied cpus. */
    method PlanInterval(req: nat, delta: nat, running: seq<nat>) returns (ghost ready: seq<ProcInfo>)
      requires Usable() && PowerInv(info[..]) && SleepsAtMost(info[..], UINT_MAX - 1)
      requires |running| == info.Length && req == Required(running) <= info.Length && delta < core.dyna.Length1
      requires forall j :: 0 <= j < states.Length ==> states[j].demand >= 0
      modifies info, putToSleep, core.cpuAwakeProxy, core.demand, core.dyna, core.wt, core.newCpuState
      ensures Usable() && PowerInv(info[..]) && ready == info[..] && AwakeCount(ready) == req
      ensures Prepares(old(Now()), running, Hints(states[..]), delta, ready,
                       core.cpuAwakeProxy[..], putToSleep[..], core.newCpuState[..])
      ensures core.curCpuState[..] == old(core.curCpuState[..]) && Hints(states[..]) == old(Hints(states[..]))
    {
      ghost var pre := Now();
      ComputeDemand();
      ghost var scanned, choices;
      ready, scanned := ChooseAwake(running, req);
      choices := PlanLayout(req, delta);
      assert PreparesWith(pre, running, Hints(states[..]), delta, ready, core.cpuAwakeProxy[..], putToSleep[..],
                          core.newCpuState[..], scanned, core.demand[..], choices);
    }

    /** Commit the planned states of the awake cpus, then change speeds. */
    method FinishInterval(sleepWorks: seq<bool>, runWorks: seq<bool>) returns (ghost committed: seq<StateDesc>)
      requires Usable() && PowerInv(info[..]) && |sleepWorks| == |runWorks| == info.Length
      modifies core.curCpuState, states, newStates, info
      ensures Usable()
      ensures Describes(committed, old(Asleep(info[..])), core.newCpuState[..], info.Length)
      ensures TotalCpus(states[..]) == TotalCpus(committed) == old(AwakeCount(info[..]))
      ensures Retold(committed, old(Wanted(sleepWorks, runWorks)), old(core.curCpuState[..]), states[..])
      ensures ParksAndRuns(old(info[..]), old(core.curCpuState[..]), putToSleep[..], core.newCpuState[..],
                           sleepWorks, runWorks, Snapshot(info[..], core.curCpuState[..]))
      ensures forall j :: 0 <= j < states.Length ==> states[j].demand == 0
    {
      DescribeAwake(newStates, info, core.newCpuState);
      CommitSteps.Publish(states, newStates);
      committed := states[..];
      AsleepCounts(info[..]);
      CommittedTotal(committed, Asleep(info[..]), core.newCpuState[..]);
      ApplyAll(sleepWorks, runWorks);
    }

    /**
     One interval. Exactly max(1, load) cpus are awake and committed, the layout is optimal for
     the proxied cpus and written through the proxies, and the interval is a step of a run.
     */
    method MemDynamicProg(delta: nat, running: seq<nat>, sleepWorks: seq<bool>, runWorks: seq<bool>)
      returns (ghost ready: seq<ProcInfo>, ghost committed: seq<StateDesc>)
      requires Usable() && PowerInv(info[..]) && SleepsAtMost(info[..], UINT_MAX - 1)
      requires |running| == |sleepWorks| == |runWorks| == info.Length && delta < core.dyna.Length1
      requires forall j :: 0 <= j < states.Length ==> states[j].demand >= 0
      modifies core.curCpuState, core.newCpuState, core.cpuAwakeProxy, core.demand, core.dyna, core.wt
      modifies states, newStates, info, putToSleep
      ensures Usable()
      ensures DynStep(old(Now()), DynDecision(running, old(Hints(states[..])), delta, sleepWorks, runWorks, ready), Now())
      ensures PowerInv(ready) && AwakeCount(ready) == Required(running) <= info.Length
      ensures Describes(committed, Asleep(ready), core.newCpuState[..], info.Length)
      ensures Retold(committed, Requests(ready, putToSleep[..], core.newCpuState[..], sleepWorks, runWorks),
                     old(core.curCpuState[..]), states[..])
      ensures TotalCpus(states[..]) == TotalCpus(committed) == Required(running)
      ensures forall j :: 0 <= j < states.Length ==> states[j].demand == 0
    {
      var total := TaskCount.GetTasksLoad(running);
      if total == 0 {
        total := 1;
      }
      ghost var pre, hints := Now(), Hints(states[..]);
      ready := PlanInterval(total, delta, running);
      committed := FinishInterval(sleepWorks, runWorks);
      StepFromParts(pre, DynDecision(running, hints, delta, sleepWorks, runWorks, ready), Now());
    }
  }
}
