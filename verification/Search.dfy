/** Finding a state for a task: nearest free state, else the least loaded one (search_state.c). */
module Search {
  import opened Common
  import opened DemandTransform
  import opened TaskCount

  /** A task now running in state old fits into state. */
  predicate IsFree(states: seq<StateDesc>, running: seq<nat>, at: int, state: nat)
    requires state < |states|
  {
    || (at == state && states[state].cpus > 0 && StateTasksExSelf(states[state], running) < states[state].cpus)
    || (states[state].cpus > 0 && StateTasks(states[state], running) < states[state].cpus)
  }

  function FreeStates(states: seq<StateDesc>, running: seq<nat>, at: int): (f: seq<bool>)
    ensures |f| == |states| && forall i :: 0 <= i < |f| ==> f[i] == IsFree(states, running, at, i)
  {
    seq(|states|, i requires 0 <= i < |states| => IsFree(states, running, at, i))
  }

  /** Tasks in excess of cpus. */
  function Excess(s: StateDesc, running: seq<nat>): int {
    StateTasks(s, running) - s.cpus
  }

  /** r is the first least loaded state among those with cpus, -1 when no state has any. */
  ghost predicate IsLowestLoaded(states: seq<StateDesc>, running: seq<nat>, r: int) {
    if r == -1 then forall i :: 0 <= i < |states| ==> states[i].cpus == 0
    else
      && 0 <= r < |states| && states[r].cpus != 0
      && (forall i :: 0 <= i < |states| && states[i].cpus != 0 ==>
        Excess(states[r], running) <= Excess(states[i], running))
      && forall i :: 0 <= i < r && states[i].cpus != 0 ==> Excess(states[r], running) < Excess(states[i], running)
  }

  /** What searching downwards answers: nearest free state at or below req, else above, else least loaded. */
  ghost predicate IsDownState(states: seq<StateDesc>, running: seq<nat>, at: int, req: nat, r: int)
    requires req < |states|
  {
    var free := FreeStates(states, running, at);
    if LeftOf(free, req) != -1 then r == LeftOf(free, req)
    else if RightOf(free, req) != -1 then r == RightOf(free, req)
    else IsLowestLoaded(states, running, r)
  }

  /** What searching upwards answers. */
  ghost predicate IsUpState(states: seq<StateDesc>, running: seq<nat>, at: int, req: nat, r: int)
    requires req < |states|
  {
    var free := FreeStates(states, running, at);
    if RightOf(free, req) != -1 then r == RightOf(free, req)
    else if LeftOf(free, req) != -1 then r == LeftOf(free, req)
    else IsLowestLoaded(states, running, r)
  }

  /**
   The plain meaning of the closest state: with a free state anywhere, the free state at least
   distance from req, ties to the higher one; otherwise the least loaded state.
   */
  ghost predicate IsClosestState(states: seq<StateDesc>, running: seq<nat>, at: int, req: nat, r: int) {
    if exists i :: 0 <= i < |states| && IsFree(states, running, at, i) then
      && 0 <= r < |states| && IsFree(states, running, at, r)
      && forall i :: 0 <= i < |states| && i != r && IsFree(states, running, at, i) ==>
        Abs(r - req) < Abs(i - req) || (Abs(r - req) == Abs(i - req) && i < r)
    else IsLowestLoaded(states, running, r)
  }

  /** A task fits exactly when, counted in, the state has a cpu for every task; its own state counts it already. */
  lemma FreeMeaning(states: seq<StateDesc>, running: seq<nat>, at: int, state: nat)
    requires state < |states|
    ensures var tasks := TasksOn(states[state].cpumask, running, |running|);
      IsFree(states, running, at, state) <==>
        states[state].cpus > 0 && (tasks + 1 <= states[state].cpus || (at == state && tasks <= states[state].cpus))
  {
  }

  /** The least loaded state has the fewest tasks over its cpus, the lowest of those. */
  lemma LowestLoadedMeaning(states: seq<StateDesc>, running: seq<nat>, r: int, i: nat)
    requires IsLowestLoaded(states, running, r) && i < |states| && states[i].cpus != 0
    ensures 0 <= r < |states| && states[r].cpus != 0
    ensures var x, y := TasksOn(states[r].cpumask, running, |running|) - states[r].cpus,
                        TasksOn(states[i].cpumask, running, |running|) - states[i].cpus;
      x < y || (x == y && r <= i)
  {
  }

  /** Of the answers down and up, the nearer one is the closest state. */
  lemma NearerIsClosest(states: seq<StateDesc>, running: seq<nat>, at: int, req: nat, down: int, up: int)
    requires req < |states| && IsDownState(states, running, at, req, down) && IsUpState(states, running, at, req, up)
    requires down != -1 && up != -1
    ensures IsClosestState(states, running, at, req, if Abs(req - down) < Abs(req - up) then down else up)
  {
    var free := FreeStates(states, running, at);
    if LeftOf(free, req) == -1 && RightOf(free, req) == -1 {
      LowestLoadedIsUnique(states, running, down, up);
      assert forall i :: 0 <= i < |states| ==> !free[i];
    } else {
      var r := if Abs(req - down) < Abs(req - up) then down else up;
      assert free[r];
      forall i | 0 <= i < |states| && i != r && IsFree(states, running, at, i)
        ensures Abs(r - req) < Abs(i - req) || (Abs(r - req) == Abs(i - req) && i < r)
      {
        assert free[i];
      }
    }
  }

  lemma LowestLoadedIsUnique(states: seq<StateDesc>, running: seq<nat>, r: int, t: int)
    requires IsLowestLoaded(states, running, r) && IsLowestLoaded(states, running, t)
    ensures r == t
  {
  }

  /** No state is returned exactly when no state has cpus; counts are never negative here. */
  lemma NoStateMeansNoCpus(states: seq<StateDesc>, running: seq<nat>, at: int, req: nat, r: int)
    requires IsClosestState(states, running, at, req, r)
    ensures r == -1 <==> forall i :: 0 <= i < |states| ==> states[i].cpus == 0
  {
    if exists i :: 0 <= i < |states| && IsFree(states, running, at, i) {
      assert states[r].cpus != 0;
    }
  }

  /** A free requested state is granted, whichever way the search goes. */
  lemma FreeRequestIsGranted(states: seq<StateDesc>, running: seq<nat>, at: int, req: nat, r: int)
    requires req < |states| && IsFree(states, running, at, req)
    requires IsUpState(states, running, at, req, r) || IsDownState(states, running, at, req, r)
      || IsClosestState(states, running, at, req, r)
    ensures r == req
  {
    assert FreeStates(states, running, at)[req];
  }

  method IsStateFree(states: array<StateDesc>, running: seq<nat>, at: int, state: nat) returns (free: bool)
    requires state < states.Length
    ensures free == IsFree(states[..], running, at, state)
  {
    if at == state && states[state].cpus > 0 {
      var others := GetStateTasksExSelf(states, running, state);
      if others < states[state].cpus {
        return true;
      }
    }
    if states[state].cpus > 0 {
      var tasks := GetStateTasks(states, running, state);
      if tasks < states[state].cpus {
        return true;
      }
    }
    return false;
  }

  method LowestLoadedState(states: array<StateDesc>, running: seq<nat>) returns (r: int)
    ensures IsLowestLoaded(states[..], running, r)
  {
    var minLoad, minState := 100000, 0;
    var minFound := false;
    var i := 0;
    while i < states.Length
      invariant 0 <= i <= states.Length
      invariant !minFound ==> forall k :: 0 <= k < i ==> states[k].cpus == 0
      invariant minFound ==> 0 <= minState < i && states[minState].cpus != 0
      invariant minFound ==> minLoad == Excess(states[minState], running)
      invariant minFound ==> forall k :: 0 <= k < i && states[k].cpus != 0 ==> minLoad <= Excess(states[k], running)
      invariant minFound ==> forall k :: 0 <= k < minState && states[k].cpus != 0 ==> minLoad < Excess(states[k], running)
    {
      if states[i].cpus != 0 {
        var tasks := GetStateTasks(states, running, i);
        var thisLoad := tasks - states[i].cpus;
        if !minFound {
          minLoad := thisLoad;
          minState := i;
          minFound := true;
        } else if thisLoad < minLoad {
          minLoad := thisLoad;
          minState := i;
        }
      }
      i := i + 1;
    }
    r := if minFound then minState else -1;
  }

  method SearchStateDown(states: array<StateDesc>, running: seq<nat>, at: int, req: nat) returns (r: int)
    requires req < states.Length
    ensures IsDownState(states[..], running, at, req, r)
  {
    ghost var free := FreeStates(states[..], running, at);
    var i: int := req;
    while i >= 0
      invariant -1 <= i <= req && LeftOf(free, req) == LeftOf(free, i)
    {
      var isFree := IsStateFree(states, running, at, i);
      if isFree {
        return i;
      }
      i := i - 1;
    }
    i := req + 1;
    while i < states.Length
      invariant req < i <= states.Length && LeftOf(free, req) == -1
      invariant RightOf(free, req) == RightOf(free, i)
    {
      var isFree := IsStateFree(states, running, at, i);
      if isFree {
        return i;
      }
      i := i + 1;
    }
    r := LowestLoadedState(states, running);
  }

  method SearchStateUp(states: array<StateDesc>, running: seq<nat>, at: int, req: nat) returns (r: int)
    requires req < states.Length
    ensures IsUpState(states[..], running, at, req, r)
  {
    ghost var free := FreeStates(states[..], running, at);
    var i: int := req;
    while i < states.Length
      invariant req <= i <= states.Length && RightOf(free, req) == RightOf(free, i)
    {
      var isFree := IsStateFree(states, running, at, i);
      if isFree {
        return i;
      }
      i := i + 1;
    }
    i := req - 1;
    while i >= 0
      invariant -1 <= i < req && RightOf(free, req) == -1
      invariant LeftOf(free, req) == LeftOf(free, i)
    {
      var isFree := IsStateFree(states, running, at, i);
      if isFree {
        return i;
      }
      i := i - 1;
    }
    r := LowestLoadedState(states, running);
  }

  method SearchStateClosest(states: array<StateDesc>, running: seq<nat>, at: int, req: nat) returns (r: int)
    requires req < states.Length
    ensures IsClosestState(states[..], running, at, req, r)
    ensures r == -1 <==> forall i :: 0 <= i < states.Length ==> states[i].cpus == 0
  {
    var isFree := IsStateFree(states, running, at, req);
    if isFree {
      r := req;
    } else {
      var state1 := SearchStateDown(states, running, at, req);
      var state2 := SearchStateUp(states, running, at, req);
      if state1 == -1 || state2 == -1 {
        BothMissing(states[..], running, at, req, state1, state2);
      } else {
        NearerIsClosest(states[..], running, at, req, state1, state2);
      }
      if state1 == -1 && state2 == -1 {
        r := LowestLoadedState(states, running);
      } else if state1 == -1 {
        r := state2;
      } else if state2 == -1 {
        r := state1;
      } else {
        r := if Abs(req - state1) < Abs(req - state2) then state1 else state2;
      }
    }
    NoStateMeansNoCpus(states[..], running, at, req, r);
  }

  /** The two searches come back empty only together, and only when nothing is free. */
  lemma BothMissing(states: seq<StateDesc>, running: seq<nat>, at: int, req: nat, down: int, up: int)
    requires req < |states| && IsDownState(states, running, at, req, down) && IsUpState(states, running, at, req, up)
    requires down == -1 || up == -1
    ensures down == -1 && up == -1
    ensures forall i :: 0 <= i < |states| ==> !IsFree(states, running, at, i)
  {
    var free := FreeStates(states, running, at);
    assert forall i :: 0 <= i < |states| ==> !free[i];
  }
}
