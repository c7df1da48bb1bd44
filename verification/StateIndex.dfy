/** The index from performance states to cpus, and everything that changes cpu states (state.c). */
module StateIndex {
  import opened Common

  /** The numbers of n cpus. */
  function Indices(n: nat): (s: set<nat>)
    ensures |s| == n && forall i: nat :: i in s <==> i < n
  {
    if n == 0 then {} else Indices(n - 1) + {n - 1}
  }

  function MaskOf(cur: seq<int>, j: int): set<nat> {
    set i | i in Indices(|cur|) && cur[i] == j
  }

  ghost predicate InRange(cur: seq<int>, states: nat) {
    forall i :: 0 <= i < |cur| ==> 0 <= cur[i] < states
  }

  /** Every mask names exactly the cpus in its state, and every count is the size of the mask. */
  ghost predicate Agrees(cur: seq<int>, states: seq<StateDesc>) {
    && InRange(cur, |states|)
    && forall j :: 0 <= j < |states| ==>
      states[j].cpumask == MaskOf(cur, j) && states[j].cpus == |states[j].cpumask|
  }

  function CpuCounts(states: seq<StateDesc>): (c: seq<int>)
    ensures |c| == |states| && forall j :: 0 <= j < |c| ==> c[j] == states[j].cpus
  {
    seq(|states|, j requires 0 <= j < |states| => states[j].cpus)
  }

  /** Hints received by each state. */
  function Hints(states: seq<StateDesc>): (h: seq<int>)
    ensures |h| == |states| && forall j :: 0 <= j < |h| ==> h[j] == states[j].demand
  {
    seq(|states|, j requires 0 <= j < |states| => states[j].demand)
  }

  function TotalCpus(states: seq<StateDesc>): int {
    Sum(CpuCounts(states))
  }

  /** Cpus in the first k states. */
  function Below(cur: seq<int>, k: int): set<nat> {
    set i | i in Indices(|cur|) && 0 <= cur[i] < k
  }

  lemma {:induction false} MasksPartition(cur: seq<int>, states: seq<StateDesc>, k: nat)
    requires Agrees(cur, states) && k <= |states|
    ensures Sum(CpuCounts(states)[..k]) == |Below(cur, k)|
  {
    if k == 0 {
      assert Below(cur, 0) == {};
    } else {
      MasksPartition(cur, states, k - 1);
      SumPrefix(CpuCounts(states), k - 1);
      assert Below(cur, k) == Below(cur, k - 1) + states[k - 1].cpumask;
      assert Below(cur, k - 1) !! states[k - 1].cpumask;
    }
  }

  /** Agreement means: masks are disjoint, they cover all cpus, and the counts add up. */
  lemma AgreementMeaning(cur: seq<int>, states: seq<StateDesc>)
    requires Agrees(cur, states)
    ensures forall j, k :: 0 <= j < k < |states| ==> states[j].cpumask !! states[k].cpumask
    ensures forall i :: i in Indices(|cur|) <==> exists j :: 0 <= j < |states| && i in states[j].cpumask
    ensures TotalCpus(states) == |cur|
  {
    forall i | i in Indices(|cur|)
      ensures exists j :: 0 <= j < |states| && i in states[j].cpumask
    {
      assert i in states[cur[i]].cpumask;
    }
    MasksPartition(cur, states, |states|);
    assert CpuCounts(states)[..|states|] == CpuCounts(states);
    assert Below(cur, |states|) == Indices(|cur|);
  }

  /** The states after cpu moved from one state to a different one. */
  function Moved(states: seq<StateDesc>, cpu: nat, from: int, to: int): (s: seq<StateDesc>)
    requires 0 <= from < |states| && 0 <= to < |states| && from != to
    ensures |s| == |states|
  {
    var entered := Entered(states, cpu, to);
    entered[from := entered[from].(cpumask := entered[from].cpumask - {cpu}, cpus := entered[from].cpus - 1)]
  }

  /** The states after being told that cpu is in state to, when it was known to be in state from. */
  function Told(states: seq<StateDesc>, cpu: nat, from: int, to: int): (s: seq<StateDesc>)
    requires 0 <= from < |states| && 0 <= to < |states|
    ensures |s| == |states|
  {
    if from != to then Moved(states, cpu, from, to) else states
  }

  function Informed(cur: seq<int>, states: seq<StateDesc>, cpu: nat, state: int): (s: seq<StateDesc>)
    requires cpu < |cur| && 0 <= cur[cpu] < |states| && 0 <= state < |states|
    ensures |s| == |states|
  {
    Told(states, cpu, cur[cpu], state)
  }

  /** The states after each of the first k cpus was informed of its state in post. */
  function InformAll(cur: seq<int>, post: seq<int>, states: seq<StateDesc>, k: nat): (s: seq<StateDesc>)
    requires k <= |cur| == |post| && InRange(cur, |states|) && InRange(post, |states|)
    ensures |s| == |states|
  {
    if k == 0 then states else Informed(cur, InformAll(cur, post, states, k - 1), k - 1, post[k - 1])
  }

  lemma MaskAfterMove(cur: seq<int>, cpu: nat, state: int, j: int)
    requires cpu < |cur|
    ensures MaskOf(cur[cpu := state], j) == MaskOf(cur, j) - {cpu} + if j == state then {cpu} else {}
    ensures cpu in MaskOf(cur, j) <==> cur[cpu] == j
  {
    var after := cur[cpu := state];
    forall i | i in Indices(|cur|)
      ensures i in MaskOf(after, j) <==> if i == cpu then j == state else i in MaskOf(cur, j)
    {
    }
  }

  lemma StateAfterMove(cur: seq<int>, states: seq<StateDesc>, cpu: nat, state: int, j: nat)
    requires Agrees(cur, states) && cpu < |cur| && 0 <= state < |states| && j < |states|
    requires cur[cpu] != state
    ensures var d := Moved(states, cpu, cur[cpu], state)[j];
      d.cpumask == MaskOf(cur[cpu := state], j) && d.cpus == |d.cpumask|
  {
    MaskAfterMove(cur, cpu, state, j);
    var d := Moved(states, cpu, cur[cpu], state)[j];
    if j == state {
      assert d == states[j].(cpumask := states[j].cpumask + {cpu}, cpus := states[j].cpus + 1);
    } else if j == cur[cpu] {
      assert d == states[j].(cpumask := states[j].cpumask - {cpu}, cpus := states[j].cpus - 1);
    } else {
      assert d == states[j];
    }
  }

  /** Being informed keeps masks and counts in agreement with the cpu states. */
  lemma InformKeepsAgreement(cur: seq<int>, states: seq<StateDesc>, cpu: nat, state: int)
    requires Agrees(cur, states) && cpu < |cur| && 0 <= state < |states|
    ensures Agrees(cur[cpu := state], Informed(cur, states, cpu, state))
  {
    if cur[cpu] != state {
      forall j | 0 <= j < |states|
        ensures var d := Informed(cur, states, cpu, state)[j];
          d.cpumask == MaskOf(cur[cpu := state], j) && d.cpus == |d.cpumask|
      {
        StateAfterMove(cur, states, cpu, state, j);
      }
    } else {
      assert cur[cpu := state] == cur;
    }
  }

  /** Whatever the counts were, being informed keeps their total. */
  lemma InformKeepsTotal(cur: seq<int>, states: seq<StateDesc>, cpu: nat, state: int)
    requires cpu < |cur| && 0 <= cur[cpu] < |states| && 0 <= state < |states|
    ensures TotalCpus(Informed(cur, states, cpu, state)) == TotalCpus(states)
  {
    ToldKeepsTotal(states, cpu, cur[cpu], state);
  }

  lemma ToldKeepsTotal(states: seq<StateDesc>, cpu: nat, from: int, to: int)
    requires 0 <= from < |states| && 0 <= to < |states|
    ensures TotalCpus(Told(states, cpu, from, to)) == TotalCpus(states)
    ensures forall j :: 0 <= j < |states| ==> Told(states, cpu, from, to)[j].demand == states[j].demand
  {
    if from != to {
      var c := CpuCounts(states);
      SumUpdate(c, to, c[to] + 1);
      SumUpdate(c[to := c[to] + 1], from, c[from] - 1);
      assert CpuCounts(Told(states, cpu, from, to)) == c[to := c[to] + 1][from := c[from] - 1];
    }
  }

  /** Being informed of all cpus keeps the total of the counts and the hints. */
  lemma {:induction false} InformAllKeepsTotal(cur: seq<int>, post: seq<int>, states: seq<StateDesc>, k: nat)
    requires k <= |cur| == |post| && InRange(cur, |states|) && InRange(post, |states|)
    ensures TotalCpus(InformAll(cur, post, states, k)) == TotalCpus(states)
    ensures forall j :: 0 <= j < |states| ==> InformAll(cur, post, states, k)[j].demand == states[j].demand
  {
    if k > 0 {
      InformAllKeepsTotal(cur, post, states, k - 1);
      InformKeepsTotal(cur, InformAll(cur, post, states, k - 1), k - 1, post[k - 1]);
    }
  }

  /** A callback saying that cpu is in state now. */
  datatype Event = Event(cpu: nat, state: nat)

  datatype Index = Index(cur: seq<int>, states: seq<StateDesc>)

  ghost predicate Deliverable(ix: Index, e: Event) {
    e.cpu < |ix.cur| && e.state < |ix.states|
  }

  function Run(ix: Index, events: seq<Event>): (r: Index)
    requires InRange(ix.cur, |ix.states|)
    requires forall e :: e in events ==> Deliverable(ix, e)
    ensures |r.cur| == |ix.cur| && |r.states| == |ix.states| && InRange(r.cur, |r.states|)
  {
    if events == [] then ix
    else
      var before := Run(ix, events[..|events| - 1]);
      var e := events[|events| - 1];
      assert e in events && Deliverable(ix, e);
      Index(before.cur[e.cpu := e.state], Informed(before.cur, before.states, e.cpu, e.state))
  }

  /** Agreement survives any sequence of callbacks, whoever caused them. */
  lemma {:induction false} AnyRunAgrees(ix: Index, events: seq<Event>)
    requires Agrees(ix.cur, ix.states)
    requires forall e :: e in events ==> Deliverable(ix, e)
    ensures Agrees(Run(ix, events).cur, Run(ix, events).states)
    ensures TotalCpus(Run(ix, events).states) == TotalCpus(ix.states) == |ix.cur|
  {
    AgreementMeaning(ix.cur, ix.states);
    if events != [] {
      var n := |events| - 1;
      AnyRunAgrees(ix, events[..n]);
      var before := Run(ix, events[..n]);
      assert events[n] in events && Deliverable(ix, events[n]);
      InformKeepsAgreement(before.cur, before.states, events[n].cpu, events[n].state);
      InformKeepsTotal(before.cur, before.states, events[n].cpu, events[n].state);
    }
  }

  /** The callback that records the new state of a cpu. */
  method Inform(cur: array<int>, states: array<StateDesc>, cpu: nat, state: nat)
    requires cpu < cur.Length && state < states.Length && 0 <= cur[cpu] < states.Length
    modifies cur, states
    ensures cur[..] == old(cur[..])[cpu := state]
    ensures states[..] == Informed(old(cur[..]), old(states[..]), cpu, state)
  {
    if cur[cpu] != state {
      states[state] := states[state].(cpumask := states[state].cpumask + {cpu});
      states[cur[cpu]] := states[cur[cpu]].(cpumask := states[cur[cpu]].cpumask - {cpu});
      states[state] := states[state].(cpus := states[state].cpus + 1);
      states[cur[cpu]] := states[cur[cpu]].(cpus := states[cur[cpu]].cpus - 1);
      cur[cpu] := state;
    }
    cur[cpu] := state;
  }

  /** Ask for a speed change: it works and the scheduler is informed, or nothing happens. */
  method SetFreq(cur: array<int>, states: array<StateDesc>, cpu: nat, state: nat, works: bool)
    requires cpu < cur.Length && state < states.Length && 0 <= cur[cpu] < states.Length
    modifies cur, states
    ensures cur[..] == if works then old(cur[..])[cpu := state] else old(cur[..])
    ensures states[..] == if works then Informed(old(cur[..]), old(states[..]), cpu, state) else old(states[..])
  {
    if works {
      Inform(cur, states, cpu, state);
    }
  }

  /** A speed change for which the index need not be in agreement. */
  method RequestSpeed(cur: array<int>, states: array<StateDesc>, cpu: nat, state: nat, works: bool)
    requires cpu < cur.Length && state < states.Length && InRange(cur[..], states.Length)
    modifies cur, states
    ensures cur[..] == if works then old(cur[..])[cpu := state] else old(cur[..])
    ensures InRange(cur[..], states.Length)
    ensures states[..] == Told(old(states[..]), cpu, old(cur[cpu]), if works then state else old(cur[cpu]))
  {
    SetFreq(cur, states, cpu, state, works);
  }

  /** A speed change keeps the index in agreement, whether it works or not. */
  method ChangeState(cur: array<int>, states: array<StateDesc>, cpu: nat, state: nat, works: bool)
    requires cpu < cur.Length && state < states.Length && Agrees(cur[..], states[..])
    modifies cur, states
    ensures cur[..] == if works then old(cur[..])[cpu := state] else old(cur[..])
    ensures Agrees(cur[..], states[..])
  {
    InformKeepsAgreement(cur[..], states[..], cpu, state);
    SetFreq(cur, states, cpu, state, works);
  }

  // ----- Load driven mutators

  const LOAD_0_875 := 7

  /** State the on-demand mutator wants. */
  function OnDemandTarget(states: nat, load: int): int {
    if load > LOAD_0_875 then states - 1 else 0
  }

  /** State the conservative mutator wants: one step, saturating at both ends. */
  function ConservativeTarget(states: nat, at: int, load: int): int {
    if load > LOAD_0_875 then Min(at + 1, states - 1) else Max(at - 1, 0)
  }

  /** Above the threshold nothing higher is wanted than the highest state, otherwise nothing lower than the lowest. */
  lemma OnDemandMeaning(states: nat, load: int, s: nat)
    requires s < states
    ensures 0 <= OnDemandTarget(states, load) < states
    ensures load > LOAD_0_875 ==> s <= OnDemandTarget(states, load)
    ensures load <= LOAD_0_875 ==> OnDemandTarget(states, load) <= s
  {
  }

  /** The conservative mutator goes one step towards the same target and stays there. */
  lemma ConservativeMeaning(states: nat, at: nat, load: int)
    requires at < states
    ensures var c, goal := ConservativeTarget(states, at, load), OnDemandTarget(states, load);
      && 0 <= c < states
      && (at == goal ==> c == at)
      && (at != goal ==> Abs(c - at) == 1 && Abs(goal - c) == Abs(goal - at) - 1)
  {
  }

  /** State after intervals with these loads, every change working. */
  function Drive(states: nat, at: int, loads: seq<int>): int {
    if loads == [] then at else ConservativeTarget(states, Drive(states, at, loads[..|loads| - 1]), loads[|loads| - 1])
  }

  /** Under lasting load, or lasting idleness, it covers one state for each interval until it arrives. */
  lemma {:induction false} ConservativeArrives(states: nat, at: nat, loads: seq<int>)
    requires at < states
    ensures (forall i :: 0 <= i < |loads| ==> loads[i] > LOAD_0_875) ==>
      Drive(states, at, loads) == Min(at + |loads|, states - 1)
    ensures (forall i :: 0 <= i < |loads| ==> loads[i] <= LOAD_0_875) ==>
      Drive(states, at, loads) == Max(at - |loads|, 0)
  {
    if loads != [] {
      ConservativeArrives(states, at, loads[..|loads| - 1]);
    }
  }

  /** One interval of the on-demand mutator. */
  method OnDemand(cur: array<int>, states: array<StateDesc>, newState: array<int>, loads: seq<int>, works: seq<bool>)
    requires states.Length >= 1 && newState != cur
    requires cur.Length == newState.Length == |loads| == |works|
    requires Agrees(cur[..], states[..])
    modifies cur, states, newState
    ensures Agrees(cur[..], states[..])
    ensures forall i :: 0 <= i < cur.Length ==> newState[i] == OnDemandTarget(states.Length, loads[i])
    ensures forall i :: 0 <= i < cur.Length ==> cur[i] == if works[i] then newState[i] else old(cur[i])
  {
    var i := 0;
    while i < cur.Length
      invariant 0 <= i <= cur.Length && Agrees(cur[..], states[..])
      invariant forall k :: 0 <= k < i ==> newState[k] == OnDemandTarget(states.Length, loads[k])
      invariant forall k :: 0 <= k < i ==> cur[k] == if works[k] then newState[k] else old(cur[k])
      invariant forall k :: i <= k < cur.Length ==> cur[k] == old(cur[k])
    {
      if loads[i] > LOAD_0_875 {
        newState[i] := states.Length - 1;
      } else {
        newState[i] := 0;
      }
      if cur[i] != newState[i] {
        ChangeState(cur, states, i, newState[i], works[i]);
      }
      i := i + 1;
    }
  }

  /** One interval of the conservative mutator. */
  method Conservative(cur: array<int>, states: array<StateDesc>, newState: array<int>, loads: seq<int>, works: seq<bool>)
    requires states.Length >= 1 && newState != cur
    requires cur.Length == newState.Length == |loads| == |works|
    requires Agrees(cur[..], states[..])
    modifies cur, states, newState
    ensures Agrees(cur[..], states[..])
    ensures forall i :: 0 <= i < cur.Length ==>
      newState[i] == ConservativeTarget(states.Length, old(cur[i]), loads[i])
    ensures forall i :: 0 <= i < cur.Length ==> cur[i] == if works[i] then newState[i] else old(cur[i])
  {
    var i := 0;
    while i < cur.Length
      invariant 0 <= i <= cur.Length && Agrees(cur[..], states[..])
      invariant forall k :: 0 <= k < i ==>
        newState[k] == ConservativeTarget(states.Length, old(cur[k]), loads[k])
      invariant forall k :: 0 <= k < i ==> cur[k] == if works[k] then newState[k] else old(cur[k])
      invariant forall k :: i <= k < cur.Length ==> cur[k] == old(cur[k])
    {
      if loads[i] > LOAD_0_875 {
        newState[i] := if cur[i] == states.Length - 1 then states.Length - 1 else cur[i] + 1;
      } else {
        newState[i] := if cur[i] == 0 then 0 else cur[i] - 1;
      }
      if cur[i] != newState[i] {
        ChangeState(cur, states, i, newState[i], works[i]);
      }
      i := i + 1;
    }
  }

  // ----- Start-up

  /** val forced into low..high - 1. */
  function Bounds(val: int, low: int, high: int): int {
    if val < low then low else if val >= high then high - 1 else val
  }

  /** The value of the range that is nearest to val. */
  lemma BoundsMeaning(val: int, low: int, high: int, v: int)
    requires low <= v < high
    ensures low <= Bounds(val, low, high) < high
    ensures Abs(Bounds(val, low, high) - val) <= Abs(v - val)
  {
  }

  /** Largest number of states any cpu supports. */
  method TotalStates(maxStates: seq<nat>) returns (total: nat)
    ensures forall i :: 0 <= i < |maxStates| ==> maxStates[i] <= total
    ensures if maxStates == [] then total == 0 else total in maxStates || total == 0
  {
    total := 0;
    var i := 0;
    while i < |maxStates|
      invariant 0 <= i <= |maxStates|
      invariant forall k :: 0 <= k < i ==> maxStates[k] <= total
      invariant total in maxStates || total == 0
      invariant maxStates == [] ==> total == 0
    {
      if total < maxStates[i] {
        total := maxStates[i];
      }
      i := i + 1;
    }
  }

  /** State the start-up gives cpu i for a requested layout of the given length. */
  function StartState(layout: seq<int>, length: nat, states: nat, i: nat): int
    requires i < |layout|
  {
    if i < length then Bounds(layout[i], 0, states) else 0
  }

  /** A requested cpu starts in the state nearest to the one asked for, every other cpu in the lowest. */
  lemma StartMeaning(layout: seq<int>, length: nat, states: nat, i: nat, s: nat)
    requires i < |layout| && s < states
    ensures 0 <= StartState(layout, length, states, i) < states
    ensures i < length ==> Abs(StartState(layout, length, states, i) - layout[i]) <= Abs(s - layout[i])
    ensures i >= length ==> StartState(layout, length, states, i) <= s
  {
  }

  /** Put one more cpu into the index. */
  method Place(cur: array<int>, states: array<StateDesc>, i: nat, state: nat)
    requires i < cur.Length && state < states.Length && Agrees(cur[..i], states[..])
    modifies cur, states
    ensures cur[..i] == old(cur[..i]) && cur[i] == state && Agrees(cur[..i + 1], states[..])
    ensures forall j :: 0 <= j < states.Length ==> states[j].demand == old(states[j].demand)
  {
    PlacedAgrees(cur[..i], states[..], state);
    ghost var placed := cur[..i] + [state];
    ghost var entered := Entered(states[..], i, state);
    states[state] := states[state].(cpumask := states[state].cpumask + {i});
    states[state] := states[state].(cpus := states[state].cpus + 1);
    cur[i] := state;
    assert cur[..i + 1] == placed && states[..] == entered;
  }

  function Entered(states: seq<StateDesc>, cpu: nat, to: nat): seq<StateDesc>
    requires to < |states|
  {
    states[to := states[to].(cpumask := states[to].cpumask + {cpu}, cpus := states[to].cpus + 1)]
  }

  lemma PlacedAgrees(placed: seq<int>, states: seq<StateDesc>, state: nat)
    requires Agrees(placed, states) && state < |states|
    ensures Agrees(placed + [state], Entered(states, |placed|, state))
  {
    var after := Entered(states, |placed|, state);
    forall j | 0 <= j < |states|
      ensures after[j].cpumask == MaskOf(placed + [state], j) && after[j].cpus == |after[j].cpumask|
    {
      MaskOfPlaced(placed, state, j);
      assert after[j].cpumask == states[j].cpumask + if j == state then {|placed|} else {};
    }
  }

  lemma MaskOfPlaced(placed: seq<int>, state: int, j: int)
    ensures MaskOf(placed + [state], j) == MaskOf(placed, j) + if j == state then {|placed|} else {}
    ensures |placed| !in MaskOf(placed, j)
  {
  }

  method ClearStates(states: array<StateDesc>)
    modifies states
    ensures forall j :: 0 <= j < states.Length ==> states[j] == StateDesc(0, {}, 0)
  {
    var k := 0;
    while k < states.Length
      invariant 0 <= k <= states.Length
      invariant forall j :: 0 <= j < k ==> states[j] == StateDesc(0, {}, 0)
    {
      states[k] := StateDesc(0, {}, 0);
      k := k + 1;
    }
  }

  method ZeroLayout(layout: array<int>)
    modifies layout
    ensures forall i :: 0 <= i < layout.Length ==> layout[i] == 0
  {
    var i := 0;
    while i < layout.Length
      invariant 0 <= i <= layout.Length
      invariant forall k :: 0 <= k < i ==> layout[k] == 0
    {
      layout[i] := 0;
      i := i + 1;
    }
  }

  /** Place the first used cpus as requested, forced into the range of states. */
  method PlaceRequested(cur: array<int>, states: array<StateDesc>, layout: array<int>, used: nat)
    requires states.Length >= 1 && layout.Length == cur.Length && layout != cur && used <= cur.Length
    requires forall j :: 0 <= j < states.Length ==> states[j] == StateDesc(0, {}, 0)
    modifies cur, states, layout
    ensures Agrees(cur[..used], states[..])
    ensures forall q :: 0 <= q < used ==> cur[q] == Bounds(old(layout[q]), 0, states.Length)
    ensures forall j :: 0 <= j < states.Length ==> states[j].demand == 0
  {
    var i := 0;
    while i < used
      invariant 0 <= i <= used && Agrees(cur[..i], states[..])
      invariant forall q :: 0 <= q < i ==> cur[q] == Bounds(old(layout[q]), 0, states.Length)
      invariant forall q :: i <= q < cur.Length ==> layout[q] == old(layout[q])
      invariant forall j :: 0 <= j < states.Length ==> states[j].demand == 0
    {
      layout[i] := Bounds(layout[i], 0, states.Length);
      Place(cur, states, i, layout[i]);
      i := i + 1;
    }
  }

  /** Place the cpus from used on in state 0. */
  method PlaceRest(cur: array<int>, states: array<StateDesc>, used: nat)
    requires states.Length >= 1 && used <= cur.Length && Agrees(cur[..used], states[..])
    modifies cur, states
    ensures Agrees(cur[..cur.Length], states[..])
    ensures forall q :: 0 <= q < cur.Length ==> cur[q] == if q < used then old(cur[q]) else 0
    ensures forall j :: 0 <= j < states.Length ==> states[j].demand == old(states[j].demand)
  {
    var i := used;
    while i < cur.Length
      invariant used <= i <= cur.Length && Agrees(cur[..i], states[..])
      invariant forall q :: 0 <= q < i ==> cur[q] == if q < used then old(cur[q]) else 0
      invariant forall j :: 0 <= j < states.Length ==> states[j].demand == old(states[j].demand)
    {
      Place(cur, states, i, 0);
      i := i + 1;
    }
  }

  /** Initialise the index from the requested layout; an empty layout asks for state 0 everywhere. */
  method InitCpuStates(cur: array<int>, states: array<StateDesc>, layout: array<int>, length: nat)
    requires states.Length >= 1 && layout.Length == cur.Length && layout != cur
    modifies cur, states, layout
    ensures Agrees(cur[..], states[..])
    ensures forall i :: 0 <= i < cur.Length ==> cur[i] == StartState(old(layout[..]), length, states.Length, i)
    ensures forall j :: 0 <= j < states.Length ==> states[j].demand == 0
  {
    ClearStates(states);
    var used := length;
    if used == 0 {
      ZeroLayout(layout);
      used := cur.Length;
    }
    if used > cur.Length {
      used := cur.Length;
    }
    PlaceRequested(cur, states, layout, used);
    PlaceRest(cur, states, used);
    assert cur[..cur.Length] == cur[..];
  }
}
