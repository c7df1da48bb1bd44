/** Fill-in, commit and sleep/wake steps that end a greedy interval (mutate_gd.c). */
module CommitSteps {
  import opened Common
  import opened Power
  import opened StateIndex
  import opened Interval

  /** Nobody is selected yet and every cpu keeps its state. */
  method StartInterval(cur: array<int>, layout: array<int>, selected: array<int>)
    requires cur.Length == layout.Length == selected.Length
    requires layout != cur && selected != cur && layout != selected
    modifies layout, selected
    ensures layout[..] == cur[..]
    ensures forall i :: 0 <= i < selected.Length ==> selected[i] == 1
  {
    var i := 0;
    while i < cur.Length
      invariant 0 <= i <= cur.Length
      invariant forall k :: 0 <= k < i ==> layout[k] == cur[k] && selected[k] == 1
    {
      selected[i] := 1;
      layout[i] := cur[i];
      i := i + 1;
    }
  }

  lemma {:induction false} FillableGrows(selected: seq<int>, info: seq<ProcInfo>, j: nat, k: nat)
    requires j <= k <= |selected| == |info|
    ensures Fillable(selected, info, j) <= Fillable(selected, info, k)
    decreases k - j
  {
    if j < k {
      FillableGrows(selected, info, j + 1, k);
    }
  }

  /** Select awake cpus in index order until load cpus are selected. */
  method FillIn(selected: array<int>, info: array<ProcInfo>, load: int, already: nat)
    returns (total: nat, ghost scanned: nat)
    requires selected.Length == info.Length
    requires IsSelection(selected[..]) && Chosen(selected[..]) == already
    modifies selected
    ensures scanned <= info.Length && FilledUpTo(old(selected[..]), info[..], scanned, selected[..])
    ensures IsSelection(selected[..]) && Chosen(selected[..]) == total
    ensures total == if already >= load then already
      else Min(load, already + Fillable(old(selected[..]), info[..], info.Length))
  {
    ghost var before, now := selected[..], info[..];
    total := already;
    var i := 0;
    while i < info.Length
      invariant 0 <= i <= info.Length
      invariant FilledUpTo(before, now, i, selected[..])
      invariant IsSelection(selected[..]) && Chosen(selected[..]) == total
      invariant total == already + Fillable(before, now, i)
      invariant if already >= load then i == 0 else total <= load
    {
      if total >= load {
        break;
      }
      if selected[i] != 0 && info[i].sleepTime == 0 {
        SumUpdate(selected[..], i, 0);
        ghost var next := selected[..][i := 0];
        total := total + 1;
        selected[i] := 0;
        assert selected[..] == next;
      }
      i := i + 1;
    }
    scanned := i;
    FillableGrows(before, now, i, info.Length);
  }

  /** With at least load cpus awake, filling in ends with exactly load cpus selected. */
  method FillUp(selected: array<int>, info: array<ProcInfo>, load: nat, already: nat)
    requires selected.Length == info.Length && PowerInv(info[..])
    requires IsSelection(selected[..]) && Chosen(selected[..]) == already <= load <= AwakeCount(info[..])
    modifies selected
    ensures IsSelection(selected[..]) && Chosen(selected[..]) == load
    ensures Filled(old(selected[..]), info[..], selected[..])
  {
    FillableCovers(selected[..], info[..], info.Length);
    assert selected[..][..info.Length] == selected[..] && info[..][..info.Length] == info[..];
    var total;
    ghost var scanned;
    total, scanned := FillIn(selected, info, load, already);
  }

  method ClearMasks(newStates: array<StateDesc>)
    modifies newStates
    ensures forall k :: 0 <= k < newStates.Length ==> newStates[k].cpus == 0 && newStates[k].cpumask == {}
  {
    var j := 0;
    while j < newStates.Length
      invariant 0 <= j <= newStates.Length
      invariant forall k :: 0 <= k < j ==> newStates[k].cpus == 0 && newStates[k].cpumask == {}
    {
      newStates[j] := newStates[j].(cpus := 0, cpumask := {});
      j := j + 1;
    }
  }

  /** Count one selected cpu into its state. */
  method Enter(newStates: array<StateDesc>, cpu: nat, state: nat)
    requires state < newStates.Length
    modifies newStates
    ensures newStates[..] == Entered(old(newStates[..]), cpu, state)
  {
    newStates[state] := newStates[state].(cpus := newStates[state].cpus + 1);
    newStates[state] := newStates[state].(cpumask := newStates[state].cpumask + {cpu});
  }

  /** Put the selected ones of the cpus into their states and count them. */
  method DescribeLayout(newStates: array<StateDesc>, selected: array<int>, layout: array<int>) returns (provided: nat)
    requires selected.Length == layout.Length && selected != layout
    requires IsSelection(selected[..]) && InRange(layout[..], newStates.Length)
    modifies newStates
    ensures Describes(newStates[..], selected[..], layout[..], layout.Length)
    ensures provided == Chosen(selected[..])
  {
    ghost var sel, lay := selected[..], layout[..];
    ClearMasks(newStates);
    provided := 0;
    var i := 0;
    while i < layout.Length
      invariant 0 <= i <= layout.Length
      invariant Describes(newStates[..], sel, lay, i)
      invariant provided == Chosen(sel[..i])
    {
      SumPrefix(sel, i);
      DescribesStep(newStates[..], sel, lay, i);
      if selected[i] != 1 {
        Enter(newStates, i, layout[i]);
        provided := provided + 1;
      }
      i := i + 1;
    }
    assert sel[..layout.Length] == sel;
  }

  /** With nobody selected, cpu 0 is selected at state 0. */
  method Fallback(newStates: array<StateDesc>, selected: array<int>, layout: array<int>)
    requires selected.Length == layout.Length >= 1 && selected != layout && newStates.Length >= 1
    requires IsSelection(selected[..]) && Chosen(selected[..]) == 0 && InRange(layout[..], newStates.Length)
    requires Describes(newStates[..], selected[..], layout[..], layout.Length)
    modifies newStates, selected, layout
    ensures selected[..] == old(selected[..])[0 := 0] && layout[..] == old(layout[..])[0 := 0]
    ensures IsSelection(selected[..]) && Chosen(selected[..]) == 1
    ensures Describes(newStates[..], selected[..], layout[..], layout.Length)
  {
    ghost var sel, lay := selected[..], layout[..];
    NobodyChosen(sel);
    SumUpdate(sel, 0, 0);
    FallbackDescribes(newStates[..], sel, lay);
    Enter(newStates, 0, 0);
    layout[0] := 0;
    selected[0] := 0;
    layout[0] := 0;
    assert selected[..] == sel[0 := 0] && layout[..] == lay[0 := 0];
  }

  lemma NobodyChosen(selected: seq<int>)
    requires IsSelection(selected) && Chosen(selected) == 0
    ensures forall i :: 0 <= i < |selected| ==> selected[i] == 1
  {
    if i :| 0 <= i < |selected| && selected[i] == 0 {
      SumUpdate(selected, i, 1);
      SumBounds(selected[i := 1], 0, 1);
    }
  }

  lemma FallbackDescribes(states: seq<StateDesc>, selected: seq<int>, layout: seq<int>)
    requires |selected| == |layout| >= 1 && |states| >= 1
    requires forall i :: 0 <= i < |selected| ==> selected[i] == 1
    requires Describes(states, selected, layout, |layout|)
    ensures Describes(Entered(states, 0, 0), selected[0 := 0], layout[0 := 0], |layout|)
  {
    forall j | 0 <= j < |states|
      ensures ChosenMask(selected, layout, j, |layout|) == {}
      ensures ChosenMask(selected[0 := 0], layout[0 := 0], j, |layout|) == if j == 0 then {0} else {}
    {
    }
  }

  /** Install masks and counts and start collecting hints afresh. */
  method Publish(states: array<StateDesc>, newStates: array<StateDesc>)
    requires states != newStates && states.Length == newStates.Length
    modifies states
    ensures forall j :: 0 <= j < states.Length ==>
      states[j] == StateDesc(newStates[j].cpus, newStates[j].cpumask, 0)
  {
    var j := 0;
    while j < states.Length
      invariant 0 <= j <= states.Length
      invariant forall k :: 0 <= k < j ==> states[k] == StateDesc(newStates[k].cpus, newStates[k].cpumask, 0)
    {
      states[j] := states[j].(cpumask := newStates[j].cpumask);
      states[j] := states[j].(cpus := newStates[j].cpus);
      states[j] := states[j].(demand := 0);
      j := j + 1;
    }
  }

  /** Choose the layout to install: the selected cpus, or cpu 0 when there is none; then install it. */
  method Commit(states: array<StateDesc>, newStates: array<StateDesc>, selected: array<int>, layout: array<int>)
    requires states != newStates && 1 <= states.Length == newStates.Length
    requires selected.Length == layout.Length >= 1 && selected != layout
    requires IsSelection(selected[..]) && InRange(layout[..], states.Length)
    modifies states, newStates, selected, layout
    ensures IsSelection(selected[..]) && InRange(layout[..], states.Length)
    ensures Chosen(selected[..]) == Max(1, old(Chosen(selected[..])))
    ensures if old(Chosen(selected[..])) > 0
      then selected[..] == old(selected[..]) && layout[..] == old(layout[..])
      else selected[..] == old(selected[..])[0 := 0] && layout[..] == old(layout[..])[0 := 0]
    ensures Describes(states[..], selected[..], layout[..], layout.Length)
    ensures forall j :: 0 <= j < states.Length ==> states[j].demand == 0
  {
    SumBounds(selected[..], 0, 1);
    var provided := DescribeLayout(newStates, selected, layout);
    if provided == 0 {
      Fallback(newStates, selected, layout);
    }
    Publish(states, newStates);
  }

  /** Settle one cpu: selected ones run at their new state, the others sleep. */
  method SettleOne(cur: array<int>, states: array<StateDesc>, info: array<ProcInfo>, i: nat,
                   target: nat, selected: int, works: bool)
    requires i < cur.Length == info.Length && 1 <= states.Length && target < states.Length
    requires InRange(cur[..], states.Length)
    modifies cur, states, info
    ensures info[..] == old(info[..])[i := Settle(old(info[i]), selected)]
    ensures cur[..] == old(cur[..])[i := Applied(old(cur[i]), target, selected, old(info[i].awake), works)]
    ensures states[..] == Informed(old(cur[..]), old(states[..]), i,
                                   Applied(old(cur[i]), target, selected, old(info[i].awake), works))
  {
    if selected == 0 {
      info[i] := info[i].(sleepTime := 0);
      info[i] := info[i].(awake := 1);
      if target != cur[i] {
        SetFreq(cur, states, i, target, works);
      }
    } else if info[i].awake == 0 {
      info[i] := info[i].(sleepTime := NextSleep(info[i].sleepTime));
    } else {
      if cur[i] != 0 {
        SetFreq(cur, states, i, 0, works);
      }
      info[i] := info[i].(awake := 0);
      info[i] := info[i].(sleepTime := 1);
    }
  }

  ghost predicate CanSettle(pre: Snapshot, committed: seq<StateDesc>, selected: seq<int>, layout: seq<int>,
                            works: seq<bool>) {
    && |pre.info| == |pre.cur| == |selected| == |layout| == |works|
    && 1 <= |committed| && InRange(pre.cur, |committed|) && InRange(layout, |committed|)
  }

  /** The snapshot after the first i cpus were settled. */
  ghost function SettledPrefix(pre: Snapshot, committed: seq<StateDesc>, selected: seq<int>, layout: seq<int>,
                               works: seq<bool>, i: nat): (r: Snapshot)
    requires CanSettle(pre, committed, selected, layout, works) && i <= |pre.cur|
    ensures |r.info| == |r.cur| == |pre.cur| && InRange(r.cur, |committed|)
  {
    if i == 0 then pre
    else
      var r := SettledPrefix(pre, committed, selected, layout, works, i - 1);
      Snapshot(r.info[i - 1 := Settle(r.info[i - 1], selected[i - 1])],
               r.cur[i - 1 := Applied(r.cur[i - 1], layout[i - 1], selected[i - 1], r.info[i - 1].awake, works[i - 1])])
  }

  /** Masks and counts after the index was told about the first i cpus. */
  ghost function InformedPrefix(pre: Snapshot, committed: seq<StateDesc>, selected: seq<int>, layout: seq<int>,
                                works: seq<bool>, i: nat): (r: seq<StateDesc>)
    requires CanSettle(pre, committed, selected, layout, works) && i <= |pre.cur|
    ensures |r| == |committed|
  {
    if i == 0 then committed
    else
      Informed(SettledPrefix(pre, committed, selected, layout, works, i - 1).cur,
               InformedPrefix(pre, committed, selected, layout, works, i - 1), i - 1,
               SettledPrefix(pre, committed, selected, layout, works, i).cur[i - 1])
  }

  /** Settling the cpus one by one settles each of them as if it were alone. */
  lemma {:induction false} PrefixMeaning(pre: Snapshot, committed: seq<StateDesc>, selected: seq<int>, layout: seq<int>,
                                         works: seq<bool>, i: nat)
    requires CanSettle(pre, committed, selected, layout, works) && i <= |pre.cur|
    ensures var r := SettledPrefix(pre, committed, selected, layout, works, i);
      forall k :: 0 <= k < |pre.cur| ==>
        && r.info[k] == (if k < i then Settle(pre.info[k], selected[k]) else pre.info[k])
        && r.cur[k] == (if k < i then Applied(pre.cur[k], layout[k], selected[k], pre.info[k].awake, works[k])
                        else pre.cur[k])
  {
    if i > 0 {
      PrefixMeaning(pre, committed, selected, layout, works, i - 1);
    }
  }

  lemma {:induction false} PrefixInforms(pre: Snapshot, committed: seq<StateDesc>, selected: seq<int>, layout: seq<int>,
                                         works: seq<bool>, post: seq<int>, i: nat)
    requires CanSettle(pre, committed, selected, layout, works) && i <= |pre.cur|
    requires post == SettledPrefix(pre, committed, selected, layout, works, |pre.cur|).cur
    ensures InformedPrefix(pre, committed, selected, layout, works, i) == InformAll(pre.cur, post, committed, i)
  {
    if i > 0 {
      PrefixInforms(pre, committed, selected, layout, works, post, i - 1);
      PrefixMeaning(pre, committed, selected, layout, works, i - 1);
      PrefixMeaning(pre, committed, selected, layout, works, i);
      PrefixMeaning(pre, committed, selected, layout, works, |pre.cur|);
    }
  }

  /** All cpus settled: everyone's sleep time and state, and what the index makes of it. */
  lemma SettledMeaning(pre: Snapshot, committed: seq<StateDesc>, selected: seq<int>, layout: seq<int>,
                       works: seq<bool>, post: Snapshot, states: seq<StateDesc>)
    requires CanSettle(pre, committed, selected, layout, works)
    requires post == SettledPrefix(pre, committed, selected, layout, works, |pre.cur|)
    requires states == InformedPrefix(pre, committed, selected, layout, works, |pre.cur|)
    ensures post.info == SettleAll(pre.info, selected)
    ensures post.cur == SettledCur(pre.info, pre.cur, selected, layout, works)
    ensures Recounts(committed, pre.cur, post.cur, states)
    ensures TotalCpus(states) == TotalCpus(committed)
    ensures forall j :: 0 <= j < |states| ==> states[j].demand == committed[j].demand
  {
    PrefixMeaning(pre, committed, selected, layout, works, |pre.cur|);
    PrefixInforms(pre, committed, selected, layout, works, post.cur, |pre.cur|);
    InformAllKeepsTotal(pre.cur, post.cur, committed, |pre.cur|);
  }

  /** Settle all cpus. */
  method SettleCpus(cur: array<int>, states: array<StateDesc>, info: array<ProcInfo>,
                    layout: array<int>, selected: array<int>, works: seq<bool>)
    requires cur.Length == info.Length == layout.Length == selected.Length == |works| && 1 <= states.Length
    requires layout != cur && selected != cur
    requires InRange(cur[..], states.Length) && InRange(layout[..], states.Length)
    modifies cur, states, info
    ensures info[..] == SettleAll(old(info[..]), selected[..])
    ensures cur[..] == SettledCur(old(info[..]), old(cur[..]), selected[..], layout[..], works)
    ensures InRange(cur[..], states.Length)
    ensures Recounts(old(states[..]), old(cur[..]), cur[..], states[..])
    ensures TotalCpus(states[..]) == old(TotalCpus(states[..]))
    ensures forall j :: 0 <= j < states.Length ==> states[j].demand == old(states[j].demand)
  {
    ghost var pre, committed, sel, lay := Snapshot(info[..], cur[..]), states[..], selected[..], layout[..];
    var i := 0;
    while i < cur.Length
      invariant 0 <= i <= cur.Length
      invariant Snapshot(info[..], cur[..]) == SettledPrefix(pre, committed, sel, lay, works, i)
      invariant states[..] == InformedPrefix(pre, committed, sel, lay, works, i)
    {
      SettleOne(cur, states, info, i, layout[i], selected[i], works[i]);
      i := i + 1;
    }
    SettledMeaning(pre, committed, sel, lay, works, Snapshot(info[..], cur[..]), states[..]);
  }
}
