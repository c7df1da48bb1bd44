/**
 What an interval of the greedy mutator really changes (mutate_gd.c). The budget is charged for the
 layout; cpus that are put to sleep go to state 0 as well, and nobody pays for that.
 */
module ActualCost {
  import opened Common
  import opened Power
  import opened StateIndex
  import opened Interval
  import opened AuctionRun

  /** The cpus that run on and whose speed change works. */
  function Kept(selected: seq<int>, works: seq<bool>): (m: seq<bool>)
    requires |selected| == |works|
    ensures |m| == |selected| && forall i :: 0 <= i < |m| ==> (m[i] <==> selected[i] == 0 && works[i])
  {
    seq(|selected|, i requires 0 <= i < |selected| => selected[i] == 0 && works[i])
  }

  /** The awake cpus that are put to sleep and whose speed change works. */
  function Dropped(woken: seq<ProcInfo>, selected: seq<int>, works: seq<bool>): (m: seq<bool>)
    requires |woken| == |selected| == |works|
    ensures |m| == |selected|
    ensures forall i :: 0 <= i < |m| ==> (m[i] <==> selected[i] != 0 && woken[i].awake != 0 && works[i])
  {
    seq(|selected|, i requires 0 <= i < |selected| => selected[i] != 0 && woken[i].awake != 0 && works[i])
  }

  /** State changes of the cpus that run on. */
  function SelectedCost(cur: seq<int>, layout: seq<int>, selected: seq<int>, works: seq<bool>): int
    requires |cur| == |layout| == |selected| == |works|
  {
    SumWhere(Kept(selected, works), Gaps(layout, cur))
  }

  /** State changes of the cpus that are put to sleep. */
  function ParkedCost(cur: seq<int>, woken: seq<ProcInfo>, selected: seq<int>, works: seq<bool>): int
    requires |cur| == |woken| == |selected| == |works|
  {
    SumWhere(Dropped(woken, selected, works), cur)
  }

  ghost predicate AllSucceed(works: seq<bool>) {
    forall i :: 0 <= i < |works| ==> works[i]
  }

  /** Whatever works: an interval changes the states of the selected cpus and those of the cpus put to sleep. */
  lemma ActualChange(pre: Snapshot, d: Decision, post: Snapshot, states: nat)
    requires Step(pre, d, post) && InRange(pre.cur, states)
    ensures Distance(post.cur, pre.cur)
      == SelectedCost(pre.cur, d.layout, d.selected, d.works) + ParkedCost(pre.cur, d.woken, d.selected, d.works)
  {
    SumAdd(Pick(Kept(d.selected, d.works), Gaps(d.layout, pre.cur)),
           Pick(Dropped(d.woken, d.selected, d.works), pre.cur), Gaps(post.cur, pre.cur));
  }

  /** Only selected cpus are given new states. */
  lemma UnselectedStay(cur: seq<int>, hints: seq<int>, delta: int, load: nat, minimum: int, woken: seq<ProcInfo>,
                       dir: int, junk: seq<seq<int>>, trace: seq<Sale>, selected: seq<int>, layout: seq<int>)
    requires Planned(cur, hints, delta, load, minimum, woken, dir, junk, trace, selected, layout)
    ensures |layout| == |selected| == |cur| && InRange(cur, |hints|)
    ensures forall i :: 0 <= i < |cur| && selected[i] != 0 ==> layout[i] == cur[i]
  {
    AuctionKeepsAccounts(cur, |hints|, dir, delta, trace, |trace| - 1);
  }

  /** The cost the budget pays for is that of the selected cpus. */
  lemma LayoutCost(cur: seq<int>, layout: seq<int>, selected: seq<int>, works: seq<bool>)
    requires |layout| == |selected| == |works| == |cur| && AllSucceed(works)
    requires forall i :: 0 <= i < |cur| && selected[i] != 0 ==> layout[i] == cur[i]
    ensures SelectedCost(cur, layout, selected, works) == Distance(layout, cur)
  {
    assert Pick(Kept(selected, works), Gaps(layout, cur)) == Gaps(layout, cur);
  }

  /**
   If every speed change works, an interval changes exactly what its layout costs and what the
   cpus it puts to sleep give up, so it stays within any limit exactly when the layout leaves
   room for the latter.
   */
  lemma ActualWithinLimit(pre: Snapshot, hints: seq<int>, delta: int, minimum: int, dir: int, junk: seq<seq<int>>,
                          trace: seq<Sale>, d: Decision, post: Snapshot, limit: int)
    requires Planned(pre.cur, hints, delta, d.load, minimum, d.woken, dir, junk, trace, d.selected, d.layout)
    requires Step(pre, d, post) && AllSucceed(d.works)
    ensures Distance(post.cur, pre.cur) == Distance(d.layout, pre.cur) + ParkedCost(pre.cur, d.woken, d.selected, d.works)
    ensures Distance(post.cur, pre.cur) <= limit
      <==> ParkedCost(pre.cur, d.woken, d.selected, d.works) <= limit - Distance(d.layout, pre.cur)
  {
    UnselectedStay(pre.cur, hints, delta, d.load, minimum, d.woken, dir, junk, trace, d.selected, d.layout);
    ActualChange(pre, d, post, |hints|);
    LayoutCost(pre.cur, d.layout, d.selected, d.works);
  }

  // ----- What can be said before the interval

  /** Awake cpus are selected or put to sleep; with all selected cpus awake nobody is both or neither. */
  lemma {:induction false} AwakeSplit(woken: seq<ProcInfo>, selected: seq<int>, works: seq<bool>) returns (dropped: nat)
    requires |woken| == |selected| == |works| && AllSucceed(works) && IsSelection(selected) && PowerInv(woken)
    ensures dropped + Chosen(selected) >= AwakeCount(woken)
    ensures (forall i :: 0 <= i < |woken| && selected[i] == 0 ==> woken[i].awake == 1) ==>
      dropped + Chosen(selected) == AwakeCount(woken)
    ensures dropped > 0 <==> exists i :: 0 <= i < |woken| && Dropped(woken, selected, works)[i]
  {
    if woken == [] {
      dropped := 0;
    } else {
      var n := |woken| - 1;
      dropped := AwakeSplit(woken[..n], selected[..n], works[..n]);
      assert Consistent(woken[n]);
      assert Dropped(woken, selected, works)[..n] == Dropped(woken[..n], selected[..n], works[..n]);
      if Dropped(woken, selected, works)[n] {
        dropped := dropped + 1;
      } else if i :| 0 <= i < |woken| && Dropped(woken, selected, works)[i] {
        assert Dropped(woken[..n], selected[..n], works[..n])[i];
      }
    }
  }

  lemma NobodyDropped(cur: seq<int>, woken: seq<ProcInfo>, selected: seq<int>, works: seq<bool>)
    requires |cur| == |woken| == |selected| == |works|
    requires forall i :: 0 <= i < |cur| ==> !Dropped(woken, selected, works)[i]
    ensures ParkedCost(cur, woken, selected, works) == 0
  {
    SumWhereZero(Dropped(woken, selected, works), cur);
  }

  lemma EverybodyChosen(selected: seq<int>)
    requires IsSelection(selected) && Chosen(selected) == |selected|
    ensures forall i :: 0 <= i < |selected| ==> selected[i] == 0
  {
    if i :| 0 <= i < |selected| && selected[i] != 0 {
      SumAtLeastEntry(selected, i);
    }
  }

  /** With load for all cpus nobody is put to sleep: the actual change is the cost of the layout. */
  lemma FullLoadKeepsBudget(pre: Snapshot, hints: seq<int>, delta: int, minimum: int, dir: int, junk: seq<seq<int>>,
                            trace: seq<Sale>, d: Decision, post: Snapshot)
    requires Planned(pre.cur, hints, delta, d.load, minimum, d.woken, dir, junk, trace, d.selected, d.layout)
    requires Step(pre, d, post) && AllSucceed(d.works) && d.load == |pre.cur|
    ensures Distance(post.cur, pre.cur) <= Max(delta, 0)
  {
    EverybodyChosen(d.selected);
    NobodyDropped(pre.cur, d.woken, d.selected, d.works);
    ActualWithinLimit(pre, hints, delta, minimum, dir, junk, trace, d, post, Max(delta, 0));
    PlanCost(pre.cur, hints, delta, d.load, minimum, d.woken, dir, junk, trace, d.selected, d.layout);
  }

  /** A round is held only with enough hints and a budget. */
  lemma AuctionsNeedBudget(cur: seq<int>, hints: seq<int>, delta: int, load: nat, minimum: int, woken: seq<ProcInfo>,
                           dir: int, junk: seq<seq<int>>, trace: seq<Sale>)
    requires HeldAuction(cur, hints, delta, load, minimum, woken, dir, junk, trace)
    ensures |trace| > 1 ==> Sum(hints) >= minimum && delta > 0
  {
    if |trace| > 1 {
      assert Sold(cur, |hints|, dir, trace[0], trace[0 + 1]);
    }
  }

  /** Without an auction only awake cpus are selected. */
  lemma NoAuctionSelectsAwake(cur: seq<int>, hints: seq<int>, delta: int, load: nat, minimum: int, woken: seq<ProcInfo>,
                              dir: int, junk: seq<seq<int>>, trace: seq<Sale>, selected: seq<int>, layout: seq<int>)
    requires Planned(cur, hints, delta, load, minimum, woken, dir, junk, trace, selected, layout)
    requires load > 0 && (Sum(hints) < minimum || delta <= 0) && PowerInv(woken) && |woken| == |cur|
    ensures |layout| == |selected| == |cur| && layout == cur
    ensures forall i :: 0 <= i < |cur| && selected[i] == 0 ==> woken[i].awake == 1
  {
    AuctionsNeedBudget(cur, hints, delta, load, minimum, woken, dir, junk, trace);
  }

  /** With few hints or no budget, and no more cpus awake than the load asks for, nothing changes its state. */
  lemma QuietIntervalChangesNothing(pre: Snapshot, hints: seq<int>, delta: int, minimum: int, dir: int,
                                    junk: seq<seq<int>>, trace: seq<Sale>, d: Decision, post: Snapshot)
    requires Planned(pre.cur, hints, delta, d.load, minimum, d.woken, dir, junk, trace, d.selected, d.layout)
    requires Step(pre, d, post) && AllSucceed(d.works) && PowerInv(pre.info)
    requires Sum(hints) < minimum || delta <= 0
    requires d.load > 0 && AwakeCount(pre.info) <= d.load
    ensures Distance(post.cur, pre.cur) == 0
  {
    WakingKeepsPower(pre.info, d.load, d.woken);
    NoAuctionSelectsAwake(pre.cur, hints, delta, d.load, minimum, d.woken, dir, junk, trace, d.selected, d.layout);
    var dropped := AwakeSplit(d.woken, d.selected, d.works);
    NobodyDropped(pre.cur, d.woken, d.selected, d.works);
    ActualWithinLimit(pre, hints, delta, minimum, dir, junk, trace, d, post, 0);
    DistanceSelf(pre.cur);
  }

  lemma WakingKeepsPower(before: seq<ProcInfo>, req: int, after: seq<ProcInfo>)
    requires PowerInv(before) && WokeUp(before, req, after)
    ensures PowerInv(after)
    ensures forall i :: 0 <= i < |before| && before[i].awake == 1 ==> after[i].awake == 1
    ensures AwakeCount(before) >= req ==> after == before
  {
    forall i | 0 <= i < |before|
      ensures Consistent(after[i]) && (before[i].awake == 1 ==> after[i].awake == 1)
    {
      assert Consistent(before[i]);
    }
    if AwakeCount(before) >= req {
      assert WokeUp(before, req, before);
      WakingIsDetermined(before, req, after, before);
    }
  }

  /** With more cpus awake than needed somebody is put to sleep; from states above delta that breaks the budget. */
  lemma SleepBreaksBudget(pre: Snapshot, hints: seq<int>, delta: int, minimum: int, dir: int, junk: seq<seq<int>>,
                          trace: seq<Sale>, d: Decision, post: Snapshot)
    requires Planned(pre.cur, hints, delta, d.load, minimum, d.woken, dir, junk, trace, d.selected, d.layout)
    requires Step(pre, d, post) && AllSucceed(d.works) && PowerInv(pre.info)
    requires AwakeCount(pre.info) > Max(1, d.load)
    requires forall i :: 0 <= i < |pre.info| && pre.info[i].awake == 1 ==> pre.cur[i] > delta
    ensures Distance(post.cur, pre.cur) > delta
  {
    WakingKeepsPower(pre.info, d.load, d.woken);
    var dropped := AwakeSplit(d.woken, d.selected, d.works);
    var i :| 0 <= i < |d.woken| && Dropped(d.woken, d.selected, d.works)[i];
    assert Consistent(d.woken[i]);
    UnselectedStay(pre.cur, hints, delta, d.load, minimum, d.woken, dir, junk, trace, d.selected, d.layout);
    SumWhereNonNegative(Dropped(d.woken, d.selected, d.works), pre.cur);
    ActualWithinLimit(pre, hints, delta, minimum, dir, junk, trace, d, post, delta);
  }
}
