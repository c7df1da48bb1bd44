/**
 The counts of cpus per state after a greedy interval (mutate_gd.c). The commit installs counts for
 the new layout, and the speed changes that follow count every cpu that moves once more. Whether
 the counts are right in the end depends on the order in which the auction sells states.
 */
module CountDrift {
  import opened Common
  import opened StateIndex
  import opened Interval
  import opened Auction
  import opened AuctionRun

  /** Every count is the size of its mask. */
  ghost predicate CountsRight(states: seq<StateDesc>) {
    forall j :: 0 <= j < |states| ==> states[j].cpus == |states[j].cpumask|
  }

  // ----- Masks and counts after the speed changes

  /** Cpus that change their state go where the layout says when selected, and to state 0 when not. */
  ghost predicate Moving(cur: seq<int>, post: seq<int>, selected: seq<int>, layout: seq<int>) {
    && |cur| == |post| == |selected| == |layout|
    && forall i :: 0 <= i < |cur| && post[i] != cur[i] ==> post[i] == if selected[i] == 1 then 0 else layout[i]
  }

  /** Unselected ones of the first k cpus that changed their state to j. */
  function ParkedIn(cur: seq<int>, post: seq<int>, selected: seq<int>, j: int, k: nat): (s: set<nat>)
    requires k <= |cur| == |post| == |selected|
    ensures forall i :: i in s ==> i < k
  {
    if k == 0 then {}
    else
      var s := ParkedIn(cur, post, selected, j, k - 1);
      if selected[k - 1] == 1 && post[k - 1] != cur[k - 1] && post[k - 1] == j then s + {k - 1} else s
  }

  predicate Joins(cur: seq<int>, post: seq<int>, selected: seq<int>, i: nat, j: int)
    requires i < |cur| == |post| == |selected|
  {
    selected[i] != 1 && post[i] != cur[i] && post[i] == j
  }

  predicate Leaves(cur: seq<int>, post: seq<int>, i: nat, j: int)
    requires i < |cur| == |post|
  {
    post[i] != cur[i] && cur[i] == j
  }

  /** Selected arrivals in state j minus all departures from it, among the first k cpus. */
  function Drift(cur: seq<int>, post: seq<int>, selected: seq<int>, j: int, k: nat): int
    requires k <= |cur| == |post| == |selected|
  {
    if k == 0 then 0
    else
      Drift(cur, post, selected, j, k - 1)
      + (if Joins(cur, post, selected, k - 1, j) then 1 else 0)
      - (if Leaves(cur, post, k - 1, j) then 1 else 0)
  }

  /** Mask of state j when the first k cpus were informed. */
  function MaskAt(cur: seq<int>, post: seq<int>, selected: seq<int>, layout: seq<int>, j: int, k: nat): set<nat>
    requires k <= |cur| == |post| == |selected| == |layout|
  {
    ChosenMask(selected, layout, j, |layout|) + ParkedIn(cur, post, selected, j, k)
  }

  lemma ChosenMember(selected: seq<int>, layout: seq<int>, j: int, k: nat)
    requires k < |selected| == |layout|
    ensures k in ChosenMask(selected, layout, j, |layout|) <==> selected[k] != 1 && layout[k] == j
  {
  }

  lemma Absorb(m: set<nat>, k: nat)
    ensures k in m ==> m + {k} == m
    ensures k !in m ==> m - {k} == m && |m + {k}| == |m| + 1
  {
  }

  /** State j with this mask, and a count that differs from the size of the mask by the drift. */
  function Drifted(hints: int, cur: seq<int>, post: seq<int>, selected: seq<int>, layout: seq<int>, j: int,
                   k: nat): StateDesc
    requires k <= |cur| == |post| == |selected| == |layout|
  {
    var mask := MaskAt(cur, post, selected, layout, j, k);
    StateDesc(|mask| + Drift(cur, post, selected, j, k), mask, hints)
  }

  /** What one more speed change does to the mask of state j. */
  lemma MaskStep(cur: seq<int>, post: seq<int>, selected: seq<int>, layout: seq<int>, j: int, k: nat)
    requires Moving(cur, post, selected, layout) && k < |cur|
    ensures var m, next := MaskAt(cur, post, selected, layout, j, k), MaskAt(cur, post, selected, layout, j, k + 1);
      && (post[k] == cur[k] ==> next == m)
      && (post[k] != cur[k] && j == post[k] ==> next == m + {k} && (selected[k] != 1 <==> k in m))
      && (post[k] != cur[k] && j != post[k] ==> next == m && (j == cur[k] ==> k !in m))
  {
    var p, c := ParkedIn(cur, post, selected, j, k), ChosenMask(selected, layout, j, |layout|);
    ChosenMember(selected, layout, j, k);
    assert k !in p;
    assert c + (p + {k}) == c + p + {k};
    assert k in c ==> c + p + {k} == c + p;
  }

  /** A state the speed change does not concern, and one it concerns as target or as origin. */
  lemma InformedAt(cur: seq<int>, states: seq<StateDesc>, cpu: nat, state: int, j: nat)
    requires cpu < |cur| && 0 <= cur[cpu] < |states| && 0 <= state < |states| && j < |states|
    ensures var d, next := states[j], Informed(cur, states, cpu, state)[j];
      && (cur[cpu] == state || (j != state && j != cur[cpu]) ==> next == d)
      && (cur[cpu] != state && j == state ==> next == d.(cpumask := d.cpumask + {cpu}, cpus := d.cpus + 1))
      && (cur[cpu] != state && j == cur[cpu] ==> next == d.(cpumask := d.cpumask - {cpu}, cpus := d.cpus - 1))
  {
  }

  /** One more speed change keeps mask and drift of state j in step. */
  lemma DriftStep(states: seq<StateDesc>, cur: seq<int>, post: seq<int>, selected: seq<int>, layout: seq<int>, j: nat,
                  k: nat)
    requires Moving(cur, post, selected, layout) && InRange(cur, |states|) && InRange(post, |states|)
    requires j < |states| && k < |cur|
    requires states[j] == Drifted(states[j].demand, cur, post, selected, layout, j, k)
    ensures Informed(cur, states, k, post[k])[j] == Drifted(states[j].demand, cur, post, selected, layout, j, k + 1)
  {
    MaskStep(cur, post, selected, layout, j, k);
    InformedAt(cur, states, k, post[k], j);
    Absorb(states[j].cpumask, k);
  }

  lemma NobodyInformed(cur: seq<int>, post: seq<int>, selected: seq<int>, layout: seq<int>, j: int)
    requires |cur| == |post| == |selected| == |layout|
    ensures MaskAt(cur, post, selected, layout, j, 0) == ChosenMask(selected, layout, j, |layout|)
  {
  }

  /**
   After the speed changes of the first k cpus: the masks are the committed ones and the parked
   cpus, and every count differs from the size of its mask by exactly its drift.
   */
  lemma {:induction false} MasksAndDrift(committed: seq<StateDesc>, cur: seq<int>, post: seq<int>, selected: seq<int>,
                                         layout: seq<int>, j: nat, k: nat)
    requires Moving(cur, post, selected, layout) && InRange(cur, |committed|) && InRange(post, |committed|)
    requires j < |committed| && k <= |cur|
    requires committed[j].cpumask == ChosenMask(selected, layout, j, |layout|)
    requires committed[j].cpus == |committed[j].cpumask|
    ensures InformAll(cur, post, committed, k)[j] == Drifted(committed[j].demand, cur, post, selected, layout, j, k)
  {
    if k == 0 {
      NobodyInformed(cur, post, selected, layout, j);
    } else {
      MasksAndDrift(committed, cur, post, selected, layout, j, k - 1);
      DriftStep(InformAll(cur, post, committed, k - 1), cur, post, selected, layout, j, k - 1);
    }
  }

  ghost predicate NoDrift(cur: seq<int>, post: seq<int>, selected: seq<int>, states: nat)
    requires |cur| == |post| == |selected|
  {
    forall j :: 0 <= j < states ==> Drift(cur, post, selected, j, |cur|) == 0
  }

  /** All counts are right exactly when no state drifted. */
  lemma CountsAreDrifts(committed: seq<StateDesc>, cur: seq<int>, post: seq<int>, selected: seq<int>, layout: seq<int>,
                        states: seq<StateDesc>)
    requires Moving(cur, post, selected, layout)
    requires Describes(committed, selected, layout, |layout|) && Recounts(committed, cur, post, states)
    ensures CountsRight(states) <==> NoDrift(cur, post, selected, |states|)
  {
    forall j | 0 <= j < |states|
      ensures states[j].cpus == |states[j].cpumask| <==> Drift(cur, post, selected, j, |cur|) == 0
    {
      MasksAndDrift(committed, cur, post, selected, layout, j, |cur|);
    }
  }

  lemma {:induction false} DriftWithoutMoves(cur: seq<int>, post: seq<int>, selected: seq<int>, j: int, k: nat)
    requires k <= |cur| == |selected| && post == cur
    ensures Drift(cur, post, selected, j, k) == 0
  {
    if k > 0 {
      DriftWithoutMoves(cur, post, selected, j, k - 1);
    }
  }

  /** A state that somebody leaves and no selected cpu joins is counted short. */
  lemma {:induction false} DriftWithoutJoins(cur: seq<int>, post: seq<int>, selected: seq<int>, j: int, k: nat, x: nat)
    requires k <= |cur| == |post| == |selected| && x < |cur| && Leaves(cur, post, x, j)
    requires forall i :: 0 <= i < k ==> !Joins(cur, post, selected, i, j)
    ensures Drift(cur, post, selected, j, k) <= if x < k then -1 else 0
  {
    if k > 0 {
      DriftWithoutJoins(cur, post, selected, j, k - 1, x);
    }
  }

  // ----- The order of the sales

  /** Nobody gets a new state before all cpus that are in it were given theirs. */
  ghost predicate Ordered(cur: seq<int>, layout: seq<int>, rank: seq<nat>) {
    && |layout| == |rank| == |cur|
    && forall p, q :: 0 <= p < |cur| && 0 <= q < |cur| && layout[q] != cur[q] && cur[p] == layout[q] ==>
      rank[p] < rank[q]
  }

  /** After k rounds: rank is the round in which a cpu was selected, k for the unselected ones. */
  ghost predicate Ranked(cur: seq<int>, s: Sale, rank: seq<nat>, k: nat) {
    && |s.selected| == |cur| && Ordered(cur, s.layout, rank)
    && forall i :: 0 <= i < |cur| ==>
      if s.selected[i] == 1 then rank[i] == k && s.layout[i] == cur[i] else rank[i] < k
  }

  /** A state is sold to one of the unselected cpus that are in it, if there are any. */
  lemma OwnStateFirst(states: nat, delta: nat, dir: int, layout: seq<int>, selected: seq<int>, w: nat, p: int, q: nat)
    requires |selected| == |layout| && IsDirection(dir) && w < states && p != -1
    requires forall i :: 0 <= i < |layout| ==> 0 <= layout[i] < states && (selected[i] == 0 || selected[i] == 1)
    requires IsWinningProc(Bids(states, delta, dir, layout, w), selected, p)
    requires q < |layout| && selected[q] == 1 && layout[q] == w
    ensures 0 <= p < |layout| && layout[p] == w
  {
    WinningProcIsAffordable(states, delta, dir, layout, selected, w, p);
    BidMeaning(states, delta, dir, layout[q], w);
    BidMeaning(states, delta, dir, layout[p], w);
  }

  /** Ranks after one more sale: the buyer gets rank k, whoever is still unselected rank k + 1. */
  function NextRanks(rank: seq<nat>, selected: seq<int>, buyer: nat, k: nat): (r: seq<nat>)
    requires |rank| == |selected|
    ensures |r| == |rank|
    ensures forall i :: 0 <= i < |r| ==>
      r[i] == if i == buyer then k else if selected[i] == 1 then k + 1 else rank[i]
  {
    seq(|rank|, i requires 0 <= i < |rank| => if i == buyer then k else if selected[i] == 1 then k + 1 else rank[i])
  }

  lemma SaleKeepsOrder(cur: seq<int>, states: nat, dir: int, pre: Sale, post: Sale, rank: seq<nat>, k: nat,
                       junk: seq<int>, procs: seq<int>, winner: int, src: int)
    requires IsDirection(dir) && SoldTo(cur, states, dir, pre, post, junk, procs, winner, src)
    requires IsSelection(pre.selected) && InRange(pre.layout, states) && Ranked(cur, pre, rank, k)
    ensures Ranked(cur, post, NextRanks(rank, pre.selected, procs[winner], k), k + 1)
  {
    var b: nat := procs[winner];
    WinningProcIsAffordable(states, pre.left, dir, pre.layout, pre.selected, winner, b);
    var next := NextRanks(rank, pre.selected, b, k);
    forall p, q | 0 <= p < |cur| && 0 <= q < |cur| && post.layout[q] != cur[q] && cur[p] == post.layout[q]
      ensures next[p] < next[q]
    {
      if q == b && pre.selected[p] == 1 {
        OwnStateFirst(states, pre.left, dir, pre.layout, pre.selected, winner, b, p);
      }
    }
  }

  /** Every auction sells in an order in which own states go first. */
  lemma {:induction false} AuctionIsOrdered(cur: seq<int>, states: nat, dir: int, budget: int, trace: seq<Sale>, k: nat)
    returns (rank: seq<nat>)
    requires cur != [] && IsDirection(dir) && IsAuction(cur, states, dir, trace) && k < |trace|
    requires IsOpening(cur, states, budget, trace[0])
    ensures Ranked(cur, trace[k], rank, k)
  {
    if k == 0 {
      rank := seq(|cur|, _ => 0);
    } else {
      var before := AuctionIsOrdered(cur, states, dir, budget, trace, k - 1);
      AuctionKeepsAccounts(cur, states, dir, budget, trace, k - 1);
      var pre, post := trace[k - 1], trace[k - 1 + 1];
      assert Sold(cur, states, dir, pre, post);
      var junk, procs, winner: int, src :| SoldTo(cur, states, dir, pre, post, junk, procs, winner, src);
      SaleKeepsOrder(cur, states, dir, pre, post, before, k - 1, junk, procs, winner, src);
      var p: int := procs[winner];
      rank := NextRanks(before, pre.selected, p, k - 1);
    }
  }

  /** The committed layout is in order as well; the fallback for load 0 moves cpu 0 alone. */
  lemma PlanIsOrdered(cur: seq<int>, hints: seq<int>, delta: int, load: nat, minimum: int, woken: seq<ProcInfo>,
                      dir: int, junk: seq<seq<int>>, trace: seq<Sale>, selected: seq<int>, layout: seq<int>)
    returns (rank: seq<nat>)
    requires Planned(cur, hints, delta, load, minimum, woken, dir, junk, trace, selected, layout)
    ensures Ordered(cur, layout, rank)
  {
    if load > 0 {
      rank := AuctionIsOrdered(cur, |hints|, dir, delta, trace, |trace| - 1);
    } else {
      rank := seq(|cur|, i requires 0 <= i < |cur| => if cur[i] == 0 then 0 else 1);
    }
  }

  ghost predicate RanksBelow(rank: seq<nat>, bound: nat) {
    forall i :: 0 <= i < |rank| ==> rank[i] < bound
  }

  lemma SomeBound(rank: seq<nat>) returns (bound: nat)
    ensures RanksBelow(rank, bound)
  {
    bound := MaxEntry(rank) + 1;
  }

  /** Some cpu that moves, the last one in the order of the sales, leaves a state nobody joins. */
  lemma LastMover(cur: seq<int>, post: seq<int>, selected: seq<int>, layout: seq<int>, rank: seq<nat>, bound: nat, x: nat)
    returns (y: nat)
    requires Moving(cur, post, selected, layout) && Ordered(cur, layout, rank) && RanksBelow(rank, bound)
    requires x < |cur| && post[x] != cur[x]
    ensures y < |cur| && post[y] != cur[y]
    ensures forall i :: 0 <= i < |cur| ==> !Joins(cur, post, selected, i, cur[y])
    decreases bound - rank[x]
  {
    if q :| 0 <= q < |cur| && Joins(cur, post, selected, q, cur[x]) {
      y := LastMover(cur, post, selected, layout, rank, bound, q);
    } else {
      y := x;
    }
  }

  /** With sales in order, counts are right after the speed changes exactly when nobody moved. */
  lemma OrderedCounts(committed: seq<StateDesc>, cur: seq<int>, post: seq<int>, selected: seq<int>, layout: seq<int>,
                      rank: seq<nat>, states: seq<StateDesc>)
    requires Moving(cur, post, selected, layout) && Ordered(cur, layout, rank)
    requires Describes(committed, selected, layout, |layout|) && Recounts(committed, cur, post, states)
    ensures CountsRight(states) <==> post == cur
  {
    var n := |cur|;
    CountsAreDrifts(committed, cur, post, selected, layout, states);
    if post == cur {
      forall j | 0 <= j < |committed|
        ensures Drift(cur, post, selected, j, n) == 0
      {
        DriftWithoutMoves(cur, post, selected, j, n);
      }
    } else {
      var x :| 0 <= x < n && post[x] != cur[x];
      var bound := SomeBound(rank);
      var y := LastMover(cur, post, selected, layout, rank, bound, x);
      DriftWithoutJoins(cur, post, selected, cur[y], n, y);
    }
  }

  lemma SettledMoves(info: seq<ProcInfo>, cur: seq<int>, selected: seq<int>, layout: seq<int>, works: seq<bool>,
                     post: Snapshot)
    requires Settles(info, cur, selected, layout, works, post) && IsSelection(selected)
    ensures Moving(cur, post.cur, selected, layout)
  {
  }

  /**
   A whole greedy interval: afterwards every count is the size of its mask exactly when no cpu
   changed its state, neither to its new one nor to state 0 for going to sleep.
   */
  lemma CountsAgreeIffNothingMoved(pre: Snapshot, hints: seq<int>, delta: int, minimum: int, dir: int,
                                   junk: seq<seq<int>>, trace: seq<Sale>, d: Decision, post: Snapshot,
                                   committed: seq<StateDesc>, states: seq<StateDesc>)
    requires Planned(pre.cur, hints, delta, d.load, minimum, d.woken, dir, junk, trace, d.selected, d.layout)
    requires Step(pre, d, post)
    requires Describes(committed, d.selected, d.layout, |d.layout|)
    requires Recounts(committed, pre.cur, post.cur, states)
    ensures CountsRight(states) <==> post.cur == pre.cur
  {
    SettledMoves(d.woken, pre.cur, d.selected, d.layout, d.works, post);
    var rank := PlanIsOrdered(pre.cur, hints, delta, d.load, minimum, d.woken, dir, junk, trace, d.selected, d.layout);
    OrderedCounts(committed, pre.cur, post.cur, d.selected, d.layout, rank, states);
  }
}
