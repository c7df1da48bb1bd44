/** What every round of an auction keeps, over the whole auction. */
module AuctionRun {
  import opened Common
  import opened StateIndex
  import opened Interval
  import opened Auction

  /** The state an auction works on: layout so far, unselected cpus, open demand and budget left. */
  datatype Sale = Sale(layout: seq<int>, selected: seq<int>, demand: seq<int>, left: int)

  ghost predicate WellShaped(cur: seq<int>, states: nat, s: Sale) {
    |s.layout| == |s.selected| == |cur| && |s.demand| == states
  }

  /** Where an auction stands after cpu p got state winner and src paid. */
  function AfterSale(cur: seq<int>, pre: Sale, p: nat, winner: int, src: nat): Sale
    requires p < |cur| == |pre.layout| == |pre.selected| && src < |pre.demand|
  {
    Sale(pre.layout[p := winner], pre.selected[p := 0], pre.demand[src := pre.demand[src] - 1],
         pre.left - Abs(cur[p] - winner))
  }

  /** A completed round: the winner it computes is assigned, charged and taken out. */
  ghost predicate SoldTo(cur: seq<int>, states: nat, dir: int, pre: Sale, post: Sale,
                         junk: seq<int>, procs: seq<int>, winner: int, src: int) {
    && WellShaped(cur, states, pre) && |junk| == |procs| == states && pre.left > 0
    && Auctioned(states, pre.left, dir, pre.layout, pre.selected, pre.demand, junk, procs, winner, src)
    && 0 <= winner < states && 0 <= procs[winner] < |cur| && 0 <= src < states
    && post == AfterSale(cur, pre, procs[winner], winner, src)
  }

  ghost predicate Sold(cur: seq<int>, states: nat, dir: int, pre: Sale, post: Sale) {
    exists junk, procs, winner, src :: SoldTo(cur, states, dir, pre, post, junk, procs, winner, src)
  }

  ghost predicate IsAuction(cur: seq<int>, states: nat, dir: int, trace: seq<Sale>) {
    trace != [] && forall k :: 0 <= k < |trace| - 1 ==> Sold(cur, states, dir, trace[k], trace[k + 1])
  }

  lemma AuctionGrows(cur: seq<int>, states: nat, dir: int, trace: seq<Sale>, next: Sale)
    requires IsAuction(cur, states, dir, trace) && Sold(cur, states, dir, trace[|trace| - 1], next)
    ensures IsAuction(cur, states, dir, trace + [next])
  {
    var longer := trace + [next];
    forall k | 0 <= k < |longer| - 1
      ensures Sold(cur, states, dir, longer[k], longer[k + 1])
    {
      assert longer[k] == trace[k];
      if k < |trace| - 1 {
        assert longer[k + 1] == trace[k + 1];
      }
    }
  }

  ghost predicate NonNegative(demand: seq<int>) {
    forall s :: 0 <= s < |demand| ==> demand[s] >= 0
  }

  /** The round computed from s has no winning state, or nobody who could take it. */
  ghost predicate Stuck(cur: seq<int>, states: nat, dir: int, s: Sale, junk: seq<int>) {
    exists procs, winner, src ::
      && WellShaped(cur, states, s) && |junk| == |procs| == states
      && Auctioned(states, s.left, dir, s.layout, s.selected, s.demand, junk, procs, winner, src)
      && (winner == -1 || (0 <= winner < states && procs[winner] == -1))
  }

  /** What a round computes is a sale when the winner and its cpu exist, and otherwise it is stuck. */
  lemma RoundOutcome(cur: seq<int>, states: nat, dir: int, s: Sale, junk: seq<int>, procs: seq<int>, winner: int, src: int)
    requires WellShaped(cur, states, s) && |junk| == |procs| == states && s.left > 0
    requires Auctioned(states, s.left, dir, s.layout, s.selected, s.demand, junk, procs, winner, src)
    requires -1 <= winner < states && (winner >= 0 ==> -1 <= procs[winner] < |cur| && 0 <= src < states)
    ensures winner >= 0 && procs[winner] >= 0 ==>
      Sold(cur, states, dir, s, AfterSale(cur, s, procs[winner], winner, src))
    ensures winner < 0 || procs[winner] < 0 ==> Stuck(cur, states, dir, s, junk)
  {
    if winner >= 0 && procs[winner] >= 0 {
      assert SoldTo(cur, states, dir, s, AfterSale(cur, s, procs[winner], winner, src), junk, procs, winner, src);
    }
  }

  /** An auction that went on as long as the rules allow: load rounds, requests, budget, a winner. */
  ghost predicate Concluded(cur: seq<int>, states: nat, dir: int, load: nat, total: int, minimum: int,
                            junk: seq<seq<int>>, trace: seq<Sale>) {
    && 1 <= |trace| <= load + 1 <= |junk| + 1
    && IsAuction(cur, states, dir, trace)
    && (|trace| > 1 ==> total >= minimum)
    && (|| |trace| == load + 1
        || total < minimum
        || trace[|trace| - 1].left <= 0
        || Stuck(cur, states, dir, trace[|trace| - 1], junk[|trace| - 1]))
  }

  /** Nothing sold yet: everybody in place, nobody selected, the whole budget left. */
  ghost predicate IsOpening(cur: seq<int>, states: nat, budget: int, s: Sale) {
    && WellShaped(cur, states, s) && InRange(cur, states)
    && s.layout == cur && s.left == budget
    && forall i :: 0 <= i < |cur| ==> s.selected[i] == 1
  }

  lemma RoundKeepsBudget(cur: seq<int>, states: nat, dir: int, budget: int, pre: Sale, post: Sale, k: nat,
                         junk: seq<int>, procs: seq<int>, winner: int, src: int)
    requires IsDirection(dir) && SoldTo(cur, states, dir, pre, post, junk, procs, winner, src)
    requires Accounts(cur, states, budget, pre.layout, pre.selected, pre.left, k)
    ensures Accounts(cur, states, budget, post.layout, post.selected, post.left, k + 1)
  {
    var p: int := procs[winner];
    WinnerIsAffordable(states, pre.left, dir, pre.layout, pre.selected, pre.demand, junk, procs, winner, src);
    AccountsStep(cur, states, budget, pre.layout, pre.selected, pre.left, k, winner, p);
  }

  lemma RoundKeepsDemand(cur: seq<int>, states: nat, dir: int, pre: Sale, post: Sale,
                         junk: seq<int>, procs: seq<int>, winner: int, src: int)
    requires cur != [] && IsDirection(dir) && SoldTo(cur, states, dir, pre, post, junk, procs, winner, src)
    requires InRange(pre.layout, states)
    ensures Sum(post.demand) == Sum(pre.demand) - 1
    ensures NonNegative(pre.demand) && Sum(pre.demand) > 0 ==> NonNegative(post.demand)
  {
    SumUpdate(pre.demand, src, pre.demand[src] - 1);
    if NonNegative(pre.demand) && Sum(pre.demand) > 0 {
      SourceHasDemand(states, pre.left, dir, pre.layout, pre.selected, pre.demand, junk, procs, winner, src);
    }
  }

  lemma SourceHasDemand(states: nat, delta: nat, dir: int, layout: seq<int>, selected: seq<int>, demand: seq<int>,
                        junk: seq<int>, procs: seq<int>, winner: int, src: int)
    requires |selected| == |layout| && |demand| == |junk| == |procs| == states && IsDirection(dir)
    requires layout != [] && InRange(layout, states) && NonNegative(demand) && Sum(demand) > 0
    requires Auctioned(states, delta, dir, layout, selected, demand, junk, procs, winner, src)
    ensures 0 <= src < states && demand[src] > 0
  {
    RoundSpendsDemand(states, delta, dir, layout, selected, demand, junk, procs, winner, src);
  }

  /** One round: accounts kept, demand down by one, and not below zero while there was demand. */
  lemma RoundKeepsAccounts(cur: seq<int>, states: nat, dir: int, budget: int, pre: Sale, post: Sale, k: nat)
    requires cur != [] && IsDirection(dir) && Sold(cur, states, dir, pre, post)
    requires Accounts(cur, states, budget, pre.layout, pre.selected, pre.left, k)
    ensures WellShaped(cur, states, post)
    ensures Accounts(cur, states, budget, post.layout, post.selected, post.left, k + 1)
    ensures Sum(post.demand) == Sum(pre.demand) - 1
    ensures NonNegative(pre.demand) && Sum(pre.demand) > 0 ==> NonNegative(post.demand)
  {
    var junk, procs, winner, src :| SoldTo(cur, states, dir, pre, post, junk, procs, winner, src);
    RoundKeepsBudget(cur, states, dir, budget, pre, post, k, junk, procs, winner, src);
    RoundKeepsDemand(cur, states, dir, pre, post, junk, procs, winner, src);
  }

  /**
   After k rounds of any auction: the budget spent and the budget left add up, k cpus are
   selected and no cpu twice, the demand went down by exactly k, and it stayed free of negative
   entries exactly when there were at least k demands to spend.
   */
  lemma {:induction false} AuctionKeepsAccounts(cur: seq<int>, states: nat, dir: int, budget: int, trace: seq<Sale>, k: nat)
    requires cur != [] && IsDirection(dir) && IsAuction(cur, states, dir, trace) && k < |trace|
    requires IsOpening(cur, states, budget, trace[0])
    ensures WellShaped(cur, states, trace[k])
    ensures Accounts(cur, states, budget, trace[k].layout, trace[k].selected, trace[k].left, k)
    ensures Sum(trace[k].demand) == Sum(trace[0].demand) - k
    ensures NonNegative(trace[0].demand) ==> (NonNegative(trace[k].demand) <==> k <= Sum(trace[0].demand))
  {
    if k == 0 {
      AccountsStart(cur, states, budget, trace[0].selected);
      if NonNegative(trace[0].demand) {
        SumNonNegative(trace[0].demand);
      }
    } else {
      AuctionKeepsAccounts(cur, states, dir, budget, trace, k - 1);
      assert Sold(cur, states, dir, trace[k - 1], trace[k - 1 + 1]);
      RoundKeepsAccounts(cur, states, dir, budget, trace[k - 1], trace[k], k - 1);
      if NonNegative(trace[k].demand) {
        SumNonNegative(trace[k].demand);
      }
    }
  }

  // ----- The plan of an interval

  ghost predicate IsDirectionOf(dir: int, demand: seq<int>, cur: seq<int>, info: seq<ProcInfo>) {
    && IsDirection(dir) && |cur| == |info|
    && (dir == 1 <==> RequiredLevel(demand) > PresentLevel(cur, info))
    && (dir == -1 <==> RequiredLevel(demand) < PresentLevel(cur, info))
  }

  /** The auction an interval holds for its hints, load and budget. */
  ghost predicate HeldAuction(cur: seq<int>, hints: seq<int>, delta: int, load: nat, minimum: int, woken: seq<ProcInfo>,
                              dir: int, junk: seq<seq<int>>, trace: seq<Sale>) {
    && cur != []
    && IsDirectionOf(dir, Demands(hints, load), cur, woken)
    && Concluded(cur, |hints|, dir, load, Sum(hints), minimum, junk, trace)
    && IsOpening(cur, |hints|, delta, trace[0]) && trace[0].demand == Demands(hints, load)
  }

  /**
   The layout and selection committed after the auction ended at last: its own, with awake cpus
   filled in, or cpu 0 at state 0 when nobody is needed.
   */
  ghost predicate CommitsSale(last: Sale, load: nat, woken: seq<ProcInfo>, selected: seq<int>, layout: seq<int>) {
    if load > 0 then layout == last.layout && Filled(last.selected, woken, selected)
    else
      && last.layout != [] && last.selected != []
      && layout == last.layout[0 := 0] && selected == last.selected[0 := 0]
  }

  /** What an interval commits, and the auction that led to it. */
  ghost predicate Planned(cur: seq<int>, hints: seq<int>, delta: int, load: nat, minimum: int, woken: seq<ProcInfo>,
                          dir: int, junk: seq<seq<int>>, trace: seq<Sale>, selected: seq<int>, layout: seq<int>) {
    exists last ::
      && HeldAuction(cur, hints, delta, load, minimum, woken, dir, junk, trace)
      && last == trace[|trace| - 1] && CommitsSale(last, load, woken, selected, layout)
  }

  /**
   The committed layout costs at most the budget exactly when somebody is needed or cpu 0 can
   afford to drop to state 0: for load 0 the fallback moves cpu 0 without asking the budget.
   */
  lemma PlanCost(cur: seq<int>, hints: seq<int>, delta: int, load: nat, minimum: int, woken: seq<ProcInfo>,
                 dir: int, junk: seq<seq<int>>, trace: seq<Sale>, selected: seq<int>, layout: seq<int>)
    requires Planned(cur, hints, delta, load, minimum, woken, dir, junk, trace, selected, layout)
    ensures |layout| == |cur|
    ensures load == 0 ==> Distance(layout, cur) == cur[0]
    ensures Distance(layout, cur) <= Max(delta, 0) <==> load > 0 || cur[0] <= Max(delta, 0)
  {
    var k := |trace| - 1;
    AuctionKeepsAccounts(cur, |hints|, dir, delta, trace, k);
    AccountsWithinBudget(cur, |hints|, delta, trace[k].layout, trace[k].selected, trace[k].left, k);
    if load == 0 {
      DistanceSelf(cur);
      DistanceUpdate(cur, cur, 0, 0);
    }
  }

  /** Rounds up to the load exceed the claims by at most half a round for each state. */
  lemma RoundsWithinClaims(hints: seq<int>, load: nat, rounds: nat)
    requires Sum(hints) > 0 && forall j :: 0 <= j < |hints| ==> hints[j] >= 0
    requires rounds <= load
    ensures NonNegative(Demands(hints, load))
    ensures 2 * (rounds - Sum(Demands(hints, load))) <= |hints|
  {
    DemandRounding(hints, load);
  }

  lemma PlanRounds(cur: seq<int>, hints: seq<int>, delta: int, load: nat, minimum: int, woken: seq<ProcInfo>,
                   dir: int, junk: seq<seq<int>>, trace: seq<Sale>)
    requires HeldAuction(cur, hints, delta, load, minimum, woken, dir, junk, trace)
    ensures var rounds, claims := |trace| - 1, Demands(hints, load);
      && 0 <= rounds <= load
      && Sum(trace[rounds].demand) == Sum(claims) - rounds
      && (NonNegative(claims) ==> (NonNegative(trace[rounds].demand) <==> rounds <= Sum(claims)))
  {
    AuctionKeepsAccounts(cur, |hints|, dir, delta, trace, |trace| - 1);
  }

  /**
   Over the auction of an interval every round takes one from the demand; the demand stays free
   of negative entries exactly while it lasts; and at most half a round for each state, the
   rounding error of the claims, is not backed by demand.
   */
  lemma PlanDemand(cur: seq<int>, hints: seq<int>, delta: int, load: nat, minimum: int, woken: seq<ProcInfo>,
                   dir: int, junk: seq<seq<int>>, trace: seq<Sale>, selected: seq<int>, layout: seq<int>)
    requires Planned(cur, hints, delta, load, minimum, woken, dir, junk, trace, selected, layout)
    requires Sum(hints) > 0 && forall j :: 0 <= j < |hints| ==> hints[j] >= 0
    ensures var rounds, claimed := |trace| - 1, Sum(Demands(hints, load));
      && rounds <= load
      && Sum(trace[rounds].demand) == claimed - rounds
      && (NonNegative(trace[rounds].demand) <==> rounds <= claimed)
      && 2 * (rounds - claimed) <= |hints|
  {
    PlanRounds(cur, hints, delta, load, minimum, woken, dir, junk, trace);
    RoundsWithinClaims(hints, load, |trace| - 1);
  }

  /**
   What a caller can tell from hints and load alone: claims that cover the load keep the demand
   free of negative entries. An auction that assigns all load cpus needs them to.
   */
  lemma ClaimsCoverLoad(cur: seq<int>, hints: seq<int>, delta: int, load: nat, minimum: int, woken: seq<ProcInfo>,
                        dir: int, junk: seq<seq<int>>, trace: seq<Sale>, selected: seq<int>, layout: seq<int>)
    requires Planned(cur, hints, delta, load, minimum, woken, dir, junk, trace, selected, layout)
    requires Sum(hints) > 0 && forall j :: 0 <= j < |hints| ==> hints[j] >= 0
    ensures load <= Sum(Demands(hints, load)) ==> NonNegative(trace[|trace| - 1].demand)
    ensures |trace| == load + 1 ==>
      (NonNegative(trace[|trace| - 1].demand) <==> load <= Sum(Demands(hints, load)))
  {
    PlanDemand(cur, hints, delta, load, minimum, woken, dir, junk, trace, selected, layout);
  }
}
