/**
 What bids say about distance, and whom an auction sells to: the nearest cpu on the preferred side
 of the winning state (update_state_matrix and update_winning_procs in mutate_gd.c).
 */
module BidLaws {
  import opened Common
  import opened StateIndex
  import opened Interval
  import opened Auction
  import opened AuctionRun

  /** The exact bid for a state within delta: it falls by one with every step of distance. */
  lemma BidValues(states: nat, delta: nat, dir: int, at: nat, j: nat)
    requires IsDirection(dir) && at < states && j < states && Abs(j - at) <= delta
    ensures j == at ==> Bid(states, delta, dir, at, j) == 2 * states
    ensures j > at ==> Bid(states, delta, dir, at, j) == (if dir == 1 then 2 * states else states) - (j - at)
    ensures j < at ==> Bid(states, delta, dir, at, j) == (if dir == -1 then 2 * states else states) - (at - j)
  {
    BaseValues(states, dir);
  }

  /** a and b are not on different sides of j. */
  predicate SameSide(a: int, b: int, j: int) {
    (a <= j && b <= j) || (a >= j && b >= j)
  }

  /** Of two cpus on one side of a state within delta, the nearer one bids strictly more. */
  lemma NearerBidsMore(states: nat, delta: nat, dir: int, near: nat, far: nat, j: nat)
    requires IsDirection(dir) && near < states && far < states && j < states
    requires SameSide(near, far, j) && Abs(near - j) < Abs(far - j) <= delta
    ensures Bid(states, delta, dir, near, j) > Bid(states, delta, dir, far, j) > 0
  {
    BidValues(states, delta, dir, near, j);
    BidValues(states, delta, dir, far, j);
  }

  /** Whether a cpu in state a is to be preferred to one in state b for state j, both within delta. */
  predicate Preferred(dir: int, a: int, b: int, j: int) {
    if a == j then b != j
    else if SameSide(a, b, j) || dir == 0 then Abs(a - j) < Abs(b - j)
    else if dir == 1 then a < j else a > j
  }

  /** Bids are exactly that order. */
  lemma BidsPrefer(states: nat, delta: nat, dir: int, a: nat, b: nat, j: nat)
    requires IsDirection(dir) && a < states && b < states && j < states
    requires Abs(a - j) <= delta && Abs(b - j) <= delta
    ensures Bid(states, delta, dir, a, j) > Bid(states, delta, dir, b, j) <==> Preferred(dir, a, b, j)
  {
    BidValues(states, delta, dir, a, j);
    BidValues(states, delta, dir, b, j);
  }

  /** Adding a cpu adds its bid to the weight of every state, and without cpus there is no weight. */
  lemma WeightAdds(states: nat, delta: int, dir: int, at: seq<int>, x: int, j: nat)
    requires j < states
    ensures Weights(states, delta, dir, [])[j] == 0
    ensures Weights(states, delta, dir, at + [x])[j] == Weights(states, delta, dir, at)[j] + Bid(states, delta, dir, x, j)
  {
    var longer := Bids(states, delta, dir, at + [x], j);
    assert longer[..|at|] == Bids(states, delta, dir, at, j);
  }

  // ----- Who buys

  /** Cpus still in the auction that can afford state j. */
  predicate Bidder(delta: int, layout: seq<int>, selected: seq<int>, j: int, q: int)
    requires |selected| == |layout|
  {
    0 <= q < |layout| && selected[q] == 1 && Abs(layout[q] - j) <= delta
  }

  /** p buys state j: no bidder is preferred to it, and no earlier one is as good. */
  ghost predicate BuysNearest(delta: int, dir: int, layout: seq<int>, selected: seq<int>, j: int, p: int)
    requires |selected| == |layout|
  {
    && Bidder(delta, layout, selected, j, p)
    && forall q :: Bidder(delta, layout, selected, j, q) && q != p ==>
      && !Preferred(dir, layout[q], layout[p], j)
      && (q < p ==> Preferred(dir, layout[p], layout[q], j))
  }

  /** In plain words: nobody on the buyer's side is nearer, and the other side is passed over by direction. */
  lemma BuyersSide(delta: int, dir: int, layout: seq<int>, selected: seq<int>, j: int, p: int, q: int)
    requires |selected| == |layout| && IsDirection(dir) && BuysNearest(delta, dir, layout, selected, j, p)
    requires 0 <= q < |layout| && selected[q] == 1
    ensures SameSide(layout[p], layout[q], j) || dir == 0 ==> Abs(layout[p] - j) <= Abs(layout[q] - j)
    ensures SameSide(layout[p], layout[q], j) && Abs(layout[p] - j) == Abs(layout[q] - j) ==> p <= q
    ensures dir == 1 && layout[p] > j ==> layout[q] > j || Abs(layout[q] - j) > delta
    ensures dir == -1 && layout[p] < j ==> layout[q] < j || Abs(layout[q] - j) > delta
  {
    assert Abs(layout[q] - j) <= delta ==> Bidder(delta, layout, selected, j, q);
  }

  /** So the buyer is determined. */
  lemma BuyerIsUnique(delta: int, dir: int, layout: seq<int>, selected: seq<int>, j: int, p: int, q: int)
    requires |selected| == |layout|
    requires BuysNearest(delta, dir, layout, selected, j, p) && BuysNearest(delta, dir, layout, selected, j, q)
    ensures p == q
  {
  }

  lemma WinnerOutbids(states: nat, delta: nat, dir: int, layout: seq<int>, selected: seq<int>, j: nat, p: nat, q: nat)
    requires |selected| == |layout| && j < states && p < |layout|
    requires IsWinningProc(Bids(states, delta, dir, layout, j), selected, p)
    requires selected[p] == 1 && q < |layout| && selected[q] == 1
    ensures Bid(states, delta, dir, layout[q], j) <= Bid(states, delta, dir, layout[p], j)
    ensures q < p ==> Bid(states, delta, dir, layout[q], j) < Bid(states, delta, dir, layout[p], j)
  {
    var b := Bids(states, delta, dir, layout, j);
    assert selected[q] * b[q] == b[q] && selected[p] * b[p] == b[p];
  }

  /** The winning cpu of a state is its nearest buyer. */
  lemma WinnerBuysNearest(states: nat, delta: nat, dir: int, layout: seq<int>, selected: seq<int>, j: nat, p: int)
    requires |selected| == |layout| && IsDirection(dir) && j < states && p != -1
    requires forall i :: 0 <= i < |layout| ==> 0 <= layout[i] < states && (selected[i] == 0 || selected[i] == 1)
    requires IsWinningProc(Bids(states, delta, dir, layout, j), selected, p)
    ensures BuysNearest(delta, dir, layout, selected, j, p)
  {
    WinningProcIsAffordable(states, delta, dir, layout, selected, j, p);
    forall q | Bidder(delta, layout, selected, j, q) && q != p
      ensures !Preferred(dir, layout[q], layout[p], j)
      ensures q < p ==> Preferred(dir, layout[p], layout[q], j)
    {
      WinnerOutbids(states, delta, dir, layout, selected, j, p, q);
      BidsPrefer(states, delta, dir, layout[q], layout[p], j);
      BidsPrefer(states, delta, dir, layout[p], layout[q], j);
    }
  }

  /** The bid that decides between states with equal scores is the highest of the cpus still in the auction. */
  lemma WinningBidIsHighest(states: nat, delta: nat, dir: int, layout: seq<int>, selected: seq<int>, procs: seq<int>,
                            junk: seq<int>, j: nat, q: nat)
    requires |selected| == |layout| && |procs| == |junk| == states && IsDirection(dir) && j < states
    requires forall i :: 0 <= i < |layout| ==> 0 <= layout[i] < states && (selected[i] == 0 || selected[i] == 1)
    requires IsWinningProc(Bids(states, delta, dir, layout, j), selected, procs[j]) && procs[j] != -1
    requires q < |layout| && selected[q] == 1
    ensures Bid(states, delta, dir, layout[q], j) <= WinningBids(states, delta, dir, layout, procs, junk)[j]
    ensures 0 <= procs[j] < |layout| && selected[procs[j]] == 1
    ensures WinningBids(states, delta, dir, layout, procs, junk)[j] == Bid(states, delta, dir, layout[procs[j]], j)
  {
    WinningProcIsAffordable(states, delta, dir, layout, selected, j, procs[j]);
    WinnerOutbids(states, delta, dir, layout, selected, j, procs[j], q);
  }

  ghost predicate NearestSale(dir: int, pre: Sale, post: Sale, p: nat, w: nat) {
    && |pre.selected| == |pre.layout| && p < |pre.layout|
    && post.layout == pre.layout[p := w] && post.selected == pre.selected[p := 0]
    && BuysNearest(pre.left, dir, pre.layout, pre.selected, w, p)
  }

  /** Some state was given to the cpu that is nearest to it. */
  ghost predicate SellsToNearest(dir: int, pre: Sale, post: Sale) {
    exists p, w :: NearestSale(dir, pre, post, p, w)
  }

  lemma SaleIsNearest(cur: seq<int>, states: nat, dir: int, pre: Sale, post: Sale)
    requires IsDirection(dir) && Sold(cur, states, dir, pre, post)
    requires IsSelection(pre.selected) && InRange(pre.layout, states)
    ensures SellsToNearest(dir, pre, post)
  {
    var junk, procs, winner: int, src :| SoldTo(cur, states, dir, pre, post, junk, procs, winner, src);
    var p: int := procs[winner];
    WinnerBuysNearest(states, pre.left, dir, pre.layout, pre.selected, winner, p);
    assert NearestSale(dir, pre, post, p, winner);
  }

  /** Every round of any auction sells to the nearest buyer. */
  lemma AuctionSellsToNearest(cur: seq<int>, states: nat, dir: int, budget: int, trace: seq<Sale>, k: nat)
    requires cur != [] && IsDirection(dir) && IsAuction(cur, states, dir, trace) && k + 1 < |trace|
    requires IsOpening(cur, states, budget, trace[0])
    ensures SellsToNearest(dir, trace[k], trace[k + 1])
  {
    AuctionKeepsAccounts(cur, states, dir, budget, trace, k);
    SaleIsNearest(cur, states, dir, trace[k], trace[k + 1]);
  }
}
