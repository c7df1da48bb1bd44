/** Concrete intervals of the greedy mutator that miss what one would expect of them (mutate_gd.c). */
module Witnesses {
  import opened Common
  import opened Power
  import opened StateIndex
  import opened Interval
  import opened Auction
  import opened AuctionRun
  import opened ActualCost

  lemma SumOne(s: seq<int>)
    requires |s| == 1
    ensures Sum(s) == s[0]
  {
    assert s[..0] == [];
  }

  lemma SumTwo(s: seq<int>)
    requires |s| == 2
    ensures Sum(s) == s[0] + s[1]
  {
    SumOne(s[..1]);
  }

  lemma SumThree(s: seq<int>)
    requires |s| == 3
    ensures Sum(s) == s[0] + s[1] + s[2]
  {
    SumTwo(s[..2]);
  }

  lemma {:induction false} NobodyGivesAway(demand: seq<int>, weight: seq<int>, dir: int, k: nat)
    requires k <= |weight| == |demand| && forall j :: 0 <= j < |demand| ==> demand[j] == 0 || weight[j] != 0
    ensures Share(demand, weight, dir, k) == demand && forall s :: Source(demand, weight, dir, k, s) == s
  {
    if k > 0 {
      NobodyGivesAway(demand, weight, dir, k - 1);
    }
  }

  /** A round in which every state with demand can be won: the winner pays for itself. */
  lemma RoundSells(cur: seq<int>, states: nat, dir: int, pre: Sale, procs: seq<int>, junk: seq<int>, w: nat)
    requires WellShaped(cur, states, pre) && |junk| == |procs| == states && pre.left > 0 && w < states
    requires forall j :: 0 <= j < states ==>
      IsWinningProc(Bids(states, pre.left, dir, pre.layout, j), pre.selected, procs[j])
    requires forall j :: 0 <= j < states ==> pre.demand[j] == 0 || Weights(states, pre.left, dir, pre.layout)[j] != 0
    requires IsWinningState(Scores(Weights(states, pre.left, dir, pre.layout), pre.demand),
                            WinningBids(states, pre.left, dir, pre.layout, procs, junk), w)
    requires 0 <= procs[w] < |cur|
    ensures Sold(cur, states, dir, pre, AfterSale(cur, pre, procs[w], w, w))
  {
    NobodyGivesAway(pre.demand, Weights(states, pre.left, dir, pre.layout), dir, states);
    assert SoldTo(cur, states, dir, pre, AfterSale(cur, pre, procs[w], w, w), junk, procs, w, w);
  }

  lemma LevelTwo(d: seq<int>)
    requires |d| == 2
    ensures RequiredLevel(d) == d[0] + 2 * d[1]
  {
    assert RequiredLevel(d[..1]) == d[0] by {
      assert d[..1][..0] == [];
    }
  }

  lemma LevelThree(d: seq<int>)
    requires |d| == 3
    ensures RequiredLevel(d) == d[0] + 2 * d[1] + 3 * d[2]
  {
    LevelTwo(d[..2]);
  }

  lemma LevelFour(d: seq<int>)
    requires |d| == 4
    ensures RequiredLevel(d) == d[0] + 2 * d[1] + 3 * d[2] + 4 * d[3]
  {
    LevelThree(d[..3]);
  }

  lemma AwakeLevelOne(cur: seq<int>, info: seq<ProcInfo>)
    requires |cur| == |info| == 1
    ensures PresentLevel(cur, info) == if info[0].sleepTime > 0 then 0 else cur[0] + 1
  {
    assert cur[..0] == [] && info[..0] == [];
  }

  lemma AwakeLevelTwo(cur: seq<int>, info: seq<ProcInfo>)
    requires |cur| == |info| == 2
    ensures PresentLevel(cur, info)
      == (if info[0].sleepTime > 0 then 0 else cur[0] + 1) + (if info[1].sleepTime > 0 then 0 else cur[1] + 1)
  {
    AwakeLevelOne(cur[..1], info[..1]);
  }

  const AWAKE := ProcInfo(0, 1, 1)

  /** With load 0 and nothing sold, cpu 0 drops from state 2 to state 0 on a budget of 1. */
  lemma LoadZeroOverspends() returns (trace: seq<Sale>)
    ensures Planned([2], [0, 0, 0], 1, 0, 4, [AWAKE], -1, [], trace, [0], [0])
    ensures Distance([0], [2]) == 2
  {
    trace := [Sale([2], [1], Demands([0, 0, 0], 0), 1)];
    LevelThree(Demands([0, 0, 0], 0));
    AwakeLevelOne([2], [AWAKE]);
    DistanceSelf([2]);
    DistanceUpdate([2], [2], 0, 0);
    assert [2][0 := 0] == [0];
    assert CommitsSale(trace[0], 0, [AWAKE], [0], [0]);
  }

  /** An interval with load 1 whose only round is a sale: the auction is over. */
  lemma OneRound(cur: seq<int>, hints: seq<int>, dir: int, junk: seq<seq<int>>, minimum: int, first: Sale, last: Sale)
    requires |junk| == 1 && Sum(hints) >= minimum && Sold(cur, |hints|, dir, first, last)
    ensures Concluded(cur, |hints|, dir, 1, Sum(hints), minimum, junk, [first, last])
  {
    AuctionGrows(cur, |hints|, dir, [first], last);
    assert [first] + [last] == [first, last];
  }

  lemma FilledAlready(last: Sale, woken: seq<ProcInfo>)
    requires |last.selected| == |woken|
    ensures CommitsSale(last, 1, woken, last.selected, last.layout)
  {
    assert FilledUpTo(last.selected, woken, 0, last.selected);
  }

  /** The plan of such an interval. */
  lemma OneSale(cur: seq<int>, hints: seq<int>, delta: int, minimum: int, woken: seq<ProcInfo>, dir: int,
                junk: seq<seq<int>>, first: Sale, last: Sale)
    requires cur != [] && |woken| == |cur| && |junk| == 1 && Sum(hints) >= minimum
    requires IsDirectionOf(dir, Demands(hints, 1), cur, woken)
    requires IsOpening(cur, |hints|, delta, first) && first.demand == Demands(hints, 1)
    requires Sold(cur, |hints|, dir, first, last) && |last.selected| == |cur|
    ensures Planned(cur, hints, delta, 1, minimum, woken, dir, junk, [first, last], last.selected, last.layout)
  {
    OneRound(cur, hints, dir, junk, minimum, first, last);
    FilledAlready(last, woken);
  }

  lemma FourClaims()
    ensures Sum([1, 1, 1, 1]) == 4 && Demands([1, 1, 1, 1], 1) == [0, 0, 0, 0]
    ensures RequiredLevel([0, 0, 0, 0]) == 0
  {
    var hints := [1, 1, 1, 1];
    SumThree(hints[..3]);
    assert Demands(hints, 1) == [0, 0, 0, 0];
    LevelFour([0, 0, 0, 0]);
  }

  lemma CreditBids()
    ensures Bids(4, 1, -1, [0], 0) == [8] && Bids(4, 1, -1, [0], 1) == [3]
    ensures Bids(4, 1, -1, [0], 2) == [0] && Bids(4, 1, -1, [0], 3) == [0]
    ensures Weights(4, 1, -1, [0]) == [8, 3, 0, 0]
  {
    SumOne([8]);
    SumOne([3]);
    SumOne([0]);
    SumOne([0]);
  }

  lemma CreditBidders(procs: seq<int>)
    requires procs == [0, 0, -1, -1]
    ensures forall j :: 0 <= j < 4 ==> IsWinningProc(Bids(4, 1, -1, [0], j), [1], procs[j])
    ensures WinningBids(4, 1, -1, [0], procs, [0, 0, 0, 0]) == [8, 3, 0, 0]
  {
    CreditBids();
  }

  lemma CreditAfter(first: Sale)
    requires first == Sale([0], [1], [0, 0, 0, 0], 1)
    ensures AfterSale([0], first, 0, 0, 0) == Sale([0], [0], [-1, 0, 0, 0], 1)
  {
  }

  lemma CreditSale(first: Sale, procs: seq<int>)
    requires first == Sale([0], [1], [0, 0, 0, 0], 1) && procs == [0, 0, -1, -1]
    ensures Sold([0], 4, -1, first, Sale([0], [0], [-1, 0, 0, 0], 1))
  {
    CreditBids();
    CreditBidders(procs);
    CreditAfter(first);
    var scores := Scores([8, 3, 0, 0], [0, 0, 0, 0]);
    assert scores == [0, 0, 0, 0];
    RoundSells([0], 4, -1, first, procs, [0, 0, 0, 0], 0);
  }

  /** Four hints for four states and load 1: every claim rounds to 0, and the first sale is on credit. */
  lemma SaleOnCredit() returns (trace: seq<Sale>)
    ensures Demands([1, 1, 1, 1], 1) == [0, 0, 0, 0]
    ensures Planned([0], [1, 1, 1, 1], 1, 1, 4, [AWAKE], -1, [[0, 0, 0, 0]], trace, [0], [0])
    ensures |trace| == 2 && trace[1].demand == [-1, 0, 0, 0]
  {
    var first, last := Sale([0], [1], [0, 0, 0, 0], 1), Sale([0], [0], [-1, 0, 0, 0], 1);
    FourClaims();
    AwakeLevelOne([0], [AWAKE]);
    CreditSale(first, [0, 0, -1, -1]);
    OneSale([0], [1, 1, 1, 1], 1, 4, [AWAKE], -1, [[0, 0, 0, 0]], first, last);
    trace := [first, last];
  }

  // ----- One cpu moves up

  lemma MoveUpBids()
    ensures Bids(2, 1, 1, [0], 0) == [4] && Bids(2, 1, 1, [0], 1) == [3]
    ensures Weights(2, 1, 1, [0]) == [4, 3]
  {
    SumOne([4]);
    SumOne([3]);
  }

  lemma MoveUpBidders(procs: seq<int>)
    requires procs == [0, 0]
    ensures forall j :: 0 <= j < 2 ==> IsWinningProc(Bids(2, 1, 1, [0], j), [1], procs[j])
    ensures WinningBids(2, 1, 1, [0], procs, [0, 0]) == [4, 3]
  {
    MoveUpBids();
  }

  lemma MoveUpAfter(first: Sale)
    requires first == Sale([0], [1], [0, 1], 1)
    ensures AfterSale([0], first, 0, 1, 1) == Sale([1], [0], [0, 0], 0)
  {
  }

  lemma MoveUpSale(first: Sale, procs: seq<int>)
    requires first == Sale([0], [1], [0, 1], 1) && procs == [0, 0]
    ensures Sold([0], 2, 1, first, Sale([1], [0], [0, 0], 0))
  {
    MoveUpBids();
    MoveUpBidders(procs);
    MoveUpAfter(first);
    var scores := Scores([4, 3], [0, 1]);
    assert scores == [0, 3];
    RoundSells([0], 2, 1, first, procs, [0, 0], 1);
  }

  lemma MoveUpClaims()
    ensures Sum([0, 4]) == 4 && Demands([0, 4], 1) == [0, 1] && RequiredLevel([0, 1]) == 2
  {
    SumTwo([0, 4]);
    assert Demands([0, 4], 1) == [0, 1];
    LevelTwo([0, 1]);
  }

  /** A cpu moves from state 0 to state 1: its own state is counted as holding -1 cpus, the new one 2. */
  lemma OneMoveMiscounts()
    returns (trace: seq<Sale>, d: Decision, post: Snapshot, committed: seq<StateDesc>, states: seq<StateDesc>)
    ensures Planned([0], [0, 4], 1, 1, 4, [AWAKE], 1, [[0, 0]], trace, d.selected, d.layout)
    ensures Step(Snapshot([AWAKE], [0]), d, post) && post.cur == [1]
    ensures Describes(committed, d.selected, d.layout, |d.layout|) && Recounts(committed, [0], [1], states)
    ensures states == [StateDesc(-1, {}, 0), StateDesc(2, {0}, 0)]
  {
    var first, last := Sale([0], [1], [0, 1], 1), Sale([1], [0], [0, 0], 0);
    MoveUpClaims();
    AwakeLevelOne([0], [AWAKE]);
    MoveUpSale(first, [0, 0]);
    OneSale([0], [0, 4], 1, 4, [AWAKE], 1, [[0, 0]], first, last);
    trace := [first, last];
    d := Decision(1, [true], [AWAKE], [0], [1]);
    post := Snapshot([AWAKE], [1]);
    MoveUpSettles(d, post);
    committed, states := MoveUpCounts();
  }

  lemma MoveUpSettles(d: Decision, post: Snapshot)
    requires d == Decision(1, [true], [AWAKE], [0], [1]) && post == Snapshot([AWAKE], [1])
    ensures Step(Snapshot([AWAKE], [0]), d, post)
  {
    SumOne([0]);
    assert [AWAKE][..0] == [];
    assert AwakeCount([AWAKE]) == 1;
    assert SettleAll([AWAKE], [0]) == [AWAKE];
  }

  lemma MoveUpCounts() returns (committed: seq<StateDesc>, states: seq<StateDesc>)
    ensures Describes(committed, [0], [1], 1) && Recounts(committed, [0], [1], states)
    ensures states == [StateDesc(-1, {}, 0), StateDesc(2, {0}, 0)]
  {
    committed := [StateDesc(0, {}, 0), StateDesc(1, {0}, 0)];
    assert ChosenMask([0], [1], 0, 1) == {} && ChosenMask([0], [1], 1, 1) == {0};
    states := [StateDesc(-1, {}, 0), StateDesc(2, {0}, 0)];
    assert InformAll([0], [1], committed, 0) == committed;
    assert Informed([0], committed, 0, 1) == states by {
      assert {0} + {0} == {0} && {} - {0} == {};
    }
  }

  // ----- Cpus put to sleep

  lemma StayBids()
    ensures Bids(3, 1, -1, [2, 2], 0) == [0, 0] && Bids(3, 1, -1, [2, 2], 1) == [5, 5]
    ensures Bids(3, 1, -1, [2, 2], 2) == [6, 6]
    ensures Weights(3, 1, -1, [2, 2]) == [0, 10, 12]
  {
    SumTwo([0, 0]);
    SumTwo([5, 5]);
    SumTwo([6, 6]);
  }

  lemma StayBidders(procs: seq<int>)
    requires procs == [-1, 0, 0]
    ensures forall j :: 0 <= j < 3 ==> IsWinningProc(Bids(3, 1, -1, [2, 2], j), [1, 1], procs[j])
    ensures WinningBids(3, 1, -1, [2, 2], procs, [0, 0, 0]) == [0, 5, 6]
  {
    StayBids();
  }

  lemma StayAfter(first: Sale)
    requires first == Sale([2, 2], [1, 1], [0, 0, 1], 1)
    ensures AfterSale([2, 2], first, 0, 2, 2) == Sale([2, 2], [0, 1], [0, 0, 0], 1)
  {
  }

  lemma StaySale(first: Sale, procs: seq<int>)
    requires first == Sale([2, 2], [1, 1], [0, 0, 1], 1) && procs == [-1, 0, 0]
    ensures Sold([2, 2], 3, -1, first, Sale([2, 2], [0, 1], [0, 0, 0], 1))
  {
    StayBids();
    StayBidders(procs);
    StayAfter(first);
    var scores := Scores([0, 10, 12], [0, 0, 1]);
    assert scores == [0, 0, 12];
    RoundSells([2, 2], 3, -1, first, procs, [0, 0, 0], 2);
  }

  lemma StayClaims()
    ensures Sum([0, 0, 4]) == 4 && Demands([0, 0, 4], 1) == [0, 0, 1] && RequiredLevel([0, 0, 1]) == 3
  {
    SumThree([0, 0, 4]);
    assert Demands([0, 0, 4], 1) == [0, 0, 1];
    LevelThree([0, 0, 1]);
  }

  lemma DropSecond(woken: seq<ProcInfo>, cur: seq<int>, layout: seq<int>, d: Decision, post: Snapshot)
    requires |woken| == |cur| == |layout| == 2 && woken[0].awake <= 1 && woken[1] == AWAKE
    requires PowerInv(woken)
    requires d == Decision(1, [true, true], woken, [0, 1], layout)
    requires post == Snapshot([woken[0].(sleepTime := 0, awake := 1), AWAKE.(awake := 0, sleepTime := 1)], [layout[0], 0])
    ensures Step(Snapshot(woken, cur), d, post)
  {
    SumTwo([0, 1]);
    AwakePair(woken);
    assert SettleAll(woken, [0, 1]) == post.info;
  }

  lemma StayDirection()
    ensures IsDirectionOf(-1, [0, 0, 1], [2, 2], [AWAKE, AWAKE])
  {
    StayClaims();
    AwakeLevelTwo([2, 2], [AWAKE, AWAKE]);
  }

  lemma StayOpens(first: Sale)
    requires first == Sale([2, 2], [1, 1], [0, 0, 1], 1)
    ensures IsOpening([2, 2], 3, 1, first)
  {
  }

  lemma StayPlan() returns (trace: seq<Sale>)
    ensures Planned([2, 2], [0, 0, 4], 1, 1, 4, [AWAKE, AWAKE], -1, [[0, 0, 0]], trace, [0, 1], [2, 2])
  {
    var first, last := Sale([2, 2], [1, 1], [0, 0, 1], 1), Sale([2, 2], [0, 1], [0, 0, 0], 1);
    StayClaims();
    StayDirection();
    StayOpens(first);
    StaySale(first, [-1, 0, 0]);
    OneSale([2, 2], [0, 0, 4], 1, 4, [AWAKE, AWAKE], -1, [[0, 0, 0]], first, last);
    trace := [first, last];
  }

  lemma SecondDown(cur: seq<int>, after: seq<int>)
    requires |cur| == 2 && cur[1] == 2 && after == [cur[0], 0]
    ensures Distance(cur, cur) == 0 && Distance(after, cur) == 2
  {
    DistanceSelf(cur);
    DistanceUpdate(cur, cur, 1, 0);
    assert cur[1 := 0] == after;
  }

  /** Two cpus in state 2, one is needed: nobody is given a new state, and 2 states are given up on a budget of 1. */
  lemma SleeperOverspends() returns (trace: seq<Sale>, d: Decision, post: Snapshot)
    ensures Planned([2, 2], [0, 0, 4], 1, 1, 4, [AWAKE, AWAKE], -1, [[0, 0, 0]], trace, d.selected, d.layout)
    ensures Step(Snapshot([AWAKE, AWAKE], [2, 2]), d, post) && AllSucceed(d.works) && d.load == 1
    ensures Distance(d.layout, [2, 2]) == 0 && Distance(post.cur, [2, 2]) == 2
  {
    trace := StayPlan();
    d := Decision(1, [true, true], [AWAKE, AWAKE], [0, 1], [2, 2]);
    post := Snapshot([AWAKE, AWAKE.(awake := 0, sleepTime := 1)], [2, 0]);
    DropSecond([AWAKE, AWAKE], [2, 2], [2, 2], d, post);
    SecondDown([2, 2], [2, 0]);
  }

  const ASLEEP := ProcInfo(1, 0, 0)

  lemma WakeBids()
    ensures Bids(3, 1, -1, [0, 2], 0) == [6, 0] && Bids(3, 1, -1, [0, 2], 1) == [2, 5]
    ensures Bids(3, 1, -1, [0, 2], 2) == [0, 6]
    ensures Weights(3, 1, -1, [0, 2]) == [6, 7, 6]
  {
    SumTwo([6, 0]);
    SumTwo([2, 5]);
    SumTwo([0, 6]);
  }

  lemma WakeBidders(procs: seq<int>)
    requires procs == [0, 1, 1]
    ensures forall j :: 0 <= j < 3 ==> IsWinningProc(Bids(3, 1, -1, [0, 2], j), [1, 1], procs[j])
    ensures WinningBids(3, 1, -1, [0, 2], procs, [0, 0, 0]) == [6, 5, 6]
  {
    WakeBids();
  }

  lemma WakeAfter(first: Sale)
    requires first == Sale([0, 2], [1, 1], [1, 0, 0], 1)
    ensures AfterSale([0, 2], first, 0, 0, 0) == Sale([0, 2], [0, 1], [0, 0, 0], 1)
  {
  }

  lemma WakeSale(first: Sale, procs: seq<int>)
    requires first == Sale([0, 2], [1, 1], [1, 0, 0], 1) && procs == [0, 1, 1]
    ensures Sold([0, 2], 3, -1, first, Sale([0, 2], [0, 1], [0, 0, 0], 1))
  {
    WakeBids();
    WakeBidders(procs);
    WakeAfter(first);
    var scores := Scores([6, 7, 6], [1, 0, 0]);
    assert scores == [6, 0, 0];
    RoundSells([0, 2], 3, -1, first, procs, [0, 0, 0], 0);
  }

  lemma WakeClaims()
    ensures Sum([4, 0, 0]) == 4 && Demands([4, 0, 0], 1) == [1, 0, 0] && RequiredLevel([1, 0, 0]) == 1
  {
    SumThree([4, 0, 0]);
    assert Demands([4, 0, 0], 1) == [1, 0, 0];
    LevelThree([1, 0, 0]);
  }

  lemma WakeDirection()
    ensures IsDirectionOf(-1, [1, 0, 0], [0, 2], [ASLEEP, AWAKE])
  {
    WakeClaims();
    AwakeLevelTwo([0, 2], [ASLEEP, AWAKE]);
  }

  lemma WakeOpens(first: Sale)
    requires first == Sale([0, 2], [1, 1], [1, 0, 0], 1)
    ensures IsOpening([0, 2], 3, 1, first)
  {
  }

  lemma WakePlan() returns (trace: seq<Sale>)
    ensures Planned([0, 2], [4, 0, 0], 1, 1, 4, [ASLEEP, AWAKE], -1, [[0, 0, 0]], trace, [0, 1], [0, 2])
  {
    var first, last := Sale([0, 2], [1, 1], [1, 0, 0], 1), Sale([0, 2], [0, 1], [0, 0, 0], 1);
    WakeClaims();
    WakeDirection();
    WakeOpens(first);
    WakeSale(first, [0, 1, 1]);
    OneSale([0, 2], [4, 0, 0], 1, 4, [ASLEEP, AWAKE], -1, [[0, 0, 0]], first, last);
    trace := [first, last];
  }

  /**
   No more cpus are awake than the load asks for, and still one is put to sleep: the auction sells
   to the sleeping cpu, because sleeping cpus bid as well.
   */
  lemma SleeperTakesOver() returns (trace: seq<Sale>, d: Decision, post: Snapshot)
    ensures Planned([0, 2], [4, 0, 0], 1, 1, 4, [ASLEEP, AWAKE], -1, [[0, 0, 0]], trace, d.selected, d.layout)
    ensures Step(Snapshot([ASLEEP, AWAKE], [0, 2]), d, post) && AllSucceed(d.works)
    ensures AwakeCount([ASLEEP, AWAKE]) == d.load == 1
    ensures Distance(d.layout, [0, 2]) == 0 && Distance(post.cur, [0, 2]) == 2
  {
    trace := WakePlan();
    d := Decision(1, [true, true], [ASLEEP, AWAKE], [0, 1], [0, 2]);
    post := Snapshot([AWAKE.(awakeTime := 0), AWAKE.(awake := 0, sleepTime := 1)], [0, 0]);
    DropSecond([ASLEEP, AWAKE], [0, 2], [0, 2], d, post);
    AwakePair([ASLEEP, AWAKE]);
    SecondDown([0, 2], [0, 0]);
  }

  lemma AwakePair(info: seq<ProcInfo>)
    requires |info| == 2
    ensures AwakeCount(info) == info[0].awake + info[1].awake
  {
    AwakeAlone(info[..1]);
  }

  lemma AwakeAlone(info: seq<ProcInfo>)
    requires |info| == 1
    ensures AwakeCount(info) == info[0].awake
  {
    assert info[..0] == [];
  }
}
