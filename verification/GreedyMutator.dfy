/** The greedy delta mutator: one whole interval over the shared arrays (mutate_gd.c). */
module GreedyMutator {
  import opened Common
  import opened Auction
  import opened AuctionSteps
  import opened Power
  import opened StateIndex
  import opened Interval
  import opened AuctionRun
  import opened CommitSteps
  import CountDrift
  import TaskCount

  /** Fewer than this many hints are not worth an auction. */
  const MIN_REQUESTS := 4

  /** Columns of a filled bid matrix are the bids of the layout. */
  lemma ColumnIsBids(m: array2<int>, layout: seq<int>, delta: nat, dir: int, j: nat)
    requires m.Length0 == |layout| && j < m.Length1
    requires forall i, k :: 0 <= i < m.Length0 && 0 <= k < m.Length1 ==> m[i, k] == Bid(m.Length1, delta, dir, layout[i], k)
    ensures Column(m, j) == Bids(m.Length1, delta, dir, layout, j)
  {
  }

  lemma ReadBidsAreWinningBids(m: array2<int>, layout: seq<int>, delta: nat, dir: int, procs: seq<int>, junk: seq<int>)
    requires m.Length0 == |layout| && |procs| == |junk| == m.Length1
    requires forall i, k :: 0 <= i < m.Length0 && 0 <= k < m.Length1 ==> m[i, k] == Bid(m.Length1, delta, dir, layout[i], k)
    ensures ReadBids(m, procs, junk) == WinningBids(m.Length1, delta, dir, layout, procs, junk)
  {
  }

  class Mutator {
    // Shared with the other parts of the scheduler
    const curCpuState: array<int>
    const states: array<StateDesc>
    const info: array<ProcInfo>
    // The mutator's own
    const newStates: array<StateDesc>
    const newCpuState: array<int>
    const selectedCpus: array<int>
    const demand: array<int>
    const demandField: array<int>
    const proxySource: array<int>
    const stateWeight: array<int>
    const winningProcs: array<int>
    const stateMatrix: array2<int>

    constructor (cur: array<int>, states: array<StateDesc>, info: array<ProcInfo>)
      requires 1 <= states.Length && 1 <= cur.Length == info.Length <= UINT_MAX
      ensures Valid() && curCpuState == cur && this.states == states && this.info == info
    {
      curCpuState, this.states, this.info := cur, states, info;
      newStates := new StateDesc[states.Length](_ => StateDesc(0, {}, 0));
      newCpuState := new int[cur.Length](_ => 0);
      selectedCpus := new int[cur.Length](_ => 0);
      demand := new int[states.Length](_ => 0);
      demandField := new int[states.Length](_ => 0);
      proxySource := new int[states.Length](_ => 0);
      stateWeight := new int[states.Length](_ => 0);
      winningProcs := new int[states.Length](_ => 0);
      stateMatrix := new int[cur.Length, states.Length]((_, _) => 0);
    }

    /** Shapes of the arrays, and that they are different arrays. */
    ghost predicate Valid() {
      && 1 <= states.Length && 1 <= curCpuState.Length <= UINT_MAX
      && info.Length == newCpuState.Length == selectedCpus.Length == stateMatrix.Length0 == curCpuState.Length
      && newStates.Length == demand.Length == demandField.Length == states.Length
      && proxySource.Length == stateWeight.Length == winningProcs.Length == stateMatrix.Length1 == states.Length
      && newStates != states
      && curCpuState != newCpuState && curCpuState != selectedCpus && curCpuState != demand
      && curCpuState != demandField && curCpuState != proxySource
      && curCpuState != stateWeight && curCpuState != winningProcs
      && newCpuState != selectedCpus && newCpuState != demand
      && newCpuState != demandField && newCpuState != proxySource
      && newCpuState != stateWeight && newCpuState != winningProcs
      && selectedCpus != demand && selectedCpus != demandField
      && selectedCpus != proxySource && selectedCpus != stateWeight && selectedCpus != winningProcs
      && demand != demandField && demand != proxySource && demand != stateWeight && demand != winningProcs
      && demandField != proxySource && demandField != stateWeight && demandField != winningProcs
      && proxySource != stateWeight && proxySource != winningProcs
      && stateWeight != winningProcs
    }

    /** The values an auction round starts from. */
    ghost predicate RoundReady(delta: int)
      reads newCpuState, selectedCpus
    {
      && Valid() && delta > 0
      && InRange(newCpuState[..], states.Length) && IsSelection(selectedCpus[..])
    }

    /** Fill in bids, weights, candidate cpus and demand shares for the current layout. */
    method PrepareRound(delta: int, dir: int)
      requires RoundReady(delta) && IsDirection(dir)
      modifies stateMatrix, stateWeight, winningProcs, demandField, proxySource
      ensures forall i, k :: 0 <= i < newCpuState.Length && 0 <= k < states.Length ==>
        stateMatrix[i, k] == Bid(states.Length, delta, dir, newCpuState[i], k)
      ensures stateWeight[..] == Weights(states.Length, delta, dir, newCpuState[..])
      ensures forall j | 0 <= j < states.Length ::
        IsWinningProc(Bids(states.Length, delta, dir, newCpuState[..], j), selectedCpus[..], winningProcs[j])
      ensures demandField[..] == Share(demand[..], stateWeight[..], dir, states.Length)
      ensures forall s | 0 <= s < states.Length ::
        proxySource[s] == Source(demand[..], stateWeight[..], dir, states.Length, s)
    {
      UpdateStateMatrix(newCpuState, stateMatrix, delta, dir);
      UpdateStateWeight(stateMatrix, stateWeight);
      UpdateWinningProcs(stateMatrix, selectedCpus, winningProcs);
      UpdateDemandField(demand, stateWeight, demandField, proxySource, dir);
      forall j | 0 <= j < states.Length
        ensures Column(stateMatrix, j) == Bids(states.Length, delta, dir, newCpuState[..], j)
      {
        ColumnIsBids(stateMatrix, newCpuState[..], delta, dir, j);
      }
    }

    /** Hold one round: which state wins, which cpu takes it, and who pays. */
    method PickWinner(delta: int, dir: int, junk: seq<int>) returns (winner: int)
      requires RoundReady(delta) && IsDirection(dir) && |junk| == states.Length
      modifies stateMatrix, stateWeight, winningProcs, demandField, proxySource
      ensures Auctioned(states.Length, delta, dir, newCpuState[..], selectedCpus[..], demand[..], junk,
                        winningProcs[..], winner, if 0 <= winner < states.Length then proxySource[winner] else -1)
      ensures -1 <= winner < states.Length
      ensures winner >= 0 ==> 0 <= proxySource[winner] < states.Length
      ensures winner >= 0 ==> -1 <= winningProcs[winner] < curCpuState.Length
    {
      PrepareRound(delta, dir);
      winner := GetWinningState(stateMatrix, winningProcs, stateWeight, demandField, junk);
      if winner >= 0 {
        SourceMeaning(demand[..], stateWeight[..], dir, states.Length, winner);
        assert IsWinningProc(Bids(states.Length, delta, dir, newCpuState[..], winner),
                             selectedCpus[..], winningProcs[winner]);
      }
      ReadBidsAreWinningBids(stateMatrix, newCpuState[..], delta, dir, winningProcs[..], junk);
    }

    /** Where the auction stands with left of the budget unspent. */
    ghost function Now(left: int): Sale
      reads newCpuState, selectedCpus, demand
    {
      Sale(newCpuState[..], selectedCpus[..], demand[..], left)
    }

    /** Take the winning cpu out of the auction, charge demand and budget, and assign the state. */
    method Assign(delta: int, winner: nat, winnerProc: nat) returns (left: int)
      requires RoundReady(delta) && winner < states.Length && winnerProc < curCpuState.Length
      requires 0 <= proxySource[winner] < states.Length
      modifies newCpuState, selectedCpus, demand
      ensures RoundReady(1)
      ensures Now(left) == AfterSale(curCpuState[..], old(Now(delta)), winnerProc, winner, proxySource[winner])
    {
      selectedCpus[winnerProc] := 0;
      demand[proxySource[winner]] := demand[proxySource[winner]] - 1;
      left := delta - Abs(curCpuState[winnerProc] - winner);
      newCpuState[winnerProc] := winner;
    }

    /** The winner of the round, and what it means: a sale to the winning cpu, or a stuck round. */
    method FindSale(delta: int, dir: int, junk: seq<int>) returns (winner: int)
      requires RoundReady(delta) && IsDirection(dir) && |junk| == states.Length
      modifies stateMatrix, stateWeight, winningProcs, demandField, proxySource
      ensures -1 <= winner < states.Length
      ensures winner >= 0 ==> 0 <= proxySource[winner] < states.Length
      ensures winner >= 0 ==> -1 <= winningProcs[winner] < curCpuState.Length
      ensures winner >= 0 && winningProcs[winner] >= 0 ==>
        Sold(curCpuState[..], states.Length, dir, Now(delta),
             AfterSale(curCpuState[..], Now(delta), winningProcs[winner], winner, proxySource[winner]))
      ensures winner < 0 || winningProcs[winner] < 0 ==> Stuck(curCpuState[..], states.Length, dir, Now(delta), junk)
    {
      winner := PickWinner(delta, dir, junk);
      RoundOutcome(curCpuState[..], states.Length, dir, Now(delta), junk, winningProcs[..], winner,
                   if 0 <= winner < states.Length then proxySource[winner] else -1);
    }

    /**
     One round: the winning cpu gets the winning state, is taken out of the auction and paid for
     from budget and demand; nothing changes when the round is stuck.
     */
    method Round(delta: int, dir: int, junk: seq<int>) returns (ok: bool, left: int)
      requires RoundReady(delta) && IsDirection(dir) && |junk| == states.Length
      modifies stateMatrix, stateWeight, winningProcs, demandField, proxySource, newCpuState, selectedCpus, demand
      ensures ok ==> Sold(curCpuState[..], states.Length, dir, old(Now(delta)), Now(left))
      ensures ok ==> RoundReady(1)
      ensures !ok ==> Now(left) == old(Now(delta)) && Stuck(curCpuState[..], states.Length, dir, Now(left), junk)
    {
      ok, left := false, delta;
      var winner := FindSale(delta, dir, junk);
      if winner < 0 || winner >= states.Length {
        return;
      }
      var winnerProc := winningProcs[winner];
      if winnerProc < 0 || winnerProc >= curCpuState.Length {
        return;
      }
      left := Assign(delta, winner, winnerProc);
      ok := true;
    }

    /**
     Spend the budget in rounds until load cpus are assigned, the budget is gone, there are too
     few requests, or a round is stuck.
     */
    method HoldAuction(budget: int, load: nat, total: int, dir: int, junk: seq<seq<int>>)
      returns (rounds: nat, left: int, ghost trace: seq<Sale>)
      requires Valid() && IsDirection(dir)
      requires InRange(newCpuState[..], states.Length) && IsSelection(selectedCpus[..])
      requires |junk| == load && forall k :: 0 <= k < load ==> |junk[k]| == states.Length
      modifies stateMatrix, stateWeight, winningProcs, demandField, proxySource, newCpuState, selectedCpus, demand
      ensures |trace| == rounds + 1
      ensures Concluded(curCpuState[..], states.Length, dir, load, total, MIN_REQUESTS, junk, trace)
      ensures trace[0] == old(Now(budget)) && trace[rounds] == Now(left)
      ensures InRange(newCpuState[..], states.Length) && IsSelection(selectedCpus[..])
    {
      rounds, left := 0, budget;
      trace := [Now(budget)];
      var totalDemand: int := load;
      while rounds < load
        invariant rounds <= load && |trace| == rounds + 1 && totalDemand == load - rounds
        invariant rounds > 0 ==> total >= MIN_REQUESTS
        invariant IsAuction(curCpuState[..], states.Length, dir, trace)
        invariant trace[0] == old(Now(budget)) && trace[rounds] == Now(left)
        invariant InRange(newCpuState[..], states.Length) && IsSelection(selectedCpus[..])
      {
        if total < MIN_REQUESTS || load <= 0 || left <= 0 || totalDemand <= 0 {
          break;
        }
        var ok;
        ok, left := Round(left, dir, junk[rounds]);
        if !ok {
          break;
        }
        totalDemand := totalDemand - 1;
        rounds := rounds + 1;
        AuctionGrows(curCpuState[..], states.Length, dir, trace, Now(left));
        trace := trace + [Now(left)];
      }
    }

    ghost function Snap(): Snapshot
      reads info, curCpuState
    {
      Snapshot(info[..], curCpuState[..])
    }

    /** What an interval may rely on. */
    ghost predicate Ready()
      reads info, curCpuState
    {
      Valid() && PowerInv(info[..]) && InRange(curCpuState[..], states.Length)
    }

    /** Auction and fill-in: select exactly load cpus and give them states within the budget. */
    method SelectCpus(delta: int, load: nat, total: int, dir: int, junk: seq<seq<int>>) returns (ghost trace: seq<Sale>)
      requires Ready() && IsDirection(dir) && load <= AwakeCount(info[..])
      requires newCpuState[..] == curCpuState[..]
      requires forall i :: 0 <= i < selectedCpus.Length ==> selectedCpus[i] == 1
      requires |junk| == load && forall k :: 0 <= k < load ==> |junk[k]| == states.Length
      modifies stateMatrix, stateWeight, winningProcs, demandField, proxySource, newCpuState, selectedCpus, demand
      ensures Concluded(curCpuState[..], states.Length, dir, load, total, MIN_REQUESTS, junk, trace)
      ensures IsOpening(curCpuState[..], states.Length, delta, trace[0]) && trace[0].demand == old(demand[..])
      ensures newCpuState[..] == trace[|trace| - 1].layout && demand[..] == trace[|trace| - 1].demand
      ensures InRange(newCpuState[..], states.Length)
      ensures IsSelection(selectedCpus[..]) && Chosen(selectedCpus[..]) == load
      ensures Filled(trace[|trace| - 1].selected, info[..], selectedCpus[..])
    {
      ghost var opening := Now(delta);
      var rounds, left;
      rounds, left, trace := HoldAuction(delta, load, total, dir, junk);
      AuctionKeepsAccounts(curCpuState[..], states.Length, dir, delta, trace, rounds);
      FillUp(selectedCpus, info, load, rounds);
    }

    /** Everything before the auction: demand, waking up, and the direction of the transition. */
    method PrepareInterval(load: nat) returns (total: int, dir: int)
      requires Ready() && SleepsAtMost(info[..], UINT_MAX - 1) && load <= curCpuState.Length
      modifies newCpuState, selectedCpus, demand, info
      ensures newCpuState[..] == curCpuState[..]
      ensures forall i :: 0 <= i < selectedCpus.Length ==> selectedCpus[i] == 1
      ensures total == Sum(Hints(states[..])) && demand[..] == Demands(Hints(states[..]), load)
      ensures PowerInv(info[..]) && WokeUp(old(info[..]), load, info[..]) && load <= AwakeCount(info[..])
      ensures IsDirectionOf(dir, demand[..], curCpuState[..], info[..])
    {
      StartInterval(curCpuState, newCpuState, selectedCpus);
      total := ComputeDemand(states, demand, load);
      ghost var before := info[..];
      WakeUpProcs(info, load);
      AwakeEnough(before, load, info[..]);
      dir := TransitionDirection(demand, curCpuState, info);
    }

    /** Wake up, hold the auction and fill in: afterwards exactly load cpus are selected. */
    method PlanInterval(delta: int, load: nat, junk: seq<seq<int>>)
      returns (ghost woken: seq<ProcInfo>, dir: int, ghost trace: seq<Sale>)
      requires Ready() && SleepsAtMost(info[..], UINT_MAX - 1) && load <= curCpuState.Length
      requires |junk| == load && forall k :: 0 <= k < load ==> |junk[k]| == states.Length
      modifies info, newCpuState, selectedCpus
      modifies demand, demandField, proxySource, stateWeight, winningProcs, stateMatrix
      ensures PowerInv(info[..]) && woken == info[..] && WokeUp(old(info[..]), load, woken)
      ensures HeldAuction(old(curCpuState[..]), old(Hints(states[..])), delta, load, MIN_REQUESTS, woken, dir, junk, trace)
      ensures newCpuState[..] == trace[|trace| - 1].layout && InRange(newCpuState[..], states.Length)
      ensures IsSelection(selectedCpus[..]) && Chosen(selectedCpus[..]) == load
      ensures Filled(trace[|trace| - 1].selected, woken, selectedCpus[..])
      ensures curCpuState[..] == old(curCpuState[..])
    {
      var total;
      total, dir := PrepareInterval(load);
      woken := info[..];
      trace := SelectCpus(delta, load, total, dir, junk);
    }

    /** Everything after the selection: commit the layout, then change speeds and sleep states. */
    method FinishInterval(works: seq<bool>, ghost load: nat) returns (ghost committed: seq<StateDesc>)
      requires Ready() && |works| == curCpuState.Length
      requires IsSelection(selectedCpus[..]) && InRange(newCpuState[..], states.Length)
      requires Chosen(selectedCpus[..]) == load
      modifies curCpuState, states, info, newStates, newCpuState, selectedCpus
      ensures InRange(curCpuState[..], states.Length)
      ensures IsSelection(selectedCpus[..]) && Chosen(selectedCpus[..]) == Max(1, load)
      ensures newCpuState[..] == CommittedLayout(load, old(newCpuState[..]))
      ensures selectedCpus[..] == CommittedSelection(load, old(selectedCpus[..]))
      ensures |committed| == states.Length
      ensures Describes(committed, selectedCpus[..], newCpuState[..], newCpuState.Length)
      ensures Recounts(committed, old(curCpuState[..]), curCpuState[..], states[..])
      ensures TotalCpus(states[..]) == TotalCpus(committed) == Max(1, load)
      ensures forall j :: 0 <= j < states.Length ==> states[j].demand == 0
      ensures Settles(old(info[..]), old(curCpuState[..]), selectedCpus[..], newCpuState[..], works, Snap())
    {
      Commit(states, newStates, selectedCpus, newCpuState);
      committed := states[..];
      CommittedTotal(committed, selectedCpus[..], newCpuState[..]);
      SettleCpus(curCpuState, states, info, newCpuState, selectedCpus, works);
    }

    /**
     One interval: it commits the layout planned for the hints, load and budget, exactly
     max(1, load) cpus are committed and stay awake, and the total of the counts survives the
     speed changes.
     */
    method GreedyDelta(delta: int, running: seq<nat>, works: seq<bool>, junk: seq<seq<int>>)
      returns (ghost woken: seq<ProcInfo>, ghost dir: int, ghost trace: seq<Sale>, ghost committed: seq<StateDesc>)
      requires Ready() && SleepsAtMost(info[..], UINT_MAX - 1)
      requires |running| == |works| == curCpuState.Length
      requires |junk| == Load(running) && forall k :: 0 <= k < |junk| ==> |junk[k]| == states.Length
      modifies curCpuState, states, info, newStates, newCpuState, selectedCpus
      modifies demand, demandField, proxySource, stateWeight, winningProcs, stateMatrix
      ensures Planned(old(curCpuState[..]), old(Hints(states[..])), delta, Load(running), MIN_REQUESTS, woken, dir, junk,
                      trace, selectedCpus[..], newCpuState[..])
      ensures Step(old(Snap()), Decision(Load(running), works, woken, selectedCpus[..], newCpuState[..]), Snap())
      ensures |committed| == states.Length
      ensures Describes(committed, selectedCpus[..], newCpuState[..], newCpuState.Length)
      ensures Recounts(committed, old(curCpuState[..]), curCpuState[..], states[..])
      ensures TotalCpus(states[..]) == TotalCpus(committed) == Max(1, Load(running))
      ensures CountDrift.CountsRight(states[..]) <==> curCpuState[..] == old(curCpuState[..])
      ensures InRange(curCpuState[..], states.Length)
      ensures forall j :: 0 <= j < states.Length ==> states[j].demand == 0
    {
      var load := TaskCount.GetTasksLoad(running);
      woken, dir, trace := PlanInterval(delta, load, junk);
      ghost var sel := CommittedSelection(load, selectedCpus[..]);
      ghost var lay := CommittedLayout(load, newCpuState[..]);
      CommitFromParts(trace[|trace| - 1], load, woken, selectedCpus[..], newCpuState[..], sel, lay);
      committed := FinishInterval(works, load);
      assert selectedCpus[..] == sel && newCpuState[..] == lay;
      CountDrift.CountsAgreeIffNothingMoved(old(Snap()), old(Hints(states[..])), delta, MIN_REQUESTS, dir, junk, trace,
                                 Decision(load, works, woken, sel, lay), Snap(), committed, states[..]);
    }
  }

  /** With no sleeper stuck at the largest sleep time, waking up reaches any load of at most all cpus. */
  lemma AwakeEnough(before: seq<ProcInfo>, load: nat, after: seq<ProcInfo>)
    requires PowerInv(before) && SleepsAtMost(before, UINT_MAX - 1) && load <= |before|
    requires WokeUp(before, load, after)
    ensures AwakeCount(after) == Max(AwakeCount(before), load)
  {
    AllWakeable(before);
  }

  /** Nobody is needed: cpu 0 is selected, and its planned state is 0. */
  function CommittedSelection(load: nat, selected: seq<int>): seq<int>
    requires selected != []
  {
    if load > 0 then selected else selected[0 := 0]
  }

  function CommittedLayout(load: nat, layout: seq<int>): seq<int>
    requires layout != []
  {
    if load > 0 then layout else layout[0 := 0]
  }

  lemma CommitFromParts(last: Sale, load: nat, woken: seq<ProcInfo>, sel: seq<int>, lay: seq<int>,
                        selected: seq<int>, layout: seq<int>)
    requires lay == last.layout && lay != [] && sel != []
    requires Filled(last.selected, woken, sel) && IsSelection(sel) && Chosen(sel) == load
    requires load == 0 ==> forall i :: 0 <= i < |last.selected| ==> last.selected[i] == 1
    requires layout == CommittedLayout(load, lay) && selected == CommittedSelection(load, sel)
    ensures CommitsSale(last, load, woken, selected, layout)
  {
    if load == 0 {
      SameWhenNobodyChosen(last.selected, woken, sel);
    }
  }

  lemma SameWhenNobodyChosen(before: seq<int>, info: seq<ProcInfo>, after: seq<int>)
    requires forall i :: 0 <= i < |before| ==> before[i] == 1
    requires Filled(before, info, after) && IsSelection(after) && Chosen(after) == 0
    ensures after == before
  {
    NobodyChosen(after);
  }
}
