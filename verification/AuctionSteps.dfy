/** The array algorithms of one auction round (mutate_gd.c), each tied to a function of Auction. */
module AuctionSteps {
  import opened Common
  import opened DemandTransform
  import opened StateIndex
  import opened Auction
  import opened DemandLaws

  /** Column j of the bid matrix: what every cpu bids for state j. */
  ghost function Column(m: array2<int>, j: nat): (c: seq<int>)
    reads m
    requires j < m.Length1
    ensures |c| == m.Length0 && forall i :: 0 <= i < |c| ==> c[i] == m[i, j]
  {
    seq(m.Length0, i requires 0 <= i < m.Length0 reads m => m[i, j])
  }

  /** Turn hints into cpus claimed by each state. */
  method ComputeDemand(states: array<StateDesc>, demand: array<int>, load: int) returns (total: int)
    requires demand.Length == states.Length
    modifies demand
    ensures total == Sum(Hints(states[..]))
    ensures demand[..] == Demands(Hints(states[..]), load)
  {
    ghost var hints := Hints(states[..]);
    total := 0;
    var j := 0;
    while j < states.Length
      invariant 0 <= j <= states.Length && total == Sum(hints[..j])
    {
      SumPrefix(hints, j);
      total := total + states[j].demand;
      j := j + 1;
    }
    assert hints[..states.Length] == hints;
    j := 0;
    while j < states.Length
      invariant 0 <= j <= states.Length
      invariant forall k :: 0 <= k < j ==> demand[k] == Procs(hints[k], total, load)
    {
      demand[j] := Procs(states[j].demand, total, load);
      j := j + 1;
    }
  }

  /** 1 when the demands ask for a higher level than the awake cpus run at, -1 for lower, 0 for equal. */
  method TransitionDirection(demand: array<int>, cur: array<int>, info: array<ProcInfo>) returns (dir: int)
    requires cur.Length == info.Length
    ensures IsDirection(dir)
    ensures dir == 1 <==> RequiredLevel(demand[..]) > PresentLevel(cur[..], info[..])
    ensures dir == -1 <==> RequiredLevel(demand[..]) < PresentLevel(cur[..], info[..])
  {
    var reqLevel, preLevel := 0, 0;
    var i := 0;
    while i < demand.Length
      invariant 0 <= i <= demand.Length && reqLevel == RequiredLevel(demand[..][..i])
    {
      assert demand[..][..i + 1][..i] == demand[..][..i];
      reqLevel := reqLevel + demand[i] * (i + 1);
      i := i + 1;
    }
    assert demand[..][..demand.Length] == demand[..];
    i := 0;
    while i < cur.Length
      invariant 0 <= i <= cur.Length && preLevel == PresentLevel(cur[..][..i], info[..][..i])
    {
      assert cur[..][..i + 1][..i] == cur[..][..i] && info[..][..i + 1][..i] == info[..][..i];
      if !(info[i].sleepTime > 0) {
        preLevel := preLevel + cur[i] + 1;
      }
      i := i + 1;
    }
    assert cur[..][..cur.Length] == cur[..] && info[..][..info.Length] == info[..];
    dir := if reqLevel > preLevel then 1 else if reqLevel < preLevel then -1 else 0;
  }

  /** Bids of cpu i, in five stretches around its state. */
  method BidRow(m: array2<int>, i: nat, at: nat, delta: nat, dir: int)
    requires i < m.Length0 && at < m.Length1
    modifies m
    ensures forall j :: 0 <= j < m.Length1 ==> m[i, j] == Bid(m.Length1, delta, dir, at, j)
    ensures forall p, q :: 0 <= p < m.Length0 && 0 <= q < m.Length1 && p != i ==> m[p, q] == old(m[p, q])
  {
    var totalStates := m.Length1;
    var left := ((dir * dir - dir + 2) * totalStates) / 2;
    var right := ((dir * dir + dir + 2) * totalStates) / 2;
    var j := 0;
    while j < at - delta
      invariant 0 <= j <= Max(0, at - delta)
      invariant forall q :: 0 <= q < j ==> m[i, q] == Bid(totalStates, delta, dir, at, q)
      invariant forall p, q :: 0 <= p < m.Length0 && 0 <= q < m.Length1 && p != i ==> m[p, q] == old(m[p, q])
    {
      m[i, j] := 0;
      j := j + 1;
    }
    while j < at
      invariant Max(0, at - delta) <= j <= at
      invariant forall q :: 0 <= q < j ==> m[i, q] == Bid(totalStates, delta, dir, at, q)
      invariant forall p, q :: 0 <= p < m.Length0 && 0 <= q < m.Length1 && p != i ==> m[p, q] == old(m[p, q])
    {
      m[i, j] := left + j - at;
      j := j + 1;
    }
    m[i, j] := 2 * totalStates;
    j := j + 1;
    while j < totalStates && j <= at + delta
      invariant at < j <= totalStates && j <= at + delta + 1
      invariant forall q :: 0 <= q < j ==> m[i, q] == Bid(totalStates, delta, dir, at, q)
      invariant forall p, q :: 0 <= p < m.Length0 && 0 <= q < m.Length1 && p != i ==> m[p, q] == old(m[p, q])
    {
      m[i, j] := right + at - j;
      j := j + 1;
    }
    while j < totalStates
      invariant at < j <= totalStates && (j < totalStates ==> j > at + delta)
      invariant forall q :: 0 <= q < j ==> m[i, q] == Bid(totalStates, delta, dir, at, q)
      invariant forall p, q :: 0 <= p < m.Length0 && 0 <= q < m.Length1 && p != i ==> m[p, q] == old(m[p, q])
    {
      m[i, j] := 0;
      j := j + 1;
    }
  }

  /** Bids of every cpu for every state. */
  method UpdateStateMatrix(newCpuState: array<int>, m: array2<int>, delta: nat, dir: int)
    requires m.Length0 == newCpuState.Length
    requires forall i :: 0 <= i < newCpuState.Length ==> 0 <= newCpuState[i] < m.Length1
    modifies m
    ensures forall i, j :: 0 <= i < m.Length0 && 0 <= j < m.Length1 ==>
      m[i, j] == Bid(m.Length1, delta, dir, newCpuState[i], j)
  {
    var i := 0;
    while i < m.Length0
      invariant 0 <= i <= m.Length0
      invariant forall p, q :: 0 <= p < i && 0 <= q < m.Length1 ==>
        m[p, q] == Bid(m.Length1, delta, dir, newCpuState[p], q)
    {
      BidRow(m, i, newCpuState[i], delta, dir);
      i := i + 1;
    }
  }

  /** Column sums of the bid matrix. */
  method UpdateStateWeight(m: array2<int>, stateWeight: array<int>)
    requires stateWeight.Length == m.Length1
    modifies stateWeight
    ensures forall j :: 0 <= j < m.Length1 ==> stateWeight[j] == Sum(Column(m, j))
  {
    var j := 0;
    while j < m.Length1
      invariant 0 <= j <= m.Length1
      invariant forall q :: 0 <= q < j ==> stateWeight[q] == Sum(Column(m, q))
    {
      stateWeight[j] := 0;
      ghost var c := Column(m, j);
      var i := 0;
      while i < m.Length0
        invariant 0 <= i <= m.Length0 && stateWeight[j] == Sum(c[..i])
        invariant forall q :: 0 <= q < j ==> stateWeight[q] == Sum(Column(m, q))
      {
        SumPrefix(c, i);
        stateWeight[j] := stateWeight[j] + m[i, j];
        i := i + 1;
      }
      assert c[..m.Length0] == c;
      j := j + 1;
    }
  }

  /** For every state the unselected cpu with the highest bid. */
  method UpdateWinningProcs(m: array2<int>, selectedCpus: array<int>, winningProcs: array<int>)
    requires selectedCpus.Length == m.Length0 && winningProcs.Length == m.Length1
    requires winningProcs != selectedCpus
    modifies winningProcs
    ensures forall j :: 0 <= j < m.Length1 ==> IsWinningProc(Column(m, j), selectedCpus[..], winningProcs[j])
  {
    var j := 0;
    while j < m.Length1
      invariant 0 <= j <= m.Length1
      invariant forall q :: 0 <= q < j ==> IsWinningProc(Column(m, q), selectedCpus[..], winningProcs[q])
    {
      var max, maxVal := -1, 0;
      var i := 0;
      while i < m.Length0
        invariant 0 <= i <= m.Length0 && maxVal >= 0
        invariant forall k :: 0 <= k < i ==> selectedCpus[k] * m[k, j] <= maxVal
        invariant max == -1 ==> maxVal == 0
        invariant max != -1 ==> 0 <= max < i && selectedCpus[max] * m[max, j] == maxVal > 0
        invariant forall k :: 0 <= k < max ==> selectedCpus[k] * m[k, j] < maxVal
      {
        var val := selectedCpus[i] * m[i, j];
        if val > maxVal {
          maxVal := val;
          max := i;
        }
        i := i + 1;
      }
      winningProcs[j] := max;
      j := j + 1;
    }
  }

  /** Nearest state below pos with weight, -1 for none. */
  method GetLeftDistance(stateWeight: array<int>, pos: nat) returns (ret: int)
    requires pos < stateWeight.Length
    ensures ret == LeftOf(NonZero(stateWeight[..]), pos - 1)
  {
    ret := -1;
    ghost var can := NonZero(stateWeight[..]);
    var i := pos - 1;
    while i >= 0
      invariant -1 <= i < pos && ret == -1 && LeftOf(can, pos - 1) == LeftOf(can, i)
    {
      if stateWeight[i] != 0 {
        ret := i;
        break;
      }
      i := i - 1;
    }
  }

  /** Nearest state above pos with weight, -1 for none. */
  method GetRightDistance(stateWeight: array<int>, pos: nat) returns (ret: int)
    requires pos < stateWeight.Length
    ensures ret == RightOf(NonZero(stateWeight[..]), pos + 1)
  {
    ret := -1;
    ghost var can := NonZero(stateWeight[..]);
    var i := pos + 1;
    while i < stateWeight.Length
      invariant pos < i <= stateWeight.Length && ret == -1 && RightOf(can, pos + 1) == RightOf(can, i)
    {
      if stateWeight[i] != 0 {
        ret := i;
        break;
      }
      i := i + 1;
    }
  }

  /** The state that takes over the demand of state i; -1 for none. */
  method FindHeir(stateWeight: array<int>, dir: int, i: nat) returns (buddy: int)
    requires i < stateWeight.Length && IsDirection(dir)
    ensures buddy == Heir(stateWeight[..], dir, i)
    ensures buddy == -1 && stateWeight[i] == 0 ==> NoWeight(stateWeight[..], 0, stateWeight.Length)
    ensures buddy != -1 && stateWeight[i] == 0 ==>
      0 <= buddy < stateWeight.Length && Inherits(stateWeight[..], dir, i, buddy)
  {
    ghost var e := Heir(stateWeight[..], dir, i);
    if stateWeight[i] == 0 {
      HeirInherits(stateWeight[..], dir, i, if e == -1 then i else e);
    }
    var left := GetLeftDistance(stateWeight, i);
    var right := GetRightDistance(stateWeight, i);
    buddy := -1;
    if left == -1 && right == -1 {
      return;
    }
    if dir == 1 && left != -1 {
      buddy := left;
    } else if dir == 1 {
      buddy := right;
    } else if dir == 0 && left == -1 {
      buddy := right;
    } else if dir == 0 && right == -1 {
      buddy := left;
    } else if dir == 0 {
      buddy := Closest(i, left, right);
    } else if dir == -1 && right != -1 {
      buddy := right;
    } else if dir == -1 {
      buddy := left;
    }
  }

  /** Every state starts with its own demand. */
  method OwnDemand(demand: array<int>, demandField: array<int>, proxySource: array<int>)
    requires demand.Length == demandField.Length == proxySource.Length
    requires demandField != demand && proxySource != demand && demandField != proxySource
    modifies demandField, proxySource
    ensures demandField[..] == demand[..]
    ensures forall s :: 0 <= s < demand.Length ==> proxySource[s] == s
  {
    var i := 0;
    while i < demand.Length
      invariant 0 <= i <= demand.Length
      invariant forall k :: 0 <= k < i ==> demandField[k] == demand[k] && proxySource[k] == k
    {
      demandField[i] := demand[i];
      proxySource[i] := i;
      i := i + 1;
    }
  }

  /** Move the demand of state i to its heir when it has demand but no weight. */
  method GiveAway(demand: array<int>, stateWeight: array<int>, demandField: array<int>,
                  proxySource: array<int>, dir: int, i: nat)
    requires i < demand.Length == stateWeight.Length == demandField.Length == proxySource.Length
    requires demandField != demand && demandField != stateWeight && demandField != proxySource
    requires proxySource != demand && proxySource != stateWeight
    requires IsDirection(dir)
    requires stateWeight[i] == 0 ==> demandField[i] == demand[i]
    modifies demandField, proxySource
    ensures demandField[..] == Passed(demand[..], stateWeight[..], dir, i, old(demandField[..]))
    ensures forall s | 0 <= s < demand.Length ::
      proxySource[s] ==
        if Moves(demand[..], stateWeight[..], dir, i) && Heir(stateWeight[..], dir, i) == s then i
        else old(proxySource[s])
  {
    if demandField[i] != 0 && stateWeight[i] == 0 {
      var buddy := FindHeir(stateWeight, dir, i);
      if buddy != -1 {
        demandField[buddy] := demandField[buddy] + demand[i];
        demandField[i] := 0;
        proxySource[buddy] := i;
      }
    }
  }

  /** Move the demand of states without weight to their heirs and remember where it came from. */
  method UpdateDemandField(demand: array<int>, stateWeight: array<int>, demandField: array<int>,
                           proxySource: array<int>, dir: int)
    requires demand.Length == stateWeight.Length == demandField.Length == proxySource.Length
    requires demandField != demand && demandField != stateWeight && demandField != proxySource
    requires proxySource != demand && proxySource != stateWeight
    requires IsDirection(dir)
    modifies demandField, proxySource
    ensures demandField[..] == Share(demand[..], stateWeight[..], dir, demand.Length)
    ensures forall s :: 0 <= s < demand.Length ==>
      proxySource[s] == Source(demand[..], stateWeight[..], dir, demand.Length, s)
    ensures Inherited(demand[..], stateWeight[..], dir, demandField[..])
  {
    ghost var d, w := demand[..], stateWeight[..];
    OwnDemand(demand, demandField, proxySource);
    var i := 0;
    while i < demand.Length
      invariant 0 <= i <= demand.Length
      invariant demandField[..] == Share(d, w, dir, i)
      invariant forall s :: 0 <= s < demand.Length ==> proxySource[s] == Source(d, w, dir, i, s)
    {
      if w[i] == 0 {
        ShareOfWeightless(d, w, dir, i, i);
      }
      GiveAway(demand, stateWeight, demandField, proxySource, dir, i);
      i := i + 1;
    }
    ShareInherits(d, w, dir);
  }

  /** The bid of the winning cpu of state j; without a winner the read goes astray and gives junk. */
  ghost function ReadBid(m: array2<int>, winningProcs: seq<int>, junk: seq<int>, j: nat): int
    reads m
    requires |winningProcs| == |junk| == m.Length1 && j < m.Length1
  {
    if 0 <= winningProcs[j] < m.Length0 then m[winningProcs[j], j] else junk[j]
  }

  ghost function ReadBids(m: array2<int>, winningProcs: seq<int>, junk: seq<int>): (b: seq<int>)
    reads m
    requires |winningProcs| == |junk| == m.Length1
    ensures |b| == m.Length1 && forall j :: 0 <= j < |b| ==> b[j] == ReadBid(m, winningProcs, junk, j)
  {
    seq(m.Length1, j requires 0 <= j < m.Length1 reads m => ReadBid(m, winningProcs, junk, j))
  }

  /** The state with the highest weight times demand field, ties to the higher winning bid. */
  method GetWinningState(m: array2<int>, winningProcs: array<int>, stateWeight: array<int>,
                         demandField: array<int>, junk: seq<int>) returns (max: int)
    requires winningProcs.Length == stateWeight.Length == demandField.Length == |junk| == m.Length1
    ensures IsWinningState(Scores(stateWeight[..], demandField[..]), ReadBids(m, winningProcs[..], junk), max)
  {
    ghost var scores := Scores(stateWeight[..], demandField[..]);
    ghost var bids := ReadBids(m, winningProcs[..], junk);
    var maxWeight, maxProc := 0, 0;
    max := -1;
    var j := 0;
    while j < m.Length1
      invariant 0 <= j <= m.Length1
      invariant if max == -1 then maxWeight == maxProc == 0
        else 0 <= max < j && maxWeight == scores[max] && maxProc == bids[max] && Beats(maxWeight, maxProc, 0, 0)
      invariant forall k :: 0 <= k < j ==> !Beats(scores[k], bids[k], maxWeight, maxProc)
      invariant forall k :: 0 <= k < max ==> Beats(maxWeight, maxProc, scores[k], bids[k])
    {
      var weight := stateWeight[j] * demandField[j];
      var bid := if 0 <= winningProcs[j] < m.Length0 then m[winningProcs[j], j] else junk[j];
      assert weight == scores[j] && bid == bids[j];
      if weight > maxWeight {
        maxWeight := weight;
        max := j;
        maxProc := bid;
      } else if weight == maxWeight {
        if bid > maxProc {
          maxWeight := weight;
          max := j;
          maxProc := bid;
        }
      }
      j := j + 1;
    }
  }
}
