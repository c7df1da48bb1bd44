/**
 Who inherits stranded demand, where the demand of a state comes from, and what decides an auction
 round, in terms of weights, demands and distances only (mutate_gd.c).
 */
module DemandLaws {
  import opened Common
  import opened Auction

  // ----- Heirs

  ghost predicate NoWeight(weight: seq<int>, lo: int, hi: int) {
    forall k :: 0 <= lo <= k < hi <= |weight| ==> weight[k] == 0
  }

  /**
   h inherits from i: going up, the nearest state with weight below i, or the nearest above when
   there is none below; going down the mirror image; in balance the nearest, ties to the lower.
   */
  ghost predicate Inherits(weight: seq<int>, dir: int, i: nat, h: nat)
    requires i < |weight| && h < |weight|
  {
    && weight[i] == 0 && weight[h] != 0
    && if dir == 1 then if h < i then NoWeight(weight, h + 1, i) else NoWeight(weight, 0, h)
      else if dir == -1 then if h > i then NoWeight(weight, i + 1, h) else NoWeight(weight, h + 1, |weight|)
      else forall k :: 0 <= k < |weight| && weight[k] != 0 ==>
        Abs(h - i) < Abs(k - i) || (Abs(h - i) == Abs(k - i) && h <= k)
  }

  /** The heir the auction computes is that state, and there is none exactly when no state has weight. */
  lemma HeirInherits(weight: seq<int>, dir: int, i: nat, h: nat)
    requires i < |weight| && h < |weight| && weight[i] == 0
    ensures Heir(weight, dir, i) == h <==> Inherits(weight, dir, i, h)
    ensures Heir(weight, dir, i) == -1 <==> NoWeight(weight, 0, |weight|)
  {
    var some := NonZero(weight);
    assert forall k :: 0 <= k < |weight| ==> (some[k] <==> weight[k] != 0);
    var e := Heir(weight, dir, i);
    if e != -1 {
      HeirIsNearest(weight, dir, i, e);
      if Inherits(weight, dir, i, h) {
        OneHeir(weight, dir, i, h, e);
      }
    }
  }

  lemma HeirIsNearest(weight: seq<int>, dir: int, i: nat, h: nat)
    requires i < |weight| && h < |weight| && weight[i] == 0 && Heir(weight, dir, i) == h
    ensures Inherits(weight, dir, i, h)
  {
    var some := NonZero(weight);
    assert forall k :: 0 <= k < |weight| ==> (some[k] <==> weight[k] != 0);
  }

  /** Nobody has two heirs. */
  lemma OneHeir(weight: seq<int>, dir: int, i: nat, g: nat, h: nat)
    requires i < |weight| && g < |weight| && h < |weight|
    requires Inherits(weight, dir, i, g) && Inherits(weight, dir, i, h)
    ensures g == h
  {
  }

  // ----- Shares

  /** The first k states as far as their demand goes to s. */
  ghost function Givers(weight: seq<int>, dir: int, k: nat, s: nat): (m: seq<bool>)
    requires s < |weight|
    ensures |m| == |weight| && forall i :: 0 <= i < |m| ==> (m[i] <==> i < k && Inherits(weight, dir, i, s))
  {
    seq(|weight|, i requires 0 <= i < |weight| => i < k && Inherits(weight, dir, i, s))
  }

  /** What a state keeps of its own demand: all of it, unless it has no weight and some state has. */
  ghost function Kept(demand: seq<int>, weight: seq<int>, k: nat, s: nat): int
    requires s < |weight| == |demand|
  {
    if s < k && weight[s] == 0 && !NoWeight(weight, 0, |weight|) then 0 else demand[s]
  }

  /** Sum of what the first k states give to s. */
  ghost function Gifts(demand: seq<int>, weight: seq<int>, dir: int, k: nat, s: nat): int
    requires s < |weight| == |demand|
  {
    SumWhere(Givers(weight, dir, k, s), demand)
  }

  lemma GiftsStep(demand: seq<int>, weight: seq<int>, dir: int, i: nat, s: nat)
    requires i < |weight| == |demand| && s < |weight|
    ensures Gifts(demand, weight, dir, i + 1, s)
      == Gifts(demand, weight, dir, i, s) + if Inherits(weight, dir, i, s) then demand[i] else 0
  {
    var before, after := Pick(Givers(weight, dir, i, s), demand), Pick(Givers(weight, dir, i + 1, s), demand);
    var gift := if Inherits(weight, dir, i, s) then demand[i] else 0;
    SumUpdate(before, i, gift);
    assert after == before[i := gift];
  }

  lemma NothingInherited(demand: seq<int>, weight: seq<int>, dir: int, s: nat)
    requires s < |weight| == |demand|
    ensures Gifts(demand, weight, dir, 0, s) == 0
  {
    SumWhereZero(Givers(weight, dir, 0, s), demand);
  }

  lemma PassedAt(demand: seq<int>, weight: seq<int>, dir: int, i: nat, f: seq<int>, s: nat)
    requires i < |weight| == |demand| == |f| && s < |weight|
    requires weight[i] == 0 ==> f[i] == demand[i]
    ensures Passed(demand, weight, dir, i, f)[s]
      == if s == i then if weight[i] == 0 && !NoWeight(weight, 0, |weight|) then 0 else f[i]
         else f[s] + if Inherits(weight, dir, i, s) then demand[i] else 0
  {
    if weight[i] == 0 {
      HeirInherits(weight, dir, i, s);
    }
  }

  /**
   The demand field in closed form: every state with weight adds the demand of exactly those it
   inherits from to its own; a state without weight ends with nothing unless no state has weight.
   */
  lemma {:induction false} ShareIsInheritance(demand: seq<int>, weight: seq<int>, dir: int, k: nat, s: nat)
    requires k <= |weight| == |demand| && s < |weight|
    ensures Share(demand, weight, dir, k)[s] == Kept(demand, weight, k, s) + Gifts(demand, weight, dir, k, s)
  {
    if k == 0 {
      NothingInherited(demand, weight, dir, s);
    } else {
      var i := k - 1;
      ShareIsInheritance(demand, weight, dir, i, s);
      GiftsStep(demand, weight, dir, i, s);
      if weight[i] == 0 {
        ShareOfWeightless(demand, weight, dir, i, i);
      }
      PassedAt(demand, weight, dir, i, Share(demand, weight, dir, i), s);
      if s == i && weight[s] == 0 {
        NobodyInheritsTo(demand, weight, dir, i, s);
      }
    }
  }

  /** field is the demand after every state without weight gave its demand to whom it belongs. */
  ghost predicate Inherited(demand: seq<int>, weight: seq<int>, dir: int, field: seq<int>) {
    && |field| == |demand| == |weight|
    && forall s: nat :: s < |field| ==>
      field[s] == Kept(demand, weight, |weight|, s) + Gifts(demand, weight, dir, |weight|, s)
  }

  lemma ShareInherits(demand: seq<int>, weight: seq<int>, dir: int)
    requires |weight| == |demand|
    ensures Inherited(demand, weight, dir, Share(demand, weight, dir, |weight|))
  {
    forall s: nat | s < |weight|
      ensures Share(demand, weight, dir, |weight|)[s]
        == Kept(demand, weight, |weight|, s) + Gifts(demand, weight, dir, |weight|, s)
    {
      ShareIsInheritance(demand, weight, dir, |weight|, s);
    }
  }

  lemma NobodyInheritsTo(demand: seq<int>, weight: seq<int>, dir: int, k: nat, s: nat)
    requires s < |weight| == |demand| && weight[s] == 0
    ensures Gifts(demand, weight, dir, k, s) == 0
  {
    SumWhereZero(Givers(weight, dir, k, s), demand);
  }

  /** i had demand and gave it to s. */
  ghost predicate Gives(demand: seq<int>, weight: seq<int>, dir: int, i: int, s: nat)
    requires |weight| == |demand| && s < |weight|
  {
    0 <= i < |weight| && demand[i] != 0 && Inherits(weight, dir, i, s)
  }

  lemma SourceStep(demand: seq<int>, weight: seq<int>, dir: int, i: nat, s: nat)
    requires i < |weight| == |demand| && s < |weight|
    ensures Source(demand, weight, dir, i + 1, s)
      == if Gives(demand, weight, dir, i, s) then i else Source(demand, weight, dir, i, s)
  {
    if weight[i] == 0 {
      HeirInherits(weight, dir, i, s);
    }
  }

  /** The source that pays for a state: the highest of the first k states that gave to it, or the state itself. */
  lemma {:induction false} SourceIsLastGiver(demand: seq<int>, weight: seq<int>, dir: int, k: nat, s: nat)
    requires k <= |weight| == |demand| && s < |weight|
    ensures var p := Source(demand, weight, dir, k, s);
      if p < k && Gives(demand, weight, dir, p, s) then forall i :: p < i < k ==> !Gives(demand, weight, dir, i, s)
      else p == s && forall i :: 0 <= i < k ==> !Gives(demand, weight, dir, i, s)
  {
    if k > 0 {
      SourceIsLastGiver(demand, weight, dir, k - 1, s);
      SourceStep(demand, weight, dir, k - 1, s);
    }
  }

  // ----- Levels

  /** Changing the claim of state j by one changes the required level by j + 1. */
  lemma {:induction false} LevelOfClaim(demand: seq<int>, j: nat)
    requires j < |demand|
    ensures RequiredLevel(demand[j := demand[j] + 1]) == RequiredLevel(demand) + j + 1
  {
    var n := |demand| - 1;
    var more := demand[j := demand[j] + 1];
    if j == n {
      assert more[..n] == demand[..n];
      Distribute(demand[n], 1, n + 1);
    } else {
      LevelOfClaim(demand[..n], j);
      assert more[..n] == demand[..n][j := demand[j] + 1];
    }
  }

  /** Without claims no level is required. */
  lemma {:induction false} LevelOfNothing(demand: seq<int>)
    requires forall j :: 0 <= j < |demand| ==> demand[j] == 0
    ensures RequiredLevel(demand) == 0
  {
    if demand != [] {
      LevelOfNothing(demand[..|demand| - 1]);
    }
  }

  /** What cpu i adds to the present level: its state counted from 1 while it is awake. */
  function LevelAt(cur: seq<int>, info: seq<ProcInfo>): (l: seq<int>)
    requires |cur| == |info|
    ensures |l| == |cur| && forall i :: 0 <= i < |l| ==> l[i] == if info[i].sleepTime == 0 then cur[i] + 1 else 0
  {
    seq(|cur|, i requires 0 <= i < |cur| => if info[i].sleepTime == 0 then cur[i] + 1 else 0)
  }

  /** The present level is the sum over the awake cpus. */
  lemma {:induction false} PresentLevelIsSum(cur: seq<int>, info: seq<ProcInfo>)
    requires |cur| == |info|
    ensures PresentLevel(cur, info) == Sum(LevelAt(cur, info))
  {
    if cur != [] {
      var n := |cur| - 1;
      PresentLevelIsSum(cur[..n], info[..n]);
      assert LevelAt(cur, info)[..n] == LevelAt(cur[..n], info[..n]);
    }
  }

  // ----- Winning states

  /** With equal scores the state with the higher winning bid wins, then the lower state; scores below 0 never win. */
  lemma WinningStateMeaning(scores: seq<int>, bids: seq<int>, r: int)
    requires |scores| == |bids| && IsWinningState(scores, bids, r)
    ensures r == -1 <==> forall j :: 0 <= j < |scores| ==> scores[j] < 0 || (scores[j] == 0 && bids[j] <= 0)
    ensures r != -1 ==> 0 <= r < |scores| && scores[r] >= 0
    ensures r != -1 ==> forall j :: 0 <= j < |scores| ==>
      || scores[j] < scores[r]
      || (scores[j] == scores[r] && bids[j] < bids[r])
      || (scores[j] == scores[r] && bids[j] == bids[r] && r <= j)
  {
    if r == -1 {
      forall j | 0 <= j < |scores|
        ensures scores[j] < 0 || (scores[j] == 0 && bids[j] <= 0)
      {
        assert !Beats(scores[j], bids[j], 0, 0);
      }
    } else {
      forall j | 0 <= j < |scores|
        ensures || scores[j] < scores[r]
                || (scores[j] == scores[r] && bids[j] < bids[r])
                || (scores[j] == scores[r] && bids[j] == bids[r] && r <= j)
      {
        assert !Beats(scores[j], bids[j], scores[r], bids[r]);
        assert j < r ==> Beats(scores[r], bids[r], scores[j], bids[j]);
      }
    }
  }
}
