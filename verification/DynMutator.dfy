/** The dynamic programming mutator: table fill, backtracking and demand transform (mutate_dyn.c). */
module DynMutator {
  import opened Common
  import opened Knapsack
  import opened DemandTransform

  /** One table cell: best demand and the state chosen for the last cpu, -1 for a blank cell. */
  datatype Entry = Entry(f: int, sol: int)

  /** The cell for the cpus cur and budget b holds the optimum and a choice that attains it. */
  ghost predicate Exact(e: Entry, cur: seq<int>, demand: seq<int>, b: nat) {
    && cur != []
    && e.f == Best(cur, demand, b)
    && 0 <= e.sol < |demand|
    && Affordable(cur, b, e.sol)
    && e.f == TakeState(cur, demand, b, e.sol)
    && NoneBelow(cur, demand, b, e.sol, e.f)
  }

  /** The choice of an exact cell attains its value, and no lower choice does. */
  lemma CellMeaning(e: Entry, cur: seq<int>, demand: seq<int>, b: nat)
    requires WellPosed(cur, demand) && Exact(e, cur, demand, b)
    ensures AttainedWith(cur, demand, b, e.sol, e.f) && WorthLessBelow(cur, demand, b, e.sol, e.f)
  {
    NoneBelowMeaning(cur, demand, b, e.sol, e.f);
    SolAttains(e, cur, demand, b);
  }

  lemma SolAttains(e: Entry, cur: seq<int>, demand: seq<int>, b: nat)
    requires WellPosed(cur, demand) && Exact(e, cur, demand, b)
    ensures AttainedWith(cur, demand, b, e.sol, e.f)
  {
    var n := |cur| - 1;
    var rest := BestIsOptimum(cur[..n], demand, b - Abs(e.sol - cur[n]));
    Attain(cur, demand, b, e.sol, rest);
    var a := rest + [e.sol];
    assert |a| == n + 1 && a[n] == e.sol;
  }

  /** Current states of the cpus listed in proxy. */
  ghost function CurOf(cur: seq<int>, proxy: seq<int>): seq<int>
    requires forall k :: 0 <= k < |proxy| ==> 0 <= proxy[k] < |cur|
  {
    seq(|proxy|, k requires 0 <= k < |proxy| => cur[proxy[k]])
  }

  /** layout after writing a[k] at proxy[k], the highest k first. */
  ghost function Scatter(layout: seq<int>, proxy: seq<int>, a: seq<int>): (r: seq<int>)
    requires |proxy| == |a|
    requires forall k :: 0 <= k < |proxy| ==> 0 <= proxy[k] < |layout|
    ensures |r| == |layout|
    decreases |a|
  {
    if a == [] then layout else Scatter(layout, proxy[1..], a[1..])[proxy[0] := a[0]]
  }

  /** Writing through distinct proxies stores every choice and touches nothing else. */
  lemma {:induction false} ScatterDistinct(layout: seq<int>, proxy: seq<int>, a: seq<int>)
    requires |proxy| == |a| && Distinct(proxy)
    requires forall k :: 0 <= k < |proxy| ==> 0 <= proxy[k] < |layout|
    ensures forall k :: 0 <= k < |a| ==> Scatter(layout, proxy, a)[proxy[k]] == a[k]
    ensures forall i :: 0 <= i < |layout| && i !in proxy ==> Scatter(layout, proxy, a)[i] == layout[i]
    decreases |a|
  {
    if a != [] {
      var rest := Scatter(layout, proxy[1..], a[1..]);
      ScatterDistinct(layout, proxy[1..], a[1..]);
      assert proxy == [proxy[0]] + proxy[1..];
      forall k | 0 <= k < |a|
        ensures Scatter(layout, proxy, a)[proxy[k]] == a[k]
      {
        if k > 0 {
          assert rest[proxy[1..][k - 1]] == a[1..][k - 1];
        }
      }
    }
  }

  lemma ScatterStep(layout: seq<int>, proxy: seq<int>, k: nat, done: seq<int>, s: int)
    requires 0 < k <= |proxy| && |done| == |proxy| - k
    requires forall i :: 0 <= i < |proxy| ==> 0 <= proxy[i] < |layout|
    ensures Scatter(layout, proxy[k - 1..], [s] + done) == Scatter(layout, proxy[k..], done)[proxy[k - 1] := s]
  {
    assert proxy[k - 1..][1..] == proxy[k..] && ([s] + done)[1..] == done;
  }

  /**
   The cpus from k on have their choices, b of the budget w is left, and the best the other
   cpus can do with b adds up with the choices to the optimum of all of them.
   */
  ghost predicate OnOptimalPath(cur: seq<int>, demand: seq<int>, w: nat, k: nat, b: nat, done: seq<int>)
    requires k <= |cur|
  {
    && IsLayout(done, cur[k..], |demand|)
    && Distance(done, cur[k..]) + b == w
    && Shortfall(cur, demand, w, k, b, done) == 0
  }

  /** What the choices done and the best the first k cpus can do with b miss of the optimum. */
  ghost function Shortfall(cur: seq<int>, demand: seq<int>, w: nat, k: nat, b: nat, done: seq<int>): int
    requires k <= |cur| && IsLayout(done, cur[k..], |demand|)
  {
    Best(cur, demand, w) - Best(cur[..k], demand, b) - Value(demand, done)
  }

  lemma PathStart(cur: seq<int>, demand: seq<int>, w: nat)
    ensures OnOptimalPath(cur, demand, w, |cur|, w, [])
  {
    assert cur[..|cur|] == cur && cur[|cur|..] == [];
    DistanceSelf([]);
  }

  lemma PathStep(cur: seq<int>, demand: seq<int>, w: nat, k: nat, b: nat, done: seq<int>, e: Entry)
    requires 0 < k <= |cur| && OnOptimalPath(cur, demand, w, k, b, done)
    requires Exact(e, cur[..k], demand, b)
    ensures Abs(e.sol - cur[k - 1]) <= b
    ensures OnOptimalPath(cur, demand, w, k - 1, b - Abs(e.sol - cur[k - 1]), [e.sol] + done)
  {
    var s := e.sol;
    var cost := Abs(s - cur[k - 1]);
    assert cur[k - 1..] == [cur[k - 1]] + cur[k..];
    DistancePrepend(s, cur[k - 1], done, cur[k..]);
    ValuePrepend(demand, s, done);
    assert cur[..k][..k - 1] == cur[..k - 1];
    assert Best(cur[..k], demand, b) == Best(cur[..k - 1], demand, b - cost) + demand[s];
  }

  lemma PathEnd(cur: seq<int>, demand: seq<int>, w: nat, b: nat, done: seq<int>)
    requires OnOptimalPath(cur, demand, w, 0, b, done)
    ensures IsOptimal(cur, demand, w, done) && Value(demand, done) == Best(cur, demand, w)
  {
    assert cur[0..] == cur;
    forall other | IsLayout(other, cur, |demand|) && Distance(other, cur) <= w
      ensures Value(demand, other) <= Value(demand, done)
    {
      BestIsUpperBound(cur, demand, w, other);
    }
  }

  /** Every optimal layout either agrees with the choices made so far or is higher where it differs last. */
  ghost predicate LowestSoFar(cur: seq<int>, demand: seq<int>, w: nat, k: nat, done: seq<int>)
    requires k <= |cur|
  {
    forall other :: IsOptimal(cur, demand, w, other) ==> AgreesOrHigher(done, other[k..])
  }

  ghost predicate AgreesOrHigher(a: seq<int>, c: seq<int>) {
    c == a || Lower(a, c)
  }

  lemma LowestStart(cur: seq<int>, demand: seq<int>, w: nat)
    ensures LowestSoFar(cur, demand, w, |cur|, [])
  {
  }

  lemma SplitLayout(a: seq<int>, cur: seq<int>, demand: seq<int>, k: nat)
    requires IsLayout(a, cur, |demand|) && k <= |cur|
    ensures IsLayout(a[..k], cur[..k], |demand|) && IsLayout(a[k..], cur[k..], |demand|)
    ensures Distance(a, cur) == Distance(a[..k], cur[..k]) + Distance(a[k..], cur[k..])
    ensures Value(demand, a) == Value(demand, a[..k]) + Value(demand, a[k..])
  {
    assert a == a[..k] + a[k..] && cur == cur[..k] + cur[k..];
    DistanceConcat(a[..k], cur[..k], a[k..], cur[k..]);
    ValueConcat(demand, a[..k], a[k..]);
  }

  /** The lowest optimal layout is one layout. */
  lemma LowestIsUnique(cur: seq<int>, demand: seq<int>, w: int, a: seq<int>, c: seq<int>)
    requires IsLowestOptimal(cur, demand, w, a) && IsLowestOptimal(cur, demand, w, c)
    ensures a == c
  {
    LowerOneWay(a, c);
  }

  lemma LowerOneWay(a: seq<int>, c: seq<int>)
    ensures !(Lower(a, c) && Lower(c, a))
  {
    forall i, j | LowerAt(a, c, i)
      ensures !LowerAt(c, a, j)
    {
    }
  }

  lemma OptimalIsBest(cur: seq<int>, demand: seq<int>, w: nat, a: seq<int>)
    requires WellPosed(cur, demand) && IsOptimal(cur, demand, w, a)
    ensures Value(demand, a) == Best(cur, demand, w)
  {
    var best := BestIsOptimum(cur, demand, w);
    BestIsUpperBound(cur, demand, w, a);
  }

  /** An optimal layout that made the same choices from k on leaves an optimum to the cpus before. */
  lemma PrefixIsBest(cur: seq<int>, demand: seq<int>, w: nat, k: nat, b: nat, done: seq<int>, other: seq<int>)
    requires WellPosed(cur, demand) && k <= |cur|
    requires OnOptimalPath(cur, demand, w, k, b, done)
    requires IsOptimal(cur, demand, w, other) && other[k..] == done
    ensures IsLayout(other[..k], cur[..k], |demand|) && Distance(other[..k], cur[..k]) <= b
    ensures Value(demand, other[..k]) == Best(cur[..k], demand, b)
  {
    SplitLayout(other, cur, demand, k);
    OptimalIsBest(cur, demand, w, other);
  }

  /** The last of the first k cpus is in no lower state in any optimal layout that agrees from k on. */
  lemma NoLowerChoice(cur: seq<int>, demand: seq<int>, w: nat, k: nat, b: nat, done: seq<int>, e: Entry, other: seq<int>)
    requires WellPosed(cur, demand) && 0 < k <= |cur|
    requires OnOptimalPath(cur, demand, w, k, b, done)
    requires Exact(e, cur[..k], demand, b)
    requires IsOptimal(cur, demand, w, other) && other[k..] == done
    ensures e.sol <= other[k - 1]
  {
    PrefixIsBest(cur, demand, w, k, b, done, other);
    LastStateBounds(cur[..k], demand, b, other[..k]);
  }

  /** a stays lowest when s is put in front, unless the other layout has a state below s there. */
  lemma HigherWithHead(s: int, a: seq<int>, other: seq<int>, k: nat)
    requires 0 < k <= |other| && AgreesOrHigher(a, other[k..])
    requires other[k..] == a ==> s <= other[k - 1]
    ensures AgreesOrHigher([s] + a, other[k - 1..])
  {
    var c, t := other[k..], other[k - 1];
    assert other[k - 1..] == [t] + c;
    if c != a {
      var i :| LowerAt(a, c, i);
      assert LowerAt([s] + a, [t] + c, i + 1);
    } else if s < t {
      assert LowerAt([s] + a, [t] + c, 0);
    }
  }

  /** Taking the lowest state that attains the optimum keeps the choices lowest. */
  lemma LowestStep(cur: seq<int>, demand: seq<int>, w: nat, k: nat, b: nat, done: seq<int>, e: Entry)
    requires WellPosed(cur, demand) && 0 < k <= |cur|
    requires OnOptimalPath(cur, demand, w, k, b, done) && LowestSoFar(cur, demand, w, k, done)
    requires Exact(e, cur[..k], demand, b)
    ensures LowestSoFar(cur, demand, w, k - 1, [e.sol] + done)
  {
    forall other | IsOptimal(cur, demand, w, other)
      ensures AgreesOrHigher([e.sol] + done, other[k - 1..])
    {
      if other[k..] == done {
        NoLowerChoice(cur, demand, w, k, b, done, e, other);
      }
      HigherWithHead(e.sol, done, other, k);
    }
  }

  lemma StepStaysLowest(cur: seq<int>, demand: seq<int>, w: nat, k: nat, b: nat, done: seq<int>, e: Entry)
    requires WellPosed(cur, demand) && 0 < k <= |cur|
    requires OnOptimalPath(cur, demand, w, k, b, done) && LowestSoFar(cur, demand, w, k, done)
    requires Exact(e, cur[..k], demand, b)
    ensures Abs(e.sol - cur[k - 1]) <= b
    ensures OnOptimalPath(cur, demand, w, k - 1, b - Abs(e.sol - cur[k - 1]), [e.sol] + done)
    ensures LowestSoFar(cur, demand, w, k - 1, [e.sol] + done)
  {
    PathStep(cur, demand, w, k, b, done, e);
    LowestStep(cur, demand, w, k, b, done, e);
  }

  lemma LowestEnd(cur: seq<int>, demand: seq<int>, w: nat, done: seq<int>)
    requires IsOptimal(cur, demand, w, done) && LowestSoFar(cur, demand, w, 0, done)
    ensures IsLowestOptimal(cur, demand, w, done)
  {
    forall other | IsOptimal(cur, demand, w, other)
      ensures other == done || Lower(done, other)
    {
      assert other[0..] == other;
    }
  }

  class Mutator {
    const curCpuState: array<int>
    const newCpuState: array<int>
    const cpuAwakeProxy: array<int>
    const demand: array<int>
    const dyna: array2<Entry>
    const wt: array2<int>

    /** Static arrays start out as zeros; the table has room for budgets up to maxDelta. */
    constructor (cur: array<int>, states: nat, maxDelta: nat)
      requires forall i :: 0 <= i < cur.Length ==> 0 <= cur[i] < states
      ensures Valid() && curCpuState == cur && demand.Length == states && dyna.Length1 == maxDelta + 1
      ensures fresh(newCpuState) && fresh(cpuAwakeProxy) && fresh(demand) && cpuAwakeProxy != cur
      ensures forall i :: 0 <= i < cur.Length ==> newCpuState[i] == 0 && cpuAwakeProxy[i] == 0
    {
      curCpuState := cur;
      newCpuState := new int[cur.Length](_ => 0);
      cpuAwakeProxy := new int[cur.Length](_ => 0);
      demand := new int[states](_ => 0);
      dyna := new Entry[cur.Length + 1, maxDelta + 1]((_, _) => Entry(0, 0));
      wt := new int[cur.Length, states]((_, _) => 0);
    }

    ghost predicate Valid()
      reads curCpuState
    {
      && newCpuState != curCpuState && newCpuState != cpuAwakeProxy && newCpuState != demand
      && demand != curCpuState && demand != cpuAwakeProxy
      && newCpuState.Length == curCpuState.Length == cpuAwakeProxy.Length
      && dyna.Length0 == curCpuState.Length + 1
      && wt.Length0 == curCpuState.Length
      && wt.Length1 == demand.Length
      && forall i :: 0 <= i < curCpuState.Length ==> 0 <= curCpuState[i] < demand.Length
    }

    ghost predicate ProxiesInRange(n: nat)
      reads cpuAwakeProxy
      requires n <= cpuAwakeProxy.Length
    {
      forall k :: 0 <= k < n ==> 0 <= cpuAwakeProxy[k] < curCpuState.Length
    }

    /** Current states of the first n proxied cpus. */
    ghost function Curs(n: nat): (c: seq<int>)
      reads curCpuState, cpuAwakeProxy
      requires n <= cpuAwakeProxy.Length && ProxiesInRange(n)
      ensures |c| == n
    {
      CurOf(curCpuState[..], cpuAwakeProxy[..n])
    }

    /** What mck demands: 1 <= n cpus, a budget that fits the table, and positive demands. */
    ghost predicate Ready(n: nat, w: nat)
      reads curCpuState, cpuAwakeProxy, demand
    {
      && Valid()
      && 1 <= n <= curCpuState.Length && w < dyna.Length1
      && ProxiesInRange(n)
      && forall j :: 0 <= j < demand.Length ==> demand[j] > 0
    }

    ghost predicate WeightsReady(n: nat)
      reads curCpuState, cpuAwakeProxy, wt
      requires Valid() && n <= curCpuState.Length && ProxiesInRange(n)
    {
      forall i, j :: 0 <= i < n && 0 <= j < demand.Length ==> wt[i, j] == Abs(j - Curs(n)[i])
    }

    method FillWeights(n: nat)
      requires Valid() && n <= curCpuState.Length && ProxiesInRange(n)
      modifies wt
      ensures WeightsReady(n)
    {
      var i := 0;
      while i < n
        invariant 0 <= i <= n
        invariant forall p, q :: 0 <= p < i && 0 <= q < demand.Length ==> wt[p, q] == Abs(q - Curs(n)[p])
      {
        var j := 0;
        while j < demand.Length
          invariant 0 <= j <= demand.Length
          invariant forall p, q :: 0 <= p < i && 0 <= q < demand.Length ==> wt[p, q] == Abs(q - Curs(n)[p])
          invariant forall q :: 0 <= q < j ==> wt[i, q] == Abs(q - Curs(n)[i])
        {
          wt[i, j] := Abs(j - curCpuState[cpuAwakeProxy[i]]);
          j := j + 1;
        }
        i := i + 1;
      }
    }

    /** Best affordable state of the first cpu alone. */
    method ChooseFirst(n: nat, b: nat) returns (max: int, ind: int)
      requires Ready(n, b) && WeightsReady(n)
      ensures Exact(Entry(max, ind), Curs(n)[..1], demand[..], b)
    {
      ghost var cur := Curs(n)[..1];
      max, ind := -1, -1;
      var j := 0;
      while j < demand.Length
        invariant 0 <= j <= demand.Length
        invariant max == BestOver(cur, demand[..], b, j)
        invariant max >= 0 ==> 0 <= ind < j && Affordable(cur, b, ind) && max == TakeState(cur, demand[..], b, ind)
        invariant NoneBelow(cur, demand[..], b, j, max + 1) && (max >= 0 ==> NoneBelow(cur, demand[..], b, ind, max))
      {
        assert wt[0, j] <= b <==> Affordable(cur, b, j);
        if wt[0, j] <= b {
          assert cur[..0] == [];
          assert Best(cur[..|cur| - 1], demand[..], b - wt[0, j]) == 0;
          assert TakeState(cur, demand[..], b, j) == demand[j];
        }
        if wt[0, j] <= b && max < demand[j] {
          max, ind := demand[j], j;
        }
        j := j + 1;
      }
      BestIsPositive(cur, demand[..], b);
    }

    ghost predicate RowExact(n: nat, k: nat, w: nat)
      reads curCpuState, cpuAwakeProxy, demand, dyna
      requires Ready(n, w) && 1 <= k <= n
    {
      forall b: nat :: b <= w ==> Exact(dyna[k, b], Curs(n)[..k], demand[..], b)
    }

    /** Best affordable state of cpu k - 1 given the finished row for the cpus before it. */
    method ChooseNext(n: nat, k: nat, b: nat, w: nat) returns (max: int, ind: int)
      requires Ready(n, w) && WeightsReady(n)
      requires 2 <= k <= n && b <= w && RowExact(n, k - 1, w)
      ensures Exact(Entry(max, ind), Curs(n)[..k], demand[..], b)
    {
      ghost var cur := Curs(n)[..k];
      assert cur[..k - 1] == Curs(n)[..k - 1];
      max, ind := -1, -1;
      var j := 0;
      while j < demand.Length
        invariant 0 <= j <= demand.Length
        invariant max == BestOver(cur, demand[..], b, j)
        invariant max >= 0 ==> 0 <= ind < j && Affordable(cur, b, ind) && max == TakeState(cur, demand[..], b, ind)
        invariant NoneBelow(cur, demand[..], b, j, max + 1) && (max >= 0 ==> NoneBelow(cur, demand[..], b, ind, max))
      {
        var demand1 := if b - wt[k - 1, j] >= 0 then dyna[k - 1, b - wt[k - 1, j]].f else 0;
        var demand2 := demand1 + demand[j];
        if wt[k - 1, j] <= b {
          BestIsPositive(cur[..k - 1], demand[..], b - wt[k - 1, j]);
        }
        if wt[k - 1, j] <= b && demand1 > 0 && max < demand2 {
          max, ind := demand2, j;
        }
        j := j + 1;
      }
      BestIsPositive(cur, demand[..], b);
    }

    /** Blank every cell of rows 0..n and columns 0..w. */
    method ClearTable(n: nat, w: nat)
      requires Valid() && n <= curCpuState.Length && w < dyna.Length1
      modifies dyna
      ensures forall k, b :: 0 <= k <= n && 0 <= b <= w ==> dyna[k, b] == Entry(0, -1)
    {
      var i := 0;
      while i <= n
        invariant 0 <= i <= n + 1
        invariant forall k, b :: 0 <= k < i && 0 <= b <= w ==> dyna[k, b] == Entry(0, -1)
      {
        var j := 0;
        while j <= w
          invariant 0 <= j <= w + 1
          invariant forall k, b :: 0 <= k < i && 0 <= b <= w ==> dyna[k, b] == Entry(0, -1)
          invariant forall b :: 0 <= b < j ==> dyna[i, b] == Entry(0, -1)
        {
          dyna[i, j] := Entry(0, -1);
          j := j + 1;
        }
        i := i + 1;
      }
    }

    method FillFirstRow(n: nat, w: nat)
      requires Ready(n, w) && WeightsReady(n)
      modifies dyna
      ensures RowExact(n, 1, w)
    {
      var b := 0;
      while b <= w
        invariant 0 <= b <= w + 1
        invariant forall c: nat :: c < b ==> Exact(dyna[1, c], Curs(n)[..1], demand[..], c)
      {
        var max, ind := ChooseFirst(n, b);
        if b > 0 && dyna[1, b - 1].f > max {
          dyna[1, b] := dyna[1, b].(f := dyna[1, b - 1].f);
        } else {
          dyna[1, b] := dyna[1, b].(f := max);
        }
        if max > 0 {
          dyna[1, b] := dyna[1, b].(sol := ind);
        }
        BestIsPositive(Curs(n)[..1], demand[..], b);
        if b > 0 {
          BestMonotone(Curs(n)[..1], demand[..], b - 1, b);
        }
        b := b + 1;
      }
    }

    method FillRow(n: nat, k: nat, w: nat)
      requires Ready(n, w) && WeightsReady(n)
      requires 2 <= k <= n && RowExact(n, k - 1, w)
      modifies dyna
      ensures RowExact(n, k, w)
      ensures forall i: nat :: 1 <= i < k && old(RowExact(n, i, w)) ==> RowExact(n, i, w)
    {
      var b := 0;
      while b <= w
        invariant 0 <= b <= w + 1
        invariant forall i, c :: 0 <= i < k && 0 <= c <= w ==> dyna[i, c] == old(dyna[i, c])
        invariant forall c: nat :: c < b ==> Exact(dyna[k, c], Curs(n)[..k], demand[..], c)
      {
        var max, ind := ChooseNext(n, k, b, w);
        if b > 0 && dyna[k, b - 1].f > max {
          dyna[k, b] := dyna[k, b].(f := dyna[k, b - 1].f);
        } else if max > 0 {
          dyna[k, b] := Entry(max, ind);
        }
        BestIsPositive(Curs(n)[..k], demand[..], b);
        if b > 0 {
          BestMonotone(Curs(n)[..k], demand[..], b - 1, b);
        }
        b := b + 1;
      }
    }

    /** Every cell of rows 1..n is exact. */
    ghost predicate TableExact(n: nat, w: nat)
      reads curCpuState, cpuAwakeProxy, demand, dyna
      requires Ready(n, w)
    {
      forall k: nat :: 1 <= k <= n ==> RowExact(n, k, w)
    }

    method FillTable(n: nat, w: nat)
      requires Ready(n, w)
      modifies dyna, wt
      ensures WeightsReady(n) && TableExact(n, w)
    {
      FillWeights(n);
      ClearTable(n, w);
      FillFirstRow(n, w);
      var k := 2;
      while k <= n
        invariant 2 <= k <= n + 1
        invariant WeightsReady(n)
        invariant forall i: nat :: 1 <= i < k ==> RowExact(n, i, w)
      {
        FillRow(n, k, w);
        k := k + 1;
      }
    }

    /** Scan row k downwards from column b for a cell that is not blank; -1 when there is none. */
    method NextEntry(k: nat, b: int) returns (c: int)
      requires k < dyna.Length0 && -1 <= b < dyna.Length1
      ensures -1 <= c <= b && (c >= 0 ==> dyna[k, c].sol >= 0)
      ensures forall d :: c < d <= b ==> dyna[k, d].sol < 0
    {
      c := b;
      while c >= 0
        invariant -1 <= c <= b
        invariant forall d :: c < d <= b ==> dyna[k, d].sol < 0
      {
        if dyna[k, c].sol >= 0 {
          break;
        }
        c := c - 1;
      }
    }

    /** Give the k-th cpu the choice of its cell; left is the budget after paying for it. */
    method TakeChoice(n: nat, w: nat, k: nat, b: nat) returns (sol: int, left: int)
      requires Ready(n, w) && WeightsReady(n)
      requires 0 < k <= n && b <= w && Exact(dyna[k, b], Curs(n)[..k], demand[..], b)
      modifies newCpuState
      ensures sol == dyna[k, b].sol && left == b - Abs(sol - Curs(n)[k - 1])
      ensures newCpuState[..] == old(newCpuState[..])[cpuAwakeProxy[k - 1] := sol]
    {
      var c := NextEntry(k, b);
      sol, left := -1, c;
      if c >= 0 {
        sol := dyna[k, c].sol;
        newCpuState[cpuAwakeProxy[k - 1]] := sol;
        left := c - wt[k - 1, sol];
      }
    }

    lemma CellExact(n: nat, w: nat, k: nat, b: nat) returns (e: Entry)
      requires Ready(n, w) && TableExact(n, w) && 1 <= k <= n && b <= w
      ensures e == dyna[k, b] && Exact(e, Curs(n)[..k], demand[..], b)
    {
      assert RowExact(n, k, w);
      e := dyna[k, b];
    }

    /** The cpus from k on have their choices, written and paid for; left is what remains of w. */
    ghost predicate WalkedTo(n: nat, w: nat, k: nat, left: int, before: seq<int>, choices: seq<int>)
      reads curCpuState, cpuAwakeProxy, demand, newCpuState
      requires Valid() && k <= n <= curCpuState.Length && ProxiesInRange(n)
    {
      && 0 <= left <= w && |choices| + k == n && |before| == newCpuState.Length
      && OnOptimalPath(Curs(n), demand[..], w, k, left, choices)
      && LowestSoFar(Curs(n), demand[..], w, k, choices)
      && newCpuState[..] == Scatter(before, cpuAwakeProxy[..n][k..], choices)
    }

    /** One row of the walk back: the choice of the k-th cpu joins those of the cpus after it. */
    method StepBack(n: nat, w: nat, k: nat, b: nat, ghost before: seq<int>, ghost done: seq<int>)
      returns (left: int, ghost choices: seq<int>)
      requires Ready(n, w) && WeightsReady(n) && TableExact(n, w)
      requires 0 < k <= n && WalkedTo(n, w, k, b, before, done)
      modifies newCpuState
      ensures WalkedTo(n, w, k - 1, left, before, choices)
    {
      ghost var e := CellExact(n, w, k, b);
      ghost var cur, d := Curs(n), demand[..];
      StepStaysLowest(cur, d, w, k, b, done, e);
      choices := [e.sol] + done;
      ScatterStep(before, cpuAwakeProxy[..n], k, done, e.sol);
      ghost var written := Scatter(before, cpuAwakeProxy[..n][k - 1..], choices);
      var sol;
      sol, left := TakeChoice(n, w, k, b);
      assert Curs(n) == cur && demand[..] == d && newCpuState[..] == written;
    }

    /** Walk the table from cell (n, w) back to row 0, writing one choice per row. */
    method Backtrack(n: nat, w: nat) returns (ghost left: nat, ghost choices: seq<int>)
      requires Ready(n, w) && WeightsReady(n) && TableExact(n, w)
      modifies newCpuState
      ensures WalkedTo(n, w, 0, left, old(newCpuState[..]), choices)
    {
      ghost var before := newCpuState[..];
      choices := [];
      PathStart(Curs(n), demand[..], w);
      LowestStart(Curs(n), demand[..], w);
      var b: int := w;
      var k := n;
      while k > 0
        invariant 0 <= k <= n && 0 <= b
        invariant WalkedTo(n, w, k, b, before, choices)
      {
        b, choices := StepBack(n, w, k, b, before, choices);
        k := k - 1;
      }
      left := b;
    }

    /**
     Solve the knapsack of the first n proxied cpus with budget w: choices is a layout within
     the budget that no layout beats, the lowest of those, and it is written to newCpuState
     through the proxies.
     */
    method Mck(n: nat, w: nat) returns (ghost choices: seq<int>)
      requires Ready(n, w)
      modifies dyna, wt, newCpuState
      ensures IsLowestOptimal(Curs(n), demand[..], w, choices)
      ensures Value(demand[..], choices) == dyna[n, w].f
      ensures newCpuState[..] == Scatter(old(newCpuState[..]), cpuAwakeProxy[..n], choices)
      ensures forall k: nat, b: nat :: 1 <= k <= n && b <= w ==>
        dyna[k, b].sol >= 0 && IsOptimum(Curs(n)[..k], demand[..], b, dyna[k, b].f)
      ensures forall k: nat, b: nat :: 1 <= k <= n && b <= w ==>
        && AttainedWith(Curs(n)[..k], demand[..], b, dyna[k, b].sol, dyna[k, b].f)
        && WorthLessBelow(Curs(n)[..k], demand[..], b, dyna[k, b].sol, dyna[k, b].f)
      ensures forall k: nat, b: nat :: 1 <= k <= n && 0 < b <= w ==> dyna[k, b - 1].f <= dyna[k, b].f
    {
      FillTable(n, w);
      ghost var left;
      left, choices := Backtrack(n, w);
      PathEnd(Curs(n), demand[..], w, left, choices);
      LowestEnd(Curs(n), demand[..], w, choices);
      ghost var last := CellExact(n, w, n, w);
      assert Curs(n)[..n] == Curs(n) && cpuAwakeProxy[..n][0..] == cpuAwakeProxy[..n];
      TableMeaning(n, w);
    }

    lemma TableMeaning(n: nat, w: nat)
      requires Ready(n, w) && TableExact(n, w)
      ensures forall k: nat, b: nat :: 1 <= k <= n && b <= w ==>
        dyna[k, b].sol >= 0 && IsOptimum(Curs(n)[..k], demand[..], b, dyna[k, b].f)
      ensures forall k: nat, b: nat :: 1 <= k <= n && b <= w ==>
        && AttainedWith(Curs(n)[..k], demand[..], b, dyna[k, b].sol, dyna[k, b].f)
        && WorthLessBelow(Curs(n)[..k], demand[..], b, dyna[k, b].sol, dyna[k, b].f)
      ensures forall k: nat, b: nat :: 1 <= k <= n && 0 < b <= w ==> dyna[k, b - 1].f <= dyna[k, b].f
    {
      forall k: nat, b: nat | 1 <= k <= n && b <= w
        ensures dyna[k, b].sol >= 0 && IsOptimum(Curs(n)[..k], demand[..], b, dyna[k, b].f)
      {
        var e := CellExact(n, w, k, b);
        var a := BestIsOptimum(Curs(n)[..k], demand[..], b);
      }
      forall k: nat, b: nat | 1 <= k <= n && b <= w
        ensures AttainedWith(Curs(n)[..k], demand[..], b, dyna[k, b].sol, dyna[k, b].f)
        ensures WorthLessBelow(Curs(n)[..k], demand[..], b, dyna[k, b].sol, dyna[k, b].f)
      {
        var e := CellExact(n, w, k, b);
        CellMeaning(e, Curs(n)[..k], demand[..], b);
      }
      forall k: nat, b: nat | 1 <= k <= n && 0 < b <= w
        ensures dyna[k, b - 1].f <= dyna[k, b].f
      {
        var e := CellExact(n, w, k, b - 1);
        var f := CellExact(n, w, k, b);
        BestMonotone(Curs(n)[..k], demand[..], b - 1, b);
      }
    }

    /** Mark the states some proxied cpu can reach. */
    method MarkReachable(cpus: nat, delta: int, canWin: array<bool>)
      requires Valid() && cpus <= curCpuState.Length && ProxiesInRange(cpus)
      requires canWin.Length == demand.Length
      modifies canWin
      ensures canWin[..] == Reach(Curs(cpus), delta, demand.Length)
    {
      var j := 0;
      while j < demand.Length
        invariant 0 <= j <= demand.Length
        invariant forall q :: 0 <= q < j ==> canWin[q] == CanWin(Curs(cpus), delta, q)
      {
        canWin[j] := false;
        var i := 0;
        while i < cpus
          invariant 0 <= i <= cpus && !canWin[j]
          invariant forall q :: 0 <= q < j ==> canWin[q] == CanWin(Curs(cpus), delta, q)
          invariant forall p :: 0 <= p < i ==> Abs(Curs(cpus)[p] - j) > delta
        {
          assert Curs(cpus)[i] == curCpuState[cpuAwakeProxy[i]];
          if Abs(curCpuState[cpuAwakeProxy[i]] - j) <= delta {
            canWin[j] := true;
            break;
          }
          i := i + 1;
        }
        j := j + 1;
      }
    }

    /** Closest reachable states at or above and at or below j; -1 for none. */
    method Neighbours(canWin: array<bool>, j: nat) returns (left: int, right: int)
      requires j < canWin.Length
      ensures left == LeftOf(canWin[..], j) && right == RightOf(canWin[..], j)
    {
      left, right := -1, -1;
      var i := j;
      while i < canWin.Length
        invariant j <= i <= canWin.Length && right == -1
        invariant RightOf(canWin[..], j) == RightOf(canWin[..], i)
      {
        if canWin[i] {
          right := i;
          break;
        }
        i := i + 1;
      }
      var l: int := j;
      while l >= 0
        invariant -1 <= l <= j && left == -1
        invariant LeftOf(canWin[..], j) == LeftOf(canWin[..], l)
      {
        if canWin[l] {
          left := l;
          break;
        }
        l := l - 1;
      }
    }

    /** The state that inherits the demand of j. */
    method PickFriend(canWin: array<bool>, j: nat) returns (buddy: int)
      requires j < canWin.Length == demand.Length
      ensures buddy == Friend(demand[..], canWin[..], j)
    {
      var left, right := Neighbours(canWin, j);
      if left == -1 {
        buddy := right;
      } else if right == -1 {
        buddy := left;
      } else if Abs(left - j) == Abs(right - j) {
        buddy := if demand[left] > demand[right] then left else right;
      } else {
        buddy := if Abs(left - j) < Abs(right - j) then left else right;
      }
    }

    /** Credit the demand of state j to its friend when j cannot win. */
    method CreditFriend(canWin: array<bool>, j: nat)
      requires j < canWin.Length == demand.Length && true in canWin[..]
      modifies demand
      ensures demand[..] ==
        if canWin[j] || old(demand[j]) == 0 then old(demand[..])
        else
          var f := Friend(old(demand[..]), canWin[..], j);
          old(demand[..])[f := old(demand[..])[f] + old(demand[j])]
    {
      if !(canWin[j] || demand[j] == 0) {
        FriendIsNearest(demand[..], canWin[..], j);
        var buddy := PickFriend(canWin, j);
        demand[buddy] := demand[buddy] + demand[j];
      }
    }

    /** Credit the demand of every state that cannot win, lowest state first. */
    method CreditFriends(canWin: array<bool>)
      requires canWin.Length == demand.Length && true in canWin[..]
      modifies demand
      ensures demand[..] == Transform(old(demand[..]), canWin[..], demand.Length)
    {
      ghost var before := demand[..];
      var j := 0;
      while j < demand.Length
        invariant 0 <= j <= demand.Length
        invariant demand[..] == Transform(before, canWin[..], j)
      {
        CreditFriend(canWin, j);
        j := j + 1;
      }
    }

    /** Credit the demand of states that cannot win under delta to their friends. */
    method DeltaBasedDemandTransform(cpus: nat, delta: nat)
      requires Valid() && 1 <= cpus <= curCpuState.Length && ProxiesInRange(cpus)
      modifies demand
      ensures var can := Reach(Curs(cpus), delta, demand.Length);
        true in can && demand[..] == Transform(old(demand[..]), can, demand.Length)
    {
      StayingIsReachable(cpus, delta);
      var canWin := new bool[demand.Length];
      MarkReachable(cpus, delta, canWin);
      CreditFriends(canWin);
    }

    lemma StayingIsReachable(cpus: nat, delta: nat)
      requires Valid() && 1 <= cpus <= curCpuState.Length && ProxiesInRange(cpus)
      ensures true in Reach(Curs(cpus), delta, demand.Length)
    {
      var c := Curs(cpus)[0];
      assert Abs(Curs(cpus)[0] - c) <= delta;
      assert Reach(Curs(cpus), delta, demand.Length)[c];
    }
  }
}
