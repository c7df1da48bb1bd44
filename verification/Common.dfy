/** Arithmetic and the records shared by every part of the scheduler model. */
module Common {

  /** Largest value of the 32-bit counters that hold sleep times. */
  const UINT_MAX: nat := 0xFFFF_FFFF

  /** One performance state: how many cpus are in it, which ones, and the hints it received. */
  datatype StateDesc = StateDesc(cpus: int, cpumask: set<nat>, demand: int)

  /** Sleep bookkeeping of one cpu. */
  datatype ProcInfo = ProcInfo(sleepTime: nat, awake: nat, awakeTime: nat)

  datatype Option<T> = None | Some(value: T)

  ghost predicate Distinct<T>(s: seq<T>) {
    forall j, k :: 0 <= j < k < |s| ==> s[j] != s[k]
  }

  function Abs(x: int): nat {
    if x >= 0 then x else -x
  }

  function Min(a: int, b: int): int {
    if a <= b then a else b
  }

  function Max(a: int, b: int): int {
    if a >= b then a else b
  }

  function Sum(s: seq<int>): int {
    if s == [] then 0 else Sum(s[..|s| - 1]) + s[|s| - 1]
  }

  lemma SumPrefix(s: seq<int>, k: nat)
    requires k < |s|
    ensures Sum(s[..k + 1]) == Sum(s[..k]) + s[k]
  {
    assert s[..k + 1][..k] == s[..k];
  }

  lemma {:induction false} SumConcat(s: seq<int>, t: seq<int>)
    ensures Sum(s + t) == Sum(s) + Sum(t)
  {
    if t == [] {
      assert s + t == s;
    } else {
      assert (s + t)[..|s + t| - 1] == s + t[..|t| - 1];
      SumConcat(s, t[..|t| - 1]);
    }
  }

  lemma {:induction false} SumUpdate(s: seq<int>, i: nat, v: int)
    requires i < |s|
    ensures Sum(s[i := v]) == Sum(s) - s[i] + v
  {
    var n := |s| - 1;
    if i == n {
      assert s[i := v][..n] == s[..n];
    } else {
      SumUpdate(s[..n], i, v);
      assert s[i := v][..n] == s[..n][i := v];
    }
  }

  lemma {:induction false} SumBounds(s: seq<int>, lo: int, hi: int)
    requires forall i :: 0 <= i < |s| ==> lo <= s[i] <= hi
    ensures lo * |s| <= Sum(s) <= hi * |s|
  {
    if s != [] {
      var n := |s| - 1;
      SumBounds(s[..n], lo, hi);
      assert lo * |s| == lo * n + lo && hi * |s| == hi * n + hi;
    }
  }

  lemma {:induction false} SumMonotone(s: seq<int>, t: seq<int>)
    requires |s| == |t| && forall i :: 0 <= i < |s| ==> s[i] <= t[i]
    ensures Sum(s) <= Sum(t)
  {
    if s != [] {
      SumMonotone(s[..|s| - 1], t[..|s| - 1]);
    }
  }

  lemma SumNonNegative(s: seq<int>)
    requires forall k :: 0 <= k < |s| ==> 0 <= s[k]
    ensures 0 <= Sum(s)
  {
    SumBounds(s, 0, MaxEntry(s));
  }

  /** A sum of non-negative entries is at least each entry. */
  lemma {:induction false} SumAtLeastEntry(s: seq<int>, i: nat)
    requires i < |s| && forall k :: 0 <= k < |s| ==> 0 <= s[k]
    ensures s[i] <= Sum(s)
  {
    var n := |s| - 1;
    if i < n {
      SumAtLeastEntry(s[..n], i);
    } else {
      SumNonNegative(s[..n]);
    }
  }

  function MaxEntry(s: seq<int>): (r: int)
    ensures forall k :: 0 <= k < |s| ==> s[k] <= r
  {
    if s == [] then 0 else Max(MaxEntry(s[..|s| - 1]), s[|s| - 1])
  }

  /** A positive sum has a positive entry. */
  lemma PositiveEntry(s: seq<int>) returns (i: nat)
    requires Sum(s) > 0
    ensures i < |s| && s[i] > 0
  {
    var n := |s| - 1;
    if s[n] > 0 {
      i := n;
    } else {
      i := PositiveEntry(s[..n]);
    }
  }

  lemma {:induction false} SumAdd(s: seq<int>, t: seq<int>, u: seq<int>)
    requires |s| == |t| == |u| && forall i :: 0 <= i < |u| ==> u[i] == s[i] + t[i]
    ensures Sum(u) == Sum(s) + Sum(t)
  {
    if u != [] {
      var n := |u| - 1;
      SumAdd(s[..n], t[..n], u[..n]);
    }
  }

  /** The marked entries of v, 0 for the others. */
  function Pick(mask: seq<bool>, v: seq<int>): (r: seq<int>)
    requires |mask| == |v|
    ensures |r| == |v| && forall i :: 0 <= i < |r| ==> r[i] == if mask[i] then v[i] else 0
  {
    seq(|v|, i requires 0 <= i < |v| => if mask[i] then v[i] else 0)
  }

  /** Sum of the marked entries. */
  function SumWhere(mask: seq<bool>, v: seq<int>): int
    requires |mask| == |v|
  {
    Sum(Pick(mask, v))
  }

  /** Two masks without a common mark add up to their union. */
  lemma SumWhereUnion(a: seq<bool>, b: seq<bool>, c: seq<bool>, v: seq<int>)
    requires |a| == |b| == |c| == |v|
    requires forall i :: 0 <= i < |c| ==> (c[i] <==> a[i] || b[i]) && !(a[i] && b[i])
    ensures SumWhere(c, v) == SumWhere(a, v) + SumWhere(b, v)
  {
    SumAdd(Pick(a, v), Pick(b, v), Pick(c, v));
  }

  /** A sum does not see entries that are not marked. */
  lemma SumWhereSame(mask: seq<bool>, v: seq<int>, w: seq<int>)
    requires |mask| == |v| == |w| && forall i :: 0 <= i < |v| && mask[i] ==> v[i] == w[i]
    ensures SumWhere(mask, v) == SumWhere(mask, w)
  {
    assert Pick(mask, v) == Pick(mask, w);
  }

  lemma SumWhereZero(mask: seq<bool>, v: seq<int>)
    requires |mask| == |v| && forall i :: 0 <= i < |v| && mask[i] ==> v[i] == 0
    ensures SumWhere(mask, v) == 0
  {
    SumBounds(Pick(mask, v), 0, 0);
  }

  lemma SumWhereNonNegative(mask: seq<bool>, v: seq<int>)
    requires |mask| == |v| && forall i :: 0 <= i < |v| && mask[i] ==> v[i] >= 0
    ensures SumWhere(mask, v) >= 0
    ensures forall i :: 0 <= i < |v| && mask[i] ==> v[i] <= SumWhere(mask, v)
  {
    SumNonNegative(Pick(mask, v));
    forall i | 0 <= i < |v| && mask[i]
      ensures v[i] <= SumWhere(mask, v)
    {
      SumAtLeastEntry(Pick(mask, v), i);
    }
  }

  /** Entry-wise distance of two layouts. */
  function Gaps(a: seq<int>, b: seq<int>): (g: seq<int>)
    requires |a| == |b|
    ensures |g| == |a| && forall i :: 0 <= i < |g| ==> g[i] == Abs(a[i] - b[i])
  {
    seq(|a|, i requires 0 <= i < |a| => Abs(a[i] - b[i]))
  }

  /** Total state change between two layouts: what the budget delta pays for. */
  function Distance(a: seq<int>, b: seq<int>): (d: nat)
    requires |a| == |b|
  {
    SumNonNegative(Gaps(a, b));
    Sum(Gaps(a, b))
  }

  lemma DistanceUpdate(a: seq<int>, b: seq<int>, i: nat, v: int)
    requires |a| == |b| && i < |a|
    ensures Distance(a[i := v], b) == Distance(a, b) - Abs(a[i] - b[i]) + Abs(v - b[i])
  {
    SumUpdate(Gaps(a, b), i, Abs(v - b[i]));
    assert Gaps(a[i := v], b) == Gaps(a, b)[i := Abs(v - b[i])];
  }

  lemma DistanceSelf(a: seq<int>)
    ensures Distance(a, a) == 0
  {
    SumBounds(Gaps(a, a), 0, 0);
  }

  lemma DistanceConcat(a: seq<int>, b: seq<int>, c: seq<int>, d: seq<int>)
    requires |a| == |b| && |c| == |d|
    ensures Distance(a + c, b + d) == Distance(a, b) + Distance(c, d)
  {
    SumConcat(Gaps(a, b), Gaps(c, d));
    assert Gaps(a + c, b + d) == Gaps(a, b) + Gaps(c, d);
  }

  lemma DistanceAppend(a: seq<int>, b: seq<int>, x: int, y: int)
    requires |a| == |b|
    ensures Distance(a + [x], b + [y]) == Distance(a, b) + Abs(x - y)
  {
    var g := Gaps(a + [x], b + [y]);
    assert g[..|a|] == Gaps(a, b);
  }

  lemma DistancePrepend(x: int, y: int, a: seq<int>, b: seq<int>)
    requires |a| == |b|
    ensures Distance([x] + a, [y] + b) == Abs(x - y) + Distance(a, b)
  {
    DistanceConcat([x], [y], a, b);
    var g := Gaps([x], [y]);
    assert g[..0] == [] && Sum(g) == Sum([]) + g[0];
  }

  lemma DistanceAtLeastGap(a: seq<int>, b: seq<int>, i: nat)
    requires |a| == |b| && i < |a|
    ensures Abs(a[i] - b[i]) <= Distance(a, b)
  {
    SumAtLeastEntry(Gaps(a, b), i);
  }
}
