/** Waking and retiring processors (mutate_common.c). */
module Power {
  import opened Common

  /** A cpu is awake exactly when its sleep time is 0. */
  ghost predicate Consistent(p: ProcInfo) {
    p.awake <= 1 && (p.awake == 1 <==> p.sleepTime == 0) && p.sleepTime <= UINT_MAX
  }

  ghost predicate PowerInv(info: seq<ProcInfo>) {
    forall i :: 0 <= i < |info| ==> Consistent(info[i])
  }

  function AwakeCount(info: seq<ProcInfo>): nat {
    if info == [] then 0 else AwakeCount(info[..|info| - 1]) + info[|info| - 1].awake
  }

  /** A sleeper whose sleep time is below the scan's starting minimum, so the scan can pick it. */
  predicate Wakeable(p: ProcInfo) {
    0 < p.sleepTime < UINT_MAX
  }

  function WakeableCount(info: seq<ProcInfo>): nat {
    if info == [] then 0
    else WakeableCount(info[..|info| - 1]) + if Wakeable(info[|info| - 1]) then 1 else 0
  }

  function Woken(p: ProcInfo): ProcInfo {
    p.(sleepTime := 0, awake := 1)
  }

  /** Cpus that slept for a shorter time come first, ties to the lower index. */
  predicate Fresher(info: seq<ProcInfo>, i: int, j: int)
    requires 0 <= i < |info| && 0 <= j < |info|
  {
    info[i].sleepTime < info[j].sleepTime || (info[i].sleepTime == info[j].sleepTime && i < j)
  }

  /** Only sleepers changed, and they changed by waking up. */
  ghost predicate OnlyWoke(before: seq<ProcInfo>, after: seq<ProcInfo>) {
    && |after| == |before|
    && forall i :: 0 <= i < |before| ==>
      after[i] == before[i] || (Wakeable(before[i]) && after[i] == Woken(before[i]))
  }

  /** Every cpu that woke up slept for a shorter time than every cpu left asleep. */
  ghost predicate FreshestWoke(before: seq<ProcInfo>, after: seq<ProcInfo>)
    requires |after| == |before|
  {
    forall i, j | 0 <= i < |before| && 0 <= j < |before| ::
      after[i] != before[i] && after[j].sleepTime > 0 ==> Fresher(before, i, j)
  }

  /** How many more cpus are awake. */
  function NewlyAwake(before: seq<ProcInfo>, after: seq<ProcInfo>): int {
    AwakeCount(after) - AwakeCount(before)
  }

  /** How many cpus are missing for req awake ones, as far as sleepers can be picked. */
  function Missing(before: seq<ProcInfo>, req: int): int {
    Max(0, Min(req - AwakeCount(before), WakeableCount(before)))
  }

  /** What waking up for req cpus does; it determines after. */
  ghost predicate WokeUp(before: seq<ProcInfo>, req: int, after: seq<ProcInfo>) {
    && OnlyWoke(before, after)
    && FreshestWoke(before, after)
    && NewlyAwake(before, after) == Missing(before, req)
  }

  lemma {:induction false} CountUpdate(info: seq<ProcInfo>, i: nat, p: ProcInfo)
    requires i < |info|
    ensures AwakeCount(info[i := p]) == AwakeCount(info) - info[i].awake + p.awake
    ensures WakeableCount(info[i := p])
      == WakeableCount(info) - (if Wakeable(info[i]) then 1 else 0) + (if Wakeable(p) then 1 else 0)
  {
    var n := |info| - 1;
    if i == n {
      assert info[i := p][..n] == info[..n];
    } else {
      CountUpdate(info[..n], i, p);
      assert info[i := p][..n] == info[..n][i := p];
    }
  }

  lemma CountPrefix(info: seq<ProcInfo>, k: nat)
    requires k < |info|
    ensures AwakeCount(info[..k + 1]) == AwakeCount(info[..k]) + info[k].awake
    ensures WakeableCount(info[..k + 1]) == WakeableCount(info[..k]) + if Wakeable(info[k]) then 1 else 0
  {
    assert info[..k + 1][..k] == info[..k];
  }

  lemma {:induction false} CountBounds(info: seq<ProcInfo>, k: nat)
    requires PowerInv(info) && k <= |info|
    ensures AwakeCount(info[..k]) <= AwakeCount(info)
    ensures AwakeCount(info) + WakeableCount(info) <= |info|
    decreases |info| - k, |info|
  {
    if info != [] {
      CountBounds(info[..|info| - 1], |info| - 1);
    }
    if k < |info| {
      CountBounds(info, k + 1);
      CountPrefix(info, k);
    } else {
      assert info[..k] == info;
    }
  }

  lemma {:induction false} NoneWakeable(info: seq<ProcInfo>)
    requires forall i :: 0 <= i < |info| ==> !Wakeable(info[i])
    ensures WakeableCount(info) == 0
  {
    if info != [] {
      NoneWakeable(info[..|info| - 1]);
    }
  }

  /** Every cpu is either awake, wakeable, or stuck at the largest sleep time. */
  lemma {:induction false} AllWakeable(info: seq<ProcInfo>)
    requires PowerInv(info) && forall i :: 0 <= i < |info| ==> info[i].sleepTime < UINT_MAX
    ensures AwakeCount(info) + WakeableCount(info) == |info|
  {
    if info != [] {
      AllWakeable(info[..|info| - 1]);
    }
  }

  /** All cpus awake, as the mutator starts. */
  ghost predicate AllAwake(info: seq<ProcInfo>) {
    forall i :: 0 <= i < |info| ==> info[i] == ProcInfo(0, 1, 1)
  }

  method InitMutator(info: array<ProcInfo>)
    modifies info
    ensures AllAwake(info[..]) && PowerInv(info[..])
  {
    var i := 0;
    while i < info.Length
      invariant 0 <= i <= info.Length
      invariant forall k :: 0 <= k < i ==> info[k] == ProcInfo(0, 1, 1)
    {
      info[i] := ProcInfo(0, 1, 1);
      i := i + 1;
    }
  }

  method CountAwake(info: array<ProcInfo>) returns (awakeTotal: nat)
    ensures awakeTotal == AwakeCount(info[..])
  {
    awakeTotal := 0;
    var i := 0;
    while i < info.Length
      invariant 0 <= i <= info.Length && awakeTotal == AwakeCount(info[..][..i])
    {
      CountPrefix(info[..], i);
      awakeTotal := awakeTotal + info[i].awake;
      i := i + 1;
    }
    assert info[..][..info.Length] == info[..];
  }

  /** One scan for the freshest sleeper; wakeUpProc is UINT_MAX when no sleeper can be picked. */
  method ScanSleepers(info: array<ProcInfo>, reqCpus: int) returns (awakeTotal: nat, wakeUpProc: nat)
    requires PowerInv(info[..]) && info.Length <= UINT_MAX && AwakeCount(info[..]) < reqCpus
    ensures awakeTotal == AwakeCount(info[..])
    ensures wakeUpProc < info.Length ==>
      && Wakeable(info[wakeUpProc])
      && forall j :: 0 <= j < info.Length && j != wakeUpProc && info[j].sleepTime > 0 ==>
        Fresher(info[..], wakeUpProc, j)
    ensures wakeUpProc >= info.Length ==> forall j :: 0 <= j < info.Length ==> !Wakeable(info[j])
  {
    ghost var now := info[..];
    awakeTotal := 0;
    var minSleepTime: nat := UINT_MAX;
    wakeUpProc := UINT_MAX;
    var j := 0;
    while j < info.Length && awakeTotal < reqCpus
      invariant 0 <= j <= info.Length && awakeTotal == AwakeCount(now[..j])
      invariant minSleepTime <= UINT_MAX
      invariant forall q :: 0 <= q < j && info[q].sleepTime > 0 ==> minSleepTime <= info[q].sleepTime
      invariant (wakeUpProc == UINT_MAX && minSleepTime == UINT_MAX) || wakeUpProc < j
      invariant wakeUpProc < info.Length ==> 0 < info[wakeUpProc].sleepTime == minSleepTime < UINT_MAX
      invariant wakeUpProc < info.Length ==>
        forall q :: 0 <= q < j && q != wakeUpProc && info[q].sleepTime > 0 ==> Fresher(now, wakeUpProc, q)
    {
      CountPrefix(now, j);
      CountBounds(now, j + 1);
      if info[j].sleepTime == 0 {
        awakeTotal := awakeTotal + 1;
      } else if info[j].sleepTime < minSleepTime {
        wakeUpProc := j;
        minSleepTime := info[j].sleepTime;
      }
      j := j + 1;
    }
    CountBounds(now, j);
    assert now[..info.Length] == now;
  }

  /** Waking the freshest sleeper keeps the order in which sleepers are chosen. */
  lemma WakeOne(before: seq<ProcInfo>, now: seq<ProcInfo>, p: nat)
    requires p < |now| && Wakeable(now[p]) && PowerInv(now)
    requires OnlyWoke(before, now) && FreshestWoke(before, now)
    requires forall j :: 0 <= j < |now| && j != p && now[j].sleepTime > 0 ==> Fresher(now, p, j)
    ensures var next := now[p := Woken(now[p])];
      && PowerInv(next) && OnlyWoke(before, next) && FreshestWoke(before, next)
      && AwakeCount(next) == AwakeCount(now) + 1
      && WakeableCount(next) == WakeableCount(now) - 1
  {
    CountUpdate(now, p, Woken(now[p]));
    var next := now[p := Woken(now[p])];
    forall i, j | 0 <= i < |before| && 0 <= j < |before| && next[i] != before[i] && next[j].sleepTime > 0
      ensures Fresher(before, i, j)
    {
      if i == p {
        assert Fresher(now, p, j);
      } else {
        assert now[i] != before[i];
      }
    }
  }

  /** Wake the freshest sleepers until reqCpus cpus are awake or nobody is left to wake. */
  method WakeUpProcs(info: array<ProcInfo>, reqCpus: int)
    requires PowerInv(info[..]) && info.Length <= UINT_MAX
    modifies info
    ensures PowerInv(info[..]) && WokeUp(old(info[..]), reqCpus, info[..])
  {
    ghost var before := info[..];
    var awakeTotal := CountAwake(info);
    if awakeTotal >= reqCpus {
      return;
    }
    var i := 0;
    while i < reqCpus
      invariant 0 <= i <= reqCpus && PowerInv(info[..])
      invariant OnlyWoke(before, info[..]) && FreshestWoke(before, info[..])
      invariant AwakeCount(info[..]) + WakeableCount(info[..]) == AwakeCount(before) + WakeableCount(before)
      invariant AwakeCount(info[..]) < reqCpus
      invariant AwakeCount(info[..]) == AwakeCount(before) + i || WakeableCount(info[..]) == 0
    {
      var wakeUpProc;
      awakeTotal, wakeUpProc := ScanSleepers(info, reqCpus);
      if wakeUpProc < info.Length {
        awakeTotal := awakeTotal + 1;
        WakeOne(before, info[..], wakeUpProc);
        ghost var next := info[..][wakeUpProc := Woken(info[wakeUpProc])];
        info[wakeUpProc] := info[wakeUpProc].(sleepTime := 0, awake := 1);
        assert info[..] == next;
      } else {
        NoneWakeable(info[..]);
      }
      if awakeTotal >= reqCpus {
        break;
      }
      i := i + 1;
    }
  }

  lemma {:induction false} MoreAwake(x: seq<ProcInfo>, y: seq<ProcInfo>, i: nat)
    requires |x| == |y| && i < |x| && forall k :: 0 <= k < |x| ==> x[k].awake >= y[k].awake
    ensures AwakeCount(x) - AwakeCount(y) >= x[i].awake - y[i].awake
    decreases |x|
  {
    var n := |x| - 1;
    if 0 < n {
      MoreAwake(x[..n], y[..n], if i < n then i else 0);
    }
  }

  /** A cpu woken in one outcome is woken in every outcome. */
  lemma SameWakers(before: seq<ProcInfo>, req: int, x: seq<ProcInfo>, y: seq<ProcInfo>, i: nat)
    requires PowerInv(before) && WokeUp(before, req, x) && WokeUp(before, req, y)
    requires i < |before| && x[i] != before[i]
    ensures y[i] != before[i]
  {
    if y[i] == before[i] && forall j :: 0 <= j < |before| && y[j] != before[j] ==> x[j] != before[j] {
      forall k | 0 <= k < |x|
        ensures x[k].awake >= y[k].awake
      {
        assert Consistent(before[k]);
      }
      MoreAwake(x, y, i);
    }
  }

  /** The contract of waking up leaves no choice: which cpus wake is determined. */
  lemma WakingIsDetermined(before: seq<ProcInfo>, req: int, x: seq<ProcInfo>, y: seq<ProcInfo>)
    requires PowerInv(before) && WokeUp(before, req, x) && WokeUp(before, req, y)
    ensures x == y
  {
    forall i | 0 <= i < |before|
      ensures x[i] == y[i]
    {
      if x[i] != before[i] {
        SameWakers(before, req, x, y, i);
      } else if y[i] != before[i] {
        SameWakers(before, req, y, x, i);
      }
    }
  }

  /** Indices of the awake cpus, in increasing order. */
  function AwakeList(info: seq<ProcInfo>): seq<int> {
    if info == [] then []
    else
      var n := |info| - 1;
      AwakeList(info[..n]) + if info[n].awake == 1 then [n] else []
  }

  lemma {:induction false} AwakeListMembers(info: seq<ProcInfo>, i: int)
    ensures i in AwakeList(info) <==> 0 <= i < |info| && info[i].awake == 1
  {
    if info != [] {
      AwakeListMembers(info[..|info| - 1], i);
    }
  }

  lemma {:induction false} AwakeListLength(info: seq<ProcInfo>)
    requires PowerInv(info)
    ensures |AwakeList(info)| == AwakeCount(info)
  {
    if info != [] {
      assert Consistent(info[|info| - 1]);
      AwakeListLength(info[..|info| - 1]);
    }
  }

  lemma {:induction false} AwakeListSorted(info: seq<ProcInfo>)
    ensures forall j, k :: 0 <= j < k < |AwakeList(info)| ==> AwakeList(info)[j] < AwakeList(info)[k]
  {
    if info != [] {
      var n := |info| - 1;
      var l := AwakeList(info[..n]);
      AwakeListSorted(info[..n]);
      forall k | 0 <= k < |l|
        ensures l[k] < n
      {
        AwakeListMembers(info[..n], l[k]);
        assert l[k] in l;
      }
    }
  }

  /** The list is strictly increasing, names exactly the awake cpus, and has one entry for each. */
  lemma AwakeListMeaning(info: seq<ProcInfo>)
    requires PowerInv(info)
    ensures |AwakeList(info)| == AwakeCount(info)
    ensures forall j, k :: 0 <= j < k < |AwakeList(info)| ==> AwakeList(info)[j] < AwakeList(info)[k]
    ensures forall i :: i in AwakeList(info) <==> 0 <= i < |info| && info[i].awake == 1
  {
    AwakeListLength(info);
    AwakeListSorted(info);
    forall i
      ensures i in AwakeList(info) <==> 0 <= i < |info| && info[i].awake == 1
    {
      AwakeListMembers(info, i);
    }
  }

  /** s with its front overwritten by l. */
  function Overlay(s: seq<int>, l: seq<int>): (r: seq<int>)
    ensures |r| == Max(|s|, |l|)
    ensures forall k :: 0 <= k < |r| ==> r[k] == if k < |l| then l[k] else s[k]
  {
    if |l| <= |s| then l + s[|l|..] else l
  }

  /** Awake without tasks. */
  ghost predicate Idle(info: seq<ProcInfo>, tasks: seq<nat>, i: int)
    requires |tasks| == |info| && 0 <= i < |info|
  {
    info[i].awake == 1 && tasks[i] == 0
  }

  /** Every awake cpu has tasks. */
  ghost predicate AwakeAreBusy(info: seq<ProcInfo>, tasks: seq<nat>)
    requires |tasks| == |info|
  {
    forall i :: 0 <= i < |info| && info[i].awake == 1 ==> tasks[i] > 0
  }

  const RETIRED := ProcInfo(1, 0, 0)

  /** The idle cpus among the first s were retired and nothing else changed. */
  ghost predicate RetiredUpTo(before: seq<ProcInfo>, tasks: seq<nat>, s: nat, after: seq<ProcInfo>)
    requires |tasks| == |before|
  {
    && |after| == |before|
    && forall i :: 0 <= i < |before| ==>
      after[i] == if i < s && Idle(before, tasks, i) then RETIRED else before[i]
  }

  /** Sleep marks: written for the scanned cpus, stale for the others. */
  ghost predicate MarkedUpTo(before: seq<ProcInfo>, tasks: seq<nat>, s: nat, stale: seq<int>, marks: seq<int>)
    requires |tasks| == |before| == |stale|
  {
    && |marks| == |before|
    && forall i :: 0 <= i < |before| ==>
      marks[i] == if i >= s then stale[i] else if Idle(before, tasks, i) then 1 else 0
  }

  /** Retire cpu i when it is awake without tasks, and mark whether it was. */
  method RetireOne(info: array<ProcInfo>, tasks: seq<nat>, i: nat, putToSleep: array<int>) returns (retired: bool)
    requires |tasks| == info.Length == putToSleep.Length && i < info.Length
    modifies info, putToSleep
    ensures retired == Idle(old(info[..]), tasks, i)
    ensures info[..] == if retired then old(info[..])[i := RETIRED] else old(info[..])
    ensures putToSleep[..] == old(putToSleep[..])[i := if retired then 1 else 0]
  {
    retired := false;
    if info[i].awake == 1 && tasks[i] == 0 {
      putToSleep[i] := 1;
      info[i] := info[i].(awake := 0);
      info[i] := info[i].(sleepTime := 1);
      info[i] := info[i].(awakeTime := 0);
      retired := true;
    } else {
      putToSleep[i] := 0;
    }
  }

  /** Retire idle cpus in index order until only reqCpus are awake; scanned is where the scan ended. */
  method RetireIdle(info: array<ProcInfo>, tasks: seq<nat>, reqCpus: int, putToSleep: array<int>)
    returns (ghost scanned: nat)
    requires PowerInv(info[..]) && AwakeCount(info[..]) > reqCpus
    requires |tasks| == info.Length == putToSleep.Length
    modifies info, putToSleep
    ensures PowerInv(info[..]) && scanned <= info.Length
    ensures RetiredUpTo(old(info[..]), tasks, scanned, info[..])
    ensures MarkedUpTo(old(info[..]), tasks, scanned, old(putToSleep[..]), putToSleep[..])
    ensures AwakeCount(info[..]) == reqCpus || (AwakeCount(info[..]) > reqCpus && scanned == info.Length)
    ensures AwakeCount(info[..]) > reqCpus ==> AwakeAreBusy(info[..], tasks)
  {
    var awakeTotal: int := CountAwake(info);
    ghost var before, marks := info[..], putToSleep[..];
    scanned := 0;
    var i := 0;
    while i < info.Length
      invariant 0 <= i <= info.Length && scanned == i
      invariant PowerInv(info[..]) && RetiredUpTo(before, tasks, i, info[..])
      invariant MarkedUpTo(before, tasks, i, marks, putToSleep[..])
      invariant awakeTotal == AwakeCount(info[..]) > reqCpus
    {
      scanned := i + 1;
      ghost var now := info[..];
      CountUpdate(now, i, RETIRED);
      assert now[i] == before[i] && Consistent(before[i]);
      var retired := RetireOne(info, tasks, i, putToSleep);
      if retired {
        awakeTotal := awakeTotal - 1;
      }
      if awakeTotal <= reqCpus {
        break;
      }
      i := i + 1;
    }
  }

  /** Who retires was awake without tasks, and of two such cpus the one with the lower index goes first. */
  lemma RetiringOrder(before: seq<ProcInfo>, tasks: seq<nat>, s: nat, after: seq<ProcInfo>, i: nat, j: nat)
    requires |tasks| == |before| && RetiredUpTo(before, tasks, s, after) && i < j < |before|
    ensures after[j] != before[j] ==> before[j].awake == 1 && tasks[j] == 0 && after[j].awake == 0
    ensures after[j] != before[j] && before[i].awake == 1 && tasks[i] == 0 ==> after[i].awake == 0
  {
  }

  /** Write the indices of the awake cpus to the front of cpuAwakeProxy. */
  method ListAwake(info: array<ProcInfo>, cpuAwakeProxy: array<int>)
    requires PowerInv(info[..]) && info.Length == cpuAwakeProxy.Length
    modifies cpuAwakeProxy
    ensures cpuAwakeProxy[..] == Overlay(old(cpuAwakeProxy[..]), AwakeList(info[..]))
  {
    ghost var now := info[..];
    var i, j := 0, 0;
    while i < info.Length
      invariant 0 <= j <= i <= info.Length && j == |AwakeList(now[..i])|
      invariant cpuAwakeProxy[..j] == AwakeList(now[..i])
      invariant cpuAwakeProxy[j..] == old(cpuAwakeProxy[..])[j..]
    {
      assert now[..i + 1][..i] == now[..i];
      if info[i].awake == 1 {
        cpuAwakeProxy[j] := i;
        j := j + 1;
      }
      i := i + 1;
    }
    assert now[..info.Length] == now;
  }

  /** Retire the first idle cpus until reqCpus are awake, then list the awake ones. */
  method RetireProcs(info: array<ProcInfo>, tasks: seq<nat>, reqCpus: int, putToSleep: array<int>, cpuAwakeProxy: array<int>)
    returns (ghost scanned: nat)
    requires PowerInv(info[..])
    requires |tasks| == info.Length == putToSleep.Length == cpuAwakeProxy.Length
    requires putToSleep != cpuAwakeProxy
    modifies info, putToSleep, cpuAwakeProxy
    ensures PowerInv(info[..])
    ensures old(AwakeCount(info[..])) <= reqCpus ==>
      info[..] == old(info[..]) && putToSleep[..] == old(putToSleep[..]) && cpuAwakeProxy[..] == old(cpuAwakeProxy[..])
    ensures old(AwakeCount(info[..])) > reqCpus ==>
      && scanned <= info.Length
      && RetiredUpTo(old(info[..]), tasks, scanned, info[..])
      && MarkedUpTo(old(info[..]), tasks, scanned, old(putToSleep[..]), putToSleep[..])
      && (AwakeCount(info[..]) == reqCpus || (AwakeCount(info[..]) > reqCpus && scanned == info.Length))
      && cpuAwakeProxy[..] == Overlay(old(cpuAwakeProxy[..]), AwakeList(info[..]))
    ensures AwakeCount(info[..]) > reqCpus ==> AwakeAreBusy(info[..], tasks)
  {
    scanned := 0;
    var awakeTotal := CountAwake(info);
    if awakeTotal <= reqCpus {
      return;
    }
    scanned := RetireIdle(info, tasks, reqCpus, putToSleep);
    ListAwake(info, cpuAwakeProxy);
  }

  /** Cpus that have tasks. */
  function BusyCount(tasks: seq<nat>): nat {
    if tasks == [] then 0 else BusyCount(tasks[..|tasks| - 1]) + if tasks[|tasks| - 1] > 0 then 1 else 0
  }

  function TotalTasks(tasks: seq<nat>): nat {
    if tasks == [] then 0 else TotalTasks(tasks[..|tasks| - 1]) + tasks[|tasks| - 1]
  }

  /** The load of the system: all tasks, clamped to the number of cpus. */
  function Load(tasks: seq<nat>): nat {
    Min(TotalTasks(tasks), |tasks|)
  }

  lemma {:induction false} BusyWithinLoad(tasks: seq<nat>)
    ensures BusyCount(tasks) <= Load(tasks)
  {
    if tasks != [] {
      BusyWithinLoad(tasks[..|tasks| - 1]);
    }
  }

  lemma {:induction false} AwakeWithinBusy(info: seq<ProcInfo>, tasks: seq<nat>)
    requires PowerInv(info) && |tasks| == |info| && AwakeAreBusy(info, tasks)
    ensures AwakeCount(info) <= BusyCount(tasks)
  {
    if info != [] {
      AwakeWithinBusy(info[..|info| - 1], tasks[..|tasks| - 1]);
    }
  }

  /** Retiring for at least the load of the same task counts ends with exactly req cpus awake. */
  lemma RetireMeetsLoad(before: seq<ProcInfo>, tasks: seq<nat>, req: int, scanned: nat, after: seq<ProcInfo>)
    requires PowerInv(before) && |tasks| == |before| && Load(tasks) <= req
    requires RetiredUpTo(before, tasks, scanned, after)
    requires AwakeCount(after) == req || (AwakeCount(after) > req && scanned == |before|)
    ensures AwakeCount(after) == req
  {
    if scanned == |before| {
      AwakeWithinBusy(after, tasks);
      BusyWithinLoad(tasks);
    }
  }
}
