/** Turning the IPC of a task into a requested state (map_ipc.c). */
module Ladder {
  import opened Common
  import opened Search

  const IPC_HIGH := 6
  const IPC_LOW := 4

  /** Increment, saturating below an exclusive limit. */
  function SatInc(x: int, limit: int): int {
    if x < limit - 1 then x + 1 else limit - 1
  }

  /** Decrement, saturating at an inclusive limit. */
  function SatDec(x: int, limit: int): int {
    if x > limit then x - 1 else limit
  }

  /** Sum forced into low..high - 1. */
  function SatSum(a: int, b: int, low: int, high: int): int {
    if a + b >= high then high - 1 else if a + b < low then low else a + b
  }

  /** Which way the search for the requested state goes. */
  datatype Way = Up | Down | Nearest

  datatype Request = Request(state: int, step: int, way: Way)

  /** What the adaptive ladder requests, and the step it remembers for the next time. */
  function Adapt(states: nat, ipc: int, cur: int, step: int): Request {
    if ipc >= IPC_HIGH then
      if step > 0 then Request(SatSum(cur, step, 0, states), SatInc(step, states), Up)
      else if step == 0 then Request(cur, 1, Nearest)
      else Request(cur, 0, Nearest)
    else if ipc <= IPC_LOW then
      if step < 0 then Request(SatSum(cur, step, 0, states), SatDec(step, -1 * states), Down)
      else if step == 0 then Request(cur, -1, Nearest)
      else Request(cur, 0, Nearest)
    else Request(cur, 0, Nearest)
  }

  /** Steps the adaptive ladder can remember. */
  predicate IsStep(states: nat, step: int) {
    -1 * states <= step <= Max(1, states - 1)
  }

  /** From an in-range state and step, requests stay in range and steps stay bounded. */
  lemma AdaptStaysInRange(states: nat, ipc: int, cur: int, step: int)
    requires states >= 1 && 0 <= cur < states && IsStep(states, step)
    ensures 0 <= Adapt(states, ipc, cur, step).state < states
    ensures IsStep(states, Adapt(states, ipc, cur, step).step)
  {
    var r := Adapt(states, ipc, cur, step);
    assert r.way == Up ==> r.state == Min(cur + step, states - 1);
    assert r.way == Down ==> r.state == Max(cur + step, 0);
  }

  /**
   Every branch of the adaptive ladder: it moves, and searches that way, only when the IPC confirms
   the step it remembers; the first sign of a direction only starts the step, a sign against it or
   an IPC in between forgets it, and then the request is the present state.
   */
  lemma AdaptMeaning(states: nat, ipc: int, cur: int, step: int)
    requires states >= 1 && 0 <= cur < states && IsStep(states, step)
    ensures var r := Adapt(states, ipc, cur, step);
      && (r.way == Up <==> ipc >= IPC_HIGH && step > 0)
      && (r.way == Down <==> ipc <= IPC_LOW && step < 0)
      && (r.way == Nearest ==> r.state == cur)
      && (r.way == Nearest && ipc >= IPC_HIGH ==> r.step == if step == 0 then 1 else 0)
      && (r.way == Nearest && ipc <= IPC_LOW ==> r.step == if step == 0 then -1 else 0)
      && (IPC_LOW < ipc < IPC_HIGH ==> r.step == 0)
      && (r.way == Up ==> r.state == Min(cur + step, states - 1) && r.step == Min(step + 1, states - 1))
      && (r.way == Down ==> r.state == Max(cur + step, 0) && r.step == Max(step - 1, -1 * states))
  {
  }

  /** After an IPC in between, a ramp starts over: the state is that of a fresh ladder. */
  lemma MiddleStartsOver(states: nat, ipc: int, ipcs: seq<int>, p: Position)
    requires states >= 1 && InBounds(states, p) && IPC_LOW < ipc < IPC_HIGH
    ensures Walk(states, [ipc] + ipcs, p) == Walk(states, ipcs, Position(p.cur, 0))
  {
    assert ([ipc] + ipcs)[1..] == ipcs;
  }

  /** The state search that belongs to a way. */
  ghost predicate Answers(states: seq<StateDesc>, running: seq<nat>, cur: int, r: Request, found: int)
    requires 0 <= r.state < |states|
  {
    match r.way
    case Up => IsUpState(states, running, cur, r.state, found)
    case Down => IsDownState(states, running, cur, r.state, found)
    case Nearest => IsClosestState(states, running, cur, r.state, found)
  }

  /** The part of a task that the evaluation updates in place. */
  class TaskHistory {
    var step: int
    var stateReq: int

    constructor ()
      ensures step == 0 && stateReq == 0
    {
      step, stateReq := 0, 0;
    }

    method LadderEvaluation(states: array<StateDesc>, running: seq<nat>, ipc: int, cur: nat) returns (newState: int)
      requires cur < states.Length
      modifies this`stateReq
      ensures stateReq == if ipc >= IPC_HIGH then Min(cur + 1, states.Length - 1)
        else if ipc <= IPC_LOW then Max(cur - 1, 0) else cur
      ensures Answers(states[..], running, cur,
                      Request(stateReq, 0, if ipc >= IPC_HIGH then Up else if ipc <= IPC_LOW then Down else Nearest),
                      newState)
    {
      if ipc >= IPC_HIGH {
        stateReq := SatInc(cur, states.Length);
        newState := SearchStateUp(states, running, cur, stateReq);
      } else if ipc <= IPC_LOW {
        stateReq := SatDec(cur, 0);
        newState := SearchStateDown(states, running, cur, stateReq);
      } else {
        stateReq := cur;
        newState := SearchStateClosest(states, running, cur, stateReq);
      }
    }

    method AdaptiveLadderEvaluation(states: array<StateDesc>, running: seq<nat>, ipc: int, cur: nat) returns (newState: int)
      requires cur < states.Length && IsStep(states.Length, step)
      modifies this
      ensures var r := Adapt(states.Length, ipc, cur, old(step));
        && stateReq == r.state && step == r.step
        && 0 <= stateReq < states.Length && IsStep(states.Length, step)
        && Answers(states[..], running, cur, r, newState)
    {
      AdaptStaysInRange(states.Length, ipc, cur, step);
      var totalStates := states.Length;
      if ipc >= IPC_HIGH {
        if step > 0 {
          stateReq := SatSum(cur, step, 0, totalStates);
          step := SatInc(step, totalStates);
          newState := SearchStateUp(states, running, cur, stateReq);
        } else if step == 0 {
          stateReq := cur;
          step := 1;
          newState := SearchStateClosest(states, running, cur, stateReq);
        } else {
          stateReq := cur;
          step := 0;
          newState := SearchStateClosest(states, running, cur, stateReq);
        }
      } else if ipc <= IPC_LOW {
        if step < 0 {
          stateReq := SatSum(cur, step, 0, totalStates);
          step := SatDec(step, -1 * totalStates);
          newState := SearchStateDown(states, running, cur, stateReq);
        } else if step == 0 {
          stateReq := cur;
          step := -1;
          newState := SearchStateClosest(states, running, cur, stateReq);
        } else {
          stateReq := cur;
          step := 0;
          newState := SearchStateClosest(states, running, cur, stateReq);
        }
      } else {
        stateReq := cur;
        newState := SearchStateClosest(states, running, cur, stateReq);
        step := 0;
      }
    }
  }

  /** A request for a free state is granted. */
  lemma FreeIsGranted(states: seq<StateDesc>, running: seq<nat>, cur: int, r: Request, found: int)
    requires 0 <= r.state < |states| && Answers(states, running, cur, r, found)
    requires IsFree(states, running, cur, r.state)
    ensures found == r.state
  {
    FreeRequestIsGranted(states, running, cur, r.state, found);
  }

  // ----- Runs in which every request is granted

  datatype Position = Position(cur: int, step: int)

  /** Where a task is after evaluations with the given IPCs, all requests granted. */
  function Walk(states: nat, ipcs: seq<int>, p: Position): Position {
    if ipcs == [] then p
    else
      var r := Adapt(states, ipcs[0], p.cur, p.step);
      Walk(states, ipcs[1..], Position(r.state, r.step))
  }

  predicate InBounds(states: nat, p: Position) {
    0 <= p.cur < states && IsStep(states, p.step)
  }

  lemma {:induction false} WalkStaysInBounds(states: nat, ipcs: seq<int>, p: Position)
    requires states >= 1 && InBounds(states, p)
    ensures InBounds(states, Walk(states, ipcs, p))
  {
    if ipcs != [] {
      AdaptStaysInRange(states, ipcs[0], p.cur, p.step);
      var r := Adapt(states, ipcs[0], p.cur, p.step);
      WalkStaysInBounds(states, ipcs[1..], Position(r.state, r.step));
    }
  }

  predicate AllHigh(ipcs: seq<int>) {
    forall i :: 0 <= i < |ipcs| ==> ipcs[i] >= IPC_HIGH
  }

  predicate AllLow(ipcs: seq<int>) {
    forall i :: 0 <= i < |ipcs| ==> ipcs[i] <= IPC_LOW
  }

  /** Distance covered by n moves whose lengths start at s and grow by one. */
  function Ramp(s: nat, n: nat): nat
    decreases n
  {
    if n == 0 then 0 else s + Ramp(s + 1, n - 1)
  }

  lemma Expand(s: int, n: int)
    ensures (n - 1) * ((n - 1) + 1) + 2 * (n - 1) * ((s + 1) - 1) + 2 * s == n * (n + 1) + 2 * n * (s - 1)
  {
    assert (n - 1) * n == n * n - n;
    assert (n - 1) * s == n * s - s;
    assert n * (n + 1) == n * n + n;
    assert n * (s - 1) == n * s - n;
    assert 2 * (n - 1) * s == 2 * ((n - 1) * s);
    assert 2 * n * (s - 1) == 2 * (n * (s - 1));
  }

  lemma {:induction false} RampIsTriangular(s: nat, n: nat)
    ensures 2 * Ramp(s, n) == n * (n + 1) + 2 * n * (s - 1)
    decreases n
  {
    if n > 0 {
      RampIsTriangular(s + 1, n - 1);
      Expand(s, n);
    }
  }

  lemma {:induction false} RampGrows(s: nat, t: nat, n: nat, m: nat)
    requires s <= t && n <= m
    ensures Ramp(s, n) <= Ramp(t, m)
    decreases m
  {
    if n > 0 {
      RampGrows(s + 1, t + 1, n - 1, m - 1);
    }
  }

  /** At the top a task with high IPC stays. */
  lemma {:induction false} StaysAtTop(states: nat, ipcs: seq<int>, p: Position)
    requires states >= 1 && InBounds(states, p) && AllHigh(ipcs) && p.cur == states - 1
    ensures Walk(states, ipcs, p).cur == states - 1
  {
    if ipcs != [] {
      AdaptStaysInRange(states, ipcs[0], p.cur, p.step);
      var r := Adapt(states, ipcs[0], p.cur, p.step);
      StaysAtTop(states, ipcs[1..], Position(r.state, r.step));
    }
  }

  lemma {:induction false} StaysAtBottom(states: nat, ipcs: seq<int>, p: Position)
    requires states >= 1 && InBounds(states, p) && AllLow(ipcs) && p.cur == 0
    ensures Walk(states, ipcs, p).cur == 0
  {
    if ipcs != [] {
      AdaptStaysInRange(states, ipcs[0], p.cur, p.step);
      var r := Adapt(states, ipcs[0], p.cur, p.step);
      StaysAtBottom(states, ipcs[1..], Position(r.state, r.step));
    }
  }

  /** Once climbing, every evaluation climbs one state more than the one before. */
  lemma {:induction false} Climbs(states: nat, ipcs: seq<int>, p: Position)
    requires states >= 1 && InBounds(states, p) && AllHigh(ipcs) && p.step >= 1
    ensures Walk(states, ipcs, p).cur == Min(states - 1, p.cur + Ramp(p.step, |ipcs|))
  {
    if ipcs != [] {
      AdaptStaysInRange(states, ipcs[0], p.cur, p.step);
      var r := Adapt(states, ipcs[0], p.cur, p.step);
      if r.state == states - 1 {
        StaysAtTop(states, ipcs[1..], Position(r.state, r.step));
      } else {
        Climbs(states, ipcs[1..], Position(r.state, r.step));
      }
    }
  }

  lemma {:induction false} Descends(states: nat, ipcs: seq<int>, p: Position)
    requires states >= 1 && InBounds(states, p) && AllLow(ipcs) && p.step <= -1
    ensures Walk(states, ipcs, p).cur == Max(0, p.cur - Ramp(-p.step, |ipcs|))
  {
    if ipcs != [] {
      AdaptStaysInRange(states, ipcs[0], p.cur, p.step);
      var r := Adapt(states, ipcs[0], p.cur, p.step);
      if r.state == 0 {
        StaysAtBottom(states, ipcs[1..], Position(r.state, r.step));
      } else {
        Descends(states, ipcs[1..], Position(r.state, r.step));
      }
    }
  }

  /** Evaluations before the first move up. */
  function WarmUp(step: int): nat {
    if step > 0 then 0 else if step == 0 then 1 else 2
  }

  /** While IPC stays high the exact position: nothing during warm-up, then a growing climb. */
  lemma {:induction false} HighPosition(states: nat, ipcs: seq<int>, p: Position)
    requires states >= 1 && InBounds(states, p) && AllHigh(ipcs)
    ensures Walk(states, ipcs, p).cur ==
      Min(states - 1, p.cur + Ramp(Max(1, p.step), Max(0, |ipcs| - WarmUp(p.step))))
    decreases |ipcs|
  {
    if p.step >= 1 {
      Climbs(states, ipcs, p);
    } else if ipcs != [] {
      AdaptStaysInRange(states, ipcs[0], p.cur, p.step);
      HighPosition(states, ipcs[1..], Position(p.cur, if p.step == 0 then 1 else 0));
    }
  }

  lemma {:induction false} LowPosition(states: nat, ipcs: seq<int>, p: Position)
    requires states >= 1 && InBounds(states, p) && AllLow(ipcs)
    ensures Walk(states, ipcs, p).cur ==
      Max(0, p.cur - Ramp(Max(1, -p.step), Max(0, |ipcs| - WarmUp(-p.step))))
    decreases |ipcs|
  {
    if p.step <= -1 {
      Descends(states, ipcs, p);
    } else if ipcs != [] {
      AdaptStaysInRange(states, ipcs[0], p.cur, p.step);
      LowPosition(states, ipcs[1..], Position(p.cur, if p.step == 0 then -1 else 0));
    }
  }

  /** A ramp at least as long as the slowest covers the distance when the slowest does. */
  lemma TopIsCovered(distance: int, slowest: int, ramp: int, triangle: int)
    requires slowest <= ramp && 2 * slowest == triangle && 0 <= distance && 0 <= slowest
    ensures Min(distance, ramp) >= 0
    ensures triangle >= 2 * distance ==> Min(distance, ramp) == distance
    ensures slowest == ramp && Min(distance, ramp) == distance ==> triangle >= 2 * distance
  {
  }

  /**
   With IPC high and requests granted the state never falls, and after the warm-up of at most
   two evaluations k more reach the top as soon as k(k+1)/2 covers the distance. From a step of
   at most 1 no fewer do.
   */
  lemma HighReachesTop(states: nat, ipcs: seq<int>, p: Position, k: nat)
    requires states >= 1 && InBounds(states, p) && AllHigh(ipcs) && |ipcs| == WarmUp(p.step) + k
    ensures Walk(states, ipcs, p).cur >= p.cur
    ensures k * (k + 1) >= 2 * (states - 1 - p.cur) ==> Walk(states, ipcs, p).cur == states - 1
    ensures p.step <= 1 && Walk(states, ipcs, p).cur == states - 1 ==> k * (k + 1) >= 2 * (states - 1 - p.cur)
  {
    HighPosition(states, ipcs, p);
    RampIsTriangular(1, k);
    RampGrows(1, Max(1, p.step), k, k);
    TopIsCovered(states - 1 - p.cur, Ramp(1, k), Ramp(Max(1, p.step), k), k * (k + 1));
  }

  /** The mirror image for low IPC. */
  lemma LowReachesBottom(states: nat, ipcs: seq<int>, p: Position, k: nat)
    requires states >= 1 && InBounds(states, p) && AllLow(ipcs) && |ipcs| == WarmUp(-p.step) + k
    ensures Walk(states, ipcs, p).cur <= p.cur
    ensures k * (k + 1) >= 2 * p.cur ==> Walk(states, ipcs, p).cur == 0
    ensures -p.step <= 1 && Walk(states, ipcs, p).cur == 0 ==> k * (k + 1) >= 2 * p.cur
  {
    LowPosition(states, ipcs, p);
    RampIsTriangular(1, k);
    RampGrows(1, Max(1, -p.step), k, k);
    TopIsCovered(p.cur, Ramp(1, k), Ramp(Max(1, -p.step), k), k * (k + 1));
  }
}
