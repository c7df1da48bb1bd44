/** Counting runnable tasks (nrtasks.c). */
module TaskCount {
  import opened Common
  import opened Power
  import opened StateIndex

  /** The integer load of the system: running tasks, clamped to the number of cpus. */
  method GetTasksLoad(running: seq<nat>) returns (load: nat)
    ensures load == Load(running) == Min(Sum(running), |running|)
  {
    var total := 0;
    var i := 0;
    while i < |running|
      invariant 0 <= i <= |running| && total == TotalTasks(running[..i])
    {
      assert running[..i + 1][..i] == running[..i];
      total := total + running[i];
      i := i + 1;
    }
    assert running[..|running|] == running;
    TotalIsSum(running);
    load := if total > |running| then |running| else total;
  }

  // ----- What the load is

  /** All tasks, cpu by cpu. */
  lemma {:induction false} TotalIsSum(tasks: seq<nat>)
    ensures TotalTasks(tasks) == Sum(tasks)
  {
    if tasks != [] {
      TotalIsSum(tasks[..|tasks| - 1]);
    }
  }

  /** Without tasks there is no load. */
  lemma IdleLoad(tasks: seq<nat>)
    requires forall i :: 0 <= i < |tasks| ==> tasks[i] == 0
    ensures Load(tasks) == 0
  {
    TotalIsSum(tasks);
    SumBounds(tasks, 0, 0);
  }

  /** One more task on any cpu, busy or not, is one more cpu needed, until all are. */
  lemma LoadOfOneMoreTask(tasks: seq<nat>, i: nat)
    requires i < |tasks|
    ensures Load(tasks[i := tasks[i] + 1]) == Min(Load(tasks) + 1, |tasks|)
  {
    TotalIsSum(tasks);
    TotalIsSum(tasks[i := tasks[i] + 1]);
    SumUpdate(tasks, i, tasks[i] + 1);
  }

  /** All cpus are needed exactly when there are at least as many tasks; below that the load is the number of tasks. */
  lemma FullLoad(tasks: seq<nat>)
    ensures Load(tasks) == |tasks| <==> Sum(tasks) >= |tasks|
    ensures Load(tasks) < |tasks| ==> Load(tasks) == Sum(tasks)
  {
    TotalIsSum(tasks);
  }

  // ----- Tasks of a state

  /** Tasks on the cpus of a mask, among the first k cpus. */
  function TasksOn(mask: set<nat>, running: seq<nat>, k: nat): nat
    requires k <= |running|
  {
    if k == 0 then 0
    else TasksOn(mask, running, k - 1) + if k - 1 in mask then running[k - 1] else 0
  }

  /** Tasks on the cpus of a state. */
  function StateTasks(s: StateDesc, running: seq<nat>): nat {
    TasksOn(s.cpumask, running, |running|)
  }

  /** Tasks on the cpus of a state, not counting the asking task itself. */
  function StateTasksExSelf(s: StateDesc, running: seq<nat>): nat {
    if StateTasks(s, running) > 0 then StateTasks(s, running) - 1 else 0
  }

  method GetStateTasks(states: array<StateDesc>, running: seq<nat>, state: nat) returns (tasks: nat)
    requires state < states.Length
    ensures tasks == StateTasks(states[state], running)
  {
    var mask := states[state].cpumask;
    tasks := 0;
    var i := 0;
    while i < |running|
      invariant 0 <= i <= |running| && tasks == TasksOn(mask, running, i)
    {
      if i in mask {
        tasks := tasks + running[i];
      }
      i := i + 1;
    }
  }

  method GetStateTasksExSelf(states: array<StateDesc>, running: seq<nat>, state: nat) returns (tasks: nat)
    requires state < states.Length
    ensures tasks == StateTasksExSelf(states[state], running)
  {
    var mask := states[state].cpumask;
    tasks := 0;
    var i := 0;
    while i < |running|
      invariant 0 <= i <= |running| && tasks == TasksOn(mask, running, i)
    {
      if i in mask {
        tasks := tasks + running[i];
      }
      i := i + 1;
    }
    if tasks > 0 {
      tasks := tasks - 1;
    }
  }

  /** With masks in agreement, the tasks of all states are the tasks of all cpus. */
  lemma {:induction false} StatesShareTasks(cur: seq<int>, states: seq<StateDesc>, running: seq<nat>, k: nat)
    requires Agrees(cur, states) && |running| == |cur| && k <= |states|
    ensures Sum(seq(k, j requires 0 <= j < k => StateTasks(states[j], running)))
      == TasksOn(Below(cur, k), running, |running|)
  {
    var t := seq(k, j requires 0 <= j < k => StateTasks(states[j], running));
    if k == 0 {
      NoTasks(Below(cur, 0), running, |running|);
    } else {
      StatesShareTasks(cur, states, running, k - 1);
      assert t[..k - 1] == seq(k - 1, j requires 0 <= j < k - 1 => StateTasks(states[j], running));
      SplitTasks(Below(cur, k - 1), states[k - 1].cpumask, running, |running|);
      assert Below(cur, k) == Below(cur, k - 1) + states[k - 1].cpumask;
    }
  }

  /** A cpu that joins a mask brings all its tasks, however many. */
  lemma {:induction false} TasksOfOneMore(mask: set<nat>, cpu: nat, running: seq<nat>, k: nat)
    requires k <= |running| && cpu !in mask
    ensures TasksOn(mask + {cpu}, running, k) == TasksOn(mask, running, k) + if cpu < k then running[cpu] else 0
  {
    if k > 0 {
      TasksOfOneMore(mask, cpu, running, k - 1);
    }
  }

  /** One more task on a cpu counts for the states whose mask names it. */
  lemma {:induction false} TasksOfOneTask(mask: set<nat>, running: seq<nat>, i: nat, k: nat)
    requires i < |running| && k <= |running|
    ensures TasksOn(mask, running[i := running[i] + 1], k)
      == TasksOn(mask, running, k) + if i < k && i in mask then 1 else 0
  {
    if k > 0 {
      TasksOfOneTask(mask, running, i, k - 1);
    }
  }

  lemma {:induction false} TasksOnAll(mask: set<nat>, running: seq<nat>, k: nat)
    requires k <= |running| && forall i: nat :: i < k ==> i in mask
    ensures TasksOn(mask, running, k) == Sum(running[..k])
  {
    if k == 0 {
      assert running[..0] == [];
    } else {
      var j := k - 1;
      TasksOnAll(mask, running, j);
      SumPrefix(running, j);
      assert running[..k] == running[..j + 1];
    }
  }

  /** With masks in agreement the tasks of all states together are all running tasks. */
  lemma AllStatesShareAllTasks(cur: seq<int>, states: seq<StateDesc>, running: seq<nat>)
    requires Agrees(cur, states) && |running| == |cur|
    ensures Sum(seq(|states|, j requires 0 <= j < |states| => StateTasks(states[j], running))) == Sum(running)
  {
    StatesShareTasks(cur, states, running, |states|);
    TasksOnAll(Below(cur, |states|), running, |running|);
    assert running[..|running|] == running;
  }

  lemma {:induction false} NoTasks(mask: set<nat>, running: seq<nat>, k: nat)
    requires mask == {} && k <= |running|
    ensures TasksOn(mask, running, k) == 0
  {
    if k > 0 {
      NoTasks(mask, running, k - 1);
    }
  }

  lemma {:induction false} SplitTasks(a: set<nat>, b: set<nat>, running: seq<nat>, k: nat)
    requires a !! b && k <= |running|
    ensures TasksOn(a + b, running, k) == TasksOn(a, running, k) + TasksOn(b, running, k)
  {
    if k > 0 {
      SplitTasks(a, b, running, k - 1);
    }
  }
}
