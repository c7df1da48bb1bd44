/**
 The log queue as interleaved steps of writers, which hold a lock, and one reader, which does
 not (log.c). Every step is one access to shared memory, so any interleaving is a run.
 */
module LogQueue {
  import opened Common

  type Addr = nat

  datatype Entry = Entry(kind: int, payload: seq<int>)

  datatype Block = Block(entry: Entry, next: Option<Addr>)

  /** Where the writer that holds the lock is. */
  datatype Phase =
    | Locked                // in get_log, lock just taken
    | Filling(p: Addr)      // block granted, entry being written
    | Linked(p: Addr)       // block linked, tail not yet advanced
    | Unlocking             // tail advanced, lock not yet released

  datatype Holder = Holder(writer: nat, phase: Phase)

  /** Where the reader is; room is the number of entries that still fit into its buffer. */
  datatype Reader =
    | Outside
    | Entered(room: nat)                // the queue was seen non-empty
    | Skipping(room: nat)               // about to move past the first block
    | SkipFree(room: nat, log: Addr)    // about to free the first block
    | AtNext(room: nat)                 // about to test that a next block is linked
    | AtTail(room: nat)                 // about to test that this is not the tail
    | Copying(room: nat)
    | Advancing(room: nat)
    | Freeing(room: nat, log: Addr)

  datatype State = State(
    mem: map<Addr, Block>,
    start: Addr,
    current: Addr,
    firstRead: bool,
    devOpen: bool,
    holder: Option<Holder>,
    reader: Reader,
    put: seq<Entry>,        // every entry ever linked, in order
    delivered: seq<Entry>)  // every entry ever copied to the user, in order

  datatype Step =
    | Acquire(writer: nat)
    | Refuse                            // device closed or allocation failed: unlock without a block
    | Allocate(p: Addr, junk: Entry)
    | Fill(entry: Entry)
    | Link
    | AdvanceTail
    | Release
    | SetOpen(open: bool)
    | Call(room: nat)
    | FirstTest
    | SkipFirst
    | FreeFirst
    | TestNext
    | TestTail
    | Copy
    | AdvanceHead
    | FreeHead

  /** One block, empty, is both head and tail. */
  ghost predicate Init(s: State) {
    && s.current == s.start && s.mem.Keys == {s.start} && s.mem[s.start].next == None
    && s.firstRead && s.holder == None && s.reader == Outside
    && s.put == [] && s.delivered == []
  }

  function ToPhase(s: State, phase: Phase): State
    requires s.holder.Some?
  {
    s.(holder := Some(s.holder.value.(phase := phase)))
  }

  ghost predicate WriterStep(s: State, step: Step, t: State) {
    match step
    case Acquire(w) => s.holder == None && t == s.(holder := Some(Holder(w, Locked)))
    case Refuse => s.holder.Some? && s.holder.value.phase.Locked? && t == s.(holder := None)
    case Allocate(p, junk) =>
      && s.holder.Some? && s.holder.value.phase.Locked? && s.devOpen && p !in s.mem
      && t == ToPhase(s.(mem := s.mem[p := Block(junk, None)]), Filling(p))
    case Fill(e) =>
      && s.holder.Some? && s.holder.value.phase.Filling?
      && var p := s.holder.value.phase.p;
        p in s.mem && t == s.(mem := s.mem[p := s.mem[p].(entry := e)])
    case Link =>
      && s.holder.Some? && s.holder.value.phase.Filling?
      && var p := s.holder.value.phase.p;
        && p in s.mem && s.current in s.mem
        && t == ToPhase(s.(mem := s.mem[s.current := s.mem[s.current].(next := Some(p))],
                           put := s.put + [s.mem[p].entry]), Linked(p))
    case AdvanceTail =>
      && s.holder.Some? && s.holder.value.phase.Linked?
      && t == ToPhase(s.(current := s.holder.value.phase.p), Unlocking)
    case Release => s.holder.Some? && s.holder.value.phase.Unlocking? && t == s.(holder := None)
    case SetOpen(b) => t == s.(devOpen := b)
    case _ => false
  }

  ghost predicate ReaderStep(s: State, step: Step, t: State) {
    match step
    case Call(room) =>
      && s.reader == Outside
      && t == s.(reader := if s.start == s.current then Outside else Entered(room))
    case FirstTest =>
      && s.reader.Entered?
      && if s.firstRead then
        && s.start in s.mem
        && t == s.(reader := if s.mem[s.start].next == None then Outside else Skipping(s.reader.room))
      else t == s.(reader := AtNext(s.reader.room))
    case SkipFirst =>
      && s.reader.Skipping? && s.start in s.mem && s.mem[s.start].next.Some?
      && t == s.(start := s.mem[s.start].next.value, reader := SkipFree(s.reader.room, s.start))
    case FreeFirst =>
      && s.reader.SkipFree?
      && t == s.(mem := s.mem - {s.reader.log}, firstRead := false, reader := AtNext(s.reader.room))
    case TestNext =>
      && s.reader.AtNext? && s.start in s.mem
      && t == s.(reader := if s.reader.room == 0 || s.mem[s.start].next == None then Outside else AtTail(s.reader.room))
    case TestTail =>
      && s.reader.AtTail?
      && t == s.(reader := if s.start == s.current then Outside else Copying(s.reader.room))
    case Copy =>
      && s.reader.Copying? && s.start in s.mem
      && t == s.(delivered := s.delivered + [s.mem[s.start].entry], reader := Advancing(s.reader.room))
    case AdvanceHead =>
      && s.reader.Advancing? && s.start in s.mem && s.mem[s.start].next.Some?
      && t == s.(start := s.mem[s.start].next.value, reader := Freeing(s.reader.room, s.start))
    case FreeHead =>
      && s.reader.Freeing?
      && t == s.(mem := s.mem - {s.reader.log},
                 reader := AtNext(if s.reader.room > 0 then s.reader.room - 1 else 0))
    case _ => false
  }

  ghost predicate Next(s: State, step: Step, t: State) {
    WriterStep(s, step, t) || ReaderStep(s, step, t)
  }

  // ----- Invariant

  /** chain lists the blocks from the head to the last linked one. */
  ghost predicate IsChain(mem: map<Addr, Block>, start: Addr, chain: seq<Addr>) {
    && |chain| >= 1 && chain[0] == start && Distinct(chain)
    && (forall i :: 0 <= i < |chain| ==> chain[i] in mem)
    && (forall i :: 0 <= i < |chain| - 1 ==> mem[chain[i]].next == Some(chain[i + 1]))
    && mem[chain[|chain| - 1]].next == None
  }

  predicate Half(s: State) {
    s.holder.Some? && s.holder.value.phase.Linked?
  }

  /** The tail is the last block, or the last but one between the two writes of put_log. */
  ghost predicate TailFits(s: State, chain: seq<Addr>) {
    if Half(s) then
      && |chain| >= 2 && s.current == chain[|chain| - 2] && s.holder.value.phase.p == chain[|chain| - 1]
    else |chain| >= 1 && s.current == chain[|chain| - 1]
  }

  /** A block being filled is private to its writer. */
  ghost predicate FillFits(s: State, chain: seq<Addr>) {
    s.holder.Some? && s.holder.value.phase.Filling? ==>
      var p := s.holder.value.phase.p;
      p in s.mem && p !in chain && s.mem[p].next == None
  }

  /** What the reader has established, and that the block it is about to free is out of reach. */
  ghost predicate ReaderFits(s: State, chain: seq<Addr>) {
    match s.reader
    case Outside => true
    case Entered(_) => s.start != s.current
    case Skipping(_) => s.start != s.current && s.firstRead
    case SkipFree(_, log) => OutOfReach(s, chain, log) && s.firstRead
    case AtNext(_) => !s.firstRead
    case AtTail(_) => !s.firstRead && |chain| >= 2
    case Copying(_) => !s.firstRead && s.start != s.current
    case Advancing(_) => !s.firstRead && s.start != s.current
    case Freeing(_, log) => OutOfReach(s, chain, log) && !s.firstRead
  }

  ghost predicate OutOfReach(s: State, chain: seq<Addr>, log: Addr) {
    && log in s.mem && log !in chain
    && (s.holder.Some? && s.holder.value.phase.Filling? ==> log != s.holder.value.phase.p)
  }

  /** Blocks at the front of the chain whose entry is not to be delivered (any more). */
  function Spent(s: State): nat {
    if (s.firstRead && !s.reader.SkipFree?) || s.reader.Advancing? then 1 else 0
  }

  function Entries(mem: map<Addr, Block>, chain: seq<Addr>): seq<Entry>
    requires forall i :: 0 <= i < |chain| ==> chain[i] in mem
  {
    seq(|chain|, i requires 0 <= i < |chain| => mem[chain[i]].entry)
  }

  ghost predicate Inv(s: State, chain: seq<Addr>) {
    && IsChain(s.mem, s.start, chain)
    && TailFits(s, chain) && FillFits(s, chain) && ReaderFits(s, chain)
    && (s.firstRead ==> s.delivered == [])
    && s.put == s.delivered + Entries(s.mem, chain[Spent(s)..])
  }

  lemma InitKeepsInv(s: State)
    requires Init(s)
    ensures Inv(s, [s.start])
  {
    assert [s.start][1..] == [];
    assert Entries(s.mem, []) == [];
  }

  /** Changes to blocks outside the chain do not matter to it. */
  lemma SameChain(mem: map<Addr, Block>, mem': map<Addr, Block>, start: Addr, chain: seq<Addr>, k: nat)
    requires IsChain(mem, start, chain) && k <= |chain|
    requires forall a :: a in chain ==> a in mem' && mem'[a] == mem[a]
    ensures IsChain(mem', start, chain) && Entries(mem', chain[k..]) == Entries(mem, chain[k..])
  {
  }

  lemma AllocateKeepsInv(s: State, chain: seq<Addr>, step: Step, t: State)
    requires Inv(s, chain) && (step.Allocate? || step.Fill?) && WriterStep(s, step, t)
    ensures Inv(t, chain)
  {
    SameChain(s.mem, t.mem, s.start, chain, Spent(s));
  }

  /** Linking appends the block to the chain and its entry to the entries put. */
  lemma LinkKeepsInv(s: State, chain: seq<Addr>, t: State)
    requires Inv(s, chain) && WriterStep(s, Link, t)
    ensures Inv(t, chain + [s.holder.value.phase.p])
  {
    var p := s.holder.value.phase.p;
    ChainGrows(s.mem, s.start, chain, p, Spent(s));
    assert s.current == chain[|chain| - 1] && Spent(t) == Spent(s);
  }

  lemma ChainGrows(mem: map<Addr, Block>, start: Addr, chain: seq<Addr>, p: Addr, k: nat)
    requires IsChain(mem, start, chain) && k <= |chain|
    requires p in mem && p !in chain && mem[p].next == None
    ensures var last := chain[|chain| - 1];
      var mem' := mem[last := mem[last].(next := Some(p))];
      && IsChain(mem', start, chain + [p])
      && Entries(mem', (chain + [p])[k..]) == Entries(mem, chain[k..]) + [mem[p].entry]
  {
    assert (chain + [p])[k..] == chain[k..] + [p];
  }

  /** Moving the head drops the first block from the chain; its entry was spent. */
  lemma HeadKeepsInv(s: State, chain: seq<Addr>, step: Step, t: State)
    requires Inv(s, chain) && (step.SkipFirst? || step.AdvanceHead?) && ReaderStep(s, step, t)
    ensures |chain| >= 2 && Inv(t, chain[1..])
  {
    assert s.mem[chain[0]].next.Some?;
    assert |chain| >= 2 && t.start == chain[1];
    assert IsChain(t.mem, t.start, chain[1..]);
    assert chain[1..][0..] == chain[1..];
  }

  /** The freed block is out of reach: not in the chain, so not the tail. */
  lemma FreeKeepsInv(s: State, chain: seq<Addr>, step: Step, t: State)
    requires Inv(s, chain) && (step.FreeFirst? || step.FreeHead?) && ReaderStep(s, step, t)
    ensures Inv(t, chain) && s.reader.log != s.current && s.reader.log != s.start
  {
    SameChain(s.mem, t.mem, s.start, chain, 0);
  }

  lemma CopyKeepsInv(s: State, chain: seq<Addr>, t: State)
    requires Inv(s, chain) && ReaderStep(s, Copy, t)
    ensures Inv(t, chain)
  {
    assert chain[0..] == [chain[0]] + chain[1..];
    assert Entries(s.mem, chain[0..]) == [s.mem[chain[0]].entry] + Entries(s.mem, chain[1..]);
  }

  lemma QuietReaderKeepsInv(s: State, chain: seq<Addr>, step: Step, t: State)
    requires Inv(s, chain) && ReaderStep(s, step, t)
    requires step.Call? || step.FirstTest? || step.TestNext? || step.TestTail?
    ensures Inv(t, chain)
  {
    HeadIsNearTail(s, chain);
    assert Spent(t) == Spent(s);
  }

  lemma QuietWriterKeepsInv(s: State, chain: seq<Addr>, step: Step, t: State)
    requires Inv(s, chain) && WriterStep(s, step, t)
    requires !step.Link? && !step.Fill? && !step.Allocate?
    ensures Inv(t, chain)
  {
    assert Spent(t) == Spent(s);
  }

  /** Steps that change neither blocks nor histories. */
  lemma QuietKeepsInv(s: State, chain: seq<Addr>, step: Step, t: State)
    requires Inv(s, chain) && Next(s, step, t)
    requires !step.Link? && !step.Copy? && !step.Fill? && !step.Allocate? && !step.FreeFirst? && !step.FreeHead?
    requires !step.SkipFirst? && !step.AdvanceHead?
    ensures Inv(t, chain)
  {
    if WriterStep(s, step, t) {
      QuietWriterKeepsInv(s, chain, step, t);
    } else {
      QuietReaderKeepsInv(s, chain, step, t);
    }
  }

  /** Every step keeps the invariant; the chain grows at the end and shrinks at the front. */
  lemma StepKeepsInv(s: State, chain: seq<Addr>, step: Step, t: State) returns (chain': seq<Addr>)
    requires Inv(s, chain) && Next(s, step, t)
    ensures Inv(t, chain')
  {
    chain' := chain;
    match step {
      case Allocate(_, _) => AllocateKeepsInv(s, chain, step, t);
      case Fill(_) => AllocateKeepsInv(s, chain, step, t);
      case Link =>
        LinkKeepsInv(s, chain, t);
        chain' := chain + [s.holder.value.phase.p];
      case SkipFirst =>
        HeadKeepsInv(s, chain, step, t);
        chain' := chain[1..];
      case AdvanceHead =>
        HeadKeepsInv(s, chain, step, t);
        chain' := chain[1..];
      case FreeFirst => FreeKeepsInv(s, chain, step, t);
      case FreeHead => FreeKeepsInv(s, chain, step, t);
      case Copy => CopyKeepsInv(s, chain, t);
      case _ => QuietKeepsInv(s, chain, step, t);
    }
  }

  // ----- Runs

  ghost predicate IsRun(run: seq<State>, steps: seq<Step>) {
    |run| == |steps| + 1 && Init(run[0]) && forall k :: 0 <= k < |steps| ==> Next(run[k], steps[k], run[k + 1])
  }

  lemma {:induction false} RunKeepsInv(run: seq<State>, steps: seq<Step>, k: nat) returns (chain: seq<Addr>)
    requires IsRun(run, steps) && k <= |steps|
    ensures Inv(run[k], chain)
  {
    if k == 0 {
      InitKeepsInv(run[0]);
      chain := [run[0].start];
    } else {
      var before := RunKeepsInv(run, steps, k - 1);
      chain := StepKeepsInv(run[k - 1], before, steps[k - 1], run[k]);
    }
  }

  /** In every interleaving the entries delivered are a prefix of the entries put: in order, none lost, none twice. */
  lemma DeliveredInOrder(run: seq<State>, steps: seq<Step>, k: nat)
    requires IsRun(run, steps) && k <= |steps|
    ensures run[k].delivered <= run[k].put
    ensures run[k].put != [] ==> |run[k].delivered| < |run[k].put|
  {
    var chain := RunKeepsInv(run, steps, k);
    var s := run[k];
    assert s.put[..|s.delivered|] == s.delivered;
  }

  /** The addresses a step reads, writes or frees. */
  function Touched(s: State, step: Step): set<Addr> {
    match step
    case Fill(_) => if s.holder.Some? && s.holder.value.phase.Filling? then {s.holder.value.phase.p} else {}
    case Link => if s.holder.Some? && s.holder.value.phase.Filling? then {s.current, s.holder.value.phase.p} else {}
    case FirstTest => if s.reader.Entered? && s.firstRead then {s.start} else {}
    case SkipFirst => if s.reader.Skipping? then {s.start} else {}
    case FreeFirst => if s.reader.SkipFree? then {s.reader.log} else {}
    case TestNext => if s.reader.AtNext? then {s.start} else {}
    case Copy => if s.reader.Copying? then {s.start} else {}
    case AdvanceHead => if s.reader.Advancing? then {s.start} else {}
    case FreeHead => if s.reader.Freeing? then {s.reader.log} else {}
    case _ => {}
  }

  /**
   In every interleaving no step touches a freed block, a head that has to move has a next
   block, and the block the reader frees is neither the head, nor the tail that writers append
   to, nor the block a writer is filling or has just linked.
   */
  lemma NoStrayAccess(run: seq<State>, steps: seq<Step>, k: nat, step: Step)
    requires IsRun(run, steps) && k <= |steps|
    ensures Touched(run[k], step) <= run[k].mem.Keys
    ensures run[k].reader.Skipping? || run[k].reader.Advancing? ==>
      run[k].start in run[k].mem && run[k].mem[run[k].start].next.Some?
    ensures run[k].reader.SkipFree? || run[k].reader.Freeing? ==>
      var log := run[k].reader.log;
      && log != run[k].current && log != run[k].start
      && (run[k].holder.Some? && (run[k].holder.value.phase.Filling? || Half(run[k])) ==> log != run[k].holder.value.phase.p)
  {
    var chain := RunKeepsInv(run, steps, k);
    HeadIsNearTail(run[k], chain);
  }

  /** A read that ends although the buffer has room. */
  ghost predicate EndsRead(s: State, step: Step, t: State) {
    && t.reader == Outside
    && (step.Call? || step.FirstTest? || (step.TestNext? && s.reader.AtNext? && s.reader.room > 0) || step.TestTail?)
  }

  /**
   When a read ends with room to spare, everything put before the newest entry was delivered;
   while a writer is between its two writes, one more entry may be open.
   */
  lemma OnlyTheLastIsLeft(run: seq<State>, steps: seq<Step>, k: nat)
    requires IsRun(run, steps) && k < |steps| && ReaderStep(run[k], steps[k], run[k + 1])
    requires EndsRead(run[k], steps[k], run[k + 1])
    ensures |run[k + 1].put| - |run[k + 1].delivered| <= if Half(run[k + 1]) then 2 else 1
  {
    var chain := RunKeepsInv(run, steps, k);
    var s := run[k];
    assert |s.put| == |s.delivered| + |chain| - Spent(s);
    HeadIsNearTail(s, chain);
  }

  lemma HeadIsNearTail(s: State, chain: seq<Addr>)
    requires Inv(s, chain)
    ensures s.start == s.current ==> |chain| == if Half(s) then 2 else 1
    ensures s.start in s.mem && (s.mem[s.start].next == None <==> |chain| == 1)
  {
    assert chain[0] in s.mem && (|chain| > 1 ==> s.mem[chain[0]].next == Some(chain[0 + 1]));
    if s.start == s.current {
      assert chain[0] == chain[if Half(s) then |chain| - 2 else |chain| - 1];
    }
  }

  // ----- The functions themselves

  /** Position of the tail in the chain: how many blocks a reader may pass. */
  function TailIndex(s: State, chain: seq<Addr>): int {
    if Half(s) then |chain| - 2 else |chain| - 1
  }

  /** Entries the reader may take now: all but the one in the tail. */
  function Ready(s: State, chain: seq<Addr>): nat {
    Max(0, TailIndex(s, chain) - Spent(s))
  }

  lemma TailIsAtTailIndex(s: State, chain: seq<Addr>)
    requires Inv(s, chain)
    ensures 0 <= TailIndex(s, chain) < |chain| && chain[TailIndex(s, chain)] == s.current
    ensures s.start == s.current <==> TailIndex(s, chain) == 0
  {
    assert chain[0] == s.start;
  }

  /** Link, advance the tail and release, without interruption. */
  lemma PutKeepsInv(s: State, chain: seq<Addr>, t: State)
    requires Inv(s, chain) && s.holder.Some? && s.holder.value.phase.Filling?
    requires var p := s.holder.value.phase.p;
      && p in s.mem && s.current in s.mem
      && t == s.(mem := s.mem[s.current := s.mem[s.current].(next := Some(p))],
                 put := s.put + [s.mem[p].entry], current := p, holder := None)
    ensures Inv(t, chain + [s.holder.value.phase.p])
  {
    var p := s.holder.value.phase.p;
    var linked := ToPhase(s.(mem := s.mem[s.current := s.mem[s.current].(next := Some(p))],
                             put := s.put + [s.mem[p].entry]), Linked(p));
    var advanced := ToPhase(linked.(current := p), Unlocking);
    LinkKeepsInv(s, chain, linked);
    QuietKeepsInv(linked, chain + [p], AdvanceTail, advanced);
    QuietKeepsInv(advanced, chain + [p], Release, t);
  }

  /** Move past the first block and free it, without interruption. */
  lemma SkipKeepsInv(s: State, chain: seq<Addr>, t: State)
    requires Inv(s, chain) && s.reader.Skipping?
    requires s.start in s.mem && s.mem[s.start].next.Some?
    requires t == s.(mem := s.mem - {s.start}, start := s.mem[s.start].next.value, firstRead := false,
                     reader := AtNext(s.reader.room))
    ensures |chain| >= 2 && Inv(t, chain[1..])
  {
    var moved := s.(start := s.mem[s.start].next.value, reader := SkipFree(s.reader.room, s.start));
    HeadKeepsInv(s, chain, SkipFirst, moved);
    FreeKeepsInv(moved, chain[1..], FreeFirst, t);
  }

  /** Copy the entry of the head, move on and free the block, without interruption. */
  lemma DeliverKeepsInv(s: State, chain: seq<Addr>, t: State)
    requires Inv(s, chain) && s.reader.Copying? && s.reader.room > 0
    requires s.start in s.mem && s.mem[s.start].next.Some?
    requires t == s.(mem := s.mem - {s.start}, start := s.mem[s.start].next.value,
                     delivered := s.delivered + [s.mem[s.start].entry], reader := AtNext(s.reader.room - 1))
    ensures |chain| >= 2 && Inv(t, chain[1..])
  {
    var copied := s.(delivered := s.delivered + [s.mem[s.start].entry], reader := Advancing(s.reader.room));
    CopyKeepsInv(s, chain, copied);
    var moved := copied.(start := s.mem[s.start].next.value, reader := Freeing(s.reader.room, s.start));
    HeadKeepsInv(copied, chain, AdvanceHead, moved);
    FreeKeepsInv(moved, chain[1..], FreeHead, t);
  }

  /** The tests at the head of the read loop both passed. */
  lemma LoopTestsKeepInv(s: State, chain: seq<Addr>, t: State)
    requires Inv(s, chain) && s.reader.AtNext? && s.reader.room > 0
    requires s.start in s.mem && s.mem[s.start].next.Some? && s.start != s.current
    requires t == s.(reader := Copying(s.reader.room))
    ensures Inv(t, chain)
  {
    var passed := s.(reader := AtTail(s.reader.room));
    QuietKeepsInv(s, chain, TestNext, passed);
    QuietKeepsInv(passed, chain, TestTail, t);
  }

  /** The tests at the head of a read call passed. */
  lemma EntryTestsKeepInv(s: State, chain: seq<Addr>, room: nat)
    requires Inv(s, chain) && s.reader.Outside? && s.start != s.current
    ensures s.firstRead ==> Inv(s.(reader := Skipping(room)), chain)
    ensures !s.firstRead ==> Inv(s.(reader := AtNext(room)), chain)
  {
    var entered := s.(reader := Entered(room));
    QuietKeepsInv(s, chain, Call(room), entered);
    HeadHasNext(s, chain);
    QuietKeepsInv(entered, chain, FirstTest, s.(reader := if s.firstRead then Skipping(room) else AtNext(room)));
  }

  /** A head that is not the tail is linked to a next block. */
  lemma HeadHasNext(s: State, chain: seq<Addr>)
    requires Inv(s, chain)
    ensures s.start in s.mem && s.current in s.mem
    ensures s.start != s.current ==> s.mem[s.start].next.Some?
    ensures s.start != s.current && s.mem[s.start].next.Some? <==> TailIndex(s, chain) > 0
  {
    TailIsAtTailIndex(s, chain);
    HeadIsNearTail(s, chain);
  }

  /** The module's variables; a writer may be anywhere inside while the reader runs. */
  class Queue {
    var mem: map<Addr, Block>
    var start: Addr
    var current: Addr
    var firstRead: bool
    var devOpen: bool
    var holder: Option<Holder>
    ghost var put: seq<Entry>
    ghost var delivered: seq<Entry>

    /** The state of the step machine when the reader is at r. */
    ghost function At(r: Reader): State
      reads this
    {
      State(mem, start, current, firstRead, devOpen, holder, r, put, delivered)
    }

    ghost predicate Valid(chain: seq<Addr>)
      reads this
    {
      Inv(At(Outside), chain)
    }

    /** The initial list is one block without an entry of its own. */
    constructor (first: Addr, junk: Entry)
      ensures Valid([first]) && holder == None && put == [] && delivered == [] && firstRead && !devOpen
    {
      current := first;
      start := first;
      mem := map[first := Block(junk, None)];
      firstRead := true;
      devOpen := false;
      holder := None;
      put := [];
      delivered := [];
      new;
      InitKeepsInv(At(Outside));
    }

    /** Take the lock and a block p from the allocator; without a block the lock is released again. */
    method GetLog(writer: nat, granted: bool, p: Addr, junk: Entry, ghost chain: seq<Addr>) returns (block: Option<Addr>)
      requires Valid(chain) && holder == None && p !in mem
      modifies this
      ensures Valid(chain) && put == old(put) && delivered == old(delivered)
      ensures block == if devOpen && granted then Some(p) else None
      ensures holder == if block.Some? then Some(Holder(writer, Filling(p))) else None
      ensures start == old(start) && current == old(current) && firstRead == old(firstRead) && devOpen == old(devOpen)
    {
      ghost var s0 := At(Outside);
      holder := Some(Holder(writer, Locked));
      QuietKeepsInv(s0, chain, Acquire(writer), At(Outside));
      ghost var s1 := At(Outside);
      if !devOpen || !granted {
        holder := None;
        QuietKeepsInv(s1, chain, Refuse, At(Outside));
        return None;
      }
      mem := mem[p := Block(junk, None)];
      holder := Some(Holder(writer, Filling(p)));
      AllocateKeepsInv(s1, chain, Allocate(p, junk), At(Outside));
      block := Some(p);
    }

    /** The caller writes its entry into the block it got. */
    method WriteEntry(p: Addr, entry: Entry, ghost chain: seq<Addr>)
      requires Valid(chain) && holder.Some? && holder.value.phase == Filling(p)
      modifies this`mem
      ensures Valid(chain) && p in mem && mem[p].entry == entry
    {
      ghost var s0 := At(Outside);
      mem := mem[p := mem[p].(entry := entry)];
      AllocateKeepsInv(s0, chain, Fill(entry), At(Outside));
    }

    /** Link the block, make it the tail, release the lock; nothing to do without a block. */
    method PutLog(block: Option<Addr>, ghost chain: seq<Addr>) returns (ghost chain': seq<Addr>)
      requires Valid(chain)
      requires block.Some? ==> holder.Some? && holder.value.phase == Filling(block.value) && block.value in mem
      modifies this
      ensures Valid(chain') && delivered == old(delivered)
      ensures block.None? ==> chain' == chain && put == old(put) && holder == old(holder)
      ensures block.Some? ==> chain' == chain + [block.value] && put == old(put) + [old(mem[block.value].entry)]
      ensures block.Some? ==> holder == None && current == block.value
    {
      chain' := chain;
      if block.Some? {
        ghost var before := At(Outside);
        HeadHasNext(before, chain);
        mem := mem[current := mem[current].(next := block)];
        put := put + [before.mem[block.value].entry];
        current := block.value;
        holder := None;
        PutKeepsInv(before, chain, At(Outside));
        chain' := chain + [block.value];
      }
    }

    /** Move past the first block, which holds no entry, and free it. */
    method SkipFirstBlock(room: nat, ghost chain: seq<Addr>)
      requires Inv(At(Skipping(room)), chain)
      modifies this`mem, this`start, this`firstRead
      ensures |chain| >= 2 && Inv(At(AtNext(room)), chain[1..])
      ensures TailIndex(At(AtNext(room)), chain[1..]) == old(TailIndex(At(Outside), chain)) - 1
      ensures start in mem
    {
      ghost var before := At(Skipping(room));
      HeadHasNext(before, chain);
      var log := start;
      start := mem[start].next.value;
      mem := mem - {log};
      firstRead := false;
      SkipKeepsInv(before, chain, At(AtNext(room)));
      HeadHasNext(At(AtNext(room)), chain[1..]);
    }

    /** Copy the entry of the head, move on, and free the block. */
    method DeliverHead(room: nat, ghost chain: seq<Addr>) returns (entry: Entry)
      requires room > 0 && Inv(At(AtNext(room)), chain)
      requires start in mem && mem[start].next.Some? && start != current
      modifies this`mem, this`start, this`delivered
      ensures |chain| >= 2 && Inv(At(AtNext(room - 1)), chain[1..]) && delivered == old(delivered) + [entry]
      ensures TailIndex(At(AtNext(room - 1)), chain[1..]) == old(TailIndex(At(Outside), chain)) - 1
      ensures start in mem
    {
      ghost var before := At(Copying(room));
      LoopTestsKeepInv(At(AtNext(room)), chain, before);
      TailIsAtTailIndex(before, chain);
      entry := mem[start].entry;
      delivered := delivered + [entry];
      var log := start;
      start := mem[start].next.value;
      mem := mem - {log};
      DeliverKeepsInv(before, chain, At(AtNext(room - 1)));
      HeadHasNext(At(AtNext(room - 1)), chain[1..]);
    }

    /** The read loop: take entries while there is room and the head is not the tail. */
    method ReadEntries(room: nat, ghost chain: seq<Addr>) returns (out: seq<Entry>, ghost chain': seq<Addr>)
      requires Inv(At(AtNext(room)), chain) && start in mem
      modifies this`mem, this`start, this`delivered
      ensures Valid(chain') && delivered == old(delivered) + out
      ensures |out| == Min(room, old(TailIndex(At(Outside), chain)))
    {
      out, chain' := [], chain;
      var left: nat := room;
      ghost var before, total := delivered, TailIndex(At(Outside), chain);
      while left > 0 && mem[start].next.Some? && start != current
        invariant left + |out| == room && start in mem
        invariant |out| + TailIndex(At(AtNext(left)), chain') == total
        invariant Inv(At(AtNext(left)), chain') && delivered == before + out
        decreases left
      {
        var entry := DeliverHead(left, chain');
        AppendOne(before, out, entry);
        out := out + [entry];
        chain' := chain'[1..];
        left := left - 1;
      }
      ReadEnds(At(AtNext(left)), chain', At(Outside));
    }

    /** On the first read skip the first block; more says that there may be entries to read. */
    method PassFirst(room: nat, ghost chain: seq<Addr>) returns (more: bool, ghost chain': seq<Addr>)
      requires Valid(chain) && start in mem && start != current
      modifies this`mem, this`start, this`firstRead
      ensures more && Inv(At(AtNext(room)), chain') && start in mem
      ensures TailIndex(At(Outside), chain') == old(Ready(At(Outside), chain))
    {
      EntryTestsKeepInv(At(Outside), chain, room);
      HeadHasNext(At(Outside), chain);
      more, chain' := true, chain;
      if firstRead {
        if mem[start].next == None {
          more := false;
        } else {
          SkipFirstBlock(room, chain);
          chain' := chain[1..];
        }
      }
    }

    /** One read call: it returns what is ready, oldest first, as far as it fits. */
    method SeekerLogRead(room: nat, ghost chain: seq<Addr>) returns (out: seq<Entry>, ghost chain': seq<Addr>)
      requires Valid(chain)
      modifies this`mem, this`start, this`firstRead, this`delivered
      ensures Valid(chain') && delivered == old(delivered) + out
      ensures |out| == Min(room, old(Ready(At(Outside), chain)))
      ensures out == put[|old(delivered)|..|old(delivered)| + |out|]
    {
      out, chain' := [], chain;
      HeadHasNext(At(Outside), chain);
      if start != current {
        var more;
        more, chain' := PassFirst(room, chain);
        if more {
          out, chain' := ReadEntries(room, chain');
        }
      }
      LatestDelivered(At(Outside), chain', old(delivered), out);
    }
  }

  /** What was delivered last is the corresponding stretch of what was put. */
  lemma LatestDelivered(s: State, chain: seq<Addr>, before: seq<Entry>, out: seq<Entry>)
    requires Inv(s, chain) && s.delivered == before + out
    ensures |before| + |out| <= |s.put| && out == s.put[|before|..|before| + |out|]
  {
    assert s.put[..|before| + |out|] == before + out;
  }

  lemma AppendOne(before: seq<Entry>, out: seq<Entry>, entry: Entry)
    ensures before + (out + [entry]) == before + out + [entry]
  {
  }

  lemma ReadEnds(s: State, chain: seq<Addr>, t: State)
    requires Inv(s, chain) && s.reader.AtNext? && t == s.(reader := Outside)
    ensures Inv(t, chain)
    ensures s.start in s.mem && (s.start != s.current && s.mem[s.start].next.Some? <==> TailIndex(s, chain) > 0)
  {
    HeadHasNext(s, chain);
  }
}
