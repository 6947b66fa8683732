/** Collecting a mutator thread's roots (scanning.rs, scan_roots_in_mutator_thread).

  Objects found on shadow stacks go to one buffer (they are transitively pinned), the thread's own
  objects to another (they are pinned); both are handed over in packets of at most 4096. */
module MutatorRoots {
  import opened Bits
  import opened Slots
  import opened GcStack
  import opened Sequences
  import Backtrace

  const CAPACITY_PER_PACKET: nat := 4096

  /** The thread-local state the scan reads. Addresses of tasks are zero when absent. */
  datatype ThreadState = ThreadState(
    rootTask: Word,
    liveTasks: seq<Word>,
    currentTask: Word,
    nextTask: Word,
    previousTask: Word,
    previousException: Word,
    backtrace: seq<Word>)

  /** What a scan can see: memory, the task at each address, and where each thread's stack starts. */
  datatype Machine = Machine(mem: Memory, taskAt: Word -> Task, stackbase: Word -> Word, copyStacks: bool)

  /** The walkable frames of each task. */
  type Chains = Word -> seq<Word>

  ghost predicate Walkable(m: Machine, chains: Chains, task: Word) {
    task != 0 ==> TaskChain(m.taskAt(task), m.mem, m.copyStacks, m.stackbase(task), chains(task))
  }

  /** The object a stack slot holds, as a list of none or one. */
  function SlotObjects(mem: Memory, slot: Slot): seq<Word> {
    var word := mem(slot.addr);
    var obj := if slot.Simple? then word else WrapSub(word, slot.offset);
    if obj == 0 then [] else [obj]
  }

  function AllObjects(mem: Memory, slots: seq<Slot>): seq<Word> {
    if slots == [] then [] else SlotObjects(mem, slots[0]) + AllObjects(mem, slots[1..])
  }

  /** The objects on the stacks of a list of tasks, absent ones skipped. */
  function StackObjects(m: Machine, chains: Chains, tasks: seq<Word>): Outcome<seq<Word>> {
    if tasks == [] then Done([])
    else Join(TaskObjects(m, chains, tasks[0]), StackObjects(m, chains, tasks[1..]))
  }

  function Join(first: Outcome<seq<Word>>, rest: Outcome<seq<Word>>): Outcome<seq<Word>> {
    match (first, rest)
    case (Done(a), Done(b)) => Done(a + b)
    case _ => Panic
  }

  function TaskObjects(m: Machine, chains: Chains, task: Word): Outcome<seq<Word>> {
    if task == 0 then Done([])
    else
      match TaskSlots(m.taskAt(task), m.mem, m.copyStacks, m.stackbase(task), chains(task))
      case Done(slots) => Done(AllObjects(m.mem, slots))
      case Panic => Panic
  }

  function Present(addr: Word): seq<Word> {
    if addr == 0 then [] else [addr]
  }

  /** Every task whose stack is scanned, in order. */
  function ScannedTasks(t: ThreadState): seq<Word> {
    [t.rootTask] + t.liveTasks + [t.currentTask, t.nextTask, t.previousTask]
  }

  /** The thread's own root objects. Live tasks are not roots themselves. */
  function OwnObjects(t: ThreadState, entries: seq<Backtrace.Entry>): seq<Word> {
    Present(t.rootTask) + Present(t.currentTask) + Present(t.nextTask) + Present(t.previousTask)
    + Present(t.previousException) + Backtrace.AllValues(entries)
  }

  /** The `visit_slot` callback, for each slot of a scan. */
  method VisitSlots(mem: Memory, slots: seq<Slot>) returns (objects: seq<Word>)
    ensures objects == AllObjects(mem, slots)
  {
    objects := [];
    ghost var left := slots;
    var i := 0;
    while i < |slots|
      invariant i <= |slots| && left == slots[i..]
      invariant objects + AllObjects(mem, left) == AllObjects(mem, slots)
    {
      Associate(objects, SlotObjects(mem, slots[i]), AllObjects(mem, left[1..]));
      objects := objects + SlotObjects(mem, slots[i]);
      left := left[1..];
      i := i + 1;
    }
  }

  /** `root_scan_task`: the objects on one task's stack, unless its scan panics. */
  method RootScanTask(m: Machine, task: Word, ghost chains: Chains) returns (r: Outcome<seq<Word>>)
    requires Walkable(m, chains, task)
    ensures r == TaskObjects(m, chains, task)
  {
    if task == 0 {
      return Done([]);
    }
    var scan := ScanGcStack(m.taskAt(task), m.mem, m.copyStacks, m.stackbase(task), chains(task));
    if scan.Panic? {
      return Panic;
    }
    var objects := VisitSlots(m.mem, scan.value);
    r := Done(objects);
  }

  /** The loop over the thread's live tasks. */
  method ScanLiveTasks(m: Machine, tasks: seq<Word>, ghost chains: Chains) returns (r: Outcome<seq<Word>>)
    requires forall k :: 0 <= k < |tasks| ==> Walkable(m, chains, tasks[k])
    ensures r == StackObjects(m, chains, tasks)
  {
    var i := 0;
    var found := [];
    assert tasks[..0] == [];
    while i < |tasks|
      invariant i <= |tasks| && StackObjects(m, chains, tasks[..i]) == Done(found)
    {
      LiveStep(m, chains, tasks, i);
      var own := RootScanTask(m, tasks[i], chains);
      if own.Panic? {
        return Panic;
      }
      found := found + own.value;
      i := i + 1;
    }
    assert tasks[..i] == tasks;
    r := Done(found);
  }

  /** All the thread's tasks, into one buffer. */
  method ScanTasks(m: Machine, t: ThreadState, ghost chains: Chains) returns (r: Outcome<seq<Word>>)
    requires forall k :: 0 <= k < |ScannedTasks(t)| ==> Walkable(m, chains, ScannedTasks(t)[k])
    ensures r == StackObjects(m, chains, ScannedTasks(t))
  {
    AllWalkable(m, t, chains);
    ScannedInOrder(m, t, chains);
    var a := RootScanTask(m, t.rootTask, chains);
    if a.Panic? { return Panic; }
    var slotBuffer := a.value;
    var b := ScanLiveTasks(m, t.liveTasks, chains);
    if b.Panic? { return Panic; }
    slotBuffer := slotBuffer + b.value;
    var c := RootScanTask(m, t.currentTask, chains);
    if c.Panic? { return Panic; }
    slotBuffer := slotBuffer + c.value;
    var d := RootScanTask(m, t.nextTask, chains);
    if d.Panic? { return Panic; }
    slotBuffer := slotBuffer + d.value;
    var e := RootScanTask(m, t.previousTask, chains);
    if e.Panic? { return Panic; }
    slotBuffer := slotBuffer + e.value;
    r := Done(slotBuffer);
  }

  /** The thread's own objects: its tasks, its pending exception and its backtrace buffer. */
  method OwnNodes(t: ThreadState, ghost entries: seq<Backtrace.Entry>) returns (nodes: seq<Word>)
    requires Backtrace.AllValid(entries) && t.backtrace == Backtrace.Encode(entries)
    ensures nodes == OwnObjects(t, entries)
  {
    nodes := Present(t.rootTask) + Present(t.currentTask) + Present(t.nextTask) + Present(t.previousTask);
    if t.previousException != 0 {
      nodes := nodes + [t.previousException];
    }
    var values := Backtrace.ScanBacktrace(t.backtrace, entries);
    nodes := nodes + values;
  }

  lemma LiveStep(m: Machine, chains: Chains, tasks: seq<Word>, i: nat)
    requires i < |tasks|
    ensures StackObjects(m, chains, tasks[..i + 1])
            == Join(StackObjects(m, chains, tasks[..i]), TaskObjects(m, chains, tasks[i]))
    ensures TaskObjects(m, chains, tasks[i]).Panic? ==> StackObjects(m, chains, tasks).Panic?
  {
    assert tasks[..i] + [tasks[i]] == tasks[..i + 1] && tasks[..i + 1] + tasks[i + 1..] == tasks;
    StackObjectsConcat(m, chains, tasks[..i], [tasks[i]]);
    StackObjectsConcat(m, chains, tasks[..i + 1], tasks[i + 1..]);
    OneTask(m, chains, tasks[i]);
  }

  lemma OneTask(m: Machine, chains: Chains, task: Word)
    ensures StackObjects(m, chains, [task]) == TaskObjects(m, chains, task)
  {
    assert [task][1..] == [];
    var own := TaskObjects(m, chains, task);
    assert own.Done? ==> own.value + [] == own.value;
  }

  lemma JoinAssociative(x: Outcome<seq<Word>>, y: Outcome<seq<Word>>, z: Outcome<seq<Word>>)
    ensures Join(Join(x, y), z) == Join(x, Join(y, z))
    ensures Join(Done([]), x) == x
  {
    assert x.Done? && y.Done? && z.Done? ==> (x.value + y.value) + z.value == x.value + (y.value + z.value);
    assert x.Done? ==> [] + x.value == x.value;
  }

  lemma {:induction false} StackObjectsConcat(m: Machine, chains: Chains, a: seq<Word>, b: seq<Word>)
    ensures StackObjects(m, chains, a + b) == Join(StackObjects(m, chains, a), StackObjects(m, chains, b))
    decreases |a|
  {
    if a == [] {
      assert a + b == b;
      JoinAssociative(StackObjects(m, chains, b), Panic, Panic);
    } else {
      assert (a + b)[1..] == a[1..] + b;
      StackObjectsConcat(m, chains, a[1..], b);
      JoinAssociative(TaskObjects(m, chains, a[0]), StackObjects(m, chains, a[1..]), StackObjects(m, chains, b));
    }
  }

  // A task whose stack has been copied out

  /** The reported words are kept. */
  ghost predicate SlotsKept(original: Memory, copied: Memory, w: Window, slots: seq<Slot>) {
    forall i :: 0 <= i < |slots| ==> SameAt(original, copied, w, slots[i].addr)
  }

  lemma {:induction false} SameObjects(original: Memory, copied: Memory, w: Window, slots: seq<Slot>)
    requires SlotsKept(original, copied, w, slots)
    ensures AllObjects(copied, RelocateAll(slots, w)) == AllObjects(original, slots)
  {
    if slots != [] {
      assert SameAt(original, copied, w, slots[0].addr);
      SameObjects(original, copied, w, slots[1..]);
      assert RelocateAll(slots, w)[1..] == RelocateAll(slots[1..], w);
    }
  }

  lemma {:induction false} ObjectsConcat(mem: Memory, a: seq<Slot>, b: seq<Slot>)
    ensures AllObjects(mem, a + b) == AllObjects(mem, a) + AllObjects(mem, b)
    decreases |a|
  {
    if a == [] {
      assert a + b == b;
    } else {
      assert (a + b)[1..] == a[1..] + b;
      ObjectsConcat(mem, a[1..], b);
      Associate(SlotObjects(mem, a[0]), AllObjects(mem, a[1..]), AllObjects(mem, b));
    }
  }

  /** Copying a task's stack out loses none of its roots: after the copy the scan collects the new buffer
    and then the same stack objects, in the same order, as before it. */
  lemma CopiedTaskObjects(before: Machine, after: Machine, chains: Chains, task: Word)
    requires before.copyStacks && after.copyStacks && before.stackbase(task) == after.stackbase(task) && task != 0
    requires CopiedOut(after.taskAt(task), true) && after.taskAt(task).tid >= 0
    requires before.taskAt(task).gcstack == after.taskAt(task).gcstack && !CopiedOut(before.taskAt(task), true)
    requires after.mem(after.taskAt(task).stkbufAddr) == after.taskAt(task).stkbuf
    requires var w := TaskWindow(after.taskAt(task), true, after.stackbase(task));
             && StackKept(before.mem, after.mem, w, chains(task))
             && SlotsKept(before.mem, after.mem, w, StackSlots(before.mem, NO_WINDOW, chains(task)))
    ensures Walkable(before, chains, task) <==> Walkable(after, chains, task)
    ensures var stack := AllObjects(before.mem, StackSlots(before.mem, NO_WINDOW, chains(task)));
            && TaskObjects(before, chains, task)
               == Done(AllObjects(before.mem, BufferSlot(before.taskAt(task), true)) + stack)
            && TaskObjects(after, chains, task) == Done([after.taskAt(task).stkbuf] + stack)
  {
    var running, copied := before.taskAt(task), after.taskAt(task);
    var stackbase, chain := after.stackbase(task), chains(task);
    var w, slots := TaskWindow(copied, true, stackbase), StackSlots(before.mem, NO_WINDOW, chain);
    CopiedTaskSimulation(copied, running, before.mem, after.mem, stackbase, chain);
    SameObjects(before.mem, after.mem, w, slots);
    ObjectsConcat(before.mem, BufferSlot(running, true), slots);
    ObjectsConcat(after.mem, [Simple(copied.stkbufAddr)], RelocateAll(slots, w));
    OneSlot(after.mem, Simple(copied.stkbufAddr));
  }

  /** A slot in the stack is kept with it. */
  lemma StackSlotsKept(original: Memory, copied: Memory, w: Window, slots: seq<Slot>)
    requires HoldsStack(original, copied, w)
    requires forall i :: 0 <= i < |slots| ==> InStack(w, slots[i].addr)
    ensures SlotsKept(original, copied, w, slots)
  {
  }

  /** A copy-out from beginning to end: the stack is copied into the buffer and the buffer's address is
    noted in the task. When frames and roots lie in the stack, nothing else is asked of the memory. */
  lemma CopyOutKeepsRoots(before: Machine, after: Machine, chains: Chains, task: Word)
    requires before.copyStacks && after.copyStacks && before.stackbase(task) == after.stackbase(task) && task != 0
    requires CopiedOut(after.taskAt(task), true) && after.taskAt(task).tid >= 0
    requires before.taskAt(task).gcstack == after.taskAt(task).gcstack && !CopiedOut(before.taskAt(task), true)
    requires var t := after.taskAt(task);
             var w := TaskWindow(t, true, after.stackbase(task));
             && !InBuffer(w, t.stkbufAddr) && after.mem == Noted(CopyOut(before.mem, w), t.stkbufAddr, t.stkbuf)
             && (forall k :: 0 <= k < |chains(task)| ==> FrameInStack(before.mem, w, chains(task)[k]))
             && forall slot :: slot in StackSlots(before.mem, NO_WINDOW, chains(task)) ==> InStack(w, slot.addr)
    ensures Walkable(before, chains, task) <==> Walkable(after, chains, task)
    ensures TaskObjects(after, chains, task)
            == Done([after.taskAt(task).stkbuf]
                    + AllObjects(before.mem, StackSlots(before.mem, NO_WINDOW, chains(task))))
  {
    var t, slots := after.taskAt(task), StackSlots(before.mem, NO_WINDOW, chains(task));
    var w := TaskWindow(t, true, after.stackbase(task));
    NotedCopyHoldsStack(before.mem, w, t.stkbufAddr, t.stkbuf);
    StackFramesKept(before.mem, after.mem, w, chains(task));
    assert forall i :: 0 <= i < |slots| ==> slots[i] in slots;
    StackSlotsKept(before.mem, after.mem, w, slots);
    CopiedTaskObjects(before, after, chains, task);
  }

  lemma OneSlot(mem: Memory, slot: Slot)
    ensures AllObjects(mem, [slot]) == SlotObjects(mem, slot)
  {
    assert [slot][1..] == [];
    assert SlotObjects(mem, slot) + [] == SlotObjects(mem, slot);
  }

  // Packets

  /** Packets are never empty or too large, and all but the last are full. */
  ghost predicate WellPacked(packets: seq<seq<Word>>) {
    forall k :: 0 <= k < |packets| ==>
                  0 < |packets[k]| <= CAPACITY_PER_PACKET
                  && (k < |packets| - 1 ==> |packets[k]| == CAPACITY_PER_PACKET)
  }

  lemma {:induction false} ConcatPush(packets: seq<seq<Word>>, packet: seq<Word>)
    ensures Concat(packets + [packet]) == Concat(packets) + packet
  {
    if packets == [] {
      assert (packets + [packet])[1..] == [];
    } else {
      assert (packets + [packet])[1..] == packets[1..] + [packet];
      ConcatPush(packets[1..], packet);
    }
  }

  /** `chunks(CAPACITY_PER_PACKET)`, one work packet per chunk. */
  method PushWork(buffer: seq<Word>) returns (packets: seq<seq<Word>>)
    ensures Concat(packets) == buffer && WellPacked(packets)
  {
    packets := [];
    var i := 0;
    while i < |buffer|
      invariant i <= |buffer| && Concat(packets) == buffer[..i] && WellPacked(packets)
      invariant i < |buffer| ==> forall k :: 0 <= k < |packets| ==> |packets[k]| == CAPACITY_PER_PACKET
    {
      var next := if |buffer| - i < CAPACITY_PER_PACKET then |buffer| else i + CAPACITY_PER_PACKET;
      ConcatPush(packets, buffer[i..next]);
      packets := packets + [buffer[i..next]];
      assert buffer[..i] + buffer[i..next] == buffer[..next];
      i := next;
    }
  }

  datatype RootPackets = RootPackets(tpinning: seq<seq<Word>>, pinning: seq<seq<Word>>)

  /** scan_roots_in_mutator_thread: every object on every scanned stack is handed over as a
    transitively pinned root and every object of the thread itself as a pinned root, each exactly
    once and in order. */
  method ScanRootsInMutatorThread(m: Machine, t: ThreadState, ghost chains: Chains, ghost entries: seq<Backtrace.Entry>)
    returns (r: Outcome<RootPackets>)
    requires forall k :: 0 <= k < |ScannedTasks(t)| ==> Walkable(m, chains, ScannedTasks(t)[k])
    requires Backtrace.AllValid(entries) && t.backtrace == Backtrace.Encode(entries)
    ensures match (r, StackObjects(m, chains, ScannedTasks(t)))
            case (Done(packets), Done(objects)) =>
              && Concat(packets.tpinning) == objects && WellPacked(packets.tpinning)
              && Concat(packets.pinning) == OwnObjects(t, entries) && WellPacked(packets.pinning)
            case (Panic, Panic) => true
            case _ => false
  {
    var slotBuffer := ScanTasks(m, t, chains);
    if slotBuffer.Panic? {
      return Panic;
    }
    var nodeBuffer := OwnNodes(t, entries);
    var tpinning := PushWork(slotBuffer.value);
    var pinning := PushWork(nodeBuffer);
    r := Done(RootPackets(tpinning, pinning));
  }

  lemma AllWalkable(m: Machine, t: ThreadState, chains: Chains)
    requires forall k :: 0 <= k < |ScannedTasks(t)| ==> Walkable(m, chains, ScannedTasks(t)[k])
    ensures Walkable(m, chains, t.rootTask)
    ensures forall k :: 0 <= k < |t.liveTasks| ==> Walkable(m, chains, t.liveTasks[k])
    ensures Walkable(m, chains, t.currentTask) && Walkable(m, chains, t.nextTask) && Walkable(m, chains, t.previousTask)
  {
    var tasks, n := ScannedTasks(t), |t.liveTasks|;
    assert tasks[0] == t.rootTask;
    assert tasks[n + 1] == t.currentTask && tasks[n + 2] == t.nextTask && tasks[n + 3] == t.previousTask;
    assert forall k :: 0 <= k < n ==> tasks[k + 1] == t.liveTasks[k];
  }

  lemma ScannedInOrder(m: Machine, t: ThreadState, chains: Chains)
    ensures StackObjects(m, chains, ScannedTasks(t)) ==
            Join(Join(Join(Join(TaskObjects(m, chains, t.rootTask), StackObjects(m, chains, t.liveTasks)),
                           TaskObjects(m, chains, t.currentTask)),
                      TaskObjects(m, chains, t.nextTask)),
                 TaskObjects(m, chains, t.previousTask))
  {
    var x := [t.rootTask] + t.liveTasks;
    OneTask(m, chains, t.rootTask);
    OneTask(m, chains, t.currentTask);
    OneTask(m, chains, t.nextTask);
    OneTask(m, chains, t.previousTask);
    StackObjectsConcat(m, chains, [t.rootTask], t.liveTasks);
    StackObjectsConcat(m, chains, x, [t.currentTask]);
    StackObjectsConcat(m, chains, x + [t.currentTask], [t.nextTask]);
    StackObjectsConcat(m, chains, x + [t.currentTask] + [t.nextTask], [t.previousTask]);
    assert ScannedTasks(t) == x + [t.currentTask] + [t.nextTask] + [t.previousTask];
  }
}
