/** Which objects the root collection of a mutator thread hands over. */
module RootFacts {
  import opened Bits
  import opened Slots
  import opened GcStack
  import opened MutatorRoots
  import opened Sequences
  import Backtrace

  // Slots

  /** The object in a slot's word, as a list of none or one: the word itself, or the word less the offset. */
  function Held(mem: Memory, slot: Slot): seq<Word> {
    match slot
    case Simple(addr) => if mem(addr) == 0 then [] else [mem(addr)]
    case Offset(addr, offset) => if mem(addr) == offset then [] else [WrapSub(mem(addr), offset)]
  }

  function HeldParts(mem: Memory, slots: seq<Slot>): (parts: seq<seq<Word>>)
    ensures |parts| == |slots|
    ensures forall i :: 0 <= i < |slots| ==> parts[i] == Held(mem, slots[i])
  {
    if slots == [] then [] else [Held(mem, slots[0])] + HeldParts(mem, slots[1..])
  }

  /** Visiting slots collects the object of each, in order. */
  lemma {:induction false} ObjectsAreHeld(mem: Memory, slots: seq<Slot>)
    ensures AllObjects(mem, slots) == Concat(HeldParts(mem, slots))
  {
    if slots != [] {
      ObjectsAreHeld(mem, slots[1..]);
      assert HeldParts(mem, slots)[1..] == HeldParts(mem, slots[1..]);
    }
  }

  lemma ObjectCollected(mem: Memory, slots: seq<Slot>, i: nat, obj: Word)
    requires i < |slots| && Held(mem, slots[i]) == [obj]
    ensures obj in AllObjects(mem, slots)
  {
    ObjectsAreHeld(mem, slots);
    ConcatAt(HeldParts(mem, slots), i, 0);
  }

  // Tasks

  /** The tasks whose stacks are scanned: the root task, the live ones in order, then the current, the next
    and the previous one. */
  lemma TasksInOrder(t: ThreadState)
    ensures var tasks, n := ScannedTasks(t), |t.liveTasks|;
            && |tasks| == n + 4 && tasks[0] == t.rootTask
            && (forall i :: 0 <= i < n ==> tasks[i + 1] == t.liveTasks[i])
            && tasks[n + 1] == t.currentTask && tasks[n + 2] == t.nextTask && tasks[n + 3] == t.previousTask
  {
  }

  /** The slots a scan of a task reports. */
  function ScanOf(m: Machine, chains: Chains, task: Word): Outcome<seq<Slot>> {
    TaskSlots(m.taskAt(task), m.mem, m.copyStacks, m.stackbase(task), chains(task))
  }

  /** Scanning the tasks panics exactly when the scan of one of them does; absent tasks are skipped. */
  lemma {:induction false} PanicExactly(m: Machine, chains: Chains, tasks: seq<Word>)
    ensures StackObjects(m, chains, tasks).Panic?
            <==> exists i :: 0 <= i < |tasks| && tasks[i] != 0 && ScanOf(m, chains, tasks[i]).Panic?
    decreases |tasks|
  {
    if tasks != [] {
      PanicExactly(m, chains, tasks[1..]);
      assert forall i :: 0 < i < |tasks| ==> tasks[i] == tasks[1..][i - 1];
      assert tasks[0] != 0 && ScanOf(m, chains, tasks[0]).Panic? ==> TaskObjects(m, chains, tasks[0]).Panic?;
      if i :| 0 <= i < |tasks[1..]| && tasks[1..][i] != 0 && ScanOf(m, chains, tasks[1..][i]).Panic? {
        assert tasks[i + 1] != 0 && ScanOf(m, chains, tasks[i + 1]).Panic?;
      }
    }
  }

  /** What each task contributes. */
  function TaskParts(m: Machine, chains: Chains, tasks: seq<Word>): (parts: seq<seq<Word>>)
    ensures |parts| == |tasks|
    decreases |tasks|
  {
    if tasks == [] then []
    else
      var own := if tasks[0] == 0 || ScanOf(m, chains, tasks[0]).Panic? then []
                 else Concat(HeldParts(m.mem, ScanOf(m, chains, tasks[0]).value));
      [own] + TaskParts(m, chains, tasks[1..])
  }

  lemma {:induction false} TaskPart(m: Machine, chains: Chains, tasks: seq<Word>, k: nat)
    requires k < |tasks|
    ensures TaskParts(m, chains, tasks)[k]
            == if tasks[k] == 0 || ScanOf(m, chains, tasks[k]).Panic? then []
               else Concat(HeldParts(m.mem, ScanOf(m, chains, tasks[k]).value))
    decreases k
  {
    if k > 0 {
      TaskPart(m, chains, tasks[1..], k - 1);
    }
  }

  /** Otherwise the objects held by the slots of each task are collected, task after task. */
  lemma {:induction false} StackObjectsAreHeld(m: Machine, chains: Chains, tasks: seq<Word>)
    requires StackObjects(m, chains, tasks).Done?
    ensures StackObjects(m, chains, tasks).value == Concat(TaskParts(m, chains, tasks))
    decreases |tasks|
  {
    if tasks != [] {
      StackObjectsAreHeld(m, chains, tasks[1..]);
      assert TaskParts(m, chains, tasks)[1..] == TaskParts(m, chains, tasks[1..]);
      if tasks[0] != 0 {
        ObjectsAreHeld(m.mem, ScanOf(m, chains, tasks[0]).value);
      }
    }
  }

  lemma {:induction false} InConcat(parts: seq<seq<Word>>, k: nat, x: Word)
    requires k < |parts| && x in parts[k]
    ensures x in Concat(parts)
  {
    var j :| 0 <= j < |parts[k]| && parts[k][j] == x;
    ConcatAt(parts, k, j);
  }

  /** Every object in a slot of a scanned task is handed over. */
  lemma EveryStackObject(m: Machine, chains: Chains, tasks: seq<Word>, k: nat, slot: Slot, obj: Word)
    requires StackObjects(m, chains, tasks).Done? && k < |tasks| && tasks[k] != 0
    requires ScanOf(m, chains, tasks[k]).Done? && slot in ScanOf(m, chains, tasks[k]).value
    requires Held(m.mem, slot) == [obj]
    ensures obj in StackObjects(m, chains, tasks).value
  {
    var slots := ScanOf(m, chains, tasks[k]).value;
    var i :| 0 <= i < |slots| && slots[i] == slot;
    StackObjectsAreHeld(m, chains, tasks);
    TaskPart(m, chains, tasks, k);
    InConcat(HeldParts(m.mem, slots), i, obj);
    InConcat(TaskParts(m, chains, tasks), k, obj);
  }

  // The thread's own objects

  function EntryParts(entries: seq<Backtrace.Entry>): (parts: seq<seq<Word>>)
    ensures |parts| == |entries|
    ensures forall k :: 0 <= k < |entries| ==> parts[k] == if entries[k].Extended? then entries[k].values else []
  {
    if entries == [] then []
    else [if entries[0].Extended? then entries[0].values else []] + EntryParts(entries[1..])
  }

  /** The values of the extended entries, entry after entry. */
  lemma {:induction false} ValuesAreEntries(entries: seq<Backtrace.Entry>)
    ensures Backtrace.AllValues(entries) == Concat(EntryParts(entries))
  {
    if entries != [] {
      ValuesAreEntries(entries[1..]);
      assert EntryParts(entries)[1..] == EntryParts(entries[1..]);
    }
  }

  /** Value `j` of entry `k` is found after those of the entries before it. */
  lemma EveryValue(entries: seq<Backtrace.Entry>, k: nat, j: nat)
    requires k < |entries| && entries[k].Extended? && j < |entries[k].values|
    ensures LengthBefore(EntryParts(entries), k) + j < |Backtrace.AllValues(entries)|
    ensures Backtrace.AllValues(entries)[LengthBefore(EntryParts(entries), k) + j] == entries[k].values[j]
  {
    ValuesAreEntries(entries);
    ConcatAt(EntryParts(entries), k, j);
  }

  /** The words that are not zero. */
  function Filled(words: seq<Word>): seq<Word> {
    if words == [] then []
    else Filled(words[..|words| - 1]) + if words[|words| - 1] == 0 then [] else [words[|words| - 1]]
  }

  lemma {:induction false} FilledHas(words: seq<Word>, x: Word)
    ensures x in Filled(words) <==> x != 0 && x in words
  {
    if words != [] {
      FilledHas(words[..|words| - 1], x);
      assert words == words[..|words| - 1] + [words[|words| - 1]];
    }
  }

  lemma FilledNext(words: seq<Word>, x: Word)
    ensures Filled(words + [x]) == Filled(words) + Present(x)
  {
    assert (words + [x])[..|words|] == words;
  }

  lemma FiveFilled(a: Word, b: Word, c: Word, d: Word, e: Word)
    ensures Filled([a, b, c, d, e]) == Present(a) + Present(b) + Present(c) + Present(d) + Present(e)
  {
    FilledNext([], a);
    assert [] + [a] == [a] && [] + Present(a) == Present(a);
    ThreeMore([a], b, c, d);
    FilledNext([a, b, c, d], e);
    assert [a, b, c, d] + [e] == [a, b, c, d, e] && [a] + [b, c, d] == [a, b, c, d];
  }

  lemma ThreeMore(words: seq<Word>, x: Word, y: Word, z: Word)
    ensures Filled(words + [x, y, z]) == Filled(words) + Present(x) + Present(y) + Present(z)
  {
    FilledNext(words, x);
    FilledNext(words + [x], y);
    FilledNext(words + [x] + [y], z);
    assert words + [x] + [y] + [z] == words + [x, y, z];
  }

  /** The thread's own roots are its root, current, next and previous task and its pending exception, those
    that are there, in this order, and then the values of its backtrace buffer. */
  lemma OwnObjectsAre(t: ThreadState, entries: seq<Backtrace.Entry>)
    ensures OwnObjects(t, entries)
            == Filled([t.rootTask, t.currentTask, t.nextTask, t.previousTask, t.previousException])
               + Concat(EntryParts(entries))
  {
    ValuesAreEntries(entries);
    FiveFilled(t.rootTask, t.currentTask, t.nextTask, t.previousTask, t.previousException);
  }

  /** Each of them that is there is a root, and so is each value of the buffer. */
  lemma EveryOwnObject(t: ThreadState, entries: seq<Backtrace.Entry>)
    ensures forall x :: x in [t.rootTask, t.currentTask, t.nextTask, t.previousTask, t.previousException] && x != 0 ==>
                          x in OwnObjects(t, entries)
    ensures forall k, j :: 0 <= k < |entries| && entries[k].Extended? && 0 <= j < |entries[k].values| ==>
                             entries[k].values[j] in OwnObjects(t, entries)
  {
    OwnObjectsAre(t, entries);
    var own := [t.rootTask, t.currentTask, t.nextTask, t.previousTask, t.previousException];
    forall x | x in own && x != 0 ensures x in OwnObjects(t, entries) {
      FilledHas(own, x);
    }
    forall k, j | 0 <= k < |entries| && entries[k].Extended? && 0 <= j < |entries[k].values|
      ensures entries[k].values[j] in OwnObjects(t, entries)
    {
      InConcat(EntryParts(entries), k, entries[k].values[j]);
    }
  }
}
