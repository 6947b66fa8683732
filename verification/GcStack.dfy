/** Scanning a task's shadow stack (julia_scanning.rs, mmtk_scan_gcstack).

  A stack is a chain of frames: a count-and-flag word, the address of the previous frame, then the
  roots. When a suspended task's stack has been copied out, every address inside the stack's bounds
  is read at a displacement, through a window. */
module GcStack {
  import opened Bits
  import opened Sequences
  import opened Slots

  /** The word stored at each address. */
  type Memory = int -> Word

  /** Addresses in [lb, ub) are found `offset` bytes away. */
  datatype Window = Window(offset: int, lb: int, ub: int)

  const NO_WINDOW := Window(0, 0, WORD_VALUES - 1)

  function GetStackAddr(addr: int, w: Window): int {
    if w.lb <= addr < w.ub then addr + w.offset else addr
  }

  function ReadStack(mem: Memory, addr: int, w: Window): Word {
    mem(GetStackAddr(addr, w))
  }

  /** The address `n` words after `addr`. */
  function Shift(addr: int, n: nat): int {
    addr + 8 * n
  }

  // Frames

  function FrameHeader(mem: Memory, w: Window, frame: Word): Word {
    ReadStack(mem, frame, w)
  }

  function FramePrev(mem: Memory, w: Window, frame: Word): Word {
    ReadStack(mem, Shift(frame, 1), w)
  }

  function RootAddr(frame: Word, i: nat): int {
    Shift(Shift(frame, 2), i)
  }

  function RootWords(mem: Memory, w: Window, frame: Word): (words: seq<Word>)
    ensures |words| == FrameHeader(mem, w, frame) / 4
  {
    seq(FrameHeader(mem, w, frame) / 4, i requires 0 <= i => ReadStack(mem, RootAddr(frame, i), w))
  }

  /** `chain` lists the frames from `frame` back to the oldest one. */
  ghost predicate FrameChain(mem: Memory, w: Window, frame: Word, chain: seq<Word>)
    decreases |chain|
  {
    && chain != [] && chain[0] == frame
    && var prev := FramePrev(mem, w, frame);
    if prev == 0 then |chain| == 1 else FrameChain(mem, w, prev, chain[1..])
  }

  // Roots of a direct frame

  /** A root, and how many words of the frame it takes: an object on its own, an object tagged 1
    followed by its native function, or a malloced pointer tagged 3 followed by its native function. */
  datatype Root =
    | Plain(word: Word)
    | Tagged(word: Word, fn: Word)
    | Native(word: Word, fn: Word)
  {
    predicate Valid() {
      match this
      case Plain(word) => !Tag1(word)
      case Tagged(word, _) => Tag1(word) && !Tag2(word)
      case Native(word, _) => Tag1(word) && Tag2(word)
    }

    function Words(): (words: seq<Word>)
      ensures words != []
    {
      match this
      case Plain(word) => [word]
      case Tagged(word, fn) => [word, fn]
      case Native(word, fn) => [word, fn]
    }
  }

  ghost predicate AllValid(roots: seq<Root>) {
    forall k :: 0 <= k < |roots| ==> roots[k].Valid()
  }

  /** The words a list of roots occupies in a frame. */
  function Encode(roots: seq<Root>): seq<Word> {
    if roots == [] then [] else roots[0].Words() + Encode(roots[1..])
  }

  /** The roots a frame's words stand for. A tagged last word has no function word after it. */
  function Decode(words: seq<Word>): (roots: seq<Root>)
    decreases |words|
  {
    if words == [] then []
    else if !Tag1(words[0]) then [Plain(words[0])] + Decode(words[1..])
    else
      var fn := if |words| > 1 then words[1] else 0;
      var root := if Tag2(words[0]) then Native(words[0], fn) else Tagged(words[0], fn);
      [root] + Decode(Suffix(words, 2))
  }

  /** The slots to report for a list of roots that starts at word `at` of the frame. */
  function RootSlots(frame: Word, w: Window, roots: seq<Root>, at: nat): seq<Slot> {
    if roots == [] then []
    else
      var addr := GetStackAddr(RootAddr(frame, at), w);
      var own := match roots[0]
        case Plain(_) => [Simple(addr)]
        case Tagged(_, _) => [Offset(addr, 1)]
        case Native(_, _) => [];
      own + RootSlots(frame, w, roots[1..], at + |roots[0].Words()|)
  }

  // Slots of a frame and of a stack

  /** The targets of an indirect frame from word `i` on. */
  function TargetSlots(words: seq<Word>, w: Window): (slots: seq<Slot>)
    ensures |slots| == |words|
    ensures forall i :: 0 <= i < |words| ==> slots[i] == Simple(GetStackAddr(words[i], w))
  {
    seq(|words|, i requires 0 <= i < |words| => Simple(GetStackAddr(words[i], w)))
  }

  function FrameSlots(mem: Memory, w: Window, frame: Word): seq<Slot> {
    var words := RootWords(mem, w, frame);
    if Tag1(FrameHeader(mem, w, frame)) then TargetSlots(words, w)
    else RootSlots(frame, w, Decode(words), 0)
  }

  function StackSlots(mem: Memory, w: Window, chain: seq<Word>): seq<Slot> {
    if chain == [] then []
    else FrameSlots(mem, w, chain[0]) + StackSlots(mem, w, chain[1..])
  }

  // Tasks

  /** The parts of jl_task_t the scan reads. `copyStack` is the size field of the context's flags,
    which both of its accessors read alike (`Bitfields.CustomAccessorsAgree`). */
  datatype Task = Task(gcstack: Word, stkbuf: Word, stkbufAddr: int, copyStack: Word, ptls: Word, tid: int)

  datatype Outcome<+T> = Done(value: T) | Panic

  /** The task's stack lives in its buffer and the task is not running. */
  predicate CopiedOut(task: Task, copyStacks: bool) {
    copyStacks && task.stkbuf != 0 && task.copyStack != 0 && task.ptls == 0
  }

  function TaskWindow(task: Task, copyStacks: bool, stackbase: Word): Window {
    if CopiedOut(task, copyStacks) then
      var lb := WrapSub(stackbase, task.copyStack);
      Window(task.stkbuf - lb, lb, stackbase)
    else NO_WINDOW
  }

  /** The slot of the task's stack buffer, if it has one. A running task may still have an old buffer. */
  function BufferSlot(task: Task, copyStacks: bool): seq<Slot> {
    if copyStacks && task.stkbuf != 0 && task.copyStack != 0 then [Simple(task.stkbufAddr)] else []
  }

  /** What a scan of the task reports, apart from its exception stack. */
  function TaskSlots(task: Task, mem: Memory, copyStacks: bool, stackbase: Word, chain: seq<Word>): Outcome<seq<Slot>> {
    if CopiedOut(task, copyStacks) && task.tid < 0 then Panic
    else
      Done(BufferSlot(task, copyStacks) + StackSlots(mem, TaskWindow(task, copyStacks, stackbase), chain))
  }

  /** The frames a scan of the task walks: none for an empty stack, else a finite chain. */
  ghost predicate TaskChain(task: Task, mem: Memory, copyStacks: bool, stackbase: Word, chain: seq<Word>) {
    if task.gcstack == 0 then chain == []
    else FrameChain(mem, TaskWindow(task, copyStacks, stackbase), task.gcstack, chain)
  }

  /** mmtk_scan_gcstack. `copyStacks` is the julia_copy_stack feature and `stackbase` what
    jl_gc_get_stackbase answers for the task's thread. */
  method ScanGcStack(task: Task, mem: Memory, copyStacks: bool, stackbase: Word, ghost chain: seq<Word>)
    returns (r: Outcome<seq<Slot>>)
    requires TaskChain(task, mem, copyStacks, stackbase, chain)
    ensures r == TaskSlots(task, mem, copyStacks, stackbase, chain)
  {
    var stkbuf, copyStack := task.stkbuf, task.copyStack;
    var slots := [];
    if copyStacks && stkbuf != 0 && copyStack != 0 {
      slots := [Simple(task.stkbufAddr)];
    }
    var s := task.gcstack;
    var w := NO_WINDOW;
    if copyStacks && stkbuf != 0 && copyStack != 0 && task.ptls == 0 {
      if task.tid < 0 {
        return Panic;
      }
      var lb := WrapSub(stackbase, task.copyStack);
      w := Window(task.stkbuf - lb, lb, stackbase);
    }
    if s != 0 {
      var roots := WalkFrames(mem, w, s, chain);
      slots := slots + roots;
    }
    assert slots + [] == slots;
    r := Done(slots);
  }

  /** The loop over the frames of a non-empty stack. */
  method WalkFrames(mem: Memory, w: Window, gcstack: Word, ghost chain: seq<Word>) returns (slots: seq<Slot>)
    requires FrameChain(mem, w, gcstack, chain)
    ensures slots == StackSlots(mem, w, chain)
  {
    var s := gcstack;
    ghost var left := chain;
    slots := [];
    var nroots := ReadStack(mem, s, w);
    var nr := nroots / 4;
    while true
      invariant FrameChain(mem, w, s, left)
      invariant nroots == FrameHeader(mem, w, s) && nr == nroots / 4
      invariant slots + StackSlots(mem, w, left) == StackSlots(mem, w, chain)
      decreases |left|
    {
      var own := ScanFrame(mem, w, s, nroots, nr);
      slots := slots + own;
      var sprev := ReadStack(mem, Shift(s, 1), w);
      if sprev == 0 {
        assert left[1..] == [];
        break;
      }
      s := sprev;
      left := left[1..];
      nroots := ReadStack(mem, s, w);
      nr := nroots / 4;
    }
  }

  /** The loop over one frame's roots. */
  method ScanFrame(mem: Memory, w: Window, s: Word, nroots: Word, nr: nat) returns (slots: seq<Slot>)
    requires nroots == FrameHeader(mem, w, s) && nr == nroots / 4
    ensures slots == FrameSlots(mem, w, s)
  {
    slots := [];
    var i := 0;
    FrameStart(mem, w, s);
    ghost var left := FrameSlots(mem, w, s);
    while i < nr
      invariant left == FrameSlotsFrom(mem, w, s, i)
      invariant slots + left == FrameSlots(mem, w, s)
    {
      FrameStep(mem, w, s, i);
      if left != [] {
        MoveOne(slots, left);
      }
      if Tag1(nroots) {
        var slot := ReadStack(mem, RootAddr(s, i), w);
        var realAddr := GetStackAddr(slot, w);
        slots, left := slots + [Simple(realAddr)], left[1..];
      } else {
        var realAddr := GetStackAddr(RootAddr(s, i), w);
        var slot := ReadStack(mem, RootAddr(s, i), w);
        if Tag1(slot) && Tag2(slot) {
          i := i + 2;
          continue;
        }
        if Tag1(slot) {
          slots, left := slots + [Offset(realAddr, 1)], left[1..];
          i := i + 2;
          continue;
        }
        slots, left := slots + [Simple(realAddr)], left[1..];
      }
      i := i + 1;
    }
    FrameEnd(mem, w, s, i);
  }

  lemma MoveOne<T>(done: seq<T>, left: seq<T>)
    requires left != []
    ensures (done + [left[0]]) + left[1..] == done + left
  {
  }

  /** What is left to report when the loop stands at word `i`. */
  function FrameSlotsFrom(mem: Memory, w: Window, frame: Word, i: nat): seq<Slot> {
    var tail := Suffix(RootWords(mem, w, frame), i);
    if Tag1(FrameHeader(mem, w, frame)) then TargetSlots(tail, w) else RootSlots(frame, w, Decode(tail), i)
  }

  lemma FrameStart(mem: Memory, w: Window, frame: Word)
    ensures FrameSlotsFrom(mem, w, frame, 0) == FrameSlots(mem, w, frame)
  {
    var words := RootWords(mem, w, frame);
    assert Suffix(words, 0) == words;
  }

  lemma FrameEnd(mem: Memory, w: Window, frame: Word, i: nat)
    requires i >= |RootWords(mem, w, frame)|
    ensures FrameSlotsFrom(mem, w, frame, i) == []
  {
  }

  lemma FrameStep(mem: Memory, w: Window, frame: Word, i: nat)
    requires i < |RootWords(mem, w, frame)|
    ensures var word := ReadStack(mem, RootAddr(frame, i), w);
            var addr := GetStackAddr(RootAddr(frame, i), w);
            FrameSlotsFrom(mem, w, frame, i) ==
            if Tag1(FrameHeader(mem, w, frame)) then
              [Simple(GetStackAddr(word, w))] + FrameSlotsFrom(mem, w, frame, i + 1)
            else if Tag1(word) && Tag2(word) then FrameSlotsFrom(mem, w, frame, i + 2)
            else if Tag1(word) then [Offset(addr, 1)] + FrameSlotsFrom(mem, w, frame, i + 2)
            else [Simple(addr)] + FrameSlotsFrom(mem, w, frame, i + 1)
  {
    var words := RootWords(mem, w, frame);
    assert words[i] == ReadStack(mem, RootAddr(frame, i), w);
    if Tag1(FrameHeader(mem, w, frame)) {
      IndirectStep(words, w, i);
    } else {
      DirectStep(frame, w, words, i);
    }
  }

  lemma IndirectStep(words: seq<Word>, w: Window, i: nat)
    requires i < |words|
    ensures TargetSlots(Suffix(words, i), w)
            == [Simple(GetStackAddr(words[i], w))] + TargetSlots(Suffix(words, i + 1), w)
  {
  }

  lemma DirectStep(frame: Word, w: Window, words: seq<Word>, i: nat)
    requires i < |words|
    ensures var addr, next := GetStackAddr(RootAddr(frame, i), w), if Tag1(words[i]) then i + 2 else i + 1;
            RootSlots(frame, w, Decode(Suffix(words, i)), i) ==
            (if !Tag1(words[i]) then [Simple(addr)] else if Tag2(words[i]) then [] else [Offset(addr, 1)])
            + RootSlots(frame, w, Decode(Suffix(words, next)), next)
  {
    DecodeStep(words, i);
  }

  lemma DecodeStep(words: seq<Word>, i: nat)
    requires i < |words|
    ensures var roots := Decode(Suffix(words, i));
            && roots != [] && roots[0].word == words[i]
            && roots[1..] == Decode(Suffix(words, if Tag1(words[i]) then i + 2 else i + 1))
            && roots[0].Valid()
  {
    var tail := Suffix(words, i);
    assert tail[1..] == Suffix(words, i + 1);
    assert Suffix(tail, 2) == Suffix(words, i + 2);
  }

  // Reading roots is unambiguous

  /** Whatever roots were pushed, reading their words gives them back. */
  lemma {:induction false} DecodeInvertsEncode(roots: seq<Root>)
    requires AllValid(roots)
    ensures Decode(Encode(roots)) == roots
  {
    if roots != [] {
      var words := Encode(roots);
      DecodeInvertsEncode(roots[1..]);
      assert words[|roots[0].Words()|..] == Encode(roots[1..]);
      assert roots[0].Valid();
      if !roots[0].Plain? {
        assert Suffix(words, 2) == Encode(roots[1..]);
        assert words[1] == roots[0].fn;
      }
    }
  }

  /** Every frame reads as valid roots whose words are the frame's, up to one missing function word. */
  lemma {:induction false} EncodeInvertsDecode(words: seq<Word>)
    ensures AllValid(Decode(words))
    ensures words <= Encode(Decode(words)) && |Encode(Decode(words))| <= |words| + 1
    decreases |words|
  {
    if words != [] {
      var roots := Decode(words);
      if !Tag1(words[0]) {
        EncodeInvertsDecode(words[1..]);
        assert roots[1..] == Decode(words[1..]);
        assert Encode(roots) == [words[0]] + Encode(roots[1..]);
      } else {
        EncodeInvertsDecode(Suffix(words, 2));
        assert roots[1..] == Decode(Suffix(words, 2));
        assert Encode(roots) == roots[0].Words() + Encode(roots[1..]);
        assert |words| > 1 ==> words == [words[0], words[1]] + Suffix(words, 2);
      }
    }
  }

  /** The word at which root `k` of a list starts. */
  function Position(roots: seq<Root>, k: nat): nat
    requires k <= |roots|
  {
    if k == 0 then 0 else |roots[0].Words()| + Position(roots[1..], k - 1)
  }

  /** Number of roots that hold a managed object. */
  function Managed(roots: seq<Root>): nat {
    if roots == [] then 0 else (if roots[0].Native? then 0 else 1) + Managed(roots[1..])
  }

  /** Nothing but the managed roots is reported. */
  lemma {:induction false} ReportCount(frame: Word, w: Window, roots: seq<Root>, at: nat)
    ensures |RootSlots(frame, w, roots, at)| == Managed(roots)
    decreases |roots|
  {
    if roots != [] {
      ReportCount(frame, w, roots[1..], at + |roots[0].Words()|);
    }
  }

  /** Every managed root is reported, in order, as a slot on its own first word. */
  lemma {:induction false} RootReported(frame: Word, w: Window, roots: seq<Root>, at: nat, k: nat)
    requires k < |roots| && !roots[k].Native?
    ensures Managed(roots[..k]) < |RootSlots(frame, w, roots, at)|
    ensures var addr := GetStackAddr(RootAddr(frame, at + Position(roots, k)), w);
            RootSlots(frame, w, roots, at)[Managed(roots[..k])]
            == if roots[k].Plain? then Simple(addr) else Offset(addr, 1)
    decreases k
  {
    if k > 0 {
      assert roots[..k][1..] == roots[1..][..k - 1];
      RootReported(frame, w, roots[1..], at + |roots[0].Words()|, k - 1);
    }
  }

  /** A direct frame whose words were laid out from `roots` reports exactly those roots' slots. */
  lemma FrameExact(mem: Memory, w: Window, frame: Word, roots: seq<Root>)
    requires AllValid(roots) && RootWords(mem, w, frame) == Encode(roots) && !Tag1(FrameHeader(mem, w, frame))
    ensures FrameSlots(mem, w, frame) == RootSlots(frame, w, roots, 0)
  {
    DecodeInvertsEncode(roots);
  }

  /** An indirect frame reports nroots >> 2 slots, whatever its words are: slot `i` is where the window
    sends the address that word `i` holds. */
  lemma IndirectFrameExact(mem: Memory, w: Window, frame: Word, i: nat)
    requires Tag1(FrameHeader(mem, w, frame)) && i < FrameHeader(mem, w, frame) / 4
    ensures |FrameSlots(mem, w, frame)| == FrameHeader(mem, w, frame) / 4
    ensures FrameSlots(mem, w, frame)[i] == Simple(GetStackAddr(ReadStack(mem, RootAddr(frame, i), w), w))
  {
    assert RootWords(mem, w, frame)[i] == ReadStack(mem, RootAddr(frame, i), w);
  }

  // Simulation: the walk of a copied stack is the relocated walk of the original

  predicate InStack(w: Window, addr: int) {
    w.lb <= addr < w.ub
  }

  predicate InBuffer(w: Window, addr: int) {
    w.lb + w.offset <= addr < w.ub + w.offset
  }

  /** Reading at `addr` through the window finds what was there before the copy. */
  ghost predicate SameAt(original: Memory, copied: Memory, w: Window, addr: int) {
    copied(GetStackAddr(addr, w)) == original(addr)
  }

  /** The words a walk reads of one frame are kept. */
  ghost predicate FrameKept(original: Memory, copied: Memory, w: Window, frame: Word) {
    && SameAt(original, copied, w, frame) && SameAt(original, copied, w, Shift(frame, 1))
    && forall i :: 0 <= i < FrameHeader(original, NO_WINDOW, frame) / 4 ==>
                     SameAt(original, copied, w, RootAddr(frame, i))
  }

  /** The copy keeps the words a walk of the chain reads. Nothing is said of any other word: the task's
    own fields, the heap and the stack's old addresses may all have changed. */
  ghost predicate StackKept(original: Memory, copied: Memory, w: Window, chain: seq<Word>) {
    forall k :: 0 <= k < |chain| ==> FrameKept(original, copied, w, chain[k])
  }

  // When the words are kept

  /** The buffer holds what the stack held. */
  ghost predicate HoldsStack(original: Memory, copied: Memory, w: Window) {
    forall a :: InStack(w, a) ==> copied(a + w.offset) == original(a)
  }

  /** And everything outside the two reads the same. */
  ghost predicate HoldsCopy(original: Memory, copied: Memory, w: Window) {
    && HoldsStack(original, copied, w)
    && forall a :: !InStack(w, a) && !InBuffer(w, a) ==> copied(a) == original(a)
  }

  function CopyOut(original: Memory, w: Window): Memory {
    (a: int) => if InBuffer(w, a) then original(a - w.offset) else original(a)
  }

  /** Copying the stack of any memory into its buffer gives such a copy. */
  lemma CopyOutHolds(original: Memory, w: Window)
    ensures HoldsCopy(original, CopyOut(original, w), w)
  {
    forall a | InStack(w, a) ensures CopyOut(original, w)(a + w.offset) == original(a) {
      var b := a + w.offset;
      assert InBuffer(w, b);
      assert CopyOut(original, w)(b) == original(b - w.offset);
      assert b - w.offset == a;
    }
  }

  /** One more word is written after the copy: the runtime notes the buffer's address in the task. */
  function Noted(mem: Memory, addr: int, word: Word): Memory {
    (a: int) => if a == addr then word else mem(a)
  }

  /** A copy-out as the runtime does it holds the stack, whatever the two places held before. */
  lemma NotedCopyHoldsStack(original: Memory, w: Window, addr: int, word: Word)
    requires !InBuffer(w, addr)
    ensures HoldsStack(original, Noted(CopyOut(original, w), addr, word), w)
    ensures Noted(CopyOut(original, w), addr, word)(addr) == word
  {
    CopyOutHolds(original, w);
  }

  /** The frame lies in the stack. */
  ghost predicate FrameInStack(original: Memory, w: Window, frame: Word) {
    w.lb <= frame && RootAddr(frame, FrameHeader(original, NO_WINDOW, frame) / 4) <= w.ub
  }

  /** Frames that lie in the stack, as those of a task with a shared stack do, are kept by any copy of the
    stack, whatever else has changed. */
  lemma StackFramesKept(original: Memory, copied: Memory, w: Window, chain: seq<Word>)
    requires HoldsStack(original, copied, w)
    requires forall k :: 0 <= k < |chain| ==> FrameInStack(original, w, chain[k])
    ensures StackKept(original, copied, w, chain)
  {
    forall k | 0 <= k < |chain| ensures FrameKept(original, copied, w, chain[k]) {
      var frame := chain[k];
      assert FrameInStack(original, w, frame);
      assert InStack(w, frame) && InStack(w, Shift(frame, 1));
      forall i | 0 <= i < FrameHeader(original, NO_WINDOW, frame) / 4
        ensures SameAt(original, copied, w, RootAddr(frame, i))
      {
        assert InStack(w, RootAddr(frame, i));
      }
    }
  }

  /** In the stack, or outside the buffer. */
  predicate Readable(w: Window, addr: int) {
    InStack(w, addr) || !InBuffer(w, addr)
  }

  /** Anywhere but in the buffer, a copy that changes nothing else keeps the word as well. */
  lemma ReadableKept(original: Memory, copied: Memory, w: Window, addr: int)
    requires HoldsCopy(original, copied, w) && Readable(w, addr)
    ensures SameAt(original, copied, w, addr)
  {
  }

  ghost predicate FrameReadable(original: Memory, w: Window, frame: Word) {
    && Readable(w, frame) && Readable(w, Shift(frame, 1))
    && forall i :: 0 <= i < FrameHeader(original, NO_WINDOW, frame) / 4 ==> Readable(w, RootAddr(frame, i))
  }

  /** So frames anywhere but in the buffer are kept by a copy that changes nothing else. */
  lemma ReadableFramesKept(original: Memory, copied: Memory, w: Window, chain: seq<Word>)
    requires HoldsCopy(original, copied, w)
    requires forall k :: 0 <= k < |chain| ==> FrameReadable(original, w, chain[k])
    ensures StackKept(original, copied, w, chain)
  {
    forall k | 0 <= k < |chain| ensures FrameKept(original, copied, w, chain[k]) {
      var frame := chain[k];
      assert FrameReadable(original, w, frame);
      ReadableKept(original, copied, w, frame);
      ReadableKept(original, copied, w, Shift(frame, 1));
      forall i | 0 <= i < FrameHeader(original, NO_WINDOW, frame) / 4
        ensures SameAt(original, copied, w, RootAddr(frame, i))
      {
        ReadableKept(original, copied, w, RootAddr(frame, i));
      }
    }
  }

  /** Nothing weaker would do for such a copy: at any other address some memory reads differently. */
  lemma ReadableExactly(w: Window, addr: int)
    ensures Readable(w, addr) <==> forall original: Memory :: SameAt(original, CopyOut(original, w), w, addr)
  {
    if Readable(w, addr) {
      forall original: Memory ensures SameAt(original, CopyOut(original, w), w, addr) {
        CopyOutHolds(original, w);
        ReadableKept(original, CopyOut(original, w), w, addr);
      }
    } else {
      var original: Memory := (a: int) => if a == addr then 1 else 0;
      assert CopyOut(original, w)(addr) == original(addr - w.offset) == 0;
      assert !SameAt(original, CopyOut(original, w), w, addr);
    }
  }

  // The walks agree

  function Relocated(slot: Slot, w: Window): Slot {
    slot.(addr := GetStackAddr(slot.addr, w))
  }

  function RelocateAll(slots: seq<Slot>, w: Window): (moved: seq<Slot>)
    ensures |moved| == |slots|
    ensures forall i :: 0 <= i < |slots| ==> moved[i] == Relocated(slots[i], w)
  {
    seq(|slots|, i requires 0 <= i < |slots| => Relocated(slots[i], w))
  }

  lemma RelocateConcat(a: seq<Slot>, b: seq<Slot>, w: Window)
    ensures RelocateAll(a + b, w) == RelocateAll(a, w) + RelocateAll(b, w)
  {
  }

  lemma NoWindowIsIdentity(addr: int)
    ensures GetStackAddr(addr, NO_WINDOW) == addr
  {
  }

  lemma SameReading(original: Memory, copied: Memory, w: Window, addr: int)
    requires SameAt(original, copied, w, addr)
    ensures ReadStack(copied, addr, w) == original(addr) == ReadStack(original, addr, NO_WINDOW)
  {
    NoWindowIsIdentity(addr);
  }

  lemma {:induction false} SameRootSlots(w: Window, frame: Word, roots: seq<Root>, at: nat)
    ensures RootSlots(frame, w, roots, at) == RelocateAll(RootSlots(frame, NO_WINDOW, roots, at), w)
    decreases |roots|
  {
    if roots != [] {
      var addr := RootAddr(frame, at);
      NoWindowIsIdentity(addr);
      SameRootSlots(w, frame, roots[1..], at + |roots[0].Words()|);
    }
  }

  lemma SameFrameSlots(original: Memory, copied: Memory, w: Window, frame: Word)
    requires FrameKept(original, copied, w, frame)
    ensures FrameSlots(copied, w, frame) == RelocateAll(FrameSlots(original, NO_WINDOW, frame), w)
  {
    SameReading(original, copied, w, frame);
    var words, words' := RootWords(original, NO_WINDOW, frame), RootWords(copied, w, frame);
    forall i | 0 <= i < |words| ensures words'[i] == words[i] {
      SameReading(original, copied, w, RootAddr(frame, i));
    }
    assert words' == words;
    if Tag1(FrameHeader(copied, w, frame)) {
      forall i | 0 <= i < |words| ensures TargetSlots(words, w)[i] == Relocated(TargetSlots(words, NO_WINDOW)[i], w) {
        NoWindowIsIdentity(words[i]);
      }
    } else {
      SameRootSlots(w, frame, Decode(words), 0);
    }
  }

  /** The same frames are walked. */
  lemma {:induction false} SameChain(original: Memory, copied: Memory, w: Window, frame: Word, chain: seq<Word>)
    requires StackKept(original, copied, w, chain)
    ensures FrameChain(copied, w, frame, chain) <==> FrameChain(original, NO_WINDOW, frame, chain)
    decreases |chain|
  {
    if chain != [] && chain[0] == frame {
      assert FrameKept(original, copied, w, chain[0]);
      SameReading(original, copied, w, Shift(frame, 1));
      SameChain(original, copied, w, FramePrev(original, NO_WINDOW, frame), chain[1..]);
    }
  }

  /** Scanning a copied stack through its window reports, in order and kind for kind, the relocated
    slots of a scan of the original stack. */
  lemma {:induction false} CopiedStackSimulation(original: Memory, copied: Memory, w: Window, chain: seq<Word>)
    requires StackKept(original, copied, w, chain)
    ensures StackSlots(copied, w, chain) == RelocateAll(StackSlots(original, NO_WINDOW, chain), w)
  {
    if chain != [] {
      assert FrameKept(original, copied, w, chain[0]);
      SameFrameSlots(original, copied, w, chain[0]);
      CopiedStackSimulation(original, copied, w, chain[1..]);
      RelocateConcat(FrameSlots(original, NO_WINDOW, chain[0]), StackSlots(original, NO_WINDOW, chain[1..]), w);
    }
  }

  /** The whole task, before and after its stack was copied out: the chain is the same, the new buffer's
    slot is reported first, and the rest is the relocation of the stack's slots before. Before the copy the
    task had no buffer, was running, or both. */
  lemma CopiedTaskSimulation(task: Task, running: Task, original: Memory, copied: Memory, stackbase: Word,
                             chain: seq<Word>)
    requires CopiedOut(task, true) && task.tid >= 0
    requires running.gcstack == task.gcstack && !CopiedOut(running, true)
    requires StackKept(original, copied, TaskWindow(task, true, stackbase), chain)
    ensures TaskChain(task, copied, true, stackbase, chain) <==> TaskChain(running, original, true, stackbase, chain)
    ensures TaskSlots(running, original, true, stackbase, chain)
            == Done(BufferSlot(running, true) + StackSlots(original, NO_WINDOW, chain))
    ensures TaskSlots(task, copied, true, stackbase, chain)
            == Done([Simple(task.stkbufAddr)]
                    + RelocateAll(StackSlots(original, NO_WINDOW, chain), TaskWindow(task, true, stackbase)))
  {
    var w := TaskWindow(task, true, stackbase);
    if task.gcstack != 0 {
      SameChain(original, copied, w, task.gcstack, chain);
    }
    CopiedStackSimulation(original, copied, w, chain);
  }

  /** The window sends the stack's range [stackbase - size, stackbase) onto [stkbuf, stkbuf + size). */
  lemma WindowIsBuffer(task: Task, stackbase: Word, addr: int)
    requires CopiedOut(task, true)
    requires task.copyStack <= stackbase && task.stkbuf + task.copyStack < WORD_VALUES
    ensures var size, w := task.copyStack, TaskWindow(task, true, stackbase);
            GetStackAddr(addr, w) ==
            if stackbase - size <= addr < stackbase then task.stkbuf + (addr - (stackbase - size)) else addr
  {
  }
}
