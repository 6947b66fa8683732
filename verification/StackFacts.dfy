/** What a scan of a shadow stack reports, frame by frame and root by root. */
module StackFacts {
  import opened Bits
  import opened Slots
  import opened GcStack
  import opened Sequences

  // Frames

  /** What each frame of the chain reports. */
  function FrameParts(mem: Memory, w: Window, chain: seq<Word>): (parts: seq<seq<Slot>>)
    ensures |parts| == |chain|
  {
    if chain == [] then [] else [FrameSlots(mem, w, chain[0])] + FrameParts(mem, w, chain[1..])
  }

  /** The stack's slots are those of all its frames, one after the other, the oldest included. */
  lemma {:induction false} StackIsFrames(mem: Memory, w: Window, chain: seq<Word>)
    ensures StackSlots(mem, w, chain) == Concat(FrameParts(mem, w, chain))
    decreases |chain|
  {
    if chain != [] {
      StackIsFrames(mem, w, chain[1..]);
      assert FrameParts(mem, w, chain)[1..] == FrameParts(mem, w, chain[1..]);
    }
  }

  /** The number of slots that the first `k` frames of the chain report. */
  function SlotsBefore(mem: Memory, w: Window, chain: seq<Word>, k: nat): nat
    requires k <= |chain|
  {
    LengthBefore(FrameParts(mem, w, chain), k)
  }

  lemma StackLength(mem: Memory, w: Window, chain: seq<Word>)
    ensures |StackSlots(mem, w, chain)| == SlotsBefore(mem, w, chain, |chain|)
  {
    StackIsFrames(mem, w, chain);
    ConcatLength(FrameParts(mem, w, chain));
  }

  lemma {:induction false} FramePart(mem: Memory, w: Window, chain: seq<Word>, k: nat)
    requires k < |chain|
    ensures FrameParts(mem, w, chain)[k] == FrameSlots(mem, w, chain[k])
    decreases k
  {
    if k > 0 {
      FramePart(mem, w, chain[1..], k - 1);
    }
  }

  lemma PartSlotAt(mem: Memory, w: Window, chain: seq<Word>, k: nat, j: nat)
    requires k < |chain| && j < |FrameParts(mem, w, chain)[k]|
    ensures SlotsBefore(mem, w, chain, k) + j < |StackSlots(mem, w, chain)|
    ensures StackSlots(mem, w, chain)[SlotsBefore(mem, w, chain, k) + j] == FrameParts(mem, w, chain)[k][j]
  {
    StackIsFrames(mem, w, chain);
    ConcatAt(FrameParts(mem, w, chain), k, j);
  }

  /** The slots of frame `k` come in order right after those of the frames before. */
  lemma StackSlotAt(mem: Memory, w: Window, chain: seq<Word>, k: nat, j: nat)
    requires k < |chain| && j < |FrameSlots(mem, w, chain[k])|
    ensures SlotsBefore(mem, w, chain, k) + j < |StackSlots(mem, w, chain)|
    ensures StackSlots(mem, w, chain)[SlotsBefore(mem, w, chain, k) + j] == FrameSlots(mem, w, chain[k])[j]
  {
    FramePart(mem, w, chain, k);
    PartSlotAt(mem, w, chain, k, j);
  }

  // Roots

  /** A frame: the count of its roots shifted left by two, with the flag of indirect frames in bit 0; the
    address of the frame before, or zero; the roots. */
  lemma FrameWords(mem: Memory, w: Window, frame: Word, i: nat)
    ensures var header := mem(GetStackAddr(frame as int, w));
            && FrameHeader(mem, w, frame) == header && |RootWords(mem, w, frame)| == header / 4
            && (i < header / 4 ==> RootWords(mem, w, frame)[i] == mem(GetStackAddr(frame + 16 + 8 * i, w)))
    ensures FramePrev(mem, w, frame) == mem(GetStackAddr(frame + 8, w))
  {
  }

  /** The words of a frame were laid out from these roots, if need be without the function word of a tagged
    root at the very end. */
  ghost predicate LaidOut(words: seq<Word>, roots: seq<Root>) {
    && AllValid(roots)
    && (words == Encode(roots)
        || (roots != [] && !roots[|roots| - 1].Plain? && words + [roots[|roots| - 1].fn] == Encode(roots)))
  }

  lemma EncodeHead(roots: seq<Root>)
    requires roots != []
    ensures Encode(roots)[0] == roots[0].word && Encode(roots)[|roots[0].Words()|..] == Encode(roots[1..])
  {
  }

  lemma {:induction false} DecodedSlots(frame: Word, w: Window, words: seq<Word>, roots: seq<Root>, at: nat)
    requires LaidOut(words, roots)
    ensures RootSlots(frame, w, Decode(words), at) == RootSlots(frame, w, roots, at)
    decreases |roots|
  {
    if words == Encode(roots) {
      DecodeInvertsEncode(roots);
    } else {
      CutSlots(frame, w, words, roots, at);
    }
  }

  lemma {:induction false} CutSlots(frame: Word, w: Window, words: seq<Word>, roots: seq<Root>, at: nat)
    requires AllValid(roots) && roots != [] && !roots[|roots| - 1].Plain?
    requires words + [roots[|roots| - 1].fn] == Encode(roots)
    ensures RootSlots(frame, w, Decode(words), at) == RootSlots(frame, w, roots, at)
    decreases |roots|
  {
    if |roots| == 1 {
      CutLast(frame, w, words, roots[0], at);
      assert roots == [roots[0]];
    } else {
      var size := |roots[0].Words()|;
      CutHead(words, roots);
      CutSlots(frame, w, words[size..], roots[1..], at + size);
      HeadRoot(words, roots[0]);
      assert Suffix(words, size) == words[size..];
      SameHead(frame, w, Decode(words), roots, at);
    }
  }

  lemma SameHead(frame: Word, w: Window, read: seq<Root>, roots: seq<Root>, at: nat)
    requires read != [] && roots != [] && |read[0].Words()| == |roots[0].Words()|
    requires (read[0].Plain? <==> roots[0].Plain?) && (read[0].Native? <==> roots[0].Native?)
    requires var next := at + |roots[0].Words()|;
             RootSlots(frame, w, read[1..], next) == RootSlots(frame, w, roots[1..], next)
    ensures RootSlots(frame, w, read, at) == RootSlots(frame, w, roots, at)
  {
  }

  lemma CutLast(frame: Word, w: Window, words: seq<Word>, root: Root, at: nat)
    requires root.Valid() && !root.Plain? && words + [root.fn] == Encode([root])
    ensures RootSlots(frame, w, Decode(words), at) == RootSlots(frame, w, [root], at)
  {
    assert [root][1..] == [];
    assert Encode([root]) == root.Words() + Encode([]) == [root.word, root.fn];
    assert words == [root.word];
    HeadRoot(words, root);
    assert Decode(words)[1..] == [];
  }

  /** The first root read is the one that was laid out, up to the function word, and the rest is read on. */
  lemma HeadRoot(words: seq<Word>, root: Root)
    requires words != [] && words[0] == root.word && root.Valid()
    ensures var read := Decode(words);
            && read != [] && read[0].word == root.word && |read[0].Words()| == |root.Words()|
            && (read[0].Plain? <==> root.Plain?) && (read[0].Native? <==> root.Native?)
            && read[1..] == Decode(Suffix(words, |root.Words()|))
  {
    DecodeStep(words, 0);
    assert Suffix(words, 0) == words;
  }

  lemma CutHead(words: seq<Word>, roots: seq<Root>)
    requires |roots| > 1 && AllValid(roots) && !roots[|roots| - 1].Plain?
    requires words + [roots[|roots| - 1].fn] == Encode(roots)
    ensures var size := |roots[0].Words()|;
            && size < |words| && words[0] == roots[0].word
            && words[size..] + [roots[|roots| - 1].fn] == Encode(roots[1..])
    ensures AllValid(roots[1..]) && roots[1..][|roots[1..]| - 1] == roots[|roots| - 1]
  {
    var size, fn, rest := |roots[0].Words()|, roots[|roots| - 1].fn, roots[1..];
    EncodeHead(roots);
    EncodeLong(rest);
    assert (words + [fn])[size..] == words[size..] + [fn];
    assert (words + [fn])[0] == words[0];
  }

  lemma {:induction false} EncodeLong(roots: seq<Root>)
    requires roots != [] && !roots[|roots| - 1].Plain?
    ensures |Encode(roots)| >= 2
  {
    if |roots| > 1 {
      EncodeLong(roots[1..]);
    }
  }

  /** A direct frame reports the slots of the roots laid out in it. */
  lemma FrameLaidOut(mem: Memory, w: Window, frame: Word, roots: seq<Root>)
    requires !Tag1(FrameHeader(mem, w, frame)) && LaidOut(RootWords(mem, w, frame), roots)
    ensures FrameSlots(mem, w, frame) == RootSlots(frame, w, roots, 0)
  {
    DecodedSlots(frame, w, RootWords(mem, w, frame), roots, 0);
  }

  /** The slot of a managed root. */
  function SlotOf(root: Root, addr: int): Slot
    requires !root.Native?
  {
    if root.Plain? then Simple(addr) else Offset(addr, 1)
  }

  lemma PartLaidOut(mem: Memory, w: Window, chain: seq<Word>, k: nat, roots: seq<Root>)
    requires k < |chain| && !Tag1(FrameHeader(mem, w, chain[k])) && LaidOut(RootWords(mem, w, chain[k]), roots)
    ensures FrameParts(mem, w, chain)[k] == RootSlots(chain[k], w, roots, 0)
  {
    FramePart(mem, w, chain, k);
    FrameLaidOut(mem, w, chain[k], roots);
  }

  lemma RootSlotAt(frame: Word, w: Window, roots: seq<Root>, r: nat)
    requires r < |roots| && !roots[r].Native?
    ensures var part, i := RootSlots(frame, w, roots, 0), Managed(roots[..r]);
            i < |part| && part[i] == SlotOf(roots[r], GetStackAddr(frame + 16 + 8 * Position(roots, r), w))
  {
    RootReported(frame, w, roots, 0, r);
    assert RootAddr(frame, 0 + Position(roots, r)) == frame + 16 + 8 * Position(roots, r);
  }

  /** Every managed root of every direct frame in the chain is reported, oldest frame included: root `r` of
    frame `k` has a slot at the address of its own first word, plain or with offset 1 by its tag, in the
    place that the frames and roots before it leave. */
  lemma EveryRootReported(mem: Memory, w: Window, chain: seq<Word>, k: nat, roots: seq<Root>, r: nat)
    requires k < |chain| && r < |roots| && !roots[r].Native? && !Tag1(FrameHeader(mem, w, chain[k]))
    requires LaidOut(RootWords(mem, w, chain[k]), roots)
    ensures var at, slots := SlotsBefore(mem, w, chain, k) + Managed(roots[..r]), StackSlots(mem, w, chain);
            && at < |slots|
            && slots[at] == SlotOf(roots[r], GetStackAddr(chain[k] + 16 + 8 * Position(roots, r), w))
  {
    PartLaidOut(mem, w, chain, k, roots);
    RootSlotAt(chain[k], w, roots, r);
    PartSlotAt(mem, w, chain, k, Managed(roots[..r]));
  }

  lemma PartTarget(mem: Memory, w: Window, chain: seq<Word>, k: nat, i: nat)
    requires k < |chain| && Tag1(FrameHeader(mem, w, chain[k])) && i < FrameHeader(mem, w, chain[k]) / 4
    ensures var part := FrameParts(mem, w, chain)[k];
            i < |part| && part[i] == Simple(GetStackAddr(mem(GetStackAddr(chain[k] + 16 + 8 * i, w)), w))
  {
    FramePart(mem, w, chain, k);
    IndirectFrameExact(mem, w, chain[k], i);
    assert RootAddr(chain[k], i) == chain[k] + 16 + 8 * i;
  }

  /** Every target of every indirect frame in the chain is reported. */
  lemma EveryTargetReported(mem: Memory, w: Window, chain: seq<Word>, k: nat, i: nat)
    requires k < |chain| && Tag1(FrameHeader(mem, w, chain[k])) && i < FrameHeader(mem, w, chain[k]) / 4
    ensures var at, slots := SlotsBefore(mem, w, chain, k) + i, StackSlots(mem, w, chain);
            at < |slots| && slots[at] == Simple(GetStackAddr(mem(GetStackAddr(chain[k] + 16 + 8 * i, w)), w))
  {
    PartTarget(mem, w, chain, k, i);
    PartSlotAt(mem, w, chain, k, i);
  }

  // Frames word by word

  /** Reading from word `at`, a root starts at word `i`: an odd word takes the word after it along. */
  predicate RootStarts(words: seq<Word>, at: nat, i: nat)
    decreases |words| - at
  {
    i == at || (at < i && at < |words| && RootStarts(words, if words[at] % 2 == 1 then at + 2 else at + 1, i))
  }

  /** What the word at which a root starts is reported as: an even word as it is, one ending in binary 01 with
    offset 1, one ending in 11 not at all. */
  predicate ReportedAs(slot: Slot, word: Word, addr: int) {
    word % 4 != 3 && slot == if word % 2 == 0 then Simple(addr) else Offset(addr, 1)
  }

  ghost predicate ReportedFrom(frame: Word, w: Window, words: seq<Word>, at: nat, slot: Slot) {
    exists i :: at <= i < |words| && RootStarts(words, at, i)
                && ReportedAs(slot, words[i], GetStackAddr(RootAddr(frame, i), w))
  }

  lemma TagThree(word: Word)
    ensures Tag1(word) && Tag2(word) <==> word % 4 == 3
    ensures word % 4 == 3 ==> word % 2 == 1
  {
    var q, r := word / 4, word % 4;
    DivModUnique(word, 2, 2 * q + r / 2, r % 2);
  }

  lemma ReportedStep(frame: Word, w: Window, words: seq<Word>, at: nat, slot: Slot)
    requires at < |words|
    ensures var next := if words[at] % 2 == 1 then at + 2 else at + 1;
            ReportedFrom(frame, w, words, at, slot)
            <==> ReportedAs(slot, words[at], GetStackAddr(RootAddr(frame, at), w))
                 || ReportedFrom(frame, w, words, next, slot)
  {
    var next := if words[at] % 2 == 1 then at + 2 else at + 1;
    assert RootStarts(words, at, at);
    if ReportedFrom(frame, w, words, next, slot) {
      var i :| next <= i < |words| && RootStarts(words, next, i)
               && ReportedAs(slot, words[i], GetStackAddr(RootAddr(frame, i), w));
      assert RootStarts(words, at, i);
    }
    if ReportedFrom(frame, w, words, at, slot) {
      var i :| at <= i < |words| && RootStarts(words, at, i)
               && ReportedAs(slot, words[i], GetStackAddr(RootAddr(frame, i), w));
      if i != at {
        StartsLater(words, at, i);
      }
    }
  }

  lemma StartsLater(words: seq<Word>, at: nat, i: nat)
    requires at < |words| && RootStarts(words, at, i) && i != at
    ensures var next := if words[at] % 2 == 1 then at + 2 else at + 1;
            next <= i && RootStarts(words, next, i)
  {
    var next := if words[at] % 2 == 1 then at + 2 else at + 1;
    StartsNotBefore(words, next, i);
  }

  lemma {:induction false} StartsNotBefore(words: seq<Word>, at: nat, i: nat)
    requires RootStarts(words, at, i)
    ensures at <= i
  {
  }

  lemma {:induction false} SlotsFrom(frame: Word, w: Window, words: seq<Word>, at: nat, slot: Slot)
    ensures slot in RootSlots(frame, w, Decode(Suffix(words, at)), at) <==> ReportedFrom(frame, w, words, at, slot)
    decreases |words| - at
  {
    if at < |words| {
      var next := if words[at] % 2 == 1 then at + 2 else at + 1;
      SlotsFrom(frame, w, words, next, slot);
      ReportedStep(frame, w, words, at, slot);
      DirectStep(frame, w, words, at);
      TagThree(words[at]);
    } else {
      assert Suffix(words, at) == [];
    }
  }

  /** A direct frame reports a slot exactly when a root starts at its word and is not a malloced pointer. */
  lemma FrameWordByWord(mem: Memory, w: Window, frame: Word, slot: Slot)
    requires !Tag1(FrameHeader(mem, w, frame))
    ensures slot in FrameSlots(mem, w, frame) <==> ReportedFrom(frame, w, RootWords(mem, w, frame), 0, slot)
  {
    var words := RootWords(mem, w, frame);
    SlotsFrom(frame, w, words, 0, slot);
    assert Suffix(words, 0) == words;
  }

  /** The smallest stack: one frame with one plain root. The root is reported. */
  lemma SingleFrame(mem: Memory, frame: Word, chain: seq<Word>)
    requires FrameChain(mem, NO_WINDOW, frame, chain)
    requires mem(frame as int) == 4 && mem(frame + 8) == 0 && !Tag1(mem(frame + 16))
    ensures chain == [frame] && StackSlots(mem, NO_WINDOW, chain) == [Simple(frame + 16)]
  {
    NoWindowIsIdentity(frame);
    NoWindowIsIdentity(Shift(frame, 1));
    assert chain == [frame] + chain[1..];
    OneRoot(mem, frame);
    FramePart(mem, NO_WINDOW, chain, 0);
    StackIsFrames(mem, NO_WINDOW, chain);
    OnePart(FrameParts(mem, NO_WINDOW, chain));
  }

  lemma OnePart(parts: seq<seq<Slot>>)
    requires |parts| == 1
    ensures Concat(parts) == parts[0]
  {
    assert parts[1..] == [] && parts[0] + [] == parts[0];
  }

  lemma OneRoot(mem: Memory, frame: Word)
    requires mem(frame) == 4 && !Tag1(mem(RootAddr(frame, 0)))
    ensures FrameSlots(mem, NO_WINDOW, frame) == [Simple(RootAddr(frame, 0))]
  {
    var word := mem(RootAddr(frame, 0));
    NoWindowIsIdentity(frame);
    NoWindowIsIdentity(RootAddr(frame, 0));
    assert RootWords(mem, NO_WINDOW, frame) == [word];
    assert [Plain(word)][1..] == [] && Encode([Plain(word)]) == [word] + Encode([]) == [word];
    FrameLaidOut(mem, NO_WINDOW, frame, [Plain(word)]);
    assert RootSlots(frame, NO_WINDOW, [Plain(word)], 0)
           == [Simple(RootAddr(frame, 0))] + RootSlots(frame, NO_WINDOW, [], 1);
  }

  // Tasks

  /** The address where a word of the task's stack is found: in the buffer if the stack has been copied out
    and the task does not run, in place otherwise. */
  function FoundAt(task: Task, copyStacks: bool, stackbase: Word, addr: Word): int {
    if copyStacks && task.stkbuf != 0 && task.copyStack != 0 && task.ptls == 0
       && stackbase - task.copyStack <= addr < stackbase
    then task.stkbuf + (addr - (stackbase - task.copyStack))
    else addr
  }

  lemma WindowFinds(task: Task, copyStacks: bool, stackbase: Word, addr: Word)
    requires task.copyStack <= stackbase && addr < WORD_VALUES - 1
    ensures GetStackAddr(addr, TaskWindow(task, copyStacks, stackbase)) == FoundAt(task, copyStacks, stackbase, addr)
  {
  }

  /** A scan of a task panics exactly when its stack has been copied out and its thread is not known.
    Otherwise it reports the slot of the stack buffer, if the task has one, and then the stack's slots, as
    many as its frames have. */
  lemma TaskReports(task: Task, mem: Memory, copyStacks: bool, stackbase: Word, chain: seq<Word>)
    ensures var r, w := TaskSlots(task, mem, copyStacks, stackbase, chain), TaskWindow(task, copyStacks, stackbase);
            var buffered := copyStacks && task.stkbuf != 0 && task.copyStack != 0;
            && (r.Panic? <==> buffered && task.ptls == 0 && task.tid < 0)
            && (r.Done? ==>
                  var first := if buffered then 1 else 0;
                  && |r.value| == first + SlotsBefore(mem, w, chain, |chain|)
                  && (buffered ==> r.value[0] == Simple(task.stkbufAddr))
                  && r.value[first..] == StackSlots(mem, w, chain))
  {
    StackLength(mem, TaskWindow(task, copyStacks, stackbase), chain);
  }
}
