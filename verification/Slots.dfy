/** Slots and memory slices (slots.rs).

  Memory is an array of words; the word at byte address `a` is entry `a / 8`. A slot names a word
  that holds an object reference, either plainly or displaced by a fixed offset. */
module Slots {
  import opened Bits
  import opened Wrappers

  datatype Slot =
    | Simple(addr: int)
    | Offset(addr: int, offset: Word)

  predicate Aligned(addr: int) {
    addr % 8 == 0
  }

  /** The slot's word lies in a memory of `size` words. */
  predicate Mapped(size: nat, slot: Slot) {
    Aligned(slot.addr) && 0 <= slot.addr / 8 < size
  }

  predicate AllMapped(size: nat, slots: seq<Slot>) {
    forall i :: 0 <= i < |slots| ==> Mapped(size, slots[i])
  }

  /** `ObjectReference::from_raw_address`: zero is no object. */
  function FromRawAddress(addr: Word): Option<Word> {
    if addr == 0 then None else Some(addr)
  }

  /** The object a slot refers to. */
  function LoadFrom(words: seq<Word>, slot: Slot): Option<Word>
    requires Mapped(|words|, slot)
  {
    var word := words[slot.addr / 8];
    match slot
    case Simple(_) => FromRawAddress(word)
    case Offset(_, offset) => FromRawAddress(WrapSub(word, offset))
  }

  /** Memory after a slot is made to refer to `obj`. */
  function StoreTo(words: seq<Word>, slot: Slot, obj: Word): (after: seq<Word>)
    requires Mapped(|words|, slot)
    ensures |after| == |words|
  {
    match slot
    case Simple(addr) => words[addr / 8 := obj]
    case Offset(addr, offset) => words[addr / 8 := WrapAdd(obj, offset)]
  }

  class WordMemory {
    const words: array<Word>

    constructor (words: array<Word>)
      ensures this.words == words
    {
      this.words := words;
    }

    method Load(slot: Slot) returns (obj: Option<Word>)
      requires Mapped(words.Length, slot)
      ensures obj == LoadFrom(words[..], slot)
    {
      match slot
      case Simple(addr) =>
        obj := FromRawAddress(words[addr / 8]);
      case Offset(addr, offset) =>
        var middle := words[addr / 8];
        var begin := WrapSub(middle, offset);
        obj := FromRawAddress(begin);
    }

    method Store(slot: Slot, obj: Word)
      requires Mapped(words.Length, slot)
      modifies words
      ensures words[..] == StoreTo(old(words[..]), slot, obj)
    {
      match slot
      case Simple(addr) =>
        words[addr / 8] := obj;
      case Offset(addr, offset) =>
        var middle := WrapAdd(obj, offset);
        words[addr / 8] := middle;
    }

    /** Word-by-word copy of `tgt.count` words from `src` to `tgt`. Only the target's length is used.
      The two slices may overlap in any way. */
    method Copy(src: MemorySlice, tgt: MemorySlice)
      requires Aligned(src.start) && Aligned(tgt.start)
      requires src.start / 8 + tgt.count <= words.Length && tgt.start / 8 + tgt.count <= words.Length
      modifies words
      ensures words[..] == Moved(old(words[..]), src.start / 8, tgt.start / 8, tgt.count)
    {
      var n := tgt.Bytes() / 8;
      ghost var was := words[..];
      var from, to := src.start / 8, tgt.start / 8;
      assert src.start == 8 * from && tgt.start == 8 * to && n == tgt.count;
      if tgt.start < src.start || tgt.start > src.start + tgt.Bytes() {
        CopyForward(from, to, n);
      } else {
        CopyBackward(from, to, n);
      }
      MovedIs(was, words[..], from, to, n);
    }

    /** The loop from the first word to the last. */
    method CopyForward(from: nat, to: nat, n: nat)
      requires from + n <= words.Length && to + n <= words.Length && (to < from || to > from + n)
      modifies words
      ensures IsMoved(old(words[..]), words[..], from, to, n)
    {
      ghost var was := words[..];
      for i := 0 to n
        invariant IsMoved(was, words[..], from, to, i)
      {
        ghost var now := words[..];
        var val := words[from + i];
        words[to + i] := val;
        MovedUp(was, now, words[..], from, to, i, n);
      }
    }

    /** The loop from the last word to the first. */
    method CopyBackward(from: nat, to: nat, n: nat)
      requires from + n <= words.Length && to + n <= words.Length && from <= to
      modifies words
      ensures IsMoved(old(words[..]), words[..], from, to, n)
    {
      ghost var was := words[..];
      for i := 0 to n
        invariant IsMoved(was, words[..], from + (n - i), to + (n - i), i)
      {
        ghost var now := words[..];
        var val := words[from + (n - i - 1)];
        words[to + (n - i - 1)] := val;
        MovedDown(was, now, words[..], from, to, i, n);
      }
    }
  }

  /** `n` words of `was` have been moved: the target range holds the old source range, and every
    word outside it is as it was. */
  ghost predicate IsMoved(was: seq<Word>, now: seq<Word>, from: nat, to: nat, n: nat) {
    && |now| == |was| && from + n <= |was| && to + n <= |was|
    && (forall k :: 0 <= k < to || to + n <= k < |was| ==> now[k] == was[k])
    && (forall k :: to <= k < to + n ==> now[k] == was[k - to + from])
  }

  /** One turn of the forward loop: no source word still to be read has been overwritten. */
  lemma MovedUp(was: seq<Word>, now: seq<Word>, next: seq<Word>, from: nat, to: nat, i: nat, n: nat)
    requires i < n && from + n <= |was| && to + n <= |was| && (to < from || to > from + n)
    requires IsMoved(was, now, from, to, i) && next == now[to + i := now[from + i]]
    ensures IsMoved(was, next, from, to, i + 1)
  {
    assert now[from + i] == was[from + i];
  }

  /** One turn of the backward loop. */
  lemma MovedDown(was: seq<Word>, now: seq<Word>, next: seq<Word>, from: nat, to: nat, i: nat, n: nat)
    requires i < n && from + n <= |was| && to + n <= |was| && from <= to
    requires IsMoved(was, now, from + (n - i), to + (n - i), i)
    requires next == now[to + (n - i - 1) := now[from + (n - i - 1)]]
    ensures IsMoved(was, next, from + (n - i - 1), to + (n - i - 1), i + 1)
  {
    assert now[from + (n - i - 1)] == was[from + (n - i - 1)];
  }

  /** The memory after a move, as one sequence. */
  function Moved(was: seq<Word>, from: nat, to: nat, n: nat): (now: seq<Word>)
    requires from + n <= |was| && to + n <= |was|
    ensures IsMoved(was, now, from, to, n)
  {
    was[..to] + was[from..from + n] + was[to + n..]
  }

  /** Word by word or as one sequence, a move leaves only one possible memory. */
  lemma MovedIs(was: seq<Word>, now: seq<Word>, from: nat, to: nat, n: nat)
    requires IsMoved(was, now, from, to, n)
    ensures now == Moved(was, from, to, n)
  {
  }

  datatype MemorySlice = MemorySlice(owner: Word, start: nat, count: nat) {
    function Bytes(): nat {
      count * 8
    }
  }

  /** The slots of `count` consecutive words. */
  function SlotsFrom(start: nat, count: nat): (slots: seq<Slot>)
    requires start + 8 * count < WORD_VALUES
    ensures |slots| == count
    ensures forall k :: 0 <= k < count ==> slots[k] == Simple(start + 8 * k)
  {
    seq(count, k requires 0 <= k < count => Simple(start + 8 * k))
  }

  class SlotIterator {
    var cursor: nat
    var limit: nat

    /** `iter_slots` */
    constructor (slice: MemorySlice)
      requires slice.start + slice.Bytes() < WORD_VALUES
      ensures Valid()
      ensures Remaining() == SlotsFrom(slice.start, slice.count)
    {
      cursor := slice.start;
      limit := slice.start + slice.count * 8;
    }

    ghost predicate Valid()
      reads this
    {
      cursor <= limit < WORD_VALUES && Aligned(limit - cursor)
    }

    /** The slots still to be produced. */
    ghost function Remaining(): seq<Slot>
      requires Valid()
      reads this
    {
      SlotsFrom(cursor, (limit - cursor) / 8)
    }

    method Next() returns (slot: Option<Slot>)
      requires Valid()
      modifies this
      ensures Valid()
      ensures match slot
              case None => old(Remaining()) == [] && Remaining() == []
              case Some(s) => old(Remaining()) == [s] + Remaining()
    {
      if cursor >= limit {
        slot := None;
      } else {
        var addr := cursor;
        cursor := cursor + 8;
        slot := Some(Simple(addr));
      }
    }
  }

  // Objects move: every slot is loaded, and a reference found there is replaced by the new address

  type Forwarding = Word -> Word

  /** One slot traced and updated, as the collector does for each slot a scan reports. */
  function ForwardSlot(words: seq<Word>, slot: Slot, forward: Forwarding): (after: seq<Word>)
    requires Mapped(|words|, slot)
    ensures |after| == |words|
  {
    match LoadFrom(words, slot)
    case None => words
    case Some(obj) => StoreTo(words, slot, forward(obj))
  }

  function WordAt(words: seq<Word>, slot: Slot): Word
    requires Mapped(|words|, slot)
  {
    words[slot.addr / 8]
  }

  function ForwardSlots(words: seq<Word>, slots: seq<Slot>, forward: Forwarding): (after: seq<Word>)
    requires AllMapped(|words|, slots)
    ensures |after| == |words|
    decreases |slots|
  {
    if slots == [] then words
    else ForwardSlots(ForwardSlot(words, slots[0], forward), slots[1..], forward)
  }

  ghost predicate DistinctAddresses(slots: seq<Slot>) {
    forall i, j :: 0 <= i < j < |slots| ==> slots[i].addr != slots[j].addr
  }

  /** What a slot refers to: nothing when its word is zero, or equal to its offset; else the object whose address,
    displaced by the offset, is the word. A slot that refers to nothing is left as it is. */
  lemma SlotRefers(words: seq<Word>, slot: Slot, forward: Forwarding)
    requires Mapped(|words|, slot)
    ensures var word, offset := WordAt(words, slot), if slot.Simple? then 0 else slot.offset;
            && (LoadFrom(words, slot) == None <==> word == offset)
            && (LoadFrom(words, slot).Some? ==> WrapAdd(LoadFrom(words, slot).value, offset) == word)
    ensures LoadFrom(words, slot) == None ==> ForwardSlot(words, slot, forward) == words
  {
  }

  /** A reference stored through a slot of either kind is read back through it. */
  lemma StoreThenLoad(words: seq<Word>, slot: Slot, obj: Word)
    requires Mapped(|words|, slot) && obj != 0
    ensures LoadFrom(StoreTo(words, slot, obj), slot) == Some(obj)
  {
  }

  /** Words no slot names are untouched. */
  lemma {:induction false} ForwardKeepsOthers(words: seq<Word>, slots: seq<Slot>, forward: Forwarding, k: nat)
    requires AllMapped(|words|, slots) && k < |words|
    requires forall i :: 0 <= i < |slots| ==> slots[i].addr / 8 != k
    ensures ForwardSlots(words, slots, forward)[k] == words[k]
    decreases |slots|
  {
    if slots != [] {
      ForwardKeepsOthers(ForwardSlot(words, slots[0], forward), slots[1..], forward, k);
    }
  }

  lemma DistinctWords(slots: seq<Slot>, size: nat, i: nat, j: nat)
    requires AllMapped(size, slots) && DistinctAddresses(slots) && i < j < |slots|
    ensures slots[i].addr / 8 != slots[j].addr / 8
  {
    assert Mapped(size, slots[i]) && Mapped(size, slots[j]);
  }

  /** Updating a whole list of distinct slots updates each of them exactly once. */
  lemma {:induction false} ForwardEach(words: seq<Word>, slots: seq<Slot>, forward: Forwarding, i: nat)
    requires AllMapped(|words|, slots)
    requires DistinctAddresses(slots) && i < |slots|
    ensures WordAt(ForwardSlots(words, slots, forward), slots[i])
            == WordAt(ForwardSlot(words, slots[i], forward), slots[i])
    decreases |slots|
  {
    var first := ForwardSlot(words, slots[0], forward);
    if i == 0 {
      forall j | 0 <= j < |slots[1..]| ensures slots[1..][j].addr / 8 != slots[0].addr / 8 {
        DistinctWords(slots, |words|, 0, j + 1);
      }
      ForwardKeepsOthers(first, slots[1..], forward, slots[0].addr / 8);
    } else {
      ForwardEach(first, slots[1..], forward, i - 1);
      DistinctWords(slots, |words|, 0, i);
      assert first[slots[i].addr / 8] == words[slots[i].addr / 8];
    }
  }

  /** What one update does to the word a slot names. */
  lemma ForwardedWord(words: seq<Word>, slot: Slot, forward: Forwarding, obj: Word)
    requires Mapped(|words|, slot) && LoadFrom(words, slot) == Some(obj)
    ensures WordAt(ForwardSlot(words, slot, forward), slot)
            == if slot.Simple? then forward(obj) else WrapAdd(forward(obj), slot.offset)
  {
  }

  lemma ForwardedInList(words: seq<Word>, slots: seq<Slot>, forward: Forwarding, i: nat, obj: Word)
    requires AllMapped(|words|, slots) && DistinctAddresses(slots) && i < |slots|
    requires LoadFrom(words, slots[i]) == Some(obj)
    ensures WordAt(ForwardSlots(words, slots, forward), slots[i])
            == if slots[i].Simple? then forward(obj) else WrapAdd(forward(obj), slots[i].offset)
  {
    ForwardEach(words, slots, forward, i);
    ForwardedWord(words, slots[i], forward, obj);
  }

  /** An array's data pointer keeps its distance from the memory object it points into, whatever the
    forwarding map and whichever of the two slots is updated first. */
  lemma InteriorPointerSurvives(words: seq<Word>, slots: seq<Slot>, forward: Forwarding, p: nat, m: nat)
    requires AllMapped(|words|, slots) && DistinctAddresses(slots) && p < |slots| && m < |slots|
    requires slots[m].Simple? && slots[p].Offset?
    requires 0 < WordAt(words, slots[m]) < WordAt(words, slots[p])
    requires slots[p].offset == WordAt(words, slots[p]) - WordAt(words, slots[m])
    ensures var after := ForwardSlots(words, slots, forward);
            && WordAt(after, slots[m]) == forward(WordAt(words, slots[m]))
            && WrapSub(WordAt(after, slots[p]), WordAt(after, slots[m]))
               == WordAt(words, slots[p]) - WordAt(words, slots[m])
  {
    var mem := WordAt(words, slots[m]);
    ForwardedInList(words, slots, forward, p, mem);
    ForwardedInList(words, slots, forward, m, mem);
  }

  /** A root tagged with 1 keeps the tag when it is updated through an offset-1 slot. */
  lemma TagSurvives(words: seq<Word>, slots: seq<Slot>, forward: Forwarding, i: nat)
    requires AllMapped(|words|, slots) && DistinctAddresses(slots) && i < |slots|
    requires slots[i].Offset? && slots[i].offset == 1
    requires Tag1(WordAt(words, slots[i])) && ClearTag1(WordAt(words, slots[i])) != 0
    requires !Tag1(forward(ClearTag1(WordAt(words, slots[i]))))
    ensures var root' := WordAt(ForwardSlots(words, slots, forward), slots[i]);
            Tag1(root') && ClearTag1(root') == forward(ClearTag1(WordAt(words, slots[i])))
  {
    ForwardedInList(words, slots, forward, i, ClearTag1(WordAt(words, slots[i])));
  }
}
