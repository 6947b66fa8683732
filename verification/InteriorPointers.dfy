/** Pointers into the middle of objects, from the scan that finds them to the update that moves them
  (julia_scanning.rs, slots.rs). */
module InteriorPointers {
  import opened Bits
  import opened GcStack
  import opened Slots
  import opened ObjectScan
  import opened ScanFacts
  import opened ObjectModel

  /** The word at an address. */
  function WordIn(words: seq<Word>, addr: int): Word
    requires Mapped(|words|, Simple(addr))
  {
    WordAt(words, Simple(addr))
  }

  /** The scanned memory and the updated words agree at an address. */
  ghost predicate SeesWord(env: Env, words: seq<Word>, addr: int) {
    Mapped(|words|, Simple(addr)) && LoadWord(env, addr) == WordIn(words, addr)
  }

  lemma DifferentWords(a: int, b: int)
    requires Aligned(a) && Aligned(b) && a != b
    ensures a / 8 != b / 8
  {
  }

  /** A word that no slot names is left as it is. */
  lemma Untouched(words: seq<Word>, slots: seq<Slot>, forward: Forwarding, addr: int)
    requires AllMapped(|words|, slots) && Mapped(|words|, Simple(addr))
    requires forall i :: 0 <= i < |slots| ==> slots[i].addr != addr
    ensures WordIn(ForwardSlots(words, slots, forward), addr) == WordIn(words, addr)
  {
    forall i | 0 <= i < |slots| ensures slots[i].addr / 8 != addr / 8 {
      assert Mapped(|words|, slots[i]);
      DifferentWords(slots[i].addr, addr);
    }
    ForwardKeepsOthers(words, slots, forward, addr / 8);
  }

  /** An offset slot and the plain slot of the object it points into, both reported. */
  lemma PairSurvives(words: seq<Word>, slots: seq<Slot>, forward: Forwarding, p: nat, m: nat, at: int, base: int)
    requires AllMapped(|words|, slots) && DistinctAddresses(slots) && p < |slots| && m < |slots|
    requires Mapped(|words|, Simple(at)) && Mapped(|words|, Simple(base)) && slots[m] == Simple(base)
    requires 0 < WordIn(words, base) < WordIn(words, at)
    requires slots[p] == Offset(at, WordIn(words, at) - WordIn(words, base))
    ensures var after := ForwardSlots(words, slots, forward);
            && WordIn(after, base) == forward(WordIn(words, base))
            && WrapSub(WordIn(after, at), WordIn(after, base)) == WordIn(words, at) - WordIn(words, base)
  {
    InteriorPointerSurvives(words, slots, forward, p, m);
  }

  // Arrays

  /** An array's type: its pointer fields are distinct, the memory object's is among them, and the data
    pointer, the first word, is not. */
  ghost predicate ArrayLayout(env: Env, layout: Layout) {
    var offs := LayoutOffsets(env, layout);
    && layout.npointers != 0 && FieldLayout(env, layout) && layout.size >= MEMORY_SIZE
    && (forall i, j :: 0 <= i < j < |offs| ==> offs[i] != offs[j])
    && 0 !in offs && 1 in offs
  }

  ghost predicate IsArray(env: Env, obj: int) {
    && SelfContained(env, obj) && ScannedType(env, obj).Done?
    && var vt := ScannedType(env, obj).value;
    && vt != env.weakrefType && env.typeAt(vt).name == ArrayName && ArrayLayout(env, env.typeAt(vt).layout)
  }

  lemma ArraySlots(env: Env, obj: int, chain: seq<Word>)
    requires IsArray(env, obj)
    ensures var offs := LayoutOffsets(env, env.typeAt(ScannedType(env, obj).value).layout);
            Scan(env, obj, chain) == Done(ScanArrayPointer(env, obj) + Offset8(obj, offs))
  {
    OrdinaryTagsAreSmall(TypeTagOf(env, obj));
  }

  lemma FieldsDistinct(obj: int, offs: seq<nat>)
    requires (forall i, j :: 0 <= i < j < |offs| ==> offs[i] != offs[j]) && 0 !in offs
    ensures DistinctAddresses(Offset8(obj, offs))
    ensures forall i :: 0 <= i < |offs| ==> Offset8(obj, offs)[i].addr != obj
  {
    forall i | 0 <= i < |offs| ensures Offset8(obj, offs)[i].addr != obj {
      assert offs[i] in offs;
    }
  }

  lemma PrependDistinct(first: Slot, slots: seq<Slot>)
    requires DistinctAddresses(slots) && forall i :: 0 <= i < |slots| ==> slots[i].addr != first.addr
    ensures DistinctAddresses([first] + slots)
  {
  }

  lemma ArrayPointerSlot(env: Env, obj: int, ptr: Word, mem: Word)
    requires LoadWord(env, obj + ARRAY_PTR) == ptr && LoadWord(env, obj + ARRAY_MEM) == mem
    ensures ScanArrayPointer(env, obj)
            == if env.managed(ptr) && ptr > mem then [Offset(obj + ARRAY_PTR, ptr - mem)] else []
  {
    if ptr > mem {
      SmallRemainder(ptr - mem, WORD_VALUES);
    }
  }

  /** The scan reports the data pointer first, when it reports it, and the memory object's slot. */
  lemma ArrayScanShape(env: Env, obj: int, chain: seq<Word>, ptr: Word, mem: Word) returns (m: nat)
    requires IsArray(env, obj) && LoadWord(env, obj + ARRAY_PTR) == ptr && LoadWord(env, obj + ARRAY_MEM) == mem
    ensures Scan(env, obj, chain).Done?
    ensures ArrayShape(Scan(env, obj, chain).value, obj, ptr, mem, env.managed(ptr) && ptr > mem, m)
  {
    var layout := env.typeAt(ScannedType(env, obj).value).layout;
    var offs := LayoutOffsets(env, layout);
    ArraySlots(env, obj, chain);
    ArrayPointerSlot(env, obj, ptr, mem);
    m := FieldsShape(obj, offs, ptr, mem, env.managed(ptr) && ptr > mem);
  }

  ghost predicate ArrayShape(slots: seq<Slot>, obj: int, ptr: Word, mem: Word, reported: bool, m: nat) {
    && DistinctAddresses(slots) && m < |slots| && slots[m] == Simple(obj + ARRAY_MEM)
    && if reported then ptr > mem && slots[0] == Offset(obj + ARRAY_PTR, ptr - mem)
       else forall i :: 0 <= i < |slots| ==> slots[i].addr != obj + ARRAY_PTR
  }

  lemma FieldsShape(obj: int, offs: seq<nat>, ptr: Word, mem: Word, reported: bool) returns (m: nat)
    requires (forall i, j :: 0 <= i < j < |offs| ==> offs[i] != offs[j]) && 0 !in offs && 1 in offs
    requires reported ==> ptr > mem
    ensures var front := if reported then [Offset(obj + ARRAY_PTR, ptr - mem)] else [];
            ArrayShape(front + Offset8(obj, offs), obj, ptr, mem, reported, m)
  {
    var fields := Offset8(obj, offs);
    FieldsDistinct(obj, offs);
    var j: nat :| j < |offs| && offs[j] == 1;
    assert fields[j] == Simple(obj + ARRAY_MEM);
    if reported {
      var first := Offset(obj + ARRAY_PTR, ptr - mem);
      PrependDistinct(first, fields);
      m := j + 1;
    } else {
      assert [] + fields == fields;
      m := j;
    }
  }

  /** The data pointer `ptr` of the array at `obj`, its memory object `mem`, and what they become when these
    slots are updated: the memory object has moved and the distance is kept, or, when the pointer is not
    reported, it has stayed. */
  ghost predicate PointerKept(words: seq<Word>, slots: seq<Slot>, forward: Forwarding, obj: int, ptr: Word, mem: Word,
                              reported: bool)
    requires AllMapped(|words|, slots)
    requires Mapped(|words|, Simple(obj + ARRAY_PTR)) && Mapped(|words|, Simple(obj + ARRAY_MEM))
  {
    var after := ForwardSlots(words, slots, forward);
    var ptr', mem' := WordIn(after, obj + ARRAY_PTR), WordIn(after, obj + ARRAY_MEM);
    if !reported then ptr' == ptr
    else mem != 0 ==> mem' == forward(mem) && WrapSub(ptr', mem') == ptr - mem
  }

  lemma PointerUpdated(words: seq<Word>, slots: seq<Slot>, forward: Forwarding, obj: int, ptr: Word, mem: Word,
                       reported: bool, m: nat)
    requires AllMapped(|words|, slots)
    requires Mapped(|words|, Simple(obj + ARRAY_PTR)) && Mapped(|words|, Simple(obj + ARRAY_MEM))
    requires ptr == WordIn(words, obj + ARRAY_PTR) && mem == WordIn(words, obj + ARRAY_MEM)
    requires ArrayShape(slots, obj, ptr, mem, reported, m)
    ensures PointerKept(words, slots, forward, obj, ptr, mem, reported)
  {
    if !reported {
      Untouched(words, slots, forward, obj + ARRAY_PTR);
    } else if mem != 0 {
      PairSurvives(words, slots, forward, 0, m, obj + ARRAY_PTR, obj + ARRAY_MEM);
    }
  }

  /** Updating the slots that the scan of an array reports moves its memory object and keeps the distance of
    the data pointer from it, for any forwarding map. A data pointer that the scan does not report, because
    it is not managed or not past the memory object's start, is left as it is. */
  lemma ArrayPointerSurvives(env: Env, obj: int, words: seq<Word>, forward: Forwarding, chain: seq<Word>,
                             slots: seq<Slot>, ptr: Word, mem: Word)
    requires IsArray(env, obj) && Scan(env, obj, chain) == Done(slots) && AllMapped(|words|, slots)
    requires Mapped(|words|, Simple(obj + ARRAY_PTR)) && Mapped(|words|, Simple(obj + ARRAY_MEM))
    requires LoadWord(env, obj + ARRAY_PTR) == ptr == WordIn(words, obj + ARRAY_PTR)
    requires LoadWord(env, obj + ARRAY_MEM) == mem == WordIn(words, obj + ARRAY_MEM)
    ensures PointerKept(words, slots, forward, obj, ptr, mem, env.managed(ptr) && ptr > mem)
  {
    var m := ArrayScanShape(env, obj, chain, ptr, mem);
    PointerUpdated(words, slots, forward, obj, ptr, mem, env.managed(ptr) && ptr > mem, m);
  }

  // Modules

  lemma {:induction false} StridedDistinct(begin: int, end: int, stride: nat)
    requires begin < end ==> stride > 0
    ensures DistinctAddresses(Strided(begin, end, stride))
    ensures forall i :: 0 <= i < |Strided(begin, end, stride)| ==> begin <= Strided(begin, end, stride)[i].addr < end
    decreases end - begin
  {
    if begin < end {
      StridedDistinct(begin + stride, end, stride);
    }
  }

  /** The list of usings is stored nowhere among the module's scanned fields. */
  ghost predicate UsingsApart(env: Env, obj: int) {
    var items, length := LoadWord(env, obj + MODULE_USINGS + LIST_ITEMS), LoadWord(env, obj + MODULE_USINGS);
    items + 8 * length <= obj + MODULE_PARENT || obj + MODULE_USINGS + LIST_SPACE <= items
  }

  lemma ModuleSlotsDistinct(env: Env, obj: int)
    requires UsingsApart(env, obj)
    ensures DistinctAddresses(ScanModule(env, obj))
  {
    var items, length := LoadWord(env, obj + MODULE_USINGS + LIST_ITEMS), LoadWord(env, obj + MODULE_USINGS);
    StridedDistinct(items, items + 8 * length, 32);
  }

  /** An offset slot moves its word with the object it points into. */
  lemma OffsetMoves(words: seq<Word>, slots: seq<Slot>, forward: Forwarding, i: nat, at: int, owner: Word, offset: Word)
    requires AllMapped(|words|, slots) && DistinctAddresses(slots) && i < |slots| && slots[i] == Offset(at, offset)
    requires Mapped(|words|, Simple(at)) && owner > 0 && WordIn(words, at) == owner + offset
    ensures WordIn(ForwardSlots(words, slots, forward), at) == WrapAdd(forward(owner), offset)
  {
    ForwardedInList(words, slots, forward, i, owner);
  }

  lemma ModuleScanShape(env: Env, obj: int)
    requires UsingsApart(env, obj) && env.managed(LoadWord(env, obj + MODULE_USINGS + LIST_ITEMS))
    ensures var slots := ScanModule(env, obj);
            && DistinctAddresses(slots) && |slots| > 5
            && slots[5] == Offset(obj + MODULE_USINGS + LIST_ITEMS, MODULE_USINGS + LIST_SPACE)
  {
    ModuleSlotsDistinct(env, obj);
  }

  /** A module's pointer to its own inline list of usings, updated through the slot the scan reports for it,
    points into the moved module. `owner` is the module's address when the pointer was written. */
  lemma ModulePointerSurvives(env: Env, obj: int, owner: Word, words: seq<Word>, forward: Forwarding)
    requires SeesWord(env, words, obj + MODULE_USINGS + LIST_ITEMS) && owner > 0
    requires UsingsApart(env, obj) && AllMapped(|words|, ScanModule(env, obj))
    requires var items := WordIn(words, obj + MODULE_USINGS + LIST_ITEMS);
             env.managed(items) && items == owner + (MODULE_USINGS + LIST_SPACE)
    ensures WordIn(ForwardSlots(words, ScanModule(env, obj), forward), obj + MODULE_USINGS + LIST_ITEMS)
            == WrapAdd(forward(owner), MODULE_USINGS + LIST_SPACE)
  {
    ModuleScanShape(env, obj);
    OffsetMoves(words, ScanModule(env, obj), forward, 5, obj + MODULE_USINGS + LIST_ITEMS, owner,
                MODULE_USINGS + LIST_SPACE);
  }
}
