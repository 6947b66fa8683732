/** What a scan reports of each kind of object, said at the level of addresses and of the words in memory. */
module ScanKinds {
  import opened Bits
  import opened Slots
  import opened GcStack
  import opened ObjectScan
  import opened ScanFacts
  import opened Sequences

  // Tags

  /** An object's tag is its header word with the low four bits cleared. */
  lemma TagIsMasked(env: Env, obj: int)
    requires LoadWord(env, obj - 8) < WORD_VALUES
    ensures TypeTagOf(env, obj) == BitAnd(LoadWord(env, obj - 8), NotWord(15))
  {
    Pow2Word();
    assert Pow2(4) == 16;
    AndHighMask(64, LoadWord(env, obj - 8), 4);
  }

  /** Symbols and buffers are not scanned here, whatever else their tag says. */
  ghost predicate Scannable(env: Env, obj: int) {
    TypeTagOf(env, obj) != env.symbolType && TypeTagOf(env, obj) != env.buffTag
  }

  lemma NothingInSymbolsAndBuffers(env: Env, obj: int, chain: seq<Word>)
    requires !Scannable(env, obj)
    ensures Scan(env, obj, chain) == Done([])
  {
  }

  /** The tags of the small types that are scanned like any other datatype, and of those with a scan of their
    own; every other small type has nothing to scan. */
  lemma NothingInOtherSmallTypes(env: Env, obj: int, chain: seq<Word>)
    requires Scannable(env, obj) && TypeTagOf(env, obj) < 64 * 16
    requires TypeTagOf(env, obj) / 16 !in {2, 3, 4, 5, 6, 28, 29, 30, 31, 32, 33, 34, 35, 37}
    requires TypeTagOf(env, obj) !in {9 * 16, 8 * 16, 11 * 16}
    ensures Scan(env, obj, chain) == Done([])
  {
  }

  /** The type by which a datatype object is scanned, or none for a tag that is not a datatype's. */
  ghost predicate TypedBy(env: Env, obj: int, vt: int) {
    && Scannable(env, obj)
    && var vtag := TypeTagOf(env, obj);
    if vtag / 16 in {2, 3, 4, 5, 6, 28, 29, 30, 31, 32, 33, 34, 35, 37} then vt == env.smallTypeof(vtag / 8)
    else vtag >= 64 * 16 && vt == vtag && TypeTagOf(env, vt) == 2 * 16 && env.typeAt(vt).smallTag == 0
  }

  lemma ScannedByType(env: Env, obj: int, vt: int, chain: seq<Word>)
    requires TypedBy(env, obj, vt)
    ensures Scan(env, obj, chain) == ScanTyped(env, obj, vt)
  {
  }

  /** A large tag that does not name a datatype is a corrupt heap. */
  lemma CorruptTagPanics(env: Env, obj: int, chain: seq<Word>)
    requires Scannable(env, obj) && TypeTagOf(env, obj) >= 64 * 16
    requires var vtag := TypeTagOf(env, obj); TypeTagOf(env, vtag) != 2 * 16 || env.typeAt(vtag).smallTag != 0
    ensures Scan(env, obj, chain).Panic?
  {
  }

  // Simple vectors

  /** A simple vector reports each of its elements: as many slots as its length says, slot `k` at element `k`,
    the last one ending where the vector ends. */
  lemma VectorElements(env: Env, obj: int, chain: seq<Word>)
    requires Scannable(env, obj) && TypeTagOf(env, obj) == 9 * 16
    ensures Scan(env, obj, chain).Done?
    ensures var slots, length := Scan(env, obj, chain).value, LoadWord(env, obj);
            && |slots| == length
            && (forall k :: 0 <= k < length ==> slots[k] == Simple(obj + 8 + 8 * k))
            && (length > 0 ==> slots[length - 1].addr + 8 == obj + (8 + 8 * length))
  {
    var slots, length := ScanSimpleVector(env, obj), LoadWord(env, obj);
    assert slots == Row(obj + 8, 8, length);
  }

  // Datatypes

  /** Where a type's pointer table is: after the 20 bytes of the layout and its field descriptors, two numbers of
    the table's width for each field. */
  function TableStart(layout: Layout): int {
    layout.addr + 20 + 2 * Pow2(layout.fieldDescType) * layout.nfields % 0x1_0000_0000
  }

  /** Where entry `j` of the table is. */
  function TableEntry(layout: Layout, j: nat): int {
    TableStart(layout) + Span(Pow2(layout.fieldDescType), j)
  }

  lemma FieldOffset(env: Env, layout: Layout, j: nat)
    requires j < layout.npointers
    ensures LayoutOffsets(env, layout)[j] == Load(env.mem, TableEntry(layout, j), Pow2(layout.fieldDescType))
  {
    OffsetAt(env.mem, LayoutPtrs(layout), Pow2(layout.fieldDescType), layout.npointers, j);
  }

  /** The place of pointer field `j`, in words from the object: entry `j` of its type's table, read in the width
    that the layout says. */
  function FieldPlace(env: Env, layout: Layout, j: nat): nat {
    Load(env.mem, TableEntry(layout, j), Pow2(layout.fieldDescType))
  }

  /** Slots for all pointer fields of the object at `obj`. */
  lemma FieldSlot(env: Env, obj: int, layout: Layout, j: nat)
    requires j < layout.npointers
    ensures var fields := Offset8(obj, LayoutOffsets(env, layout));
            |fields| == layout.npointers && fields[j] == Simple(obj + 8 * FieldPlace(env, layout, j))
  {
    FieldOffset(env, layout, j);
  }

  ghost predicate Fielded(env: Env, obj: int, vt: int) {
    && TypedBy(env, obj, vt) && env.typeAt(vt).name != GenericMemoryName && vt != env.weakrefType
    && env.typeAt(vt).layout.npointers != 0 && env.typeAt(vt).layout.fieldDescType <= 2
  }

  lemma FieldedScan(env: Env, obj: int, vt: int, chain: seq<Word>)
    requires Fielded(env, obj, vt)
    ensures var layout := env.typeAt(vt).layout;
            var front := if env.typeAt(vt).name == ArrayName then ScanArrayPointer(env, obj) else [];
            Scan(env, obj, chain) == Done(front + Offset8(obj, LayoutOffsets(env, layout)))
  {
    ScannedByType(env, obj, vt, chain);
  }

  /** A plain datatype object reports each of its pointer fields and nothing else. */
  lemma ObjectFields(env: Env, obj: int, vt: int, chain: seq<Word>, j: nat)
    requires Fielded(env, obj, vt) && env.typeAt(vt).name == OtherName && j < env.typeAt(vt).layout.npointers
    ensures Scan(env, obj, chain).Done? && |Scan(env, obj, chain).value| == env.typeAt(vt).layout.npointers
    ensures Scan(env, obj, chain).value[j] == Simple(obj + 8 * FieldPlace(env, env.typeAt(vt).layout, j))
  {
    FieldedScan(env, obj, vt, chain);
    FieldSlot(env, obj, env.typeAt(vt).layout, j);
    assert [] + Offset8(obj, LayoutOffsets(env, env.typeAt(vt).layout))
           == Offset8(obj, LayoutOffsets(env, env.typeAt(vt).layout));
  }

  /** An object without pointer fields reports nothing, one with an opaque layout panics, and a weak reference
    reports nothing, so that it does not keep its object alive. */
  lemma NoFields(env: Env, obj: int, vt: int, chain: seq<Word>)
    requires TypedBy(env, obj, vt) && env.typeAt(vt).name == OtherName
    ensures vt == env.weakrefType || env.typeAt(vt).layout.npointers == 0 ==> Scan(env, obj, chain) == Done([])
    ensures vt != env.weakrefType && env.typeAt(vt).layout.npointers != 0 && env.typeAt(vt).layout.fieldDescType > 2 ==>
              Scan(env, obj, chain).Panic?
  {
    ScannedByType(env, obj, vt, chain);
    var none: seq<Slot> := [];
    assert none + [] == none;
  }

  lemma DataPointer(env: Env, obj: int, ptr: Word, mem: Word)
    requires LoadWord(env, obj) == ptr && LoadWord(env, obj + 8) == mem
    ensures ScanArrayPointer(env, obj) == if env.managed(ptr) && ptr > mem then [Offset(obj, ptr - mem)] else []
  {
    if ptr > mem {
      SmallRemainder(ptr - mem, WORD_VALUES);
    }
  }

  /** An array reports each of its fields and, before them, the slot of its data pointer when that is managed
    and past the start of the memory object, with its distance from it. */
  lemma ArrayFields(env: Env, obj: int, vt: int, chain: seq<Word>, ptr: Word, mem: Word, j: nat)
    requires Fielded(env, obj, vt) && env.typeAt(vt).name == ArrayName && j < env.typeAt(vt).layout.npointers
    requires LoadWord(env, obj) == ptr && LoadWord(env, obj + 8) == mem
    ensures Scan(env, obj, chain).Done?
    ensures var slots, layout := Scan(env, obj, chain).value, env.typeAt(vt).layout;
            var first := if env.managed(ptr) && ptr > mem then 1 else 0;
            && |slots| == first + layout.npointers && (first == 1 ==> slots[0] == Offset(obj, ptr - mem))
            && slots[first + j] == Simple(obj + 8 * FieldPlace(env, layout, j))
  {
    var layout := env.typeAt(vt).layout;
    var front, fields := ScanArrayPointer(env, obj), Offset8(obj, LayoutOffsets(env, layout));
    FieldedScan(env, obj, vt, chain);
    DataPointer(env, obj, ptr, mem);
    FieldSlot(env, obj, layout, j);
    SecondPart(front, fields, j);
  }

  // Generic memories

  /** A memory that borrows its data reports its owner's slot and nothing else. */
  lemma OwnerReported(env: Env, obj: int, vt: int, chain: seq<Word>)
    requires TypedBy(env, obj, vt) && env.typeAt(vt).name == GenericMemoryName && env.how(obj) == 3
    ensures Scan(env, obj, chain) == Done([Simple(env.ownerSlot(obj))])
  {
    ScannedByType(env, obj, vt, chain);
  }

  /** A memory that has its own data. */
  ghost predicate HasElements(env: Env, obj: int, vt: int) {
    && TypedBy(env, obj, vt) && env.typeAt(vt).name == GenericMemoryName && env.how(obj) != 3
    && ElementLayout(env, env.typeAt(vt).layout)
  }

  /** It reports every pointer of every element, as many as the length times the pointers of an element. */
  lemma MemoryElements(env: Env, obj: int, vt: int, chain: seq<Word>)
    requires HasElements(env, obj, vt)
    ensures Scan(env, obj, chain).Done?
    ensures |Scan(env, obj, chain).value| == LoadWord(env, obj) * |PointerOffsets(env, env.typeAt(vt).layout)|
  {
    var layout := env.typeAt(vt).layout;
    ScannedByType(env, obj, vt, chain);
    GenericMemoryExact(env, obj, layout);
    ElementsCount(LoadWord(env, obj + 8), layout.size / 8, PointerOffsets(env, layout), LoadWord(env, obj));
  }

  lemma MemoryScan(env: Env, obj: int, vt: int, chain: seq<Word>)
    requires HasElements(env, obj, vt)
    ensures var layout := env.typeAt(vt).layout;
            Scan(env, obj, chain) == Done(Elements(LoadWord(env, obj + 8), layout.size / 8, PointerOffsets(env, layout),
                                                   LoadWord(env, obj)))
  {
    ScannedByType(env, obj, vt, chain);
    GenericMemoryExact(env, obj, env.typeAt(vt).layout);
  }

  /** Slot k * n + j is pointer `j` of element `k`, for the n pointers of an element. */
  lemma MemoryElement(env: Env, obj: int, vt: int, chain: seq<Word>, k: nat, j: nat, slots: seq<Slot>, offs: seq<nat>)
    requires HasElements(env, obj, vt) && Scan(env, obj, chain) == Done(slots)
    requires offs == PointerOffsets(env, env.typeAt(vt).layout) && k < LoadWord(env, obj) && j < |offs|
    ensures |offs| * k + j < |slots|
    ensures slots[|offs| * k + j]
            == Simple(LoadWord(env, obj + 8) + 8 * (env.typeAt(vt).layout.size / 8 * k + offs[j]))
  {
    MemoryScan(env, obj, vt, chain);
    ElementsInOrder(LoadWord(env, obj + 8), env.typeAt(vt).layout.size / 8, offs, LoadWord(env, obj), k, j);
  }

  /** The pointers of an element: a reference by itself, or the entries of the layout's table. */
  lemma ElementPointers(env: Env, layout: Layout, j: nat)
    requires j < |PointerOffsets(env, layout)|
    ensures |PointerOffsets(env, layout)| == if layout.isBoxed then 1 else layout.npointers
    ensures PointerOffsets(env, layout)[j] == if layout.isBoxed then 0 else FieldPlace(env, layout, j)
  {
    if !layout.isBoxed {
      FieldOffset(env, layout, j);
    }
  }

  /** Elements with several pointers whose offsets are wider than 16 bits are not supported. */
  lemma WideElementsPanic(env: Env, obj: int, vt: int, chain: seq<Word>)
    requires TypedBy(env, obj, vt) && env.typeAt(vt).name == GenericMemoryName && env.how(obj) != 3
    requires var layout := env.typeAt(vt).layout;
             && LoadWord(env, obj) != 0 && !layout.isBoxed && layout.firstPtr >= 0
             && layout.npointers != 1 && layout.fieldDescType > 1
    ensures Scan(env, obj, chain).Panic?
  {
    ScannedByType(env, obj, vt, chain);
  }

  // Modules and tasks

  lemma ModuleScan(env: Env, obj: int, chain: seq<Word>)
    requires Scannable(env, obj) && TypeTagOf(env, obj) == 8 * 16
    ensures Scan(env, obj, chain) == Done(ScanModule(env, obj))
  {
  }

  /** A module reports its five fields, the pointer to its list of usings when that is managed, and the first of
    every four words of the list. */
  lemma ModuleFields(env: Env, obj: int, chain: seq<Word>, rows: nat)
    requires Scannable(env, obj) && TypeTagOf(env, obj) == 8 * 16
    requires 4 * rows - 4 < LoadWord(env, obj + 64) <= 4 * rows
    ensures Scan(env, obj, chain)
            == Done([Simple(obj + 16), Simple(obj + 24), Simple(obj + 8), Simple(obj + 48), Simple(obj + 56)]
                    + (if env.managed(LoadWord(env, obj + 80)) then [Offset(obj + 80, 88)] else [])
                    + Row(LoadWord(env, obj + 80), 32, rows))
  {
    var items, length := LoadWord(env, obj + 80), LoadWord(env, obj + 64);
    ModuleScan(env, obj, chain);
    StridedIsRow(items, items + 8 * length, 32, rows);
  }

  lemma TaskScan(env: Env, obj: int, chain: seq<Word>)
    requires Scannable(env, obj) && TypeTagOf(env, obj) == 11 * 16
    ensures Scan(env, obj, chain) == ScanTask(env, obj, chain)
  {
  }

  /** What the task's stack reports. */
  function StackOf(env: Env, obj: int, chain: seq<Word>): Outcome<seq<Slot>> {
    TaskSlots(env.taskAt(obj), env.stackMem, env.copyStacks, env.stackbase(obj), chain)
  }

  /** A task reports what its stack does and then its pointer fields; it panics when the scan of its stack does. */
  lemma TaskFields(env: Env, obj: int, chain: seq<Word>)
    requires Scannable(env, obj) && TypeTagOf(env, obj) == 11 * 16
    ensures Scan(env, obj, chain).Panic? <==> StackOf(env, obj, chain).Panic?
    ensures Scan(env, obj, chain).Done? ==>
              var slots, stack := Scan(env, obj, chain).value, StackOf(env, obj, chain).value;
              |slots| == |stack| + env.typeAt(env.taskType).layout.npointers && stack <= slots
  {
    TaskScan(env, obj, chain);
  }

  /** Field `j` is given by byte `j` of the task type's table. */
  lemma TaskField(env: Env, obj: int, chain: seq<Word>, slots: seq<Slot>, stack: seq<Slot>, j: nat)
    requires Scannable(env, obj) && TypeTagOf(env, obj) == 11 * 16 && j < env.typeAt(env.taskType).layout.npointers
    requires StackOf(env, obj, chain) == Done(stack) && Scan(env, obj, chain) == Done(slots)
    ensures |stack| + j < |slots|
    ensures slots[|stack| + j]
            == Simple(obj + 8 * Load(env.mem, TableStart(env.typeAt(env.taskType).layout) + j, 1))
  {
    var layout := env.typeAt(env.taskType).layout;
    var fields := Offset8(obj, Offsets(env.mem, LayoutPtrs(layout), 1, layout.npointers));
    TaskScan(env, obj, chain);
    ByteOffset(env.mem, LayoutPtrs(layout), layout.npointers, j);
    assert slots == stack + fields;
    SecondPart(stack, fields, j);
  }

  lemma ByteOffset(mem: ByteMemory, table: int, count: nat, j: nat)
    requires j < count
    ensures Offsets(mem, table, 1, count)[j] == Load(mem, table + j, 1)
  {
    OffsetAt(mem, table, 1, count, j);
    SpanIsProduct(1, j);
  }
}
