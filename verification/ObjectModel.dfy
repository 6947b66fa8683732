/** Object sizes, object starts and the copying of objects (object_model.rs), against the scanner. */
module ObjectModel {
  import opened Bits
  import opened Slots
  import opened GcStack
  import opened ObjectScan
  import opened ScanFacts

  const HEADER_SIZE := 8
  const WORD_SIZE := 8
  const MODULE_SIZE := 392
  const TASK_SIZE := 224
  const MEMORY_SIZE := 16
  const MEMORY_SIZE_ALIGNED := 16 // llt_align(MEMORY_SIZE, 16), see AlignedMemorySize
  const LOS_START := 0x600_0000_0000
  const LOS_END := 0x800_0000_0000

  /** `(size + align - 1) & !(align - 1)`, for a power of two (`LltAlignIsMask`). */
  function LltAlign(size: nat, align: nat): nat
    requires align > 0
  {
    var top := size + align - 1;
    top - top % align
  }

  /** The source's mask expression. */
  lemma LltAlignIsMask(size: nat, k: nat)
    requires k <= 64 && size + Pow2(k) - 1 < Pow2(64) && Pow2(k) - 1 < Pow2(64)
    ensures LltAlign(size, Pow2(k)) == BitAnd(size + (Pow2(k) - 1), BitNot(64, Pow2(k) - 1))
  {
    AndHighMask(64, size + (Pow2(k) - 1), k);
  }

  lemma NextMultiple(a: nat, b: nat, m: nat)
    requires m > 0 && a % m == 0 && b % m == 0 && b < a
    ensures b + m <= a
  {
    assert a == m * (a / m) && b == m * (b / m);
    var d := a / m - b / m;
    assert m * d == a - b;
    PositiveMultiple(m, d);
  }

  lemma PositiveMultiple(m: nat, d: int)
    requires m > 0 && m * d > 0
    ensures m * d >= m
  {
  }

  /** The least multiple of `align` that is not below `size`. */
  lemma LltAlignLeast(size: nat, align: nat, m: nat)
    requires align > 0
    ensures LltAlign(size, align) >= size && LltAlign(size, align) % align == 0
    ensures m >= size && m % align == 0 ==> LltAlign(size, align) <= m
  {
    var top := size + align - 1;
    var r := LltAlign(size, align);
    RemainderCleared(top, align);
    if m >= size && m % align == 0 && m < r {
      NextMultiple(r, m, align);
    }
  }

  lemma AlignCovers(size: nat)
    ensures LltAlign(size, 16) >= size
  {
  }

  lemma AlignedMemorySize()
    ensures LltAlign(MEMORY_SIZE, 16) == MEMORY_SIZE_ALIGNED
  {
  }

  lemma RemainderCleared(x: nat, m: nat)
    requires m > 0
    ensures (x - x % m) % m == 0
  {
    var q := x / m;
    assert x - x % m == q * m + 0;
    DivModUnique(q * m, m, q, 0);
  }

  // Sizes

  /** mmtk_jl_typeof */
  function TypeOf(env: Env, obj: int): int {
    var vtag := TypeTagOf(env, obj);
    if vtag < MAX_TAGS * 16 then env.smallTypeof(vtag / 8) else vtag
  }

  /** The elements of a generic memory, and a selector byte for each when they are unions. */
  function InlineBytes(layout: Layout, length: nat): nat {
    layout.size * length + if layout.isUnion then length else 0
  }

  function SizeTyped(env: Env, obj: int, vt: int): Outcome<nat> {
    var t := env.typeAt(vt);
    if TypeOf(env, obj) != vt then Panic
    else if t.name == GenericMemoryName then
      if env.how(obj) == 0 then
        var data := InlineBytes(t.layout, LoadWord(env, obj + MEMORY_LENGTH));
        Done(LltAlign(data + MEMORY_SIZE_ALIGNED + HEADER_SIZE, 16))
      else Done(LltAlign(MEMORY_SIZE + WORD_SIZE + HEADER_SIZE, 16))
    else Done(LltAlign(t.layout.size + HEADER_SIZE, 16))
  }

  /** get_so_object_size, header included */
  function ObjectSize(env: Env, obj: int): Outcome<nat> {
    var vtag := TypeTagOf(env, obj);
    if vtag == env.buffTag then Done(LoadWord(env, obj - 2 * HEADER_SIZE))
    else if OrdinarySmallTag(vtag / 16) then SizeTyped(env, obj, env.smallTypeof(vtag / 8))
    else if vtag < MAX_TAGS * 16 then
      if vtag == SIMPLEVECTOR_TAG * 16 then
        Done(LltAlign(LoadWord(env, obj) * WORD_SIZE + SVEC_SIZE + HEADER_SIZE, 16))
      else if vtag == MODULE_TAG * 16 then Done(LltAlign(MODULE_SIZE + HEADER_SIZE, 16))
      else if vtag == TASK_TAG * 16 then Done(LltAlign(TASK_SIZE + HEADER_SIZE, 16))
      else if vtag == STRING_TAG * 16 then Done(LltAlign(LoadWord(env, obj) + WORD_SIZE + 1 + HEADER_SIZE, 8))
      else Done(LltAlign(env.typeAt(env.smallTypeof(vtag / 8)).layout.size + HEADER_SIZE, 16))
    else if !IsDataType(env, vtag) then Panic
    else SizeTyped(env, obj, vtag)
  }

  /** is_object_in_los */
  predicate InLargeObjectSpace(obj: int) {
    LOS_START <= obj < LOS_END
  }

  /** ref_to_object_start */
  function ObjectStart(env: Env, obj: int): int {
    if InLargeObjectSpace(obj) then obj - 48
    else if TypeOf(env, obj) == env.buffTag then obj - 2 * HEADER_SIZE
    else obj - HEADER_SIZE
  }

  // Scan and size agree

  /** Field offsets lie inside the fields. */
  ghost predicate FieldLayout(env: Env, layout: Layout) {
    layout.npointers != 0 ==>
      && layout.fieldDescType <= 2
      && forall j :: 0 <= j < |LayoutOffsets(env, layout)| ==> 8 * LayoutOffsets(env, layout)[j] + 8 <= layout.size
  }

  /** The datatype an object is scanned by; small types with a layout of their own have none. */
  function ScannedType(env: Env, obj: int): Outcome<int> {
    var vtag := TypeTagOf(env, obj);
    if OrdinarySmallTag(vtag / 16) then Done(env.smallTypeof(vtag / 8))
    else if vtag >= MAX_TAGS * 16 then Done(vtag)
    else Panic
  }

  ghost predicate TypedInline(env: Env, obj: int, t: DataType) {
    match t.name
    case GenericMemoryName =>
      env.how(obj) == 0 && LoadWord(env, obj + MEMORY_PTR) == obj + MEMORY_SIZE && ElementLayout(env, t.layout)
    case ArrayName => t.layout.size >= MEMORY_SIZE && FieldLayout(env, t.layout)
    case OtherName => FieldLayout(env, t.layout)
  }

  /** A module's list of usings is stored inside it. */
  ghost predicate ModuleInline(env: Env, obj: int) {
    var usings := obj + MODULE_USINGS;
    LoadWord(env, usings) <= 29 && LoadWord(env, usings + LIST_ITEMS) == usings + LIST_SPACE
  }

  /** The object keeps all it points from within itself: its type is well laid out, and a generic
    memory's data or a module's usings are stored inline. Tasks also have slots on their stacks. */
  ghost predicate SelfContained(env: Env, obj: int) {
    var vtag := TypeTagOf(env, obj);
    && vtag != env.symbolType && vtag != env.buffTag && vtag != TASK_TAG * 16
    && (vtag >= MAX_TAGS * 16 ==> IsDataType(env, vtag))
    && (vtag == MODULE_TAG * 16 ==> ModuleInline(env, obj))
    && (ScannedType(env, obj).Done? ==> TypedInline(env, obj, env.typeAt(ScannedType(env, obj).value)))
  }

  lemma WithinMore(slots: seq<Slot>, base: int, size: int, base': int, size': int)
    requires Within(slots, base, size) && base' <= base && base + size <= base' + size'
    ensures Within(slots, base', size')
  {
  }

  lemma FieldsInside(obj: int, offs: seq<nat>, size: nat)
    requires forall j :: 0 <= j < |offs| ==> 8 * offs[j] + 8 <= size
    ensures Within(Offset8(obj, offs), obj, size)
  {
  }

  /** A generic memory's own slots lie in its element data, wherever that is stored. */
  lemma MemoryInside(env: Env, obj: int, layout: Layout)
    requires env.how(obj) != 3 && ElementLayout(env, layout)
    ensures ScanGenericMemory(env, obj, layout).Done?
    ensures Within(ScanGenericMemory(env, obj, layout).value,
                   LoadWord(env, obj + MEMORY_PTR), layout.size * LoadWord(env, obj + MEMORY_LENGTH))
  {
    var ptr, length := LoadWord(env, obj + MEMORY_PTR), LoadWord(env, obj + MEMORY_LENGTH);
    var elsize, offs := layout.size / 8, PointerOffsets(env, layout);
    GenericMemoryExact(env, obj, layout);
    if offs == [] {
      NoOffsetsNoSlots(ptr, elsize, length);
    } else {
      ElementsInside(ptr, elsize, offs, length);
      assert 8 * elsize == layout.size;
    }
  }

  lemma TypedInside(env: Env, obj: int, vt: int)
    requires TypedInline(env, obj, env.typeAt(vt)) && TypeOf(env, obj) == vt
    ensures ScanTyped(env, obj, vt).Done? && SizeTyped(env, obj, vt).Done?
    ensures Within(ScanTyped(env, obj, vt).value, obj - HEADER_SIZE, SizeTyped(env, obj, vt).value)
  {
    var t := env.typeAt(vt);
    if t.name == GenericMemoryName {
      TypedMemoryInside(env, obj, vt);
    } else {
      TypedFieldsInside(env, obj, vt);
    }
  }

  lemma TypedMemoryInside(env: Env, obj: int, vt: int)
    requires env.typeAt(vt).name == GenericMemoryName && TypedInline(env, obj, env.typeAt(vt)) && TypeOf(env, obj) == vt
    ensures ScanTyped(env, obj, vt).Done? && SizeTyped(env, obj, vt).Done?
    ensures Within(ScanTyped(env, obj, vt).value, obj - HEADER_SIZE, SizeTyped(env, obj, vt).value)
  {
    var layout, length := env.typeAt(vt).layout, LoadWord(env, obj + MEMORY_LENGTH);
    MemoryInside(env, obj, layout);
    MemorySize(env, obj, vt);
    var slots, size := ScanGenericMemory(env, obj, layout).value, SizeTyped(env, obj, vt).value;
    WithinMore(slots, obj + MEMORY_SIZE, layout.size * length, obj - HEADER_SIZE, size);
  }

  lemma MemorySize(env: Env, obj: int, vt: int)
    requires env.typeAt(vt).name == GenericMemoryName && env.how(obj) == 0 && TypeOf(env, obj) == vt
    ensures SizeTyped(env, obj, vt).Done?
    ensures SizeTyped(env, obj, vt).value
            >= env.typeAt(vt).layout.size * LoadWord(env, obj + MEMORY_LENGTH) + MEMORY_SIZE + HEADER_SIZE
  {
    var data := InlineBytes(env.typeAt(vt).layout, LoadWord(env, obj + MEMORY_LENGTH));
    AlignCovers(data + MEMORY_SIZE_ALIGNED + HEADER_SIZE);
  }

  lemma TypedFieldsInside(env: Env, obj: int, vt: int)
    requires env.typeAt(vt).name != GenericMemoryName && TypedInline(env, obj, env.typeAt(vt)) && TypeOf(env, obj) == vt
    ensures ScanTyped(env, obj, vt).Done? && SizeTyped(env, obj, vt).Done?
    ensures Within(ScanTyped(env, obj, vt).value, obj - HEADER_SIZE, SizeTyped(env, obj, vt).value)
  {
    var layout := env.typeAt(vt).layout;
    AlignCovers(layout.size + HEADER_SIZE);
    FieldsInside(obj, LayoutOffsets(env, layout), layout.size);
    var size := LltAlign(layout.size + HEADER_SIZE, 16);
    WithinMore(Offset8(obj, LayoutOffsets(env, layout)), obj, layout.size, obj - HEADER_SIZE, size);
  }

  /** A row of every fourth word stays inside the words it runs over. */
  lemma {:induction false} StridedInside(begin: int, words: nat)
    ensures Within(Strided(begin, begin + 8 * words, 32), begin, 8 * words)
    decreases words
  {
    var end := begin + 8 * words;
    if words > 4 {
      StridedInside(begin + 32, words - 4);
      WithinMore(Strided(begin + 32, end, 32), begin + 32, 8 * words - 32, begin, 8 * words);
    } else if words > 0 {
      assert Strided(begin + 32, end, 32) == [];
    }
  }

  lemma ModuleInside(env: Env, obj: int)
    requires ModuleInline(env, obj)
    ensures Within(ScanModule(env, obj), obj, MODULE_SIZE)
  {
    var begin, words := obj + 88, LoadWord(env, obj + MODULE_USINGS);
    var row := Strided(begin, begin + 8 * words, 32);
    StridedInside(begin, words);
    WithinMore(row, begin, 8 * words, obj, MODULE_SIZE);
    var front := ScanModule(env, obj)[..|ScanModule(env, obj)| - |row|];
    assert ScanModule(env, obj) == front + row;
    assert Within(front, obj, MODULE_SIZE);
  }

  /** Every slot the scanner reports for a self-contained object lies inside the bytes that
    get_so_object_size counts, so copying those bytes carries every slot along. */
  lemma ScanInsideObject(env: Env, obj: int, chain: seq<Word>)
    requires SelfContained(env, obj)
    ensures Scan(env, obj, chain).Done? && ObjectSize(env, obj).Done?
    ensures Within(Scan(env, obj, chain).value, obj - HEADER_SIZE, ObjectSize(env, obj).value)
  {
    var vtag := TypeTagOf(env, obj);
    if ScannedType(env, obj).Done? {
      OrdinaryTagsAreSmall(vtag);
      TypedInside(env, obj, ScannedType(env, obj).value);
    } else if vtag == SIMPLEVECTOR_TAG * 16 {
      AlignCovers(LoadWord(env, obj) * WORD_SIZE + SVEC_SIZE + HEADER_SIZE);
    } else if vtag == MODULE_TAG * 16 {
      ModuleInside(env, obj);
      AlignCovers(MODULE_SIZE + HEADER_SIZE);
      WithinMore(ScanModule(env, obj), obj, MODULE_SIZE, obj - HEADER_SIZE, ObjectSize(env, obj).value);
    }
  }

  lemma TaskFieldsFit(obj: int, offs: seq<nat>, size: nat)
    requires (forall off :: off in offs ==> 8 * off + 8 <= TASK_SIZE) && TASK_SIZE + HEADER_SIZE <= size
    ensures Within(Offset8(obj, offs), obj - HEADER_SIZE, size)
  {
    assert forall j :: 0 <= j < |offs| ==> offs[j] in offs;
    FieldsInside(obj, offs, TASK_SIZE);
    WithinMore(Offset8(obj, offs), obj, TASK_SIZE, obj - HEADER_SIZE, size);
  }

  /** A task's stack slots come first and lie elsewhere; the slots of its fields lie inside the task. */
  lemma TaskInside(env: Env, obj: int, chain: seq<Word>)
    requires TypeTagOf(env, obj) == TASK_TAG * 16 && TASK_TAG * 16 !in {env.symbolType, env.buffTag}
    requires var layout := env.typeAt(env.taskType).layout;
             forall off :: off in Offsets(env.mem, LayoutPtrs(layout), 1, layout.npointers) ==> 8 * off + 8 <= TASK_SIZE
    requires TaskSlots(env.taskAt(obj), env.stackMem, env.copyStacks, env.stackbase(obj), chain).Done?
    ensures Scan(env, obj, chain).Done? && ObjectSize(env, obj).Done?
    ensures var stack := TaskSlots(env.taskAt(obj), env.stackMem, env.copyStacks, env.stackbase(obj), chain).value;
            && stack <= Scan(env, obj, chain).value
            && Within(Scan(env, obj, chain).value[|stack|..], obj - HEADER_SIZE, ObjectSize(env, obj).value)
  {
    var stack := TaskSlots(env.taskAt(obj), env.stackMem, env.copyStacks, env.stackbase(obj), chain).value;
    var layout := env.typeAt(env.taskType).layout;
    var offs := Offsets(env.mem, LayoutPtrs(layout), 1, layout.npointers);
    AlignCovers(TASK_SIZE + HEADER_SIZE);
    TaskFieldsFit(obj, offs, ObjectSize(env, obj).value);
    assert Scan(env, obj, chain).value == stack + Offset8(obj, offs);
  }

  lemma OrdinaryTagsAreSmall(vtag: nat)
    ensures OrdinarySmallTag(vtag / 16) ==> vtag < MAX_TAGS * 16
  {
  }

  // Moving an object

  function MemoryOf(bytes: seq<Byte>): ByteMemory {
    (a: int) => if 0 <= a < |bytes| then bytes[a] else 0
  }

  /** The bytes after `n` of them at `start` have been copied to `dst`. */
  function Copied(bytes: seq<Byte>, start: nat, dst: nat, n: nat): (after: seq<Byte>)
    requires start + n <= |bytes| && dst + n <= |bytes|
    ensures |after| == |bytes|
    ensures forall k :: 0 <= k < |after| ==> after[k] == if dst <= k < dst + n then bytes[k - dst + start] else bytes[k]
  {
    seq(|bytes|, k requires 0 <= k < |bytes| => if dst <= k < dst + n then bytes[k - dst + start] else bytes[k])
  }

  /** The environment with these bytes as memory. */
  function OnHeap(env: Env, bytes: seq<Byte>): Env {
    env.(mem := MemoryOf(bytes))
  }

  /** `ptr::copy_nonoverlapping` */
  method CopyBytes(heap: array<Byte>, start: nat, dst: nat, n: nat)
    requires start + n <= heap.Length && dst + n <= heap.Length && (start + n <= dst || dst + n <= start)
    modifies heap
    ensures heap[..] == Copied(old(heap[..]), start, dst, n)
  {
    ghost var was := heap[..];
    forall k | 0 <= k < n {
      heap[dst + k] := heap[start + k];
    }
    CopiedByByte(was, heap[..], start, dst, n);
  }

  lemma CopiedByByte(was: seq<Byte>, now: seq<Byte>, start: nat, dst: nat, n: nat)
    requires start + n <= |was| == |now| && dst + n <= |was|
    requires forall k :: dst <= k < dst + n ==> now[k] == was[k - dst + start]
    requires forall k :: 0 <= k < |now| && !(dst <= k < dst + n) ==> now[k] == was[k]
    ensures now == Copied(was, start, dst, n)
  {
    var after := Copied(was, start, dst, n);
    forall k | 0 <= k < |now| ensures now[k] == after[k] {
    }
  }

  /** Source and destination of a copy are in memory and apart. */
  ghost predicate CanCopy(env: Env, obj: int, dst: nat, length: nat) {
    && ObjectSize(env, obj).Done?
    && var start, n := ObjectStart(env, obj), ObjectSize(env, obj).value;
    0 <= start && start + n <= length && dst + n <= length && (start + n <= dst || dst + n <= start)
  }

  /** The copying part of ObjectModel::copy: the new object's address, or a panic for an object that
    does not have a plain 8-byte header. `dst` is where the collector put the copy. */
  method Copy(env: Env, heap: array<Byte>, obj: int, dst: nat) returns (r: Outcome<int>)
    requires CanCopy(OnHeap(env, heap[..]), obj, dst, heap.Length)
    modifies heap
    ensures var e := OnHeap(env, old(heap[..]));
            if obj - ObjectStart(e, obj) == HEADER_SIZE then
              && r == Done(dst + HEADER_SIZE)
              && heap[..] == Copied(old(heap[..]), ObjectStart(e, obj), dst, ObjectSize(e, obj).value)
            else r == Panic && heap[..] == old(heap[..])
  {
    var e := OnHeap(env, heap[..]);
    var bytes := ObjectSize(e, obj).value;
    var fromStart := ObjectStart(e, obj);
    var headerOffset := obj - fromStart;
    if headerOffset != 8 {
      return Panic;
    }
    CopyBytes(heap, fromStart, dst, bytes);
    r := Done(dst + headerOffset);
  }

  /** The `n` bytes at `a` are found `d` bytes further on in another memory. */
  ghost predicate SameBytes(m: ByteMemory, a: int, n: nat, m': ByteMemory, d: int) {
    forall x :: a <= x < a + n ==> m'(x + d) == m(x)
  }

  lemma LoadSame(m: ByteMemory, a: int, n: nat, m': ByteMemory, d: int)
    requires SameBytes(m, a, n, m', d)
    ensures Load(m', a + d, n) == Load(m, a, n)
  {
    forall i | 0 <= i < n ensures BytesAt(m', a + d, n)[i] == BytesAt(m, a, n)[i] {
      assert m'(a + i + d) == m(a + i);
    }
    assert BytesAt(m', a + d, n) == BytesAt(m, a, n);
  }

  lemma CopiedSameBytes(bytes: seq<Byte>, start: nat, dst: nat, n: nat)
    requires start + n <= |bytes| && dst + n <= |bytes|
    ensures SameBytes(MemoryOf(bytes), start, n, MemoryOf(Copied(bytes, start, dst, n)), dst - start)
  {
    var after := Copied(bytes, start, dst, n);
    forall x | start <= x < start + n ensures after[x + (dst - start)] == bytes[x] {
      assert after[x + (dst - start)] == bytes[x + (dst - start) - dst + start];
    }
  }

  /** A word inside the copied bytes is found at the same place in the copy. */
  lemma CopyCarriesWord(bytes: seq<Byte>, start: nat, dst: nat, n: nat, addr: int)
    requires start + n <= |bytes| && dst + n <= |bytes| && start <= addr && addr + 8 <= start + n
    ensures Load(MemoryOf(Copied(bytes, start, dst, n)), addr + (dst - start), 8) == Load(MemoryOf(bytes), addr, 8)
  {
    CopiedSameBytes(bytes, start, dst, n);
    LoadSame(MemoryOf(bytes), addr, 8, MemoryOf(Copied(bytes, start, dst, n)), dst - start);
  }

  /** Every slot is found, with its contents, `d` bytes further on, in the `n` bytes at `dst`. */
  ghost predicate Carried(slots: seq<Slot>, bytes: seq<Byte>, after: seq<Byte>, d: int, dst: nat, n: nat) {
    forall i :: 0 <= i < |slots| ==>
                  && dst <= slots[i].addr + d && slots[i].addr + d + 8 <= dst + n
                  && Load(MemoryOf(after), slots[i].addr + d, 8) == Load(MemoryOf(bytes), slots[i].addr, 8)
  }

  /** After a copy every slot of the old object is found, with its contents, at the same place in the
    new one. */
  lemma CopyCarriesSlots(env: Env, bytes: seq<Byte>, obj: int, dst: nat, chain: seq<Word>)
    requires SelfContained(OnHeap(env, bytes), obj) && CanCopy(OnHeap(env, bytes), obj, dst, |bytes|)
    requires ObjectStart(OnHeap(env, bytes), obj) == obj - HEADER_SIZE
    ensures var e, start := OnHeap(env, bytes), obj - HEADER_SIZE;
            && Scan(e, obj, chain).Done?
            && var n := ObjectSize(e, obj).value;
            Carried(Scan(e, obj, chain).value, bytes, Copied(bytes, start, dst, n), dst - start, dst, n)
  {
    var e := OnHeap(env, bytes);
    ScanInsideObject(e, obj, chain);
    EachCarried(Scan(e, obj, chain).value, bytes, obj - HEADER_SIZE, dst, ObjectSize(e, obj).value);
  }

  lemma EachCarried(slots: seq<Slot>, bytes: seq<Byte>, start: nat, dst: nat, n: nat)
    requires start + n <= |bytes| && dst + n <= |bytes| && Within(slots, start, n)
    ensures Carried(slots, bytes, Copied(bytes, start, dst, n), dst - start, dst, n)
  {
    forall i | 0 <= i < |slots|
      ensures Load(MemoryOf(Copied(bytes, start, dst, n)), slots[i].addr + (dst - start), 8)
              == Load(MemoryOf(bytes), slots[i].addr, 8)
    {
      CopyCarriesWord(bytes, start, dst, n, slots[i].addr);
    }
  }
}
