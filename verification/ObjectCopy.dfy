/** A copied object is the same object: what scanning and sizing it say after the copy. */
module ObjectCopy {
  import opened Bits
  import opened Slots
  import opened GcStack
  import opened ObjectScan
  import opened ScanFacts
  import opened ObjectModel

  function Shifted(slot: Slot, d: int): Slot {
    slot.(addr := slot.addr + d)
  }

  function ShiftAll(slots: seq<Slot>, d: int): (moved: seq<Slot>)
    ensures |moved| == |slots|
    ensures forall i :: 0 <= i < |slots| ==> moved[i] == Shifted(slots[i], d)
  {
    seq(|slots|, i requires 0 <= i < |slots| => Shifted(slots[i], d))
  }

  /** `length` bytes at `addr` are not among the `n` bytes at `dst`. */
  predicate Outside(addr: int, length: nat, dst: int, n: nat) {
    addr + length <= dst || dst + n <= addr
  }

  /** Objects without pointers into themselves: all but generic memories and modules. */
  ghost predicate Relocatable(env: Env, obj: int) {
    && TypeTagOf(env, obj) != MODULE_TAG * 16
    && (ScannedType(env, obj).Done? ==> env.typeAt(ScannedType(env, obj).value).name != GenericMemoryName)
  }

  /** The copy does not overwrite the object's type: its header, when the tag is its address, and its
    layout's pointer table. */
  ghost predicate TypeOutside(env: Env, obj: int, dst: int, n: nat) {
    && (TypeTagOf(env, obj) >= MAX_TAGS * 16 ==> Outside(TypeTagOf(env, obj) - 8, 8, dst, n))
    && (ScannedType(env, obj).Done? ==>
          var layout := env.typeAt(ScannedType(env, obj).value).layout;
          Outside(LayoutPtrs(layout), Span(TableWidth(layout.fieldDescType), layout.npointers), dst, n))
  }

  /** What is outside the destination is as it was. */
  ghost predicate KeepsOutside(before: Env, after: Env, dst: int, n: nat) {
    && after == before.(mem := after.mem)
    && forall a :: !(dst <= a < dst + n) ==> after.mem(a) == before.mem(a)
  }

  /** What the copy leaves of two environments' memories: the object's bytes are found at the destination
    as well, and everything else is as it was. */
  ghost predicate CopyOf(before: Env, after: Env, start: int, dst: int, n: nat) {
    KeepsOutside(before, after, dst, n) && SameBytes(before.mem, start, n, after.mem, dst - start)
  }

  lemma CopiedIsCopyOf(env: Env, bytes: seq<Byte>, start: nat, dst: nat, n: nat)
    requires start + n <= |bytes| && dst + n <= |bytes|
    ensures CopyOf(OnHeap(env, bytes), OnHeap(env, Copied(bytes, start, dst, n)), start, dst, n)
  {
    CopiedSameBytes(bytes, start, dst, n);
  }

  lemma WordCarried(before: Env, after: Env, start: int, dst: int, n: nat, addr: int)
    requires CopyOf(before, after, start, dst, n) && start <= addr && addr + 8 <= start + n
    ensures LoadWord(after, addr + (dst - start)) == LoadWord(before, addr)
  {
    LoadSame(before.mem, addr, 8, after.mem, dst - start);
  }

  lemma LoadOutside(before: Env, after: Env, dst: int, n: nat, addr: int, length: nat)
    requires KeepsOutside(before, after, dst, n) && Outside(addr, length, dst, n)
    ensures Load(after.mem, addr, length) == Load(before.mem, addr, length)
  {
    assert SameBytes(before.mem, addr, length, after.mem, 0);
    LoadSame(before.mem, addr, length, after.mem, 0);
    assert addr + 0 == addr;
  }

  lemma {:induction false} TableOutside(before: Env, after: Env, dst: int, n: nat, table: int, width: nat, count: nat)
    requires KeepsOutside(before, after, dst, n) && Outside(table, Span(width, count), dst, n)
    ensures Offsets(after.mem, table, width, count) == Offsets(before.mem, table, width, count)
    decreases count
  {
    if count > 0 {
      LoadOutside(before, after, dst, n, table, width);
      TableOutside(before, after, dst, n, table + width, width, count - 1);
    }
  }

  /** The bytes that get_so_object_size counts begin with the header and the words the scan reads. */
  lemma SizeCovers(env: Env, obj: int)
    requires SelfContained(env, obj) && Relocatable(env, obj) && ObjectSize(env, obj).Done?
    ensures ObjectSize(env, obj).value >= 8
    ensures TypeTagOf(env, obj) in {SIMPLEVECTOR_TAG * 16, STRING_TAG * 16} ==> ObjectSize(env, obj).value >= 16
    ensures ScannedType(env, obj).Done? && env.typeAt(ScannedType(env, obj).value).name == ArrayName ==>
              ObjectSize(env, obj).value >= 24
  {
    var vtag := TypeTagOf(env, obj);
    OrdinaryTagsAreSmall(vtag);
    if ScannedType(env, obj).Done? {
      AlignCovers(env.typeAt(ScannedType(env, obj).value).layout.size + HEADER_SIZE);
    } else if vtag == SIMPLEVECTOR_TAG * 16 {
      AlignCovers(LoadWord(env, obj) * WORD_SIZE + SVEC_SIZE + HEADER_SIZE);
    } else if vtag == STRING_TAG * 16 {
      StringCovers(LoadWord(env, obj));
    } else {
      AlignCovers(env.typeAt(env.smallTypeof(vtag / 8)).layout.size + HEADER_SIZE);
    }
  }

  lemma StringCovers(length: nat)
    ensures LltAlign(length + WORD_SIZE + 1 + HEADER_SIZE, 8) >= 16
  {
  }

  lemma SameTag(before: Env, after: Env, obj: int, dst: int, n: nat)
    requires CopyOf(before, after, obj - HEADER_SIZE, dst, n) && n >= 8
    ensures TypeTagOf(after, dst + HEADER_SIZE) == TypeTagOf(before, obj)
  {
    WordCarried(before, after, obj - HEADER_SIZE, dst, n, obj - HEADER_SIZE);
  }

  lemma SameArrayPointer(before: Env, after: Env, obj: int, dst: int, n: nat)
    requires CopyOf(before, after, obj - HEADER_SIZE, dst, n) && n >= 24
    ensures var d := dst + HEADER_SIZE - obj;
            ScanArrayPointer(after, obj + d) == ShiftAll(ScanArrayPointer(before, obj), d)
  {
    WordCarried(before, after, obj - HEADER_SIZE, dst, n, obj + ARRAY_PTR);
    WordCarried(before, after, obj - HEADER_SIZE, dst, n, obj + ARRAY_MEM);
  }

  lemma OffsetShift(base: int, offs: seq<nat>, d: int)
    ensures Offset8(base + d, offs) == ShiftAll(Offset8(base, offs), d)
  {
  }

  lemma SameFields(before: Env, after: Env, obj: int, dst: int, n: nat, layout: Layout)
    requires CopyOf(before, after, obj - HEADER_SIZE, dst, n) && FieldLayout(before, layout)
    requires Outside(LayoutPtrs(layout), Span(TableWidth(layout.fieldDescType), layout.npointers), dst, n)
    ensures var d := dst + HEADER_SIZE - obj;
            && ScanFields(before, obj, layout).Done?
            && ScanFields(after, obj + d, layout) == Done(ShiftAll(ScanFields(before, obj, layout).value, d))
  {
    var d := dst + HEADER_SIZE - obj;
    TableOutside(before, after, dst, n, LayoutPtrs(layout), TableWidth(layout.fieldDescType), layout.npointers);
    assert LayoutOffsets(after, layout) == LayoutOffsets(before, layout);
    OffsetShift(obj, LayoutOffsets(before, layout), d);
  }

  lemma ShiftConcat(a: seq<Slot>, b: seq<Slot>, d: int)
    ensures ShiftAll(a + b, d) == ShiftAll(a, d) + ShiftAll(b, d)
  {
  }

  lemma SameTyped(before: Env, after: Env, obj: int, dst: int, n: nat, vt: int)
    requires CopyOf(before, after, obj - HEADER_SIZE, dst, n)
    requires var t := before.typeAt(vt);
             && t.name != GenericMemoryName && FieldLayout(before, t.layout) && (t.name == ArrayName ==> n >= 24)
             && Outside(LayoutPtrs(t.layout), Span(TableWidth(t.layout.fieldDescType), t.layout.npointers), dst, n)
    ensures var d := dst + HEADER_SIZE - obj;
            && ScanTyped(before, obj, vt).Done?
            && ScanTyped(after, obj + d, vt) == Done(ShiftAll(ScanTyped(before, obj, vt).value, d))
  {
    var d, t := dst + HEADER_SIZE - obj, before.typeAt(vt);
    SameFields(before, after, obj, dst, n, t.layout);
    if t.name == ArrayName {
      SameArrayPointer(before, after, obj, dst, n);
      ShiftConcat(ScanArrayPointer(before, obj), ScanFields(before, obj, t.layout).value, d);
    } else {
      ShiftConcat([], ScanFields(before, obj, t.layout).value, d);
    }
  }

  lemma SameVector(before: Env, after: Env, obj: int, dst: int, n: nat)
    requires CopyOf(before, after, obj - HEADER_SIZE, dst, n) && n >= 16
    ensures var d := dst + HEADER_SIZE - obj;
            ScanSimpleVector(after, obj + d) == ShiftAll(ScanSimpleVector(before, obj), d)
  {
    WordCarried(before, after, obj - HEADER_SIZE, dst, n, obj);
  }

  lemma SameDataType(before: Env, after: Env, dst: int, n: nat, vt: int)
    requires KeepsOutside(before, after, dst, n) && Outside(vt - 8, 8, dst, n)
    ensures IsDataType(after, vt) <==> IsDataType(before, vt)
  {
    LoadOutside(before, after, dst, n, vt - 8, 8);
  }

  lemma SameScan(before: Env, after: Env, obj: int, dst: int, n: nat, chain: seq<Word>)
    requires CopyOf(before, after, obj - HEADER_SIZE, dst, n)
    requires SelfContained(before, obj) && Relocatable(before, obj) && TypeOutside(before, obj, dst, n)
    requires ObjectSize(before, obj) == Done(n)
    ensures var d := dst + HEADER_SIZE - obj;
            && Scan(before, obj, chain).Done?
            && Scan(after, obj + d, chain) == Done(ShiftAll(Scan(before, obj, chain).value, d))
  {
    var vtag := TypeTagOf(before, obj);
    SizeCovers(before, obj);
    SameTag(before, after, obj, dst, n);
    if ScannedType(before, obj).Done? {
      OrdinaryTagsAreSmall(vtag);
      SameTyped(before, after, obj, dst, n, ScannedType(before, obj).value);
      if vtag >= MAX_TAGS * 16 {
        SameDataType(before, after, dst, n, vtag);
      }
    } else if vtag == SIMPLEVECTOR_TAG * 16 {
      SameVector(before, after, obj, dst, n);
    }
  }

  /** The object at `there` in one environment is sized by the same tag, length and type as the one at
    `here` in the other. */
  ghost predicate SizedAlike(before: Env, after: Env, here: int, there: int) {
    && after == before.(mem := after.mem)
    && TypeTagOf(after, there) == TypeTagOf(before, here) != before.buffTag
    && (TypeTagOf(before, here) in {SIMPLEVECTOR_TAG * 16, STRING_TAG * 16} ==>
          LoadWord(after, there) == LoadWord(before, here))
    && (TypeTagOf(before, here) >= MAX_TAGS * 16 ==>
          (IsDataType(after, TypeTagOf(before, here)) <==> IsDataType(before, TypeTagOf(before, here))))
  }

  lemma SameTypedSize(before: Env, after: Env, here: int, there: int, vt: int)
    requires SizedAlike(before, after, here, there) && before.typeAt(vt).name != GenericMemoryName
    ensures SizeTyped(after, there, vt) == SizeTyped(before, here, vt)
  {
    assert TypeOf(after, there) == TypeOf(before, here);
  }

  lemma SmallSize(env: Env, obj: int)
    requires ScannedType(env, obj).Panic? && TypeTagOf(env, obj) != env.buffTag
    ensures var vtag, word := TypeTagOf(env, obj), LoadWord(env, obj);
            ObjectSize(env, obj)
            == if vtag == SIMPLEVECTOR_TAG * 16 then Done(LltAlign(word * WORD_SIZE + SVEC_SIZE + HEADER_SIZE, 16))
               else if vtag == STRING_TAG * 16 then Done(LltAlign(word + WORD_SIZE + 1 + HEADER_SIZE, 8))
               else OtherSmallSize(env, vtag)
  {
  }

  /** The sizes that depend on the tag alone. */
  function OtherSmallSize(env: Env, vtag: nat): Outcome<nat> {
    if vtag == MODULE_TAG * 16 then Done(LltAlign(MODULE_SIZE + HEADER_SIZE, 16))
    else if vtag == TASK_TAG * 16 then Done(LltAlign(TASK_SIZE + HEADER_SIZE, 16))
    else Done(LltAlign(env.typeAt(env.smallTypeof(vtag / 8)).layout.size + HEADER_SIZE, 16))
  }

  lemma SameSizeAlike(before: Env, after: Env, here: int, there: int)
    requires SizedAlike(before, after, here, there) && Relocatable(before, here)
    ensures ObjectSize(after, there) == ObjectSize(before, here)
  {
    if ScannedType(before, here).Done? {
      OrdinaryTagsAreSmall(TypeTagOf(before, here));
      SameTypedSize(before, after, here, there, ScannedType(before, here).value);
    } else {
      SmallSize(before, here);
      SmallSize(after, there);
    }
  }

  lemma SameSize(before: Env, after: Env, obj: int, dst: int, n: nat)
    requires CopyOf(before, after, obj - HEADER_SIZE, dst, n)
    requires SelfContained(before, obj) && Relocatable(before, obj) && TypeOutside(before, obj, dst, n)
    requires ObjectSize(before, obj) == Done(n)
    ensures ObjectSize(after, dst + HEADER_SIZE) == Done(n)
  {
    var vtag := TypeTagOf(before, obj);
    SizeCovers(before, obj);
    SameTag(before, after, obj, dst, n);
    if vtag >= MAX_TAGS * 16 {
      SameDataType(before, after, dst, n, vtag);
    } else if vtag in {SIMPLEVECTOR_TAG * 16, STRING_TAG * 16} {
      WordCarried(before, after, obj - HEADER_SIZE, dst, n, obj);
    }
    SameSizeAlike(before, after, obj, dst + HEADER_SIZE);
  }

  /** Scanning a copied vector, array or plain datatype reports exactly the slots of the original, each
    moved by the distance of the copy, and the copy has the original's size. */
  lemma ScanOfCopy(env: Env, bytes: seq<Byte>, obj: int, dst: nat, chain: seq<Word>)
    requires SelfContained(OnHeap(env, bytes), obj) && Relocatable(OnHeap(env, bytes), obj)
    requires CanCopy(OnHeap(env, bytes), obj, dst, |bytes|)
    requires ObjectStart(OnHeap(env, bytes), obj) == obj - HEADER_SIZE
    requires TypeOutside(OnHeap(env, bytes), obj, dst, ObjectSize(OnHeap(env, bytes), obj).value)
    ensures var before, start, d := OnHeap(env, bytes), obj - HEADER_SIZE, dst + HEADER_SIZE - obj;
            var n := ObjectSize(before, obj).value;
            var after := OnHeap(env, Copied(bytes, start, dst, n));
            && Scan(before, obj, chain).Done?
            && Scan(after, obj + d, chain) == Done(ShiftAll(Scan(before, obj, chain).value, d))
            && ObjectSize(after, obj + d) == Done(n)
  {
    var before, start := OnHeap(env, bytes), obj - HEADER_SIZE;
    var n := ObjectSize(before, obj).value;
    var after := OnHeap(env, Copied(bytes, start, dst, n));
    CopiedIsCopyOf(env, bytes, start, dst, n);
    SameScan(before, after, obj, dst, n, chain);
    SameSize(before, after, obj, dst, n);
  }

  // Objects that point into themselves

  /** A copy in which the word at `field`, a pointer into the object, has been moved along with the object. */
  ghost predicate CorrectedCopyOf(before: Env, after: Env, start: int, dst: int, n: nat, field: int) {
    && KeepsOutside(before, after, dst, n)
    && (forall x :: start <= x < start + n && !(field <= x < field + 8) ==>
                      after.mem(x + (dst - start)) == before.mem(x))
    && LoadWord(after, field + (dst - start)) == LoadWord(before, field) + (dst - start)
  }

  lemma OtherWordCarried(before: Env, after: Env, start: int, dst: int, n: nat, field: int, addr: int)
    requires CorrectedCopyOf(before, after, start, dst, n, field)
    requires start <= addr && addr + 8 <= start + n && (addr + 8 <= field || field + 8 <= addr)
    ensures LoadWord(after, addr + (dst - start)) == LoadWord(before, addr)
  {
    LoadSame(before.mem, addr, 8, after.mem, dst - start);
  }

  lemma {:induction false} ElementsShift(base: int, elsize: nat, offs: seq<nat>, count: nat, d: int)
    ensures Elements(base + d, elsize, offs, count) == ShiftAll(Elements(base, elsize, offs, count), d)
    decreases count
  {
    if count > 0 {
      var next := base + 8 * elsize;
      var first, rest := Offset8(base, offs), Elements(next, elsize, offs, count - 1);
      assert Elements(base, elsize, offs, count) == first + rest;
      assert base + d + 8 * elsize == next + d;
      assert Elements(base + d, elsize, offs, count)
             == Offset8(base + d, offs) + Elements(next + d, elsize, offs, count - 1);
      OffsetShift(base, offs, d);
      ElementsShift(next, elsize, offs, count - 1, d);
      ShiftConcat(first, rest, d);
    }
  }

  lemma {:induction false} StridedShift(begin: int, end: int, stride: nat, d: int)
    requires begin < end ==> stride > 0
    ensures Strided(begin + d, end + d, stride) == ShiftAll(Strided(begin, end, stride), d)
    decreases end - begin
  {
    if begin < end {
      StridedShift(begin + stride, end, stride, d);
      assert begin + d + stride == begin + stride + d;
      ShiftConcat([Simple(begin)], Strided(begin + stride, end, stride), d);
      assert ShiftAll([Simple(begin)], d) == [Simple(begin + d)];
    }
  }

  /** A generic memory that stores its elements, here and at its new address. */
  ghost predicate InlineMemory(env: Env, obj: int, there: int) {
    && SelfContained(env, obj) && ScannedType(env, obj).Done? && env.how(there) == 0
    && env.typeAt(ScannedType(env, obj).value).name == GenericMemoryName
  }

  /** Two memories with the same layout and length, one's data `d` bytes after the other's. */
  lemma MemoryShift(before: Env, after: Env, obj: int, there: int, layout: Layout, d: int)
    requires ElementLayout(before, layout) && LayoutOffsets(after, layout) == LayoutOffsets(before, layout)
    requires before.how(obj) != 3 && after.how(there) != 3
    requires LoadWord(after, there + MEMORY_LENGTH) == LoadWord(before, obj + MEMORY_LENGTH)
    requires LoadWord(after, there + MEMORY_PTR) == LoadWord(before, obj + MEMORY_PTR) + d
    ensures ScanGenericMemory(before, obj, layout).Done?
    ensures ScanGenericMemory(after, there, layout) == Done(ShiftAll(ScanGenericMemory(before, obj, layout).value, d))
  {
    GenericMemoryExact(before, obj, layout);
    GenericMemoryExact(after, there, layout);
    ElementsShift(LoadWord(before, obj + MEMORY_PTR), layout.size / 8, PointerOffsets(before, layout),
                  LoadWord(before, obj + MEMORY_LENGTH), d);
  }

  lemma SameMemory(before: Env, after: Env, obj: int, dst: int, n: nat, layout: Layout)
    requires CorrectedCopyOf(before, after, obj - HEADER_SIZE, dst, n, obj + MEMORY_PTR) && n >= 24
    requires ElementLayout(before, layout) && before.how(obj) == 0 && before.how(dst + HEADER_SIZE) == 0
    requires Outside(LayoutPtrs(layout), Span(TableWidth(layout.fieldDescType), layout.npointers), dst, n)
    ensures var d, there := dst + HEADER_SIZE - obj, dst + HEADER_SIZE;
            && ScanGenericMemory(before, obj, layout).Done?
            && ScanGenericMemory(after, there, layout)
               == Done(ShiftAll(ScanGenericMemory(before, obj, layout).value, d))
            && LoadWord(after, there + MEMORY_LENGTH) == LoadWord(before, obj + MEMORY_LENGTH)
  {
    TableOutside(before, after, dst, n, LayoutPtrs(layout), TableWidth(layout.fieldDescType), layout.npointers);
    OtherWordCarried(before, after, obj - HEADER_SIZE, dst, n, obj + MEMORY_PTR, obj + MEMORY_LENGTH);
    assert obj + MEMORY_LENGTH + (dst - (obj - HEADER_SIZE)) == dst + HEADER_SIZE + MEMORY_LENGTH;
    assert obj + MEMORY_PTR + (dst - (obj - HEADER_SIZE)) == dst + HEADER_SIZE + MEMORY_PTR;
    MemoryShift(before, after, obj, dst + HEADER_SIZE, layout, dst + HEADER_SIZE - obj);
  }

  lemma MemoryCovers(env: Env, obj: int, vt: int)
    requires env.typeAt(vt).name == GenericMemoryName && env.how(obj) == 0 && TypeOf(env, obj) == vt
    ensures SizeTyped(env, obj, vt).Done? && SizeTyped(env, obj, vt).value >= 24
  {
    MemorySize(env, obj, vt);
    assert env.typeAt(vt).layout.size * LoadWord(env, obj + MEMORY_LENGTH) >= 0;
  }

  lemma SameMemorySize(before: Env, after: Env, obj: int, there: int, vt: int)
    requires after == before.(mem := after.mem) && before.how(obj) == before.how(there) == 0
    requires before.typeAt(vt).name == GenericMemoryName && TypeOf(after, there) == TypeOf(before, obj)
    requires LoadWord(after, there + MEMORY_LENGTH) == LoadWord(before, obj + MEMORY_LENGTH)
    ensures SizeTyped(after, there, vt) == SizeTyped(before, obj, vt)
  {
  }

  /** What scanning and sizing do to an object is decided by its tag and, for a large one, by its type. */
  lemma TypedBySameTag(before: Env, after: Env, obj: int, there: int, chain: seq<Word>)
    requires after == before.(mem := after.mem) && SelfContained(before, obj) && ScannedType(before, obj).Done?
    requires TypeTagOf(after, there) == TypeTagOf(before, obj)
    requires var vtag := TypeTagOf(before, obj); vtag >= MAX_TAGS * 16 ==> IsDataType(after, vtag)
    ensures var vt := ScannedType(before, obj).value;
            && Scan(before, obj, chain) == ScanTyped(before, obj, vt)
            && Scan(after, there, chain) == ScanTyped(after, there, vt)
            && ObjectSize(before, obj) == SizeTyped(before, obj, vt)
            && ObjectSize(after, there) == SizeTyped(after, there, vt)
            && TypeOf(before, obj) == TypeOf(after, there) == vt
  {
    OrdinaryTagsAreSmall(TypeTagOf(before, obj));
  }

  lemma MemoryTyped(before: Env, after: Env, obj: int, dst: int, n: nat, chain: seq<Word>)
    requires InlineMemory(before, obj, dst + HEADER_SIZE) && TypeOutside(before, obj, dst, n)
    requires ObjectSize(before, obj) == Done(n)
    requires CorrectedCopyOf(before, after, obj - HEADER_SIZE, dst, n, obj + MEMORY_PTR)
    ensures var vt, there := ScannedType(before, obj).value, dst + HEADER_SIZE;
            && n >= 24 && TypeOf(before, obj) == TypeOf(after, there) == vt
            && Scan(before, obj, chain) == ScanTyped(before, obj, vt)
            && Scan(after, there, chain) == ScanTyped(after, there, vt)
            && ObjectSize(before, obj) == SizeTyped(before, obj, vt)
            && ObjectSize(after, there) == SizeTyped(after, there, vt)
  {
    var vtag, vt := TypeTagOf(before, obj), ScannedType(before, obj).value;
    OrdinaryTagsAreSmall(vtag);
    MemoryCovers(before, obj, vt);
    OtherWordCarried(before, after, obj - HEADER_SIZE, dst, n, obj + MEMORY_PTR, obj - HEADER_SIZE);
    if vtag >= MAX_TAGS * 16 {
      SameDataType(before, after, dst, n, vtag);
    }
    TypedBySameTag(before, after, obj, dst + HEADER_SIZE, chain);
  }

  /** Scanning a copied generic memory, once its data pointer points at the copy's own data, reports exactly
    the slots of the original, each moved by the distance of the copy. */
  lemma ScanOfCopiedMemory(before: Env, after: Env, obj: int, dst: int, n: nat, chain: seq<Word>)
    requires InlineMemory(before, obj, dst + HEADER_SIZE) && TypeOutside(before, obj, dst, n)
    requires ObjectSize(before, obj) == Done(n)
    requires CorrectedCopyOf(before, after, obj - HEADER_SIZE, dst, n, obj + MEMORY_PTR)
    ensures var d, there := dst + HEADER_SIZE - obj, dst + HEADER_SIZE;
            && Scan(before, obj, chain).Done?
            && Scan(after, there, chain) == Done(ShiftAll(Scan(before, obj, chain).value, d))
            && ObjectSize(after, there) == Done(n)
  {
    var vt := ScannedType(before, obj).value;
    MemoryTyped(before, after, obj, dst, n, chain);
    SameMemory(before, after, obj, dst, n, before.typeAt(vt).layout);
    SameMemorySize(before, after, obj, dst + HEADER_SIZE, vt);
  }

  /** The owner of a memory that borrows its elements: where the runtime keeps it behind the memory's own
    words, the slot lies in the extra word that the size counts for it. */
  lemma OwnerInside(env: Env, obj: int, vt: int)
    requires env.typeAt(vt).name == GenericMemoryName && TypeOf(env, obj) == vt
    requires env.how(obj) == 3 && env.ownerSlot(obj) == obj + MEMORY_SIZE
    ensures ScanTyped(env, obj, vt).Done? && SizeTyped(env, obj, vt).Done?
    ensures Within(ScanTyped(env, obj, vt).value, obj - HEADER_SIZE, SizeTyped(env, obj, vt).value)
  {
    AlignCovers(MEMORY_SIZE + WORD_SIZE + HEADER_SIZE);
  }

  // Modules

  const USINGS_ITEMS := MODULE_USINGS + LIST_ITEMS

  /** The slots a module's scan reports before those of its list of usings. */
  function ModuleFront(obj: int, inline: bool): seq<Slot> {
    [Simple(obj + MODULE_BINDINGS), Simple(obj + MODULE_BINDINGKEYSET), Simple(obj + MODULE_PARENT),
     Simple(obj + MODULE_USINGS_BACKEDGES), Simple(obj + MODULE_SCANNED_METHODS)]
    + if inline then [Offset(obj + USINGS_ITEMS, MODULE_USINGS + LIST_SPACE)] else []
  }

  function ModuleRows(items: int, length: nat): seq<Slot> {
    Strided(items, items + 8 * length, 32)
  }

  lemma ModuleParts(env: Env, obj: int)
    ensures var items, length := LoadWord(env, obj + USINGS_ITEMS), LoadWord(env, obj + MODULE_USINGS);
            ScanModule(env, obj) == ModuleFront(obj, env.managed(items)) + ModuleRows(items, length)
  {
  }

  lemma FrontShift(obj: int, inline: bool, d: int)
    ensures ModuleFront(obj + d, inline) == ShiftAll(ModuleFront(obj, inline), d)
  {
  }

  ghost predicate IsModule(env: Env, obj: int) {
    TypeTagOf(env, obj) == MODULE_TAG * 16 && MODULE_TAG * 16 !in {env.symbolType, env.buffTag}
  }

  lemma ModuleScanned(env: Env, obj: int, chain: seq<Word>)
    requires IsModule(env, obj)
    ensures Scan(env, obj, chain) == Done(ScanModule(env, obj))
    ensures ObjectSize(env, obj).Done? && ObjectSize(env, obj).value >= MODULE_SIZE + HEADER_SIZE
  {
    AlignCovers(MODULE_SIZE + HEADER_SIZE);
  }

  /** Scanning a copied module, once its pointer to its list of usings has moved with it, reports the
    original's slots, each moved by the distance of the copy. */
  lemma ScanOfCopiedModule(before: Env, after: Env, obj: int, dst: int, n: nat, chain: seq<Word>)
    requires IsModule(before, obj) && ObjectSize(before, obj) == Done(n)
    requires CorrectedCopyOf(before, after, obj - HEADER_SIZE, dst, n, obj + USINGS_ITEMS)
    requires before.managed(LoadWord(after, dst + HEADER_SIZE + USINGS_ITEMS))
             == before.managed(LoadWord(before, obj + USINGS_ITEMS))
    ensures Scan(before, obj, chain).Done?
    ensures Scan(after, dst + HEADER_SIZE, chain)
            == Done(ShiftAll(Scan(before, obj, chain).value, dst + HEADER_SIZE - obj))
  {
    var d, start, there, field := dst + HEADER_SIZE - obj, obj - HEADER_SIZE, dst + HEADER_SIZE, obj + USINGS_ITEMS;
    var items, length := LoadWord(before, field), LoadWord(before, obj + MODULE_USINGS);
    ModuleScanned(before, obj, chain);
    OtherWordCarried(before, after, start, dst, n, field, start);
    OtherWordCarried(before, after, start, dst, n, field, obj + MODULE_USINGS);
    ModuleScanned(after, there, chain);
    ModuleParts(before, obj);
    ModuleParts(after, there);
    FrontShift(obj, before.managed(items), d);
    StridedShift(items, items + 8 * length, 32, d);
    ShiftConcat(ModuleFront(obj, before.managed(items)), ModuleRows(items, length), d);
  }

  /** Before that pointer is corrected, the scan of the copy finds the copy's own fields but goes through the
    list of usings at its old place. */
  lemma UncorrectedModuleRows(before: Env, after: Env, obj: int, dst: int, n: nat, chain: seq<Word>)
    requires IsModule(before, obj) && ObjectSize(before, obj) == Done(n)
    requires CopyOf(before, after, obj - HEADER_SIZE, dst, n)
    ensures var items, length := LoadWord(before, obj + USINGS_ITEMS), LoadWord(before, obj + MODULE_USINGS);
            var front := ModuleFront(obj, before.managed(items));
            && Scan(before, obj, chain) == Done(front + ModuleRows(items, length))
            && Scan(after, dst + HEADER_SIZE, chain)
               == Done(ShiftAll(front, dst + HEADER_SIZE - obj) + ModuleRows(items, length))
  {
    var d, there := dst + HEADER_SIZE - obj, dst + HEADER_SIZE;
    ModuleScanned(before, obj, chain);
    SameTag(before, after, obj, dst, n);
    WordCarried(before, after, obj - HEADER_SIZE, dst, n, obj + USINGS_ITEMS);
    WordCarried(before, after, obj - HEADER_SIZE, dst, n, obj + MODULE_USINGS);
    ModuleScanned(after, there, chain);
    ModuleParts(before, obj);
    ModuleParts(after, there);
    FrontShift(obj, before.managed(LoadWord(before, obj + USINGS_ITEMS)), d);
  }
}
