/** Enumerating an object's pointer slots (julia_scanning.rs, scan_julia_object).

  Memory is a byte at each address, numbers are little-endian and addresses do not wrap around.
  Types and their layouts are given by the environment; a layout's pointer table is read from memory
  in one of three widths. */
module ObjectScan {
  import opened Bits
  import opened Slots
  import opened GcStack
  import opened Sequences
  import Bitfields

  type ByteMemory = int -> Byte

  function BytesAt(mem: ByteMemory, addr: int, n: nat): (bytes: seq<Byte>)
    ensures |bytes| == n
    ensures forall i :: 0 <= i < n ==> bytes[i] == mem(addr + i)
  {
    seq(n, i requires 0 <= i < n => mem(addr + i))
  }

  /** The `n`-byte little-endian number at an address. */
  function Load(mem: ByteMemory, addr: int, n: nat): nat {
    Bitfields.Value(BytesAt(mem, addr, n))
  }

  // Tags of the small types

  const DATATYPE_TAG := 2
  const UNIONALL_TAG := 3
  const UNIONTYPE_TAG := 4
  const VARARG_TAG := 5
  const TVAR_TAG := 6
  const MODULE_TAG := 8
  const SIMPLEVECTOR_TAG := 9
  const STRING_TAG := 10
  const TASK_TAG := 11
  const GOTOIFNOT_TAG := 28
  const RETURNNODE_TAG := 29
  const ENTERNODE_TAG := 30
  const PINODE_TAG := 31
  const PHINODE_TAG := 32
  const PHICNODE_TAG := 33
  const UPSILONNODE_TAG := 34
  const GLOBALREF_TAG := 35
  const QUOTENODE_TAG := 37
  const MAX_TAGS := 64

  /** Small types scanned and sized like any other datatype. */
  predicate OrdinarySmallTag(tag: nat) {
    tag in {DATATYPE_TAG, UNIONALL_TAG, UNIONTYPE_TAG, TVAR_TAG, VARARG_TAG, GLOBALREF_TAG, GOTOIFNOT_TAG,
            RETURNNODE_TAG, ENTERNODE_TAG, PINODE_TAG, PHINODE_TAG, PHICNODE_TAG, UPSILONNODE_TAG, QUOTENODE_TAG}
  }

  // Types

  const LAYOUT_SIZE := 20
  const SVEC_SIZE := 8

  datatype Layout = Layout(addr: int, size: nat, nfields: nat, npointers: nat, firstPtr: int,
                           fieldDescType: nat, isBoxed: bool, isUnion: bool)

  datatype TypeName = ArrayName | GenericMemoryName | OtherName

  datatype DataType = DataType(name: TypeName, layout: Layout, typeTag: nat, smallTag: nat)

  /** Everything a scan depends on besides the object's address. */
  datatype Env = Env(
    mem: ByteMemory,
    typeAt: int -> DataType,
    smallTypeof: int -> int,
    symbolType: int,
    weakrefType: int,
    taskType: int,
    buffTag: nat,
    managed: int -> bool,
    how: int -> nat,
    ownerSlot: int -> int,
    taskAt: int -> Task,
    stackMem: Memory,
    stackbase: int -> Word,
    copyStacks: bool)

  function LoadWord(env: Env, addr: int): nat {
    Load(env.mem, addr, 8)
  }

  /** mmtk_jl_typetagof: the header word with its low four bits cleared. */
  function TypeTagOf(env: Env, obj: int): nat {
    var header := LoadWord(env, obj - 8);
    header - header % 16
  }

  /** mmtk_jl_fielddesc_size */
  function FieldDescSize(fieldDescType: nat): nat {
    2 * Pow2(fieldDescType)
  }

  /** mmtk_jl_dt_layout_ptrs; the product is a 32-bit one. */
  function LayoutPtrs(layout: Layout): int {
    layout.addr + LAYOUT_SIZE + FieldDescSize(layout.fieldDescType) * layout.nfields % 0x1_0000_0000
  }

  // Slots in rows

  /** Every `stride`-th byte address from `begin` up to `end`. */
  function Strided(begin: int, end: int, stride: nat): seq<Slot>
    requires begin < end ==> stride > 0
    decreases end - begin
  {
    if begin >= end then [] else [Simple(begin)] + Strided(begin + stride, end, stride)
  }

  /** `count` slots, `stride` bytes apart. */
  function Row(begin: int, stride: nat, count: nat): (slots: seq<Slot>)
    ensures |slots| == count
    ensures forall k :: 0 <= k < count ==> slots[k] == Simple(begin + k * stride)
  {
    seq(count, k requires 0 <= k < count => Simple(begin + k * stride))
  }

  lemma {:induction false} StridedIsRow(begin: int, end: int, stride: nat, count: nat)
    requires stride > 0 && begin + (count - 1) * stride < end <= begin + count * stride
    ensures Strided(begin, end, stride) == Row(begin, stride, count)
    decreases count
  {
    if count > 0 {
      StridedPositive(begin, end, stride, count);
      assert begin + stride + (count - 2) * stride == begin + (count - 1) * stride;
      assert begin + stride + (count - 1) * stride == begin + count * stride;
      StridedIsRow(begin + stride, end, stride, count - 1);
      RowSplit(begin, stride, count);
    }
  }

  lemma StridedPositive(begin: int, end: int, stride: nat, count: nat)
    requires stride > 0 && count > 0 && begin + (count - 1) * stride < end
    ensures begin < end
  {
    assert (count - 1) * stride >= 0;
  }

  lemma RowSplit(begin: int, stride: nat, count: nat)
    requires count > 0
    ensures Row(begin, stride, count) == [Simple(begin)] + Row(begin + stride, stride, count - 1)
  {
    forall k | 0 < k < count ensures Row(begin, stride, count)[k] == Row(begin + stride, stride, count - 1)[k - 1] {
      assert begin + k * stride == begin + stride + (k - 1) * stride;
    }
  }

  /** The word offsets in a table of `count` entries of `width` bytes. */
  function Offsets(mem: ByteMemory, table: int, width: nat, count: nat): (offs: seq<nat>)
    ensures |offs| == count
    decreases count
  {
    if count == 0 then [] else [Load(mem, table, width)] + Offsets(mem, table + width, width, count - 1)
  }

  /** One slot per offset from `base`. */
  function Offset8(base: int, offs: seq<nat>): (slots: seq<Slot>)
    ensures |slots| == |offs|
    ensures forall j :: 0 <= j < |offs| ==> slots[j] == Simple(base + 8 * offs[j])
  {
    if offs == [] then [] else [Simple(base + 8 * offs[0])] + Offset8(base, offs[1..])
  }

  /** The slots of `count` elements of `elsize` words: each element, each pointer offset. */
  function Elements(base: int, elsize: nat, offs: seq<nat>, count: nat): seq<Slot>
    decreases count
  {
    if count == 0 then [] else Offset8(base, offs) + Elements(base + 8 * elsize, elsize, offs, count - 1)
  }

  // What is scanned

  function TableWidth(fieldDescType: nat): nat {
    Pow2(fieldDescType)
  }

  function LayoutOffsets(env: Env, layout: Layout): seq<nat> {
    Offsets(env.mem, LayoutPtrs(layout), TableWidth(layout.fieldDescType), layout.npointers)
  }

  function ScanSimpleVector(env: Env, obj: int): seq<Slot> {
    Row(obj + SVEC_SIZE, 8, LoadWord(env, obj))
  }

  const MODULE_PARENT := 8
  const MODULE_BINDINGS := 16
  const MODULE_BINDINGKEYSET := 24
  const MODULE_USINGS_BACKEDGES := 48
  const MODULE_SCANNED_METHODS := 56
  const MODULE_USINGS := 64
  const LIST_ITEMS := 16
  const LIST_SPACE := 24

  function ScanModule(env: Env, obj: int): seq<Slot> {
    var usings := obj + MODULE_USINGS;
    var items := LoadWord(env, usings + LIST_ITEMS);
    [Simple(obj + MODULE_BINDINGS), Simple(obj + MODULE_BINDINGKEYSET), Simple(obj + MODULE_PARENT),
     Simple(obj + MODULE_USINGS_BACKEDGES), Simple(obj + MODULE_SCANNED_METHODS)]
    + (if env.managed(items) then [Offset(usings + LIST_ITEMS, MODULE_USINGS + LIST_SPACE)] else [])
    + Strided(items, items + 8 * LoadWord(env, usings), 32)
  }

  /** A task: its shadow stack, then its fields, whose offsets are single bytes. */
  function ScanTask(env: Env, obj: int, chain: seq<Word>): Outcome<seq<Slot>> {
    match TaskSlots(env.taskAt(obj), env.stackMem, env.copyStacks, env.stackbase(obj), chain)
    case Panic => Panic
    case Done(stack) =>
      var layout := env.typeAt(env.taskType).layout;
      Done(stack + Offset8(obj, Offsets(env.mem, LayoutPtrs(layout), 1, layout.npointers)))
  }

  const MEMORY_LENGTH := 0
  const MEMORY_PTR := 8
  const ARRAY_PTR := 0
  const ARRAY_MEM := 8

  /** The interior data pointer of an array, when it points past a managed memory object's start. */
  function ScanArrayPointer(env: Env, obj: int): seq<Slot> {
    var ptr, mem := LoadWord(env, obj + ARRAY_PTR), LoadWord(env, obj + ARRAY_MEM);
    if env.managed(ptr) && ptr > mem then [Offset(obj + ARRAY_PTR, (ptr - mem) % WORD_VALUES)] else []
  }

  function ScanGenericMemory(env: Env, obj: int, layout: Layout): Outcome<seq<Slot>> {
    var length, ptr := LoadWord(env, obj + MEMORY_LENGTH), LoadWord(env, obj + MEMORY_PTR);
    var elsize := layout.size / 8;
    if env.how(obj) == 3 then Done([Simple(env.ownerSlot(obj))])
    else if length == 0 then Done([])
    else if layout.isBoxed then Done(Row(ptr, 8, length))
    else if layout.firstPtr < 0 then Done([])
    else if layout.npointers == 1 then
      Done(Strided(ptr + 8 * layout.firstPtr, ptr + 8 * (length * elsize), 8 * elsize))
    else if layout.fieldDescType <= 1 then
      Done(Elements(ptr, elsize, LayoutOffsets(env, layout), if elsize == 0 then 0 else length))
    else Panic
  }

  function ScanFields(env: Env, obj: int, layout: Layout): Outcome<seq<Slot>> {
    if layout.npointers == 0 then Done([])
    else if layout.fieldDescType <= 2 then Done(Offset8(obj, LayoutOffsets(env, layout)))
    else Panic
  }

  function ScanTyped(env: Env, obj: int, vt: int): Outcome<seq<Slot>> {
    var t := env.typeAt(vt);
    if t.name == GenericMemoryName then ScanGenericMemory(env, obj, t.layout)
    else
      var front := if t.name == ArrayName then ScanArrayPointer(env, obj) else [];
      if vt == env.weakrefType then Done(front)
      else
        match ScanFields(env, obj, t.layout)
        case Done(fields) => Done(front + fields)
        case Panic => Panic
  }

  /** A large type tag names a datatype. */
  predicate IsDataType(env: Env, vt: int) {
    TypeTagOf(env, vt) == DATATYPE_TAG * 16 && env.typeAt(vt).smallTag == 0
  }

  /** The slots a scan of the object at `obj` reports. `chain` is the frame chain of a task's stack. */
  function Scan(env: Env, obj: int, chain: seq<Word>): Outcome<seq<Slot>> {
    var vtag := TypeTagOf(env, obj);
    if vtag == env.symbolType || vtag == env.buffTag then Done([])
    else if OrdinarySmallTag(vtag / 16) then ScanTyped(env, obj, env.smallTypeof(vtag / 8))
    else if vtag < MAX_TAGS * 16 then
      if vtag == SIMPLEVECTOR_TAG * 16 then Done(ScanSimpleVector(env, obj))
      else if vtag == MODULE_TAG * 16 then Done(ScanModule(env, obj))
      else if vtag == TASK_TAG * 16 then ScanTask(env, obj, chain)
      else Done([])
    else if !IsDataType(env, vtag) then Panic
    else ScanTyped(env, obj, vtag)
  }

  // The loops

  /** `while begin < end { visit; begin += stride }` */
  method VisitRow(begin0: int, end: int, stride: nat) returns (slots: seq<Slot>)
    requires begin0 < end ==> stride > 0
    ensures slots == Strided(begin0, end, stride)
  {
    var begin := begin0;
    slots := [];
    while begin < end
      invariant slots + Strided(begin, end, stride) == Strided(begin0, end, stride)
      decreases end - begin
    {
      Associate(slots, [Simple(begin)], Strided(begin + stride, end, stride));
      slots := slots + [Simple(begin)];
      begin := begin + stride;
    }
  }

  /** The loop over a pointer table, from entry to entry. */
  method VisitTable(mem: ByteMemory, base: int, table: int, width: nat, count: nat) returns (slots: seq<Slot>)
    requires width > 0
    ensures slots == Offset8(base, Offsets(mem, table, width, count))
  {
    var entry, end := table, table + width * count;
    slots := [];
    ghost var offs, j := Offsets(mem, table, width, count), 0;
    SpanIsProduct(width, count);
    while entry < end
      invariant |slots| == j <= count && entry == table + Span(width, j) && end == table + Span(width, count)
      invariant forall i :: 0 <= i < j ==> slots[i] == Simple(base + 8 * offs[i])
      decreases count - j
    {
      SpanMonotone(width, count, j);
      OffsetAt(mem, table, width, count, j);
      var loaded := Load(mem, entry, width);
      slots := slots + [Simple(base + 8 * loaded)];
      entry, j := entry + width, j + 1;
    }
    SpanMonotone(width, j, count);
  }

  /** `width * n`, one step at a time. */
  function Span(width: nat, n: nat): nat {
    if n == 0 then 0 else Span(width, n - 1) + width
  }

  lemma {:induction false} SpanIsProduct(width: nat, n: nat)
    ensures Span(width, n) == width * n
  {
    if n > 0 {
      SpanIsProduct(width, n - 1);
    }
  }

  lemma {:induction false} SpanMonotone(width: nat, a: nat, b: nat)
    requires width > 0
    ensures a < b ==> Span(width, a) < Span(width, b)
    ensures a <= b ==> Span(width, a) <= Span(width, b)
    decreases b
  {
    if a < b {
      SpanMonotone(width, a, b - 1);
    }
  }

  lemma {:induction false} OffsetAt(mem: ByteMemory, table: int, width: nat, count: nat, j: nat)
    requires j < count
    ensures Offsets(mem, table, width, count)[j] == Load(mem, table + Span(width, j), width)
    decreases j
  {
    if j > 0 {
      OffsetAt(mem, table + width, width, count - 1, j - 1);
    }
  }

  /** The nested loops over elements and their pointer table. */
  method VisitElements(mem: ByteMemory, ptr: int, elsize: nat, length: nat, table: int, width: nat, npointers: nat)
    returns (slots: seq<Slot>)
    requires width > 0
    ensures slots == Elements(ptr, elsize, Offsets(mem, table, width, npointers), if elsize == 0 then 0 else length)
  {
    var end := ptr + 8 * (length * elsize);
    ghost var count := if elsize == 0 then 0 else length;
    SpanIsProduct(8 * elsize, count);
    assert 8 * (length * elsize) == 8 * elsize * count;
    slots := VisitElementsUpTo(mem, ptr, elsize, end, table, width, npointers, count);
  }

  /** The outer loop, one element at a time. */
  method VisitElementsUpTo(mem: ByteMemory, ptr: int, elsize: nat, end: int, table: int, width: nat, npointers: nat,
                           ghost count: nat)
    returns (slots: seq<Slot>)
    requires width > 0 && end == ptr + Span(8 * elsize, count) && (elsize == 0 ==> count == 0)
    ensures slots == Elements(ptr, elsize, Offsets(mem, table, width, npointers), count)
  {
    ghost var offs := Offsets(mem, table, width, npointers);
    var begin := ptr;
    slots := [];
    ghost var left, rest := count, Elements(ptr, elsize, offs, count);
    ghost var all := rest;
    while begin < end
      invariant begin + Span(8 * elsize, left) == end && rest == Elements(begin, elsize, offs, left)
      invariant slots + rest == all
      decreases left
    {
      var own := VisitTable(mem, begin, table, width, npointers);
      ghost var later := Elements(begin + 8 * elsize, elsize, offs, left - 1);
      assert rest == own + later;
      Associate(slots, own, later);
      slots := slots + own;
      begin, left, rest := begin + 8 * elsize, left - 1, later;
    }
    if elsize > 0 {
      SpanMonotone(8 * elsize, 0, left);
    }
  }

  // The scan

  /** A run of `length` object references. */
  method VisitWords(begin: int, length: nat) returns (slots: seq<Slot>)
    ensures slots == Row(begin, 8, length)
  {
    slots := VisitRow(begin, begin + 8 * length, 8);
    StridedIsRow(begin, begin + 8 * length, 8, length);
  }

  method VisitModule(env: Env, obj: int) returns (slots: seq<Slot>)
    ensures slots == ScanModule(env, obj)
  {
    var usings := obj + MODULE_USINGS;
    slots := [Simple(obj + MODULE_BINDINGS), Simple(obj + MODULE_BINDINGKEYSET), Simple(obj + MODULE_PARENT),
              Simple(obj + MODULE_USINGS_BACKEDGES), Simple(obj + MODULE_SCANNED_METHODS)];
    var items := LoadWord(env, usings + LIST_ITEMS);
    if env.managed(items) {
      slots := slots + [Offset(usings + LIST_ITEMS, MODULE_USINGS + LIST_SPACE)];
    }
    var nusings := LoadWord(env, usings);
    if nusings > 0 {
      var rows := VisitRow(items, items + 8 * nusings, 32);
      slots := slots + rows;
    }
  }

  method VisitTask(env: Env, obj: int, ghost chain: seq<Word>) returns (r: Outcome<seq<Slot>>)
    requires TaskChain(env.taskAt(obj), env.stackMem, env.copyStacks, env.stackbase(obj), chain)
    ensures r == ScanTask(env, obj, chain)
  {
    var stack := ScanGcStack(env.taskAt(obj), env.stackMem, env.copyStacks, env.stackbase(obj), chain);
    if stack.Panic? {
      return Panic;
    }
    var layout := env.typeAt(env.taskType).layout;
    var fields := VisitTable(env.mem, obj, LayoutPtrs(layout), 1, layout.npointers);
    r := Done(stack.value + fields);
  }

  method VisitGenericMemory(env: Env, obj: int, layout: Layout) returns (r: Outcome<seq<Slot>>)
    ensures r == ScanGenericMemory(env, obj, layout)
  {
    if env.how(obj) == 3 {
      return Done([Simple(env.ownerSlot(obj))]);
    }
    var length := LoadWord(env, obj + MEMORY_LENGTH);
    if length == 0 {
      return Done([]);
    }
    var ptr := LoadWord(env, obj + MEMORY_PTR);
    if layout.isBoxed {
      var slots := VisitWords(ptr, length);
      return Done(slots);
    }
    if layout.firstPtr >= 0 {
      var elsize := layout.size / 8;
      if layout.npointers == 1 {
        var end := ptr + 8 * (length * elsize);
        var slots := VisitRow(ptr + 8 * layout.firstPtr, end, 8 * elsize);
        return Done(slots);
      } else if layout.fieldDescType == 0 {
        var slots := VisitElements(env.mem, ptr, elsize, length, LayoutPtrs(layout), 1, layout.npointers);
        return Done(slots);
      } else if layout.fieldDescType == 1 {
        var slots := VisitElements(env.mem, ptr, elsize, length, LayoutPtrs(layout), 2, layout.npointers);
        return Done(slots);
      } else {
        return Panic;
      }
    }
    return Done([]);
  }

  method VisitFields(env: Env, obj: int, layout: Layout) returns (r: Outcome<seq<Slot>>)
    ensures r == ScanFields(env, obj, layout)
  {
    if layout.npointers == 0 {
      return Done([]);
    }
    var slots;
    if layout.fieldDescType == 0 {
      slots := VisitTable(env.mem, obj, LayoutPtrs(layout), 1, layout.npointers);
    } else if layout.fieldDescType == 1 {
      slots := VisitTable(env.mem, obj, LayoutPtrs(layout), 2, layout.npointers);
    } else if layout.fieldDescType == 2 {
      slots := VisitTable(env.mem, obj, LayoutPtrs(layout), 4, layout.npointers);
    } else {
      return Panic;
    }
    r := Done(slots);
  }

  method VisitTyped(env: Env, obj: int, vt: int) returns (r: Outcome<seq<Slot>>)
    ensures r == ScanTyped(env, obj, vt)
  {
    var t := env.typeAt(vt);
    var slots := [];
    if t.name == ArrayName {
      slots := ScanArrayPointer(env, obj);
    }
    if t.name == GenericMemoryName {
      r := VisitGenericMemory(env, obj, t.layout);
      return;
    }
    if vt == env.weakrefType {
      return Done(slots);
    }
    var fields := VisitFields(env, obj, t.layout);
    if fields.Panic? {
      return Panic;
    }
    r := Done(slots + fields.value);
  }

  /** scan_julia_object */
  method ScanJuliaObject(env: Env, obj: int, ghost chain: seq<Word>) returns (r: Outcome<seq<Slot>>)
    requires TypeTagOf(env, obj) == TASK_TAG * 16 ==>
               TaskChain(env.taskAt(obj), env.stackMem, env.copyStacks, env.stackbase(obj), chain)
    ensures r == Scan(env, obj, chain)
  {
    var vtag := TypeTagOf(env, obj);
    if vtag == env.symbolType || vtag == env.buffTag {
      return Done([]);
    }
    if OrdinarySmallTag(vtag / 16) {
      vtag := env.smallTypeof(vtag / 8);
      r := VisitTyped(env, obj, vtag);
    } else if vtag < MAX_TAGS * 16 {
      if vtag == SIMPLEVECTOR_TAG * 16 {
        var slots := VisitWords(obj + SVEC_SIZE, LoadWord(env, obj));
        r := Done(slots);
      } else if vtag == MODULE_TAG * 16 {
        var slots := VisitModule(env, obj);
        r := Done(slots);
      } else if vtag == TASK_TAG * 16 {
        r := VisitTask(env, obj, chain);
      } else {
        r := Done([]);
      }
    } else if !IsDataType(env, vtag) {
      r := Panic;
    } else {
      r := VisitTyped(env, obj, vtag);
    }
  }
}
