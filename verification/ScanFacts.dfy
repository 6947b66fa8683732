/** What a scan of an object's elements and fields enumerates. */
module ScanFacts {
  import opened Bits
  import opened Slots
  import opened GcStack
  import opened ObjectScan
  import opened Sequences

  // Elements: each element, each pointer offset

  lemma {:induction false} ElementsCount(base: int, elsize: nat, offs: seq<nat>, count: nat)
    ensures |Elements(base, elsize, offs, count)| == count * |offs|
    decreases count
  {
    if count > 0 {
      ElementsCount(base + 8 * elsize, elsize, offs, count - 1);
      assert count * |offs| == |offs| + (count - 1) * |offs|;
    }
  }

  /** The slots of each element. */
  function ElementParts(base: int, elsize: nat, offs: seq<nat>, count: nat): (parts: seq<seq<Slot>>)
    ensures |parts| == count
    decreases count
  {
    if count == 0 then [] else [Offset8(base, offs)] + ElementParts(base + 8 * elsize, elsize, offs, count - 1)
  }

  lemma {:induction false} ElementsAreParts(base: int, elsize: nat, offs: seq<nat>, count: nat)
    ensures Elements(base, elsize, offs, count) == Concat(ElementParts(base, elsize, offs, count))
    decreases count
  {
    if count > 0 {
      ElementsAreParts(base + 8 * elsize, elsize, offs, count - 1);
      assert ElementParts(base, elsize, offs, count)[1..] == ElementParts(base + 8 * elsize, elsize, offs, count - 1);
    }
  }

  lemma {:induction false} ElementPart(base: int, elsize: nat, offs: seq<nat>, count: nat, k: nat)
    requires k < count
    ensures ElementParts(base, elsize, offs, count)[k] == Offset8(base + 8 * Span(elsize, k), offs)
    decreases k
  {
    if k > 0 {
      ElementPart(base + 8 * elsize, elsize, offs, count - 1, k - 1);
      assert base + 8 * elsize + 8 * Span(elsize, k - 1) == base + 8 * Span(elsize, k);
    }
  }

  lemma {:induction false} PartsBefore(base: int, elsize: nat, offs: seq<nat>, count: nat, k: nat)
    requires k <= count
    ensures LengthBefore(ElementParts(base, elsize, offs, count), k) == Span(|offs|, k)
    decreases k
  {
    if k > 0 {
      PartsBefore(base, elsize, offs, count, k - 1);
      ElementPart(base, elsize, offs, count, k - 1);
    }
  }

  lemma PartElement(base: int, elsize: nat, offs: seq<nat>, count: nat, k: nat, j: nat)
    requires k < count && j < |offs|
    ensures var part := ElementParts(base, elsize, offs, count)[k];
            j < |part| && part[j] == Simple(base + 8 * (Span(elsize, k) + offs[j]))
  {
    ElementPart(base, elsize, offs, count, k);
  }

  lemma ElementsAt(base: int, elsize: nat, offs: seq<nat>, count: nat, k: nat, j: nat)
    requires k < count && j < |offs|
    ensures Span(|offs|, k) + j < |Elements(base, elsize, offs, count)|
    ensures Elements(base, elsize, offs, count)[Span(|offs|, k) + j] == Simple(base + 8 * (Span(elsize, k) + offs[j]))
  {
    ElementsAreParts(base, elsize, offs, count);
    PartElement(base, elsize, offs, count, k, j);
    PartsBefore(base, elsize, offs, count, k);
    ConcatAt(ElementParts(base, elsize, offs, count), k, j);
  }

  /** Slot number k * n + j is pointer j of element k. */
  lemma ElementsInOrder(base: int, elsize: nat, offs: seq<nat>, count: nat, k: nat, j: nat)
    requires k < count && j < |offs|
    ensures |offs| * k + j < |Elements(base, elsize, offs, count)|
    ensures Elements(base, elsize, offs, count)[|offs| * k + j] == Simple(base + 8 * (elsize * k + offs[j]))
  {
    ElementsAt(base, elsize, offs, count, k, j);
    SpanIsProduct(|offs|, k);
    SpanIsProduct(elsize, k);
  }

  ghost predicate DistinctBelow(offs: seq<nat>, limit: nat) {
    && (forall j :: 0 <= j < |offs| ==> offs[j] < limit)
    && (forall i, j :: 0 <= i < j < |offs| ==> offs[i] != offs[j])
  }

  /** Every slot lies in [base, base + size). */
  ghost predicate Within(slots: seq<Slot>, base: int, size: int) {
    forall i :: 0 <= i < |slots| ==> base <= slots[i].addr && slots[i].addr + 8 <= base + size
  }

  lemma OneElementInside(base: int, elsize: nat, offs: seq<nat>)
    requires DistinctBelow(offs, elsize)
    ensures Within(Offset8(base, offs), base, 8 * elsize) && DistinctAddresses(Offset8(base, offs))
  {
  }

  /** With distinct offsets inside an element, every slot is inside the data and none is visited twice. */
  lemma {:induction false} ElementsInside(base: int, elsize: nat, offs: seq<nat>, count: nat)
    requires DistinctBelow(offs, elsize)
    ensures Within(Elements(base, elsize, offs, count), base, 8 * elsize * count)
    ensures DistinctAddresses(Elements(base, elsize, offs, count))
    decreases count
  {
    if count > 0 {
      ElementsInside(base + 8 * elsize, elsize, offs, count - 1);
      OneElementInside(base, elsize, offs);
      assert 8 * elsize * count == 8 * elsize + 8 * elsize * (count - 1);
      JoinInside(Offset8(base, offs), Elements(base + 8 * elsize, elsize, offs, count - 1),
                 base, 8 * elsize, 8 * elsize * (count - 1));
    }
  }

  lemma JoinInside(a: seq<Slot>, b: seq<Slot>, base: int, size: nat, more: nat)
    requires Within(a, base, size) && DistinctAddresses(a)
    requires Within(b, base + size, more) && DistinctAddresses(b)
    ensures Within(a + b, base, size + more) && DistinctAddresses(a + b)
  {
  }

  // All paths of the generic memory scan visit the same thing

  /** The pointer offsets of an element: a boxed element is one reference. */
  function PointerOffsets(env: Env, layout: Layout): seq<nat> {
    if layout.isBoxed then [0] else LayoutOffsets(env, layout)
  }

  /** What the runtime promises of a layout: elements are whole words when they hold pointers, the
    offsets are distinct and inside the element, and the first one is recorded beside the table. */
  ghost predicate ElementLayout(env: Env, layout: Layout) {
    && (layout.isBoxed ==> layout.size == 8)
    && (!layout.isBoxed && layout.firstPtr < 0 ==> layout.npointers == 0)
    && (!layout.isBoxed && layout.firstPtr >= 0 ==>
          && layout.size % 8 == 0 && layout.npointers > 0 && layout.fieldDescType <= 1
          && DistinctBelow(LayoutOffsets(env, layout), layout.size / 8)
          && layout.firstPtr == LayoutOffsets(env, layout)[0])
  }

  lemma {:induction false} RowIsElements(base: int, elsize: nat, off: nat, count: nat)
    ensures Row(base + 8 * off, 8 * elsize, count) == Elements(base, elsize, [off], count)
    decreases count
  {
    if count > 0 {
      RowSplit(base + 8 * off, 8 * elsize, count);
      RowIsElements(base + 8 * elsize, elsize, off, count - 1);
      assert [off][1..] == [];
    }
  }

  /** The path for one pointer per element steps straight from pointer to pointer. */
  lemma SinglePointerPath(base: int, elsize: nat, off: nat, count: nat)
    requires off < elsize
    ensures Strided(base + 8 * off, base + 8 * (count * elsize), 8 * elsize) == Elements(base, elsize, [off], count)
  {
    var stride := 8 * elsize;
    assert 8 * (count * elsize) == count * stride;
    assert (count - 1) * stride == count * stride - stride;
    StridedIsRow(base + 8 * off, base + count * stride, stride, count);
    RowIsElements(base, elsize, off, count);
  }

  lemma {:induction false} NoOffsetsNoSlots(base: int, elsize: nat, count: nat)
    ensures Elements(base, elsize, [], count) == []
    decreases count
  {
    if count > 0 {
      NoOffsetsNoSlots(base + 8 * elsize, elsize, count - 1);
    }
  }

  /** The boxed, single-pointer, 8-bit and 16-bit paths all visit every pointer of every element, in
    order and nothing else. */
  lemma GenericMemoryExact(env: Env, obj: int, layout: Layout)
    requires ElementLayout(env, layout) && env.how(obj) != 3
    ensures ScanGenericMemory(env, obj, layout)
            == Done(Elements(LoadWord(env, obj + MEMORY_PTR), layout.size / 8, PointerOffsets(env, layout),
                             LoadWord(env, obj + MEMORY_LENGTH)))
  {
    var length, ptr, elsize := LoadWord(env, obj + MEMORY_LENGTH), LoadWord(env, obj + MEMORY_PTR), layout.size / 8;
    if layout.isBoxed {
      RowIsElements(ptr, 1, 0, length);
    } else if layout.firstPtr < 0 {
      NoOffsetsNoSlots(ptr, elsize, length);
    } else {
      var offs := LayoutOffsets(env, layout);
      assert offs[0] < elsize;
      if layout.npointers == 1 {
        assert offs == [offs[0]];
        SinglePointerPath(ptr, elsize, offs[0], length);
      }
    }
  }

  // Pointer tables

  /** The `width` bytes at an address hold `x`, lowest byte first. */
  ghost predicate HoldsNumber(mem: ByteMemory, addr: int, width: nat, x: nat) {
    forall b :: 0 <= b < width ==> mem(addr + b) == ShiftRight(x, 8 * b) % 256
  }

  /** The table holds `offs` as little-endian numbers of `width` bytes, one after the other. */
  ghost predicate HoldsTable(mem: ByteMemory, table: int, width: nat, offs: seq<nat>) {
    forall j :: 0 <= j < |offs| ==> HoldsNumber(mem, table + Span(width, j), width, offs[j])
  }

  lemma {:induction false} LoadStored(mem: ByteMemory, addr: int, n: nat, x: nat)
    requires HoldsNumber(mem, addr, n, x)
    ensures Load(mem, addr, n) == x % Pow2(8 * n)
    decreases n
  {
    if n > 0 {
      var y := ShiftRight(x, 8);
      forall b | 0 <= b < n - 1 ensures mem(addr + 1 + b) == ShiftRight(y, 8 * b) % 256 {
        ShiftShift(x, 8, 8 * b);
        assert mem(addr + (b + 1)) == ShiftRight(x, 8 * (b + 1)) % 256;
      }
      LoadStored(mem, addr + 1, n - 1, y);
      assert BytesAt(mem, addr, n)[1..] == BytesAt(mem, addr + 1, n - 1);
      assert mem(addr + 0) == ShiftRight(x, 8 * 0) % 256;
      Pow2Word();
      LowSplit(x, 8, 8 * n - 8);
    }
  }

  lemma {:induction false} ShiftShift(x: nat, a: nat, b: nat)
    ensures ShiftRight(ShiftRight(x, a), b) == ShiftRight(x, a + b)
    decreases a
  {
    if a > 0 {
      ShiftShift(x / 2, a - 1, b);
    }
  }

  /** The low `n` bits and the `k` bits above them. */
  lemma {:induction false} LowSplit(x: nat, n: nat, k: nat)
    ensures x % Pow2(n + k) == x % Pow2(n) + Pow2(n) * (ShiftRight(x, n) % Pow2(k))
    decreases n
  {
    if n > 0 {
      LowSplit(x / 2, n - 1, k);
      HalveDivMod(x, Pow2(n + k - 1));
      HalveDivMod(x, Pow2(n - 1));
      DoubleProduct(Pow2(n - 1), ShiftRight(x, n) % Pow2(k));
    }
  }

  lemma DoubleProduct(a: nat, b: nat)
    ensures 2 * (a * b) == (2 * a) * b
  {
  }

  /** Offsets written in any of the three widths are read back, so a scan does not depend on which
    width the type uses. */
  lemma TableRoundTrip(mem: ByteMemory, table: int, width: nat, offs: seq<nat>)
    requires HoldsTable(mem, table, width, offs)
    requires forall j :: 0 <= j < |offs| ==> offs[j] < Pow2(8 * width)
    ensures Offsets(mem, table, width, |offs|) == offs
  {
    forall j | 0 <= j < |offs| ensures Offsets(mem, table, width, |offs|)[j] == offs[j] {
      OffsetAt(mem, table, width, |offs|, j);
      assert HoldsNumber(mem, table + Span(width, j), width, offs[j]);
      LoadStored(mem, table + Span(width, j), width, offs[j]);
      SmallRemainder(offs[j], Pow2(8 * width));
    }
  }

  lemma SmallRemainder(x: nat, m: nat)
    requires x < m
    ensures x % m == x
  {
  }
}
