/** How many bytes an object takes: exactly what it holds, rounded up. */
module ObjectSizes {
  import opened Bits
  import opened GcStack
  import opened ObjectScan
  import opened ScanFacts
  import opened ScanKinds
  import opened ObjectModel

  /** `n` is the least multiple of `align` that covers `held` bytes. */
  ghost predicate Covers(n: nat, held: nat, align: nat)
    requires align > 0
  {
    n % align == 0 && held <= n && forall m: nat :: m % align == 0 && held <= m ==> n <= m
  }

  lemma AlignedCovers(held: nat, align: nat)
    requires align > 0
    ensures Covers(LltAlign(held, align), held, align)
  {
    LltAlignLeast(held, align, 0);
    forall m: nat | m % align == 0 && held <= m ensures LltAlign(held, align) <= m {
      LltAlignLeast(held, align, m);
    }
  }

  lemma SizedByType(env: Env, obj: int, vt: int)
    requires TypedBy(env, obj, vt)
    ensures ObjectSize(env, obj) == SizeTyped(env, obj, vt) && TypeOf(env, obj) == vt
  {
  }

  // Generic memories

  /** What an inlined memory holds from its start on: the header, the two words of the memory itself, its elements,
    and a selector byte for each of them when they are unions. */
  function MemoryHolds(layout: Layout, length: nat): nat {
    8 + 16 + (layout.size * length + if layout.isUnion then length else 0)
  }

  /** A memory with its data inlined takes the least multiple of 16 bytes that covers all of that. */
  lemma InlineMemorySize(env: Env, obj: int, vt: int)
    requires TypedBy(env, obj, vt) && env.typeAt(vt).name == GenericMemoryName && env.how(obj) == 0
    ensures ObjectSize(env, obj).Done?
    ensures Covers(ObjectSize(env, obj).value, MemoryHolds(env.typeAt(vt).layout, LoadWord(env, obj)), 16)
  {
    var layout, length := env.typeAt(vt).layout, LoadWord(env, obj);
    SizedByType(env, obj, vt);
    AlignedCovers(InlineBytes(layout, length) + MEMORY_SIZE_ALIGNED + HEADER_SIZE, 16);
    assert obj + MEMORY_LENGTH == obj;
  }

  /** So every byte of every element is inside, and every selector byte. */
  lemma ElementInside(env: Env, obj: int, vt: int, k: nat, b: nat)
    requires TypedBy(env, obj, vt) && env.typeAt(vt).name == GenericMemoryName && env.how(obj) == 0
    requires k < LoadWord(env, obj) && ObjectSize(env, obj).Done?
    ensures var start, end, layout := obj - 8, obj - 8 + ObjectSize(env, obj).value, env.typeAt(vt).layout;
            var data := obj + 16;
            && (b < layout.size ==> start <= data + layout.size * k + b < end)
            && (layout.isUnion ==> start <= data + layout.size * LoadWord(env, obj) + k < end)
  {
    var size, length := env.typeAt(vt).layout.size, LoadWord(env, obj);
    InlineMemorySize(env, obj, vt);
    ElementBytes(size, k, length);
  }

  lemma ElementBytes(size: nat, k: nat, length: nat)
    requires k < length
    ensures 0 <= size * k && size * k + size <= size * length
  {
    assert size * length == size * k + size * (length - k);
    assert size * (length - k) == size + size * (length - k - 1);
    assert size * (length - k - 1) >= 0;
  }

  /** Nine 8-byte elements with selectors take 112 bytes. */
  lemma NineUnions(env: Env, obj: int, vt: int)
    requires TypedBy(env, obj, vt) && env.typeAt(vt).name == GenericMemoryName && env.how(obj) == 0
    requires env.typeAt(vt).layout.size == 8 && env.typeAt(vt).layout.isUnion && LoadWord(env, obj) == 9
    ensures ObjectSize(env, obj) == Done(112)
  {
    InlineMemorySize(env, obj, vt);
    assert MemoryHolds(env.typeAt(vt).layout, 9) == 105;
    var n := ObjectSize(env, obj).value;
    assert 112 % 16 == 0;
  }

  /** A memory with its data elsewhere takes 32 bytes: header, its two words and one for the owner. */
  lemma BorrowingMemorySize(env: Env, obj: int, vt: int)
    requires TypedBy(env, obj, vt) && env.typeAt(vt).name == GenericMemoryName && env.how(obj) != 0
    ensures ObjectSize(env, obj) == Done(32)
  {
    SizedByType(env, obj, vt);
  }

  // The others

  /** Any other datatype object: header and fields, as many bytes as the layout says. */
  lemma DatatypeSize(env: Env, obj: int, vt: int)
    requires TypedBy(env, obj, vt) && env.typeAt(vt).name != GenericMemoryName
    ensures ObjectSize(env, obj).Done? && Covers(ObjectSize(env, obj).value, 8 + env.typeAt(vt).layout.size, 16)
  {
    SizedByType(env, obj, vt);
    AlignedCovers(env.typeAt(vt).layout.size + HEADER_SIZE, 16);
  }

  /** A simple vector: header, length word and elements. */
  lemma VectorSize(env: Env, obj: int)
    requires TypeTagOf(env, obj) == 9 * 16 && TypeTagOf(env, obj) != env.buffTag
    ensures ObjectSize(env, obj).Done? && Covers(ObjectSize(env, obj).value, 8 + 8 + 8 * LoadWord(env, obj), 16)
  {
    AlignedCovers(LoadWord(env, obj) * WORD_SIZE + SVEC_SIZE + HEADER_SIZE, 16);
  }

  /** A string: header, length word, its bytes and a final zero, aligned to 8 only. */
  lemma StringSize(env: Env, obj: int)
    requires TypeTagOf(env, obj) == 10 * 16 && TypeTagOf(env, obj) != env.buffTag
    ensures ObjectSize(env, obj).Done? && Covers(ObjectSize(env, obj).value, 8 + 8 + LoadWord(env, obj) + 1, 8)
  {
    AlignedCovers(LoadWord(env, obj) + WORD_SIZE + 1 + HEADER_SIZE, 8);
  }

  /** A module takes 400 bytes and a task 240, headers included. */
  lemma FixedSizes(env: Env, obj: int)
    requires TypeTagOf(env, obj) != env.buffTag
    ensures TypeTagOf(env, obj) == 8 * 16 ==> ObjectSize(env, obj) == Done(400)
    ensures TypeTagOf(env, obj) == 11 * 16 ==> ObjectSize(env, obj) == Done(240)
  {
  }

  /** The remaining small types are sized by their layout. */
  lemma OtherSmallSizes(env: Env, obj: int)
    requires TypeTagOf(env, obj) < 64 * 16 && TypeTagOf(env, obj) != env.buffTag
    requires TypeTagOf(env, obj) / 16 !in {2, 3, 4, 5, 6, 28, 29, 30, 31, 32, 33, 34, 35, 37}
    requires TypeTagOf(env, obj) !in {8 * 16, 9 * 16, 10 * 16, 11 * 16}
    ensures ObjectSize(env, obj).Done?
    ensures Covers(ObjectSize(env, obj).value, 8 + env.typeAt(env.smallTypeof(TypeTagOf(env, obj) / 8)).layout.size, 16)
  {
    AlignedCovers(env.typeAt(env.smallTypeof(TypeTagOf(env, obj) / 8)).layout.size + HEADER_SIZE, 16);
  }

  /** A buffer's size is stored in the word before its header; a corrupt tag panics. */
  lemma BufferSize(env: Env, obj: int)
    ensures TypeTagOf(env, obj) == env.buffTag ==> ObjectSize(env, obj) == Done(LoadWord(env, obj - 16))
    ensures TypeTagOf(env, obj) != env.buffTag && TypeTagOf(env, obj) >= 64 * 16
            && (TypeTagOf(env, TypeTagOf(env, obj)) != 2 * 16 || env.typeAt(TypeTagOf(env, obj)).smallTag != 0) ==>
              ObjectSize(env, obj).Panic?
  {
  }

  /** An object starts at its header, 8 bytes before its address; a buffer 16 bytes before; an object in the
    large object space 48 bytes before. */
  lemma StartsAtHeader(env: Env, obj: int)
    requires env.buffTag >= 64 * 16 && forall i :: env.smallTypeof(i) != env.buffTag
    ensures ObjectStart(env, obj)
            == if 0x600_0000_0000 <= obj < 0x800_0000_0000 then obj - 48
               else if TypeTagOf(env, obj) == env.buffTag then obj - 16
               else obj - 8
  {
  }

  // What a copy carries

  /** Copying an object other than a large one or a buffer carries every byte it holds, header included: byte `b`
    from its start is byte `b` from the start of the copy. */
  lemma CopyCarriesBytes(bytes: seq<Byte>, start: nat, dst: nat, n: nat, held: nat, b: nat)
    requires start + n <= |bytes| && dst + n <= |bytes| && held <= n && b < held
    ensures Copied(bytes, start, dst, n)[dst + b] == bytes[start + b]
  {
    assert dst + b - dst + start == start + b;
  }

  /** In particular the selector byte of each element of an inlined union memory is found in the copy. */
  lemma SelectorCarried(e: Env, bytes: seq<Byte>, obj: int, dst: nat, n: nat, vt: int, k: nat, at: nat)
    requires TypedBy(e, obj, vt) && e.typeAt(vt).name == GenericMemoryName && e.how(obj) == 0
    requires e.typeAt(vt).layout.isUnion && k < LoadWord(e, obj) && ObjectSize(e, obj) == Done(n)
    requires at == 24 + e.typeAt(vt).layout.size * LoadWord(e, obj) + k
    requires obj >= 8 && obj - 8 + n <= |bytes| && dst + n <= |bytes|
    ensures at < n && Copied(bytes, obj - 8, dst, n)[dst + at] == bytes[obj - 8 + at]
  {
    InlineMemorySize(e, obj, vt);
    CopyCarriesBytes(bytes, obj - 8, dst, n, at + 1, at);
  }
}
