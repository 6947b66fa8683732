/** The bindgen bitfield accessors of julia_types.rs and the loop-free accessors of util.rs.

  A bitfield unit is an array of bytes, read as one little-endian number. A field is a range of
  bits of that number. */
module Bitfields {
  import opened Bits

  /** The number a little-endian byte string stands for. */
  function Value(s: seq<Byte>): nat {
    if s == [] then 0 else s[0] + 256 * Value(s[1..])
  }

  /** Bits [offset, offset + width) of `n`. */
  function Field(n: nat, offset: nat, width: nat): nat {
    ShiftRight(n, offset) % Pow2(width)
  }

  /** `after` is `n` with bits [offset, offset + width) replaced by the low bits of `val`. */
  ghost predicate Replaced(n: nat, after: nat, offset: nat, width: nat, val: nat) {
    forall i: nat :: Bit(after, i) <==>
                     (if offset <= i < offset + width then Bit(val, i - offset) else Bit(n, i))
  }

  /** `after` is `n` with bit `index` replaced. */
  ghost predicate BitReplaced(n: nat, after: nat, index: nat, val: bool) {
    forall i: nat :: Bit(after, i) <==> (if i == index then val else Bit(n, i))
  }

  function ExtractBit(byte: Byte, index: nat): bool {
    var mask := Pow2(index % 8);
    BitAnd(byte, mask) == mask
  }

  function ChangeBit(byte: Byte, index: nat, val: bool): Byte {
    var mask := Pow2(index % 8);
    BitInByte(index);
    if val then
      BitWidth(8, byte, mask);
      BitOr(byte, mask)
    else
      BitWidth(8, byte, BitNot(8, mask));
      BitAnd(byte, BitNot(8, mask))
  }

  class BitfieldUnit {
    const storage: array<Byte>

    /** All bits zero. */
    constructor Default(size: nat)
      ensures fresh(storage) && storage.Length == size
      ensures Value(storage[..]) == 0
    {
      storage := new Byte[size](_ => 0);
      new;
      ZeroValue(storage[..]);
    }

    function GetBit(index: nat): (bit: bool)
      requires index < 8 * storage.Length
      reads storage
      ensures bit <==> Bit(Value(storage[..]), index)
    {
      var byte := storage[index / 8];
      ExtractIsBit(byte, index);
      ByteBits(storage[..], index);
      ExtractBit(byte, index)
    }

    method SetBit(index: nat, val: bool)
      requires index < 8 * storage.Length
      modifies storage
      ensures BitReplaced(old(Value(storage[..])), Value(storage[..]), index, val)
    {
      ghost var was := storage[..];
      storage[index / 8] := ChangeBit(storage[index / 8], index, val);
      assert storage[..] == was[index / 8 := ChangeBit(was[index / 8], index, val)];
      ChangeReplaces(was, index, val);
    }

    method Get(offset: nat, width: nat) returns (val: Word)
      requires width <= 64 && offset + width <= 8 * storage.Length
      ensures val == Field(Value(storage[..]), offset, width)
    {
      ghost var n := Value(storage[..]);
      Pow2Word();
      val := 0;
      for i := 0 to width
        invariant val == Field(n, offset, i)
      {
        FieldStep(n, offset, i);
        Pow2Monotone(i + 1, 64);
        if GetBit(i + offset) {
          val := BitOr(val, Pow2(i));
        }
      }
    }

    method Set(offset: nat, width: nat, val: Word)
      requires width <= 64 && offset + width <= 8 * storage.Length
      modifies storage
      ensures Replaced(old(Value(storage[..])), Value(storage[..]), offset, width, val)
    {
      ghost var n := Value(storage[..]);
      for i := 0 to width
        invariant Replaced(n, Value(storage[..]), offset, i, val)
      {
        ghost var before := Value(storage[..]);
        var mask := Pow2(i);
        var valBitIsSet := BitAnd(val, mask) == mask;
        MaskIsBit(val, i);
        SetBit(i + offset, valBitIsSet);
        ReplacedOneMore(n, before, Value(storage[..]), offset, i, val);
      }
    }
  }

  // Bytes and bits

  lemma BitInByte(index: nat)
    ensures Pow2(index % 8) < 256
  {
    Pow2Monotone(index % 8, 7);
    assert Pow2(7) == 128;
  }

  lemma {:induction false} ZeroValue(s: seq<Byte>)
    requires forall k :: 0 <= k < |s| ==> s[k] == 0
    ensures Value(s) == 0
  {
    if s != [] {
      ZeroValue(s[1..]);
    }
  }

  lemma {:induction false} ValueBound(s: seq<Byte>)
    ensures Value(s) < Pow2(8 * |s|)
  {
    if s != [] {
      ValueBound(s[1..]);
      Pow2Add(8, 8 * |s| - 8);
      Pow2Word();
    }
  }

  lemma ByteShift(b: Byte, n: nat)
    ensures ShiftRight(b + 256 * n, 8) == n
    ensures (b + 256 * n) % 256 == b
  {
    Pow2Word();
    ShiftDivides(b + 256 * n, 8);
  }

  /** Bit `i` of a little-endian number is bit `i % 8` of byte `i / 8`. */
  lemma {:induction false} ByteBits(s: seq<Byte>, i: nat)
    requires i < 8 * |s|
    ensures Bit(Value(s), i) <==> Bit(s[i / 8], i % 8)
  {
    HeadByte(s);
    Pow2Word();
    if i < 8 {
      LowBits(Value(s), 8, i);
    } else {
      ShiftBits(Value(s), 8, i - 8);
      ByteBits(s[1..], i - 8);
      assert s[1..][(i - 8) / 8] == s[i / 8] && (i - 8) % 8 == i % 8;
    }
  }

  lemma HeadByte(s: seq<Byte>)
    requires s != []
    ensures Value(s) % 256 == s[0] && ShiftRight(Value(s), 8) == Value(s[1..])
  {
    ByteShift(s[0], Value(s[1..]));
  }

  /** `x & mask == mask` tests one bit when the mask is a power of two. */
  lemma MaskIsBit(x: nat, i: nat)
    ensures BitAnd(x, Pow2(i)) == Pow2(i) <==> Bit(x, i)
  {
    AndBits(x, Pow2(i), i);
    Pow2Bits(i, i);
    if Bit(x, i) {
      Pow2Monotone(i, i + 1);
      BitWidth(i + 1, Pow2(i), x);
      AndCommutes(x, Pow2(i));
      forall j: nat | j < i + 1 ensures Bit(BitAnd(x, Pow2(i)), j) <==> Bit(Pow2(i), j) {
        AndBits(x, Pow2(i), j);
        Pow2Bits(i, j);
      }
      SameBits(i + 1, BitAnd(x, Pow2(i)), Pow2(i));
    }
  }

  lemma {:induction false} AndCommutes(x: nat, y: nat)
    ensures BitAnd(x, y) == BitAnd(y, x)
  {
    if x != 0 && y != 0 {
      AndCommutes(x / 2, y / 2);
    }
  }

  lemma ExtractIsBit(byte: Byte, index: nat)
    ensures ExtractBit(byte, index) <==> Bit(byte, index % 8)
  {
    MaskIsBit(byte, index % 8);
  }

  lemma ChangeBits(byte: Byte, index: nat, val: bool, j: nat)
    requires j < 8
    ensures Bit(ChangeBit(byte, index, val), j) <==> (if j == index % 8 then val else Bit(byte, j))
  {
    var mask := Pow2(index % 8);
    BitInByte(index);
    Pow2Word();
    Pow2Bits(index % 8, j);
    OrBits(byte, mask, j);
    NotBits(8, mask, j);
    AndBits(byte, BitNot(8, mask), j);
  }

  lemma ChangeReplaces(s: seq<Byte>, index: nat, val: bool)
    requires index < 8 * |s|
    ensures var t := s[index / 8 := ChangeBit(s[index / 8], index, val)];
            BitReplaced(Value(s), Value(t), index, val)
  {
    var t := s[index / 8 := ChangeBit(s[index / 8], index, val)];
    forall i: nat
      ensures Bit(Value(t), i) <==> (if i == index then val else Bit(Value(s), i))
    {
      if i < 8 * |s| {
        ByteBits(s, i);
        ByteBits(t, i);
        ChangeBits(s[index / 8], index, val, i % 8);
      } else {
        ValueBound(s);
        ValueBound(t);
        HighBits(8 * |s|, Value(s), i);
        HighBits(8 * |s|, Value(t), i);
      }
    }
  }

  // Fields

  lemma FieldBits(n: nat, offset: nat, width: nat, i: nat)
    ensures Bit(Field(n, offset, width), i) <==> i < width && Bit(n, i + offset)
  {
    LowBits(ShiftRight(n, offset), width, i);
    ShiftBits(n, offset, i);
  }

  /** One turn of the `get` loop adds one more bit of the field. */
  lemma FieldStep(n: nat, offset: nat, i: nat)
    ensures Field(n, offset, i) < Pow2(i)
    ensures Field(n, offset, i + 1) ==
            if Bit(n, i + offset) then BitOr(Field(n, offset, i), Pow2(i)) else Field(n, offset, i)
  {
    var low, next := Field(n, offset, i), Field(n, offset, i + 1);
    var joined := if Bit(n, i + offset) then BitOr(low, Pow2(i)) else low;
    Pow2Monotone(i, i + 1);
    assert Pow2(i) < Pow2(i + 1);
    BitWidth(i + 1, low, Pow2(i));
    forall j: nat | j < i + 1 ensures Bit(joined, j) <==> Bit(next, j) {
      FieldBits(n, offset, i, j);
      FieldBits(n, offset, i + 1, j);
      OrBits(low, Pow2(i), j);
      Pow2Bits(i, j);
    }
    SameBits(i + 1, joined, next);
  }

  lemma ReplacedOneMore(n: nat, before: nat, after: nat, offset: nat, i: nat, val: nat)
    requires Replaced(n, before, offset, i, val)
    requires BitReplaced(before, after, i + offset, Bit(val, i))
    ensures Replaced(n, after, offset, i + 1, val)
  {
    forall j: nat
      ensures Bit(after, j) <==> (if offset <= j < offset + (i + 1) then Bit(val, j - offset) else Bit(n, j))
    {
      assert Bit(after, j) <==> (if j == i + offset then Bit(val, i) else Bit(before, j));
    }
  }

  /** Reading back a field that was just set gives the low bits of the value. */
  lemma SetThenGet(n: nat, after: nat, offset: nat, width: nat, val: nat)
    requires Replaced(n, after, offset, width, val)
    ensures Field(after, offset, width) == val % Pow2(width)
  {
    forall i: nat | i < width ensures Bit(Field(after, offset, width), i) <==> Bit(val % Pow2(width), i) {
      FieldBits(after, offset, width, i);
      LowBits(val, width, i);
      assert Bit(after, i + offset) <==> Bit(val, i);
    }
    SameBits(width, Field(after, offset, width), val % Pow2(width));
  }

  /** Setting a field leaves every disjoint field alone. */
  lemma SetKeepsOthers(n: nat, after: nat, offset: nat, width: nat, val: nat, offset2: nat, width2: nat)
    requires Replaced(n, after, offset, width, val)
    requires offset + width <= offset2 || offset2 + width2 <= offset
    ensures Field(after, offset2, width2) == Field(n, offset2, width2)
  {
    forall i: nat | i < width2 ensures Bit(Field(after, offset2, width2), i) <==> Bit(Field(n, offset2, width2), i) {
      FieldBits(after, offset2, width2, i);
      FieldBits(n, offset2, width2, i);
      assert Bit(after, i + offset2) <==> Bit(n, i + offset2);
    }
    SameBits(width2, Field(after, offset2, width2), Field(n, offset2, width2));
  }

  // Packers: fields set one after the other, each starting where the last one ended

  datatype FieldValue = FieldValue(width: nat, val: Word)

  function Offset(fields: seq<FieldValue>, k: nat): nat
    requires k <= |fields|
  {
    if k == 0 then 0 else Offset(fields, k - 1) + fields[k - 1].width
  }

  /** `ns` lists the unit's number before and after each of the packer's `set` calls. */
  ghost predicate PackSteps(ns: seq<nat>, fields: seq<FieldValue>) {
    |ns| == |fields| + 1
    && forall j :: 0 <= j < |fields| ==>
                     Replaced(ns[j], ns[j + 1], Offset(fields, j), fields[j].width, fields[j].val)
  }

  lemma {:induction false} OffsetMonotone(fields: seq<FieldValue>, j: nat, k: nat)
    requires j < k <= |fields|
    ensures Offset(fields, j) + fields[j].width <= Offset(fields, k)
  {
    if j < k - 1 {
      OffsetMonotone(fields, j, k - 1);
    }
  }

  /** Packing consecutive fields and then reading each one gives them all back. */
  lemma {:induction false} PackThenGet(ns: seq<nat>, fields: seq<FieldValue>, k: nat, upTo: nat)
    requires PackSteps(ns, fields) && k < upTo <= |fields|
    ensures Field(ns[upTo], Offset(fields, k), fields[k].width) == fields[k].val % Pow2(fields[k].width)
  {
    var j := upTo - 1;
    assert Replaced(ns[j], ns[j + 1], Offset(fields, j), fields[j].width, fields[j].val);
    if k == j {
      SetThenGet(ns[j], ns[j + 1], Offset(fields, k), fields[k].width, fields[k].val);
    } else {
      PackThenGet(ns, fields, k, j);
      OffsetMonotone(fields, k, j);
      SetKeepsOthers(ns[j], ns[j + 1], Offset(fields, j), fields[j].width, fields[j].val,
                     Offset(fields, k), fields[k].width);
    }
  }

  /** The flags word of jl_datatype_layout_t. */
  method NewLayoutFlags(hasPadding: Word, fieldDescType: Word, isBoxed: Word, isUnion: Word, isAtomic: Word,
                        isLocked: Word, isBitsEgal: Word, padding: Word)
    returns (unit: BitfieldUnit)
    ensures fresh(unit) && fresh(unit.storage) && unit.storage.Length == 2
    ensures var n := Value(unit.storage[..]);
            && Field(n, 0, 1) == hasPadding % 2
            && Field(n, 1, 2) == fieldDescType % 4
            && Field(n, 3, 1) == isBoxed % 2
            && Field(n, 4, 1) == isUnion % 2
            && Field(n, 5, 1) == isAtomic % 2
            && Field(n, 6, 1) == isLocked % 2
            && Field(n, 7, 1) == isBitsEgal % 2
            && Field(n, 8, 8) == padding % 256
  {
    unit := new BitfieldUnit.Default(2);
    ghost var n0 := Value(unit.storage[..]);
    unit.Set(0, 1, hasPadding);
    ghost var n1 := Value(unit.storage[..]);
    unit.Set(1, 2, fieldDescType);
    ghost var n2 := Value(unit.storage[..]);
    unit.Set(3, 1, isBoxed);
    ghost var n3 := Value(unit.storage[..]);
    unit.Set(4, 1, isUnion);
    ghost var n4 := Value(unit.storage[..]);
    unit.Set(5, 1, isAtomic);
    ghost var n5 := Value(unit.storage[..]);
    unit.Set(6, 1, isLocked);
    ghost var n6 := Value(unit.storage[..]);
    unit.Set(7, 1, isBitsEgal);
    ghost var n7 := Value(unit.storage[..]);
    unit.Set(8, 8, padding);
    ghost var n8 := Value(unit.storage[..]);
    LayoutFlagsRead([n0, n1, n2, n3, n4, n5, n6, n7, n8],
                    LayoutFields(hasPadding, fieldDescType, isBoxed, isUnion, isAtomic, isLocked, isBitsEgal, padding));
  }

  function LayoutFields(hasPadding: Word, fieldDescType: Word, isBoxed: Word, isUnion: Word, isAtomic: Word,
                        isLocked: Word, isBitsEgal: Word, padding: Word): (fields: seq<FieldValue>)
    ensures |fields| == 8
    ensures Offset(fields, 1) == 1 && Offset(fields, 2) == 3 && Offset(fields, 3) == 4 && Offset(fields, 4) == 5
    ensures Offset(fields, 5) == 6 && Offset(fields, 6) == 7 && Offset(fields, 7) == 8
  {
    var fields := [FieldValue(1, hasPadding), FieldValue(2, fieldDescType), FieldValue(1, isBoxed),
                   FieldValue(1, isUnion), FieldValue(1, isAtomic), FieldValue(1, isLocked),
                   FieldValue(1, isBitsEgal), FieldValue(8, padding)];
    assert Offset(fields, 1) == 1;
    assert Offset(fields, 2) == 3;
    assert Offset(fields, 3) == 4;
    assert Offset(fields, 4) == 5;
    assert Offset(fields, 5) == 6;
    assert Offset(fields, 6) == 7;
    fields
  }

  lemma LayoutFlagsRead(ns: seq<nat>, fields: seq<FieldValue>)
    requires PackSteps(ns, fields)
    ensures forall k :: 0 <= k < |fields| ==>
              Field(ns[|fields|], Offset(fields, k), fields[k].width) == fields[k].val % Pow2(fields[k].width)
  {
    forall k | 0 <= k < |fields|
      ensures Field(ns[|fields|], Offset(fields, k), fields[k].width) == fields[k].val % Pow2(fields[k].width)
    {
      PackThenGet(ns, fields, k, |fields|);
    }
  }

  /** The copy_stack/started word of jl_ucontext_t. */
  method NewContextFlags(copyStack: Word, started: Word) returns (unit: BitfieldUnit)
    ensures fresh(unit) && fresh(unit.storage) && unit.storage.Length == 4
    ensures Field(Value(unit.storage[..]), 0, 31) == copyStack % 0x8000_0000
    ensures Field(Value(unit.storage[..]), 31, 1) == started % 2
  {
    unit := new BitfieldUnit.Default(4);
    ghost var n0 := Value(unit.storage[..]);
    unit.Set(0, 31, copyStack);
    ghost var n1 := Value(unit.storage[..]);
    unit.Set(31, 1, started);
    ghost var n2 := Value(unit.storage[..]);
    Pow2Word();
    assert Pow2(32) == 2 * Pow2(31);
    SetThenGet(n0, n1, 0, 31, copyStack);
    SetKeepsOthers(n1, n2, 31, 1, started, 0, 31);
    SetThenGet(n1, n2, 31, 1, started);
  }

  // The accessors of util.rs that avoid the loop: transmute to an integer, shift and mask

  function FieldDescTypeCustom(flags: seq<Byte>): nat
    requires |flags| == 2
  {
    BitAnd(ShiftRight(Value(flags), 1), 3)
  }

  function CopyStackCustom(flags: seq<Byte>): nat
    requires |flags| == 4
  {
    BitAnd(Value(flags), 0x7fff_ffff)
  }

  /** The loop-free accessors read the fields that `Get(1, 2)` and `Get(0, 31)` read. */
  lemma CustomAccessorsAgree(flags: seq<Byte>)
    ensures |flags| == 2 ==> FieldDescTypeCustom(flags) == Field(Value(flags), 1, 2)
    ensures |flags| == 4 ==> CopyStackCustom(flags) == Field(Value(flags), 0, 31)
  {
    assert Pow2(2) == 4;
    AndLowMask(ShiftRight(Value(flags), 1), 2);
    Pow2Word();
    assert Pow2(32) == 2 * Pow2(31);
    AndLowMask(Value(flags), 31);
  }
}
