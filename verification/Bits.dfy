/** Machine words as natural numbers, with the bitwise operators defined bit by bit.

  A 64-bit word is a natural number below 2^64. The operators `&`, `|` and `!` are recursive on the
  binary digits, and the lemmas say when they agree with ordinary arithmetic: a mask of the low bits
  is a remainder, clearing them rounds down, and numbers with the same bits are equal. */
module Bits {

  const WORD_VALUES: nat := 0x1_0000_0000_0000_0000

  /** A usize, an Address or any other 64-bit quantity. */
  type Word = x: nat | x < 0x1_0000_0000_0000_0000

  type Byte = x: nat | x < 256

  /** Release-mode integer arithmetic keeps the low 64 bits. */
  function Wrap(x: int): Word {
    x % WORD_VALUES
  }

  function WrapAdd(a: Word, b: Word): Word {
    if a + b < WORD_VALUES then a + b else a + b - WORD_VALUES
  }

  function WrapSub(a: Word, b: Word): Word {
    if b <= a then a - b else a - b + WORD_VALUES
  }

  function Min(a: int, b: int): int {
    if a < b then a else b
  }

  function Max(a: int, b: int): int {
    if a < b then b else a
  }

  function Pow2(k: nat): (p: nat)
    ensures p > 0
  {
    if k == 0 then 1 else 2 * Pow2(k - 1)
  }

  predicate Bit(x: nat, i: nat) {
    ShiftRight(x, i) % 2 == 1
  }

  function Digit(b: bool): nat {
    if b then 1 else 0
  }

  /** The operator `&`. */
  function BitAnd(x: nat, y: nat): nat {
    if x == 0 || y == 0 then 0
    else 2 * BitAnd(x / 2, y / 2) + Digit(x % 2 == 1 && y % 2 == 1)
  }

  /** The operator `|`. */
  function BitOr(x: nat, y: nat): nat {
    if x == 0 && y == 0 then 0
    else 2 * BitOr(x / 2, y / 2) + Digit(x % 2 == 1 || y % 2 == 1)
  }

  /** The operator `!` on words of `w` bits. */
  function BitNot(w: nat, x: nat): nat
    requires x < Pow2(w)
  {
    Pow2(w) - 1 - x
  }

  /** The operator `>>`. */
  function ShiftRight(x: nat, k: nat): nat {
    if k == 0 then x else ShiftRight(x / 2, k - 1)
  }

  lemma Pow2Add(a: nat, b: nat)
    ensures Pow2(a + b) == Pow2(a) * Pow2(b)
  {
    if a > 0 {
      Pow2Add(a - 1, b);
    }
  }

  lemma Pow2Monotone(a: nat, b: nat)
    requires a <= b
    ensures Pow2(a) <= Pow2(b)
  {
    if a < b {
      Pow2Monotone(a, b - 1);
    }
  }

  lemma Pow2Byte()
    ensures Pow2(8) == 256
  {
    assert Pow2(4) == 16;
    Pow2Add(4, 4);
  }

  lemma Pow2Half()
    ensures Pow2(16) == 0x1_0000 && Pow2(32) == 0x1_0000_0000
  {
    Pow2Byte();
    Pow2Add(8, 8);
    Pow2Add(16, 16);
  }

  lemma Pow2Word()
    ensures Pow2(64) == WORD_VALUES
    ensures Pow2(8) == 256 && Pow2(16) == 0x1_0000 && Pow2(32) == 0x1_0000_0000
  {
    Pow2Byte();
    Pow2Half();
    Pow2Add(32, 32);
  }

  lemma SmallMultiple(d: int, m: int, e: int)
    requires d * m == e && -m < e < m
    ensures d == 0
  {
  }

  lemma DivModUnique(x: nat, m: nat, q: nat, r: nat)
    requires x == q * m + r && r < m
    ensures x / m == q && x % m == r
  {
    SmallMultiple(x / m - q, m, r - x % m);
  }

  lemma HalveDivMod(x: nat, m: nat)
    requires m > 0
    ensures x / (2 * m) == (x / 2) / m
    ensures x % (2 * m) == 2 * ((x / 2) % m) + x % 2
  {
    var q, r := (x / 2) / m, (x / 2) % m;
    assert x / 2 == q * m + r;
    assert x == q * (2 * m) + (2 * r + x % 2);
    DivModUnique(x, 2 * m, q, 2 * r + x % 2);
  }

  lemma BitStep(x: nat, i: nat)
    ensures Bit(x, 0) <==> x % 2 == 1
    ensures i > 0 ==> (Bit(x, i) <==> Bit(x / 2, i - 1))
  {
  }

  lemma OperatorStep(x: nat, y: nat)
    ensures BitAnd(x, y) / 2 == BitAnd(x / 2, y / 2)
    ensures BitAnd(x, y) % 2 == 1 <==> x % 2 == 1 && y % 2 == 1
    ensures BitOr(x, y) / 2 == BitOr(x / 2, y / 2)
    ensures BitOr(x, y) % 2 == 1 <==> x % 2 == 1 || y % 2 == 1
  {
  }

  lemma {:induction false} AndBits(x: nat, y: nat, i: nat)
    ensures Bit(BitAnd(x, y), i) <==> Bit(x, i) && Bit(y, i)
    decreases i
  {
    OperatorStep(x, y);
    BitStep(x, i);
    BitStep(y, i);
    BitStep(BitAnd(x, y), i);
    if i > 0 {
      AndBits(x / 2, y / 2, i - 1);
    }
  }

  lemma {:induction false} OrBits(x: nat, y: nat, i: nat)
    ensures Bit(BitOr(x, y), i) <==> Bit(x, i) || Bit(y, i)
    decreases i
  {
    OperatorStep(x, y);
    BitStep(x, i);
    BitStep(y, i);
    BitStep(BitOr(x, y), i);
    if i > 0 {
      OrBits(x / 2, y / 2, i - 1);
    }
  }

  lemma {:induction false} NotBits(w: nat, x: nat, i: nat)
    requires x < Pow2(w) && i < w
    ensures Bit(BitNot(w, x), i) <==> !Bit(x, i)
    decreases i
  {
    assert Pow2(w) == 2 * Pow2(w - 1);
    if i > 0 {
      NotBits(w - 1, x / 2, i - 1);
      assert BitNot(w, x) / 2 == BitNot(w - 1, x / 2);
    }
  }

  lemma ZeroBits(i: nat)
    ensures !Bit(0, i)
  {
    if i > 0 {
      ZeroBits(i - 1);
    }
  }

  lemma {:induction false} Pow2Bits(k: nat, i: nat)
    ensures Bit(Pow2(k), i) <==> i == k
  {
    if i > 0 && k > 0 {
      Pow2Bits(k - 1, i - 1);
    } else if i > 0 {
      ZeroBits(i - 1);
    }
  }

  lemma {:induction false} HighBits(w: nat, x: nat, i: nat)
    requires x < Pow2(w) && w <= i
    ensures !Bit(x, i)
  {
    if w == 0 {
      ZeroBits(i);
    } else {
      HighBits(w - 1, x / 2, i - 1);
    }
  }

  lemma {:induction false} ShiftBits(x: nat, k: nat, i: nat)
    ensures Bit(ShiftRight(x, k), i) <==> Bit(x, i + k)
  {
    if k > 0 {
      ShiftBits(x / 2, k - 1, i);
    }
  }

  lemma {:induction false} ShiftDivides(x: nat, k: nat)
    ensures ShiftRight(x, k) == x / Pow2(k)
  {
    if k > 0 {
      HalveDivMod(x, Pow2(k - 1));
      ShiftDivides(x / 2, k - 1);
    }
  }

  lemma HalveMod(x: nat, k: nat)
    requires k > 0
    ensures x % Pow2(k) / 2 == x / 2 % Pow2(k - 1)
    ensures x % Pow2(k) % 2 == x % 2
  {
    HalveDivMod(x, Pow2(k - 1));
  }

  lemma {:induction false} LowBits(x: nat, k: nat, i: nat)
    ensures Bit(x % Pow2(k), i) <==> i < k && Bit(x, i)
    decreases k
  {
    if k == 0 {
      ZeroBits(i);
    } else {
      HalveMod(x, k);
      BitStep(x, i);
      BitStep(x % Pow2(k), i);
      if i > 0 {
        LowBits(x / 2, k - 1, i - 1);
      }
    }
  }

  /** Two numbers with the same bits are equal. */
  lemma {:induction false} SameBits(w: nat, x: nat, y: nat)
    requires x < Pow2(w) && y < Pow2(w)
    requires forall i: nat :: i < w ==> (Bit(x, i) <==> Bit(y, i))
    ensures x == y
  {
    if w > 0 {
      assert Bit(x, 0) <==> Bit(y, 0);
      forall i: nat | i < w - 1 ensures Bit(x / 2, i) <==> Bit(y / 2, i) {
        assert Bit(x, i + 1) <==> Bit(y, i + 1);
      }
      SameBits(w - 1, x / 2, y / 2);
    }
  }

  lemma {:induction false} BitWidth(w: nat, x: nat, y: nat)
    requires x < Pow2(w)
    ensures BitAnd(x, y) < Pow2(w)
    ensures y < Pow2(w) ==> BitOr(x, y) < Pow2(w)
  {
    if w > 0 {
      BitWidth(w - 1, x / 2, y / 2);
    }
  }

  /** Masking with the low `k` ones takes a remainder. */
  lemma {:induction false} AndLowMask(x: nat, k: nat)
    ensures BitAnd(x, Pow2(k) - 1) == x % Pow2(k)
  {
    if k > 0 {
      HalveMod(x, k);
      AndLowMask(x / 2, k - 1);
      MaskStep(x, k, x % Pow2(k));
    }
  }

  lemma MaskStep(x: nat, k: nat, low: nat)
    requires k > 0 && BitAnd(x / 2, Pow2(k - 1) - 1) == low / 2 && low % 2 == x % 2
    ensures BitAnd(x, Pow2(k) - 1) == low
  {
    OddMask(k);
    OperatorStep(x, Pow2(k) - 1);
    SameHalves(BitAnd(x, Pow2(k) - 1), low);
  }

  lemma OddMask(k: nat)
    requires k > 0
    ensures (Pow2(k) - 1) / 2 == Pow2(k - 1) - 1 && (Pow2(k) - 1) % 2 == 1
  {
  }

  lemma SameHalves(a: nat, b: nat)
    requires a / 2 == b / 2 && a % 2 == b % 2
    ensures a == b
  {
  }

  /** Clearing the low `k` bits of a `w`-bit word rounds it down to a multiple of 2^k. */
  lemma {:induction false} AndHighMask(w: nat, x: nat, k: nat)
    requires x < Pow2(w) && k <= w && Pow2(k) - 1 < Pow2(w)
    ensures BitAnd(x, BitNot(w, Pow2(k) - 1)) == x - x % Pow2(k)
  {
    Pow2Monotone(k, w);
    if k == 0 {
      AndOnes(w, x);
    } else {
      Pow2Monotone(k - 1, w - 1);
      HalveDivMod(x, Pow2(k - 1));
      AndHighMask(w - 1, x / 2, k - 1);
      assert Pow2(w) == 2 * Pow2(w - 1) && Pow2(k) == 2 * Pow2(k - 1);
      var m := BitNot(w, Pow2(k) - 1);
      assert m / 2 == BitNot(w - 1, Pow2(k - 1) - 1) && m % 2 == 0;
      assert BitAnd(x, m) == 2 * BitAnd(x / 2, m / 2);
    }
  }

  lemma {:induction false} AndOnes(w: nat, x: nat)
    requires x < Pow2(w)
    ensures BitAnd(x, BitNot(w, 0)) == x
  {
    if w > 0 {
      AndOnes(w - 1, x / 2);
      assert BitNot(w, 0) / 2 == BitNot(w - 1, 0);
    }
  }

  lemma {:induction false} OrZero(x: nat)
    ensures BitOr(x, 0) == x
  {
    if x > 0 {
      OrZero(x / 2);
    }
  }

  // The two tag bits the collector keeps in the low end of a pointer

  /** `addr & 1 != 0` */
  predicate Tag1(addr: Word) {
    addr % 2 == 1
  }

  /** `addr & 2 != 0` */
  predicate Tag2(addr: Word) {
    addr % 4 >= 2
  }

  /** `addr & !1` */
  function ClearTag1(addr: Word): Word {
    addr - addr % 2
  }

  /** `addr & !3` */
  function ClearTags(addr: Word): Word {
    addr - addr % 4
  }

  /** `addr | 1` */
  function SetTag1(addr: Word): Word {
    if addr % 2 == 0 then addr + 1 else addr
  }

  lemma LowTags(x: Word)
    ensures BitAnd(x, 1) == x % 2 && BitAnd(x, 3) == x % 4
  {
    assert Pow2(1) == 2 && Pow2(2) == 4;
    AndLowMask(x, 1);
    AndLowMask(x, 2);
  }

  lemma SecondTag(x: Word)
    ensures BitAnd(x, 2) != 0 <==> Tag2(x)
  {
    OperatorStep(x, 2);
    LowTags(x / 2);
    SecondDigit(x);
  }

  lemma SecondDigit(x: Word)
    ensures Tag2(x) <==> x / 2 % 2 == 1
  {
  }

  lemma ShiftTwo(x: Word)
    ensures ShiftRight(x, 2) == x / 4
  {
    assert ShiftRight(x, 2) == ShiftRight(x / 2, 1) == x / 2 / 2;
  }

  /** The operator `!` on 64-bit words. */
  function NotWord(x: Word): Word {
    WORD_VALUES - 1 - x
  }

  lemma ClearedTags(x: Word)
    ensures BitAnd(x, NotWord(1)) == ClearTag1(x)
    ensures BitAnd(x, NotWord(3)) == ClearTags(x)
  {
    Pow2Word();
    assert Pow2(1) == 2 && Pow2(2) == 4;
    AndHighMask(64, x, 1);
    AndHighMask(64, x, 2);
  }

  lemma {:induction false} OrTag(x: nat)
    ensures BitOr(x, 0) == x && BitOr(x, 1) == if x % 2 == 0 then x + 1 else x
  {
    OrZero(x);
    OperatorStep(x, 1);
    OrZero(x / 2);
  }

  /** The arithmetic forms of the tag operations are the bitwise ones. */
  lemma TagsAreBits(x: Word)
    ensures Tag1(x) <==> BitAnd(x, 1) != 0
    ensures Tag2(x) <==> BitAnd(x, 2) != 0
    ensures Tag1(x) && Tag2(x) <==> BitAnd(x, 3) == 3
    ensures ClearTag1(x) == BitAnd(x, NotWord(1))
    ensures ClearTags(x) == BitAnd(x, NotWord(3))
    ensures SetTag1(x) == BitOr(x, 1) && x == BitOr(x, 0)
    ensures x / 4 == ShiftRight(x, 2)
  {
    LowTags(x);
    SecondTag(x);
    ClearedTags(x);
    OrTag(x);
    ShiftTwo(x);
  }
}
