/** The heap growth curve (gc_trigger.rs, mmtk_overallocation). */
module Overallocation {
  import opened Bits

  /** `usize::BITS - leading_zeros` */
  function BitLength(x: nat): nat {
    if x == 0 then 0 else 1 + BitLength(x / 2)
  }

  /** The power part of the curve: about 2 * old_val^(7/8). */
  function PowerPart(oldVal: Word): nat {
    Pow2(BitLength(oldVal) * 7 / 8)
  }

  function Increment(oldVal: Word): (inc: Word) {
    IncrementFits(oldVal);
    PowerPart(oldVal) * 4 + oldVal / 8
  }

  /** mmtk_overallocation. The sum in the guard is a release-mode usize addition. */
  function Overallocate(oldVal: Word, val: Word, maxVal: Word): (r: Word) {
    var inc := Increment(oldVal);
    if WrapAdd(inc, val) > maxVal && inc > maxVal / 20 then maxVal / 20 else inc
  }

  function Pow(b: nat, e: nat): nat {
    if e == 0 then 1 else b * Pow(b, e - 1)
  }

  lemma {:induction false} BitLengthBounds(x: nat)
    ensures x < Pow2(BitLength(x))
    ensures x > 0 ==> BitLength(x) > 0 && Pow2(BitLength(x) - 1) <= x
  {
    if x > 1 {
      BitLengthBounds(x / 2);
    } else if x == 1 {
      assert BitLength(1) == 1 + BitLength(0);
    }
  }

  lemma BitLengthLeast(x: nat, w: nat)
    requires x < Pow2(w)
    ensures BitLength(x) <= w
  {
    if x > 0 && w > 0 {
      BitLengthLeast(x / 2, w - 1);
    }
  }

  lemma BitLengthMonotone(x: nat, y: nat)
    requires x <= y
    ensures BitLength(x) <= BitLength(y)
  {
    BitLengthBounds(y);
    BitLengthLeast(x, BitLength(y));
  }

  /** The increment never overflows, whatever the old size. */
  lemma IncrementFits(oldVal: Word)
    ensures PowerPart(oldVal) * 4 + oldVal / 8 < WORD_VALUES
  {
    Pow2Word();
    BitLengthLeast(oldVal, 64);
    Pow2Monotone(BitLength(oldVal) * 7 / 8, 56);
    Pow2Add(56, 8);
  }

  lemma IncrementMonotone(a: Word, b: Word)
    requires a <= b
    ensures Increment(a) <= Increment(b)
  {
    BitLengthMonotone(a, b);
    Pow2Monotone(BitLength(a) * 7 / 8, BitLength(b) * 7 / 8);
  }

  // The power part lies within a factor of two of old_val^(7/8)

  lemma {:induction false} PowMonotone(a: nat, b: nat, e: nat)
    requires a <= b
    ensures Pow(a, e) <= Pow(b, e)
  {
    if e > 0 {
      PowMonotone(a, b, e - 1);
      assert a * Pow(a, e - 1) <= b * Pow(b, e - 1) by {
        MulMonotone(a, b, Pow(a, e - 1), Pow(b, e - 1));
      }
    }
  }

  lemma MulMonotone(a: nat, b: nat, c: nat, d: nat)
    requires a <= b && c <= d
    ensures a * c <= b * d
  {
    assert a * c <= b * c && b * c <= b * d;
  }

  lemma {:induction false} PowStrict(a: nat, b: nat, e: nat)
    requires a < b && e > 0
    ensures Pow(a, e) < Pow(b, e)
  {
    PowMonotone(a, b, e - 1);
    PowPositive(b, e - 1);
    MulStrict(a, b, Pow(a, e - 1), Pow(b, e - 1));
  }

  lemma MulStrict(a: nat, b: nat, c: nat, d: nat)
    requires a < b && c <= d && d > 0
    ensures a * c < b * d
  {
    MulMonotone(a, b - 1, c, d);
    assert (b - 1) * d + d == b * d;
  }

  lemma PowPositive(b: nat, e: nat)
    requires b > 0
    ensures Pow(b, e) > 0
  {
    if e > 0 {
      PowPositive(b, e - 1);
      assert b * Pow(b, e - 1) > 0;
    }
  }

  lemma {:induction false} PowOfPow2(k: nat, e: nat)
    ensures Pow(Pow2(k), e) == Pow2(k * e)
  {
    if e > 0 {
      PowOfPow2(k, e - 1);
      Pow2Add(k, k * (e - 1));
      assert k + k * (e - 1) == k * e;
    }
  }

  lemma PowerPartUpper(oldVal: Word)
    requires oldVal > 0
    ensures Pow(PowerPart(oldVal), 8) <= Pow(2 * oldVal, 7)
  {
    var n := BitLength(oldVal);
    var k := n * 7 / 8;
    BitLengthBounds(oldVal);
    PowOfPow2(n, 7);
    PowOfPow2(k, 8);
    Pow2Monotone(k * 8, n * 7);
    TwiceAtLeast(n, oldVal);
    PowMonotone(Pow2(n), 2 * oldVal, 7);
  }

  lemma TwiceAtLeast(n: nat, x: nat)
    requires n > 0 && Pow2(n - 1) <= x
    ensures Pow2(n) <= 2 * x
  {
  }

  lemma PowerPartLower(oldVal: Word)
    requires oldVal > 0
    ensures Pow(oldVal, 7) < Pow(2 * PowerPart(oldVal), 8)
  {
    var n := BitLength(oldVal);
    var k := n * 7 / 8;
    BitLengthBounds(oldVal);
    PowOfPow2(n, 7);
    PowOfPow2(k + 1, 8);
    Pow2Monotone(n * 7, (k + 1) * 8);
    PowStrict(oldVal, Pow2(n), 7);
  }

  /** p^8 <= (2 * old)^7 and old^7 < (2 * p)^8: the power part is old^(7/8) to within a factor of two
    each way. */
  lemma PowerPartBounds(oldVal: Word)
    requires oldVal > 0
    ensures Pow(PowerPart(oldVal), 8) <= Pow(2 * oldVal, 7)
    ensures Pow(oldVal, 7) < Pow(2 * PowerPart(oldVal), 8)
  {
    PowerPartUpper(oldVal);
    PowerPartLower(oldVal);
  }

  // The cap

  /** What the guard is for: adding the result never takes `val` above `maxVal`, or, where `val` is
    already near or above it, by more than a twentieth of `maxVal`. */
  predicate CapRespected(oldVal: Word, val: Word, maxVal: Word) {
    val + Overallocate(oldVal, val, maxVal) <= Max(maxVal, val + maxVal / 20)
  }

  lemma NeverAboveIncrement(oldVal: Word, val: Word, maxVal: Word)
    ensures Overallocate(oldVal, val, maxVal) <= Increment(oldVal)
  {
  }

  /** The cap holds exactly when the guard's sum does not wrap around below max_val, or the increment
    is within 5% anyway. */
  lemma CapExact(oldVal: Word, val: Word, maxVal: Word)
    ensures CapRespected(oldVal, val, maxVal) <==>
            var inc := Increment(oldVal);
            inc + val < WORD_VALUES || inc <= maxVal / 20 || WrapAdd(inc, val) > maxVal
  {
  }

  /** An input on which it does not hold, in whole pages as the trigger passes them: the increment is
    8704 and the sum wraps around to 4608. `TriggerRuns.CapFailsInRun` reaches it. */
  lemma CapCanFail()
    ensures !CapRespected(4096, WORD_VALUES - 4096, 10000)
  {
    BitLengthOf4096();
    assert BitLength(4096) * 7 / 8 == 11;
    Pow2Add(8, 3);
    assert Pow2(3) == 8;
    Pow2Byte();
    assert Increment(4096) == 8704;
  }

  lemma BitLengthOf4096()
    ensures BitLength(4096) == 13
  {
    assert BitLength(8) == 4;
    assert BitLength(64) == 3 + BitLength(8);
    assert BitLength(512) == 3 + BitLength(64);
    assert BitLength(4096) == 3 + BitLength(512);
  }
}
