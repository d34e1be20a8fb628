/** Rounding up to a power of two by smearing bits, and masking as a remainder (rxlockfreequeue.c). */
module PowerOfTwo {
  import opened ByteOrder

  function Pow2(k: nat): (r: nat)
    ensures r > 0
  {
    if k == 0 then 1 else 2 * Pow2(k - 1)
  }

  const TWO_TO_32: nat := 0x1_0000_0000

  /** Bitwise or. */
  function BitOr(a: nat, b: nat): nat
    decreases a + b
  {
    if a == 0 then b else if b == 0 then a
    else 2 * BitOr(a / 2, b / 2) + (if a % 2 == 1 || b % 2 == 1 then 1 else 0)
  }

  /** a >> n */
  function ShiftRight(a: nat, n: nat): nat { if n == 0 then a else ShiftRight(a / 2, n - 1) }

  lemma {:induction false} BitOrIsBitwise(a: nat, b: nat, k: nat)
    ensures Bit(BitOr(a, b), k) <==> Bit(a, k) || Bit(b, k)
    decreases k
  {
    if a == 0 || b == 0 {
      ZeroHasNoBits(k);
    } else if k > 0 {
      BitOrIsBitwise(a / 2, b / 2, k - 1);
    }
  }

  lemma {:induction false} ShiftedBit(a: nat, n: nat, k: nat)
    ensures Bit(ShiftRight(a, n), k) <==> Bit(a, k + n)
    decreases n
  {
    if n > 0 {
      ShiftedBit(a / 2, n - 1, k);
    }
  }

  // ---------- Bits and size ----------

  /** The highest set bit of a positive number. */
  function Top(a: nat): (k: nat)
    requires a > 0
    ensures Pow2(k) <= a < Pow2(k + 1)
  {
    if a == 1 then 0 else 1 + Top(a / 2)
  }

  lemma {:induction false} BitsUpToTop(a: nat, k: nat, i: nat)
    requires Pow2(k) <= a < Pow2(k + 1)
    ensures Bit(a, k) && (i > k ==> !Bit(a, i))
    decreases k
  {
    if k > 0 {
      BitsUpToTop(a / 2, k - 1, if i == 0 then 0 else i - 1);
    } else {
      assert a == 1;
      if i > 0 {
        ZeroHasNoBits(i - 1);
      }
    }
  }

  /** A number whose bits up to k, and no others, are set is one less than a power of two. */
  lemma {:induction false} AllOnes(a: nat, k: nat)
    requires forall i :: 0 <= i <= k ==> Bit(a, i)
    requires forall i :: k < i ==> !Bit(a, i)
    ensures a == Pow2(k + 1) - 1
    decreases k
  {
    assert Bit(a, 0);
    forall i: nat
      ensures Bit(a / 2, i) <==> Bit(a, i + 1)
    {
    }
    if k == 0 {
      NoBitsIsZero(a / 2);
    } else {
      AllOnes(a / 2, k - 1);
    }
  }

  lemma {:induction false} NoBitsIsZero(a: nat)
    requires forall i: nat :: !Bit(a, i)
    ensures a == 0
  {
    if a > 0 {
      BitsUpToTop(a, Top(a), 0);
    }
  }

  // ---------- Smearing ----------

  /** The highest set bit is k, and it is followed by ones for n bits in all. */
  ghost predicate Smeared(a: nat, k: nat, n: nat) {
    (forall i: nat :: i <= k && k < i + n ==> Bit(a, i)) && forall i: nat :: k < i ==> !Bit(a, i)
  }

  lemma SmearStep(a: nat, k: nat, n: nat)
    requires Smeared(a, k, n)
    ensures Smeared(BitOr(a, ShiftRight(a, n)), k, 2 * n)
  {
    hide BitOr, ShiftRight, Bit;
    var b := BitOr(a, ShiftRight(a, n));
    forall i: nat | i <= k && k < i + 2 * n
      ensures Bit(b, i)
    {
      BitOrIsBitwise(a, ShiftRight(a, n), i);
      ShiftedBit(a, n, i);
      if k >= i + n {
        assert Bit(a, i + n);
      } else {
        assert Bit(a, i);
      }
    }
    forall i: nat | k < i
      ensures !Bit(b, i)
    {
      BitOrIsBitwise(a, ShiftRight(a, n), i);
      ShiftedBit(a, n, i);
      assert !Bit(a, i) && !Bit(a, i + n);
    }
  }

  lemma {:induction false} Pow2Monotone(a: nat, b: nat)
    requires a <= b
    ensures Pow2(a) <= Pow2(b)
    decreases b
  {
    if a < b {
      Pow2Monotone(a, b - 1);
    }
  }

  lemma {:induction false} SmearZero(n: nat)
    ensures BitOr(0, ShiftRight(0, n)) == 0
  {
    if n > 0 {
      SmearZero(n - 1);
    }
  }

  /** The least power of two at or above n, as a 32-bit number: requests above 2^31 wrap to zero. */
  method NextPowerOf2(n: nat) returns (r: nat)
    requires n < TWO_TO_32
    ensures n == 0 ==> r == 1
    ensures 0 < n <= TWO_TO_32 / 2 ==> exists k: nat :: LeastPower(n, r, k)
    ensures n > TWO_TO_32 / 2 ==> r == 0
  {
    if n == 0 {
      return 1;
    }
    var m := n - 1;
    SmearAll(m);
    m := BitOr(m, ShiftRight(m, 1));
    m := BitOr(m, ShiftRight(m, 2));
    m := BitOr(m, ShiftRight(m, 4));
    m := BitOr(m, ShiftRight(m, 8));
    m := BitOr(m, ShiftRight(m, 16));
    assert m == SmearedBits(n - 1);
    hide BitOr, ShiftRight, SmearedBits;
    ghost var k := RoundsUp(n, m);
    r := (m + 1) % TWO_TO_32;
  }

  function Smear(m: nat, shift: nat): nat { BitOr(m, ShiftRight(m, shift)) }

  function SmearedBits(m: nat): nat { Smear(Smear(Smear(Smear(Smear(m, 1), 2), 4), 8), 16) }

  /** Five doubling steps turn a 32-bit number into ones from its highest bit down. */
  lemma SmearAll(m: nat)
    requires m < TWO_TO_32
    ensures m == 0 ==> SmearedBits(m) == 0
    ensures m > 0 ==> Top(m) < 32 && SmearedBits(m) == Pow2(Top(m) + 1) - 1
  {
    hide BitOr, ShiftRight, Smeared, Pow2, Bit;
    if m == 0 {
      SmearZero(1);
      SmearZero(2);
      SmearZero(4);
      SmearZero(8);
      SmearZero(16);
    } else {
      var k := Top(m);
      TopBelow32(m, k);
      TopSmeared(m, k);
      SmearStep(m, k, 1);
      var m2 := Smear(m, 1);
      SmearStep(m2, k, 2);
      var m4 := Smear(m2, 2);
      SmearStep(m4, k, 4);
      var m8 := Smear(m4, 4);
      SmearStep(m8, k, 8);
      var m16 := Smear(m8, 8);
      SmearStep(m16, k, 16);
      SmearedFull(Smear(m16, 16), k);
    }
  }

  /** r is the least power of two, at most 2^31, that is at least n. */
  predicate LeastPower(n: nat, r: nat, k: nat) {
    k <= 31 && r == Pow2(k) && n <= r && (k > 0 ==> Pow2(k - 1) < n)
  }

  lemma RoundsUp(n: nat, m: nat) returns (k: nat)
    requires 0 < n < TWO_TO_32
    requires n == 1 ==> m == 0
    requires n > 1 ==> Top(n - 1) < 32 && m == Pow2(Top(n - 1) + 1) - 1
    ensures n <= TWO_TO_32 / 2 ==> LeastPower(n, (m + 1) % TWO_TO_32, k)
    ensures n > TWO_TO_32 / 2 ==> (m + 1) % TWO_TO_32 == 0
  {
    Pow2Values();
    assert Pow2(0) == 1;
    hide Pow2;
    k := 0;
    if n > 1 {
      var t := Top(n - 1);
      k := t + 1;
      if n > TWO_TO_32 / 2 {
        TopIs31(n - 1, t);
      } else {
        TopBelow31(n - 1, t);
        Pow2Monotone(k, 31);
      }
    }
  }

  lemma TopBelow31(m: nat, k: nat)
    requires Pow2(k) <= m < TWO_TO_32 / 2
    ensures k < 31
  {
    Pow2Values();
    if k >= 31 {
      Pow2Monotone(31, k);
    }
  }

  lemma TopSmeared(m: nat, k: nat)
    requires Pow2(k) <= m < Pow2(k + 1)
    ensures Smeared(m, k, 1)
  {
    forall i: nat | i >= k
      ensures Bit(m, k) && (i > k ==> !Bit(m, i))
    {
      BitsUpToTop(m, k, i);
    }
  }

  lemma Pow2Values()
    ensures Pow2(31) == TWO_TO_32 / 2 && Pow2(32) == TWO_TO_32
  {
    assert Pow2(8) == 0x100;
    assert Pow2(16) == 0x1_0000;
    assert Pow2(24) == 0x100_0000;
    assert Pow2(30) == 0x4000_0000;
  }

  lemma TopBelow32(m: nat, k: nat)
    requires Pow2(k) <= m < TWO_TO_32
    ensures k < 32
  {
    Pow2Values();
    if k >= 32 {
      Pow2Monotone(32, k);
    }
  }

  lemma TopIs31(m: nat, k: nat)
    requires TWO_TO_32 / 2 <= m && Pow2(k) <= m < Pow2(k + 1) && k < 32
    ensures k == 31
  {
    Pow2Values();
    if k < 31 {
      Pow2Monotone(k + 1, 31);
    }
  }

  lemma SmearedFull(m: nat, k: nat)
    requires Smeared(m, k, 32) && k < 32
    ensures m == Pow2(k + 1) - 1
  {
    AllOnes(m, k);
  }

  // ---------- Masking ----------

  /** Masking a position with capacity - 1 is the remainder by the capacity. */
  lemma {:induction false} MaskIsRemainder(pos: nat, k: nat)
    ensures BitAnd(pos, Pow2(k) - 1) == pos % Pow2(k)
    decreases k
  {
    if k > 0 {
      var half := Pow2(k - 1);
      MaskIsRemainder(pos / 2, k - 1);
      hide Pow2, BitAnd;
      assert Pow2(k) == 2 * half by { Pow2Double(k); }
      RemainderOfDouble(pos, half);
      AndWithOnes(pos, half);
    }
  }

  lemma Pow2Double(k: nat)
    requires k > 0
    ensures Pow2(k) == 2 * Pow2(k - 1)
  {
  }

  lemma AndWithOnes(pos: nat, half: nat)
    requires half > 0
    ensures BitAnd(pos, 2 * half - 1) == 2 * BitAnd(pos / 2, half - 1) + pos % 2
  {
    assert (2 * half - 1) / 2 == half - 1;
  }

  lemma RemainderOfDouble(pos: nat, half: nat)
    requires half > 0
    ensures pos % (2 * half) == 2 * ((pos / 2) % half) + pos % 2
  {
    var q, r := (pos / 2) / half, (pos / 2) % half;
    assert pos / 2 == q * half + r;
    assert q * (2 * half) == 2 * (q * half);
    RemainderIs(pos, 2 * half, q, 2 * r + pos % 2);
  }

  lemma RemainderIs(a: nat, b: nat, q: nat, r: nat)
    requires b > 0 && r < b && a == q * b + r
    ensures a % b == r
  {
    var d := a / b - q;
    assert a == (a / b) * b + a % b;
    assert d * b == (a / b) * b - q * b;
    if d != 0 {
      BigMultiple(d, b);
    }
  }

  lemma {:induction false} BigMultiple(d: int, b: int)
    requires d != 0 && b > 0
    ensures if d > 0 then d * b >= b else d * b <= -b
    decreases if d > 0 then d else -d
  {
    if d > 1 {
      BigMultiple(d - 1, b);
      assert d * b == (d - 1) * b + b;
    } else if d < -1 {
      BigMultiple(d + 1, b);
      assert d * b == (d + 1) * b - b;
    }
  }
}
