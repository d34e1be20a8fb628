/** What the ring's tests make of positions that wrap around at 64 bits (rxlockfreequeue.c). */
module Wraparound {
  import opened ByteOrder
  import opened PowerOfTwo

  const TWO_TO_64: nat := 0x1_0000_0000_0000_0000

  function Wrapped(pos: nat): nat { pos % TWO_TO_64 }

  lemma {:induction false} Pow2Product(i: nat, j: nat)
    ensures Pow2(i + j) == Pow2(i) * Pow2(j)
  {
    if i > 0 {
      Pow2Product(i - 1, j);
      Pow2Double(i);
      Pow2Double(i + j);
      assert 2 * (Pow2(i - 1) * Pow2(j)) == (2 * Pow2(i - 1)) * Pow2(j);
    }
  }

  lemma Pow64()
    ensures Pow2(64) == TWO_TO_64
  {
    Pow2Values();
    Pow2Product(32, 32);
  }

  lemma Distributes(q: nat, m: nat, b: nat, p: nat, r: nat)
    ensures q * (m * b) + (p * b + r) == (q * m + p) * b + r
  {
    assert q * (m * b) == (q * m) * b;
  }

  lemma Divided(a: nat, b: nat) returns (q: nat, r: nat)
    requires b > 0
    ensures a == q * b + r && r < b && r == a % b
  {
    q, r := a / b, a % b;
  }

  lemma RemainderThroughMultiple(pos: nat, m: nat, b: nat)
    requires m > 0 && b > 0
    ensures m * b > 0 && (pos % (m * b)) % b == pos % b
  {
    var all := m * b;
    assert all > 0;
    var q, x := Divided(pos, all);
    var p, r := Divided(x, b);
    Distributes(q, m, b, p, r);
    RemainderIs(pos, b, q * m + p, r);
  }

  /** Masking a wrapped position still finds the slot, because the capacity divides 2^64. */
  lemma MaskSurvives(pos: nat, k: nat)
    requires k <= 64
    ensures BitAnd(Wrapped(pos), Pow2(k) - 1) == pos % Pow2(k)
  {
    MaskIsRemainder(Wrapped(pos), k);
    Pow64();
    Pow2Product(64 - k, k);
    RemainderThroughMultiple(pos, Pow2(64 - k), Pow2(k));
  }

  /** The full test of a push survives: the difference of the wrapped positions is that of the positions. */
  lemma FullTestSurvives(r: nat, w: nat, capacity: nat)
    requires r <= w <= r + capacity && capacity < TWO_TO_64
    ensures (Wrapped(w) + TWO_TO_64 - Wrapped(r)) % TWO_TO_64 == w - r
  {
  }

  /** The empty test of a pop does not: it is right if and only if the queue is empty or both positions have
      wrapped equally often.  While only the write position has wrapped, a queue with items looks empty. */
  lemma EmptyTestExactly(r: nat, w: nat, capacity: nat)
    requires r <= w <= r + capacity && capacity < TWO_TO_64
    ensures (Wrapped(r) >= Wrapped(w) <==> r >= w) <==> (r == w || r / TWO_TO_64 == w / TWO_TO_64)
  {
  }
}
