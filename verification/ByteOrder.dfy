/** Reading integers out of a packet (utils/endian.h), and what the readers mean.
    Shifting bytes to distinct places and or-ing them is written as a weighted sum. */
module ByteOrder {
  import opened Pdef

  function At(data: Packet, i: nat): nat
    requires i < |data|
  {
    data[i]
  }

  function ReadU16BE(data: Packet, offset: nat): U64
    requires offset + 2 <= |data|
  {
    At(data, offset) * 0x100 + At(data, offset + 1)
  }

  function ReadU16LE(data: Packet, offset: nat): U64
    requires offset + 2 <= |data|
  {
    At(data, offset) + At(data, offset + 1) * 0x100
  }

  function ReadU32BE(data: Packet, offset: nat): U64
    requires offset + 4 <= |data|
  {
    At(data, offset) * 0x100_0000 + At(data, offset + 1) * 0x1_0000 +
    At(data, offset + 2) * 0x100 + At(data, offset + 3)
  }

  function ReadU32LE(data: Packet, offset: nat): U64
    requires offset + 4 <= |data|
  {
    At(data, offset) + At(data, offset + 1) * 0x100 +
    At(data, offset + 2) * 0x1_0000 + At(data, offset + 3) * 0x100_0000
  }

  function ReadU64BE(data: Packet, offset: nat): U64
    requires offset + 8 <= |data|
  {
    At(data, offset) * 0x100_0000_0000_0000 + At(data, offset + 1) * 0x1_0000_0000_0000 +
    At(data, offset + 2) * 0x100_0000_0000 + At(data, offset + 3) * 0x1_0000_0000 +
    At(data, offset + 4) * 0x100_0000 + At(data, offset + 5) * 0x1_0000 +
    At(data, offset + 6) * 0x100 + At(data, offset + 7)
  }

  function ReadU64LE(data: Packet, offset: nat): U64
    requires offset + 8 <= |data|
  {
    At(data, offset) + At(data, offset + 1) * 0x100 +
    At(data, offset + 2) * 0x1_0000 + At(data, offset + 3) * 0x100_0000 +
    At(data, offset + 4) * 0x1_0000_0000 + At(data, offset + 5) * 0x100_0000_0000 +
    At(data, offset + 6) * 0x1_0000_0000_0000 + At(data, offset + 7) * 0x100_0000_0000_0000
  }

  // The conversions (uint64_t)(int64_t)(intN_t): a set sign bit of the narrow value fills the upper bits.

  function SignExtend8(v: U64): U64
    requires v < 0x100
  {
    if v < 0x80 then v else v + 0xFFFF_FFFF_FFFF_FF00
  }

  function SignExtend16(v: U64): U64
    requires v < 0x1_0000
  {
    if v < 0x8000 then v else v + 0xFFFF_FFFF_FFFF_0000
  }

  function SignExtend32(v: U64): U64
    requires v < 0x1_0000_0000
  {
    if v < 0x8000_0000 then v else v + 0xFFFF_FFFF_0000_0000
  }

  /** Bitwise and. */
  function BitAnd(a: nat, b: nat): (r: nat)
    ensures r <= a && r <= b
  {
    if a == 0 || b == 0 then 0
    else 2 * BitAnd(a / 2, b / 2) + (if a % 2 == 1 && b % 2 == 1 then 1 else 0)
  }

  predicate Bit(v: nat, k: nat) {
    if k == 0 then v % 2 == 1 else Bit(v / 2, k - 1)
  }

  lemma {:induction false} ZeroHasNoBits(k: nat)
    ensures !Bit(0, k)
  {
    if k > 0 {
      ZeroHasNoBits(k - 1);
    }
  }

  lemma {:induction false} BitAndIsBitwise(a: nat, b: nat, k: nat)
    ensures Bit(BitAnd(a, b), k) <==> Bit(a, k) && Bit(b, k)
  {
    if a == 0 || b == 0 {
      ZeroHasNoBits(k);
    } else if k > 0 {
      BitAndIsBitwise(a / 2, b / 2, k - 1);
    }
  }

  // ---------- The meaning of a byte string, independent of the readers ----------

  /** The number a byte string denotes when its first byte is the most significant. */
  function Positional(bytes: Packet): nat {
    if bytes == [] then 0 else Positional(bytes[..|bytes| - 1]) * 0x100 + At(bytes, |bytes| - 1)
  }

  function Reversed(bytes: Packet): (r: Packet)
    ensures |r| == |bytes|
    ensures forall k :: 0 <= k < |r| ==> r[k] == bytes[|bytes| - 1 - k]
  {
    if bytes == [] then [] else [bytes[|bytes| - 1]] + Reversed(bytes[..|bytes| - 1])
  }

  lemma ReversedTwice(bytes: Packet)
    ensures Reversed(Reversed(bytes)) == bytes
  {
  }

  /** The number stored in a byte string under a byte order. */
  function Number(bytes: Packet, order: Endian): nat {
    Positional(if order == Big then bytes else Reversed(bytes))
  }

  lemma {:induction false} PositionalStep(b: Packet, n: nat)
    requires n < |b|
    ensures Positional(b[..n + 1]) == Positional(b[..n]) * 0x100 + At(b, n)
  {
    assert b[..n + 1][..n] == b[..n];
  }

  lemma {:induction false} Positional2(b: Packet)
    requires |b| == 2
    ensures Positional(b) == At(b, 0) * 0x100 + At(b, 1)
  {
    PositionalStep(b, 0);
    PositionalStep(b, 1);
    assert b[..2] == b && Positional(b[..0]) == 0;
  }

  lemma {:induction false} Positional4(b: Packet)
    requires |b| == 4
    ensures Positional(b) == At(b, 0) * 0x100_0000 + At(b, 1) * 0x1_0000 + At(b, 2) * 0x100 + At(b, 3)
  {
    Positional2(b[..2]);
    PositionalStep(b, 2);
    PositionalStep(b, 3);
    assert b[..4] == b;
  }

  lemma {:induction false} Positional8(b: Packet)
    requires |b| == 8
    ensures Positional(b) ==
            At(b, 0) * 0x100_0000_0000_0000 + At(b, 1) * 0x1_0000_0000_0000 +
            At(b, 2) * 0x100_0000_0000 + At(b, 3) * 0x1_0000_0000 +
            At(b, 4) * 0x100_0000 + At(b, 5) * 0x1_0000 + At(b, 6) * 0x100 + At(b, 7)
  {
    Positional4(b[..4]);
    PositionalStep(b, 4);
    PositionalStep(b, 5);
    PositionalStep(b, 6);
    PositionalStep(b, 7);
    assert b[..8] == b;
  }

  // ---------- Each reader reads the number its name says ----------

  lemma {:induction false} Reads16(data: Packet, offset: nat)
    requires offset + 2 <= |data|
    ensures ReadU16BE(data, offset) == Number(data[offset..offset + 2], Big)
    ensures ReadU16LE(data, offset) == Number(data[offset..offset + 2], Little)
  {
    var b := data[offset..offset + 2];
    Positional2(b);
    Positional2(Reversed(b));
  }

  lemma {:induction false} Reads32(data: Packet, offset: nat)
    requires offset + 4 <= |data|
    ensures ReadU32BE(data, offset) == Number(data[offset..offset + 4], Big)
    ensures ReadU32LE(data, offset) == Number(data[offset..offset + 4], Little)
  {
    var b := data[offset..offset + 4];
    Positional4(b);
    Positional4(Reversed(b));
  }

  lemma {:induction false} Reads64(data: Packet, offset: nat)
    requires offset + 8 <= |data|
    ensures ReadU64BE(data, offset) == Number(data[offset..offset + 8], Big)
    ensures ReadU64LE(data, offset) == Number(data[offset..offset + 8], Little)
  {
    var b := data[offset..offset + 8];
    Positional8(b);
    Positional8(Reversed(b));
  }
}
