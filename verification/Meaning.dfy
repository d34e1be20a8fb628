/** What a filter rule means, without reference to bytecode. */
module Meaning {
  import opened Pdef
  import opened ByteOrder
  import opened Compiler

  /** The bytes a comparison of the field looks at.  A bytes, string or varbytes field is compared by
      its first byte. */
  function Width(t: FieldType): nat {
    match t
    case Uint16 | Int16 => 2
    case Uint32 | Int32 => 4
    case Uint64 | Int64 => 8
    case _ => 1
  }

  predicate Signed(t: FieldType) { t.Int8? || t.Int16? || t.Int32? || t.Int64? }

  predicate MultiByte(t: FieldType) { Width(t) > 1 }

  function Pow256(n: nat): nat {
    if n == 0 then 1 else 0x100 * Pow256(n - 1)
  }

  lemma {:induction false} Pow256Values()
    ensures Pow256(1) == 0x100 && Pow256(2) == 0x1_0000 && Pow256(4) == 0x1_0000_0000
    ensures Pow256(8) == 0x1_0000_0000_0000_0000
  {
    assert Pow256(3) == 0x100_0000;
    assert Pow256(5) == 0x100_0000_0000 && Pow256(6) == 0x1_0000_0000_0000;
  }

  const TWO_TO_64: nat := 0x1_0000_0000_0000_0000

  /** A signed field is read in two's complement and its value taken modulo 2^64. */
  function Widened(t: FieldType, v: nat): nat {
    Pow256Values();
    if Signed(t) && 2 * v >= Pow256(Width(t)) then v + TWO_TO_64 - Pow256(Width(t)) else v
  }

  /** The value of a field in a packet; None when the packet ends before the field does. */
  function FieldValue(packet: Packet, f: Field): Option<nat> {
    if f.offset + Width(f.ftype) > |packet| then None
    else Some(Widened(f.ftype, Number(packet[f.offset..f.offset + Width(f.ftype)], f.endian)))
  }

  predicate Satisfies(v: nat, c: Condition) {
    match c.op
    case Eq => v == c.value
    case Ne => v != c.value
    case Gt => v > c.value
    case Ge => v >= c.value
    case Lt => v < c.value
    case Le => v <= c.value
    case Mask => BitAnd(v, c.mask) == c.value
    case In => v in c.values
    case NotIn => v !in c.values
  }

  predicate CondHolds(packet: Packet, fields: seq<Field>, c: Condition) {
    var f := FindField(fields, c.fieldName);
    f.Some? && var v := FieldValue(packet, f.value); v.Some? && Satisfies(v.value, c)
  }

  /** A rule holds of a packet when every field it names lies in the packet and every condition holds. */
  predicate RuleHolds(packet: Packet, fields: seq<Field>, conds: seq<Condition>) {
    forall c :: c in conds ==> CondHolds(packet, fields, c)
  }
}
