/** The data of a compiled protocol definition: fields, structs, conditions, instructions and rules. */
module Pdef {

  type Byte = b: nat | b < 0x100

  type Packet = seq<Byte>

  /** The 64-bit unsigned values of the accumulator and of condition operands. */
  type U64 = v: nat | v < 0x1_0000_0000_0000_0000

  /** Room for a struct or field name, and for a path of names, each without its terminator. */
  const NAME_ROOM: nat := 63
  const PATH_ROOM: nat := 127

  datatype Option<+T> = None | Some(value: T)

  datatype Result<+T, +E> = Ok(value: T) | Err(error: E) {
    predicate IsFailure() { Err? }

    function PropagateFailure<U>(): Result<U, E>
      requires Err?
    {
      Err(error)
    }

    function Extract(): T
      requires Ok?
    {
      value
    }
  }

  datatype Endian = Big | Little

  datatype FieldType =
    | Uint8 | Uint16 | Uint32 | Uint64
    | Int8 | Int16 | Int32 | Int64
    | Bytes | String | Varbytes | Nested

  /** A field of a struct.  Before flattening, a nested field is named "Type.field"; after flattening
      every field is a leaf, named by its path, at an absolute offset. */
  datatype Field = Field(
    name: string,
    ftype: FieldType,
    offset: nat,
    size: nat,
    endian: Endian,
    isVariable: bool,
    isArray: bool,
    arraySize: nat)

  datatype StructDef = StructDef(name: string, fields: seq<Field>, minSize: nat, hasVariable: bool)

  datatype OpCode =
    | LoadU8
    | LoadU16BE | LoadU16LE | LoadU32BE | LoadU32LE | LoadU64BE | LoadU64LE
    | LoadI8
    | LoadI16BE | LoadI16LE | LoadI32BE | LoadI32LE | LoadI64BE | LoadI64LE
    | CmpEq | CmpNe | CmpGt | CmpGe | CmpLt | CmpLe | CmpMask
    | JumpIfFalse | Jump | ReturnTrue | ReturnFalse

  datatype Instruction =
    Instruction(opcode: OpCode, offset: nat, operand: U64, operand2: U64, jumpTarget: nat)

  datatype CondOp = Eq | Ne | Gt | Ge | Lt | Le | Mask | In | NotIn

  datatype Condition =
    Condition(fieldName: string, op: CondOp, value: U64, mask: U64, values: seq<U64>)

  /** A filter rule as parsed. */
  datatype TempRule =
    TempRule(name: string, conditions: seq<Condition>, slidingWindow: bool, slidingMaxOffset: nat)

  /** A filter rule as compiled, with its program in both byte orders. */
  datatype FilterRule = FilterRule(
    name: string,
    structName: string,
    codeBE: seq<Instruction>,
    codeLE: seq<Instruction>,
    minPacketSize: nat,
    slidingWindow: bool,
    slidingMaxOffset: nat)

  /** The zero-initialised instruction with the given opcode. */
  function Plain(op: OpCode): Instruction { Instruction(op, 0, 0, 0, 0) }

  function Load(op: OpCode, offset: nat): Instruction { Plain(op).(offset := offset) }

  function Compare(op: OpCode, operand: U64, operand2: U64): Instruction {
    Plain(op).(operand := operand, operand2 := operand2)
  }

  function JumpTo(op: OpCode, target: nat): Instruction { Plain(op).(jumpTarget := target) }
}
