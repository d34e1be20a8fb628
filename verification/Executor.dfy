/** The accumulator machine that runs filter bytecode (runtime/executor.c). */
module Executor {
  import opened Pdef
  import opened ByteOrder

  predicate IsLoad(op: OpCode) {
    op.LoadU8? || op.LoadI8? ||
    op.LoadU16BE? || op.LoadU16LE? || op.LoadU32BE? || op.LoadU32LE? || op.LoadU64BE? || op.LoadU64LE? ||
    op.LoadI16BE? || op.LoadI16LE? || op.LoadI32BE? || op.LoadI32LE? || op.LoadI64BE? || op.LoadI64LE?
  }

  predicate IsJump(op: OpCode) { op.Jump? || op.JumpIfFalse? }

  /** The number of bytes a load touches. */
  function LoadWidth(op: OpCode): nat
    requires IsLoad(op)
  {
    match op
    case LoadU8 | LoadI8 => 1
    case LoadU16BE | LoadU16LE | LoadI16BE | LoadI16LE => 2
    case LoadU32BE | LoadU32LE | LoadI32BE | LoadI32LE => 4
    case LoadU64BE | LoadU64LE | LoadI64BE | LoadI64LE => 8
  }

  /** The accumulator after a load, or None when the load reaches past the packet. */
  function LoadValue(packet: Packet, op: OpCode, offset: nat): Option<U64>
    requires IsLoad(op)
  {
    if offset + LoadWidth(op) > |packet| then None else
    match op
    case LoadU8 => Some(packet[offset] as nat)
    case LoadU16BE => Some(ReadU16BE(packet, offset))
    case LoadU16LE => Some(ReadU16LE(packet, offset))
    case LoadU32BE => Some(ReadU32BE(packet, offset))
    case LoadU32LE => Some(ReadU32LE(packet, offset))
    case LoadU64BE => Some(ReadU64BE(packet, offset))
    case LoadU64LE => Some(ReadU64LE(packet, offset))
    case LoadI8 => Some(SignExtend8(packet[offset]))
    case LoadI16BE => Some(SignExtend16(ReadU16BE(packet, offset)))
    case LoadI16LE => Some(SignExtend16(ReadU16LE(packet, offset)))
    case LoadI32BE => Some(SignExtend32(ReadU32BE(packet, offset)))
    case LoadI32LE => Some(SignExtend32(ReadU32LE(packet, offset)))
    case LoadI64BE => Some(ReadU64BE(packet, offset))
    case LoadI64LE => Some(ReadU64LE(packet, offset))
  }

  // ---------- Small-step semantics, for any bytecode ----------

  datatype Machine = Machine(ip: nat, acc: U64, cmp: bool)

  datatype Outcome = Halt(verdict: bool) | Go(next: Machine)

  const START := Machine(0, 0, false)

  function Step(packet: Packet, code: seq<Instruction>, m: Machine): Outcome
    requires m.ip < |code|
  {
    var ins := code[m.ip];
    var onward := m.(ip := m.ip + 1);
    if IsLoad(ins.opcode) then
      match LoadValue(packet, ins.opcode, ins.offset)
      case None => Halt(false)
      case Some(v) => Go(onward.(acc := v))
    else match ins.opcode
      case CmpEq => Go(onward.(cmp := m.acc == ins.operand))
      case CmpNe => Go(onward.(cmp := m.acc != ins.operand))
      case CmpGt => Go(onward.(cmp := m.acc > ins.operand))
      case CmpGe => Go(onward.(cmp := m.acc >= ins.operand))
      case CmpLt => Go(onward.(cmp := m.acc < ins.operand))
      case CmpLe => Go(onward.(cmp := m.acc <= ins.operand))
      case CmpMask => Go(onward.(cmp := BitAnd(m.acc, ins.operand) == ins.operand2))
      case JumpIfFalse =>
        if m.cmp then Go(onward)
        else if ins.jumpTarget >= |code| then Halt(false) else Go(m.(ip := ins.jumpTarget))
      case Jump =>
        if ins.jumpTarget >= |code| then Halt(false) else Go(m.(ip := ins.jumpTarget))
      case ReturnTrue => Halt(true)
      case ReturnFalse => Halt(false)
  }

  /** The verdict when it is reached within `fuel` steps; None while the machine is still running. */
  function RunFor(packet: Packet, code: seq<Instruction>, m: Machine, fuel: nat): Option<bool>
    decreases fuel
  {
    if m.ip >= |code| then Some(false)
    else if fuel == 0 then None
    else match Step(packet, code, m)
      case Halt(verdict) => Some(verdict)
      case Go(next) => RunFor(packet, code, next, fuel - 1)
  }

  // ---------- Forward-only code, which always halts ----------

  /** Every jump goes strictly forward. */
  ghost predicate ForwardOnly(code: seq<Instruction>) {
    forall i :: 0 <= i < |code| && IsJump(code[i].opcode) ==> i < code[i].jumpTarget
  }

  ghost function Run(packet: Packet, code: seq<Instruction>, m: Machine): bool
    requires ForwardOnly(code)
    decreases |code| - m.ip
  {
    if m.ip >= |code| then false
    else match Step(packet, code, m)
      case Halt(verdict) => verdict
      case Go(next) => Run(packet, code, next)
  }

  ghost function Verdict(packet: Packet, code: seq<Instruction>): bool
    requires ForwardOnly(code)
  {
    Run(packet, code, START)
  }

  /** Forward-only code halts within as many steps as it has instructions. */
  lemma {:induction false} HaltsWithinLength(packet: Packet, code: seq<Instruction>, m: Machine, fuel: nat)
    requires ForwardOnly(code)
    requires fuel >= |code| - m.ip
    ensures RunFor(packet, code, m, fuel) == Some(Run(packet, code, m))
    decreases |code| - m.ip
  {
    if m.ip < |code| {
      match Step(packet, code, m)
      case Halt(_) =>
      case Go(next) => HaltsWithinLength(packet, code, next, fuel - 1);
    }
  }

  /** A backward jump can run for ever: no amount of fuel reaches a verdict. */
  lemma {:induction false} BackwardJumpNeverHalts(packet: Packet, fuel: nat)
    ensures RunFor(packet, [JumpTo(Jump, 0)], START, fuel) == None
  {
    if fuel > 0 {
      BackwardJumpNeverHalts(packet, fuel - 1);
    }
  }

  // ---------- Code that halts on a packet ----------

  /** The machine reaches a verdict on the packet. */
  ghost predicate Halts(packet: Packet, code: seq<Instruction>) {
    exists fuel: nat :: RunFor(packet, code, START, fuel).Some?
  }

  /** Whether code answers true; only meant for code that halts. */
  ghost predicate Accepting(packet: Packet, code: seq<Instruction>) {
    exists fuel: nat :: RunFor(packet, code, START, fuel) == Some(true)
  }

  /** A verdict does not change with more fuel. */
  lemma {:induction false} MoreFuel(packet: Packet, code: seq<Instruction>, m: Machine, fuel: nat, more: nat)
    requires RunFor(packet, code, m, fuel).Some? && fuel <= more
    ensures RunFor(packet, code, m, more) == RunFor(packet, code, m, fuel)
    decreases fuel
  {
    if m.ip < |code| {
      match Step(packet, code, m)
      case Halt(_) =>
      case Go(next) => MoreFuel(packet, code, next, fuel - 1, more - 1);
    }
  }

  /** There is one verdict. */
  lemma OneVerdict(packet: Packet, code: seq<Instruction>, fuel: nat)
    requires RunFor(packet, code, START, fuel).Some?
    ensures RunFor(packet, code, START, fuel) == Some(Accepting(packet, code))
  {
    if RunFor(packet, code, START, fuel).value {
      assert RunFor(packet, code, START, fuel) == Some(true);
    } else if Accepting(packet, code) {
      var other: nat :| RunFor(packet, code, START, other) == Some(true);
      MoreFuel(packet, code, START, fuel, fuel + other);
      MoreFuel(packet, code, START, other, fuel + other);
    }
  }

  /** Forward-only code halts on every packet, with its verdict. */
  lemma ForwardHalts(packet: Packet, code: seq<Instruction>)
    requires ForwardOnly(code)
    ensures Halts(packet, code) && (Accepting(packet, code) <==> Verdict(packet, code))
  {
    HaltsWithinLength(packet, code, START, |code|);
    OneVerdict(packet, code, |code|);
  }

  // ---------- The interpreter loop ----------

  /** Runs any code that halts on the packet; code without backward jumps halts on every packet. */
  method ExecuteBytecode(packet: Packet, bytecode: seq<Instruction>) returns (verdict: bool)
    requires Halts(packet, bytecode)
    ensures verdict <==> Accepting(packet, bytecode)
    ensures ForwardOnly(bytecode) ==> verdict == Verdict(packet, bytecode)
  {
    ghost var fuel: nat :| RunFor(packet, bytecode, START, fuel).Some?;
    OneVerdict(packet, bytecode, fuel);
    if ForwardOnly(bytecode) {
      ForwardHalts(packet, bytecode);
    }
    if |bytecode| == 0 {
      return false;
    }
    var ip: nat := 0;
    var acc: U64 := 0;
    var cmpResult := false;
    while ip < |bytecode|
      invariant RunFor(packet, bytecode, Machine(ip, acc, cmpResult), fuel) == Some(Accepting(packet, bytecode))
      decreases fuel
    {
      var ins := bytecode[ip];
      fuel := fuel - 1;
      match ins.opcode {
        case CmpEq => cmpResult := acc == ins.operand;
        case CmpNe => cmpResult := acc != ins.operand;
        case CmpGt => cmpResult := acc > ins.operand;
        case CmpGe => cmpResult := acc >= ins.operand;
        case CmpLt => cmpResult := acc < ins.operand;
        case CmpLe => cmpResult := acc <= ins.operand;
        case CmpMask => cmpResult := BitAnd(acc, ins.operand) == ins.operand2;
        case JumpIfFalse =>
          if !cmpResult {
            if ins.jumpTarget >= |bytecode| {
              return false;
            }
            ip := ins.jumpTarget;
            continue;
          }
        case Jump =>
          if ins.jumpTarget >= |bytecode| {
            return false;
          }
          ip := ins.jumpTarget;
          continue;
        case ReturnTrue => return true;
        case ReturnFalse => return false;
        case _ =>
          var loaded := LoadValue(packet, ins.opcode, ins.offset);
          if loaded.None? {
            return false;
          }
          acc := loaded.value;
      }
      ip := ip + 1;
    }
    return false;
  }

  /** The entry point that first checks the packet against the rule's minimum size. */
  method ExecuteFilter(packet: Packet, rule: FilterRule) returns (verdict: bool)
    requires |packet| >= rule.minPacketSize ==> Halts(packet, rule.codeBE)
    ensures verdict <==> |packet| >= rule.minPacketSize && Accepting(packet, rule.codeBE)
  {
    if |packet| < rule.minPacketSize {
      return false;
    }
    verdict := ExecuteBytecode(packet, rule.codeBE);
  }
}
