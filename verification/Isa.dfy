/** The instruction set of the simulated processor: decoding and the effect of one instruction
    on registers and program counter. Shared by the kernel model and the assembler proof. */
module Isa {
  import opened Bits

  type Word = w: int | 0 <= w < 0x1_0000

  type Reg = r: nat | r < 8

  type Regs = r: seq<Word> | |r| == 8 witness [0, 0, 0, 0, 0, 0, 0, 0]

  datatype AluOp = Add | Sub | Mul | Div | CmpEqual | CmpNeq

  datatype Instr =
    | Alu(op: AluOp, dest: Reg, a: Reg, b: Reg)
    | Load(dest: Reg, a: Reg)
    | Store(a: Reg, b: Reg)
    | Syscall
    | Jump(target: Word)
    | JumpCond(reg: Reg, target: Word)
    | Mov(reg: Reg, value: Word)
    | Illegal

  function Wrap(x: int): Word {
    x % 0x1_0000
  }

  /** A three-bit register field. */
  function RegField(w: Word, pos: nat): Reg {
    assert Pow2(3) == 8;
    GetBits(w, pos, 3)
  }

  function DecodeR(opcode: nat, dest: Reg, a: Reg, b: Reg): Instr {
    match opcode
    case 0 => Alu(Add, dest, a, b)
    case 1 => Alu(Sub, dest, a, b)
    case 2 => Alu(Mul, dest, a, b)
    case 3 => Alu(Div, dest, a, b)
    case 4 => Alu(CmpEqual, dest, a, b)
    case 5 => Alu(CmpNeq, dest, a, b)
    case 15 => Load(dest, a)
    case 16 => Store(a, b)
    case 63 => Syscall
    case _ => Illegal
  }

  function DecodeI(opcode: nat, reg: Reg, imed: Word): Instr {
    match opcode
    case 0 => Jump(imed)
    case 1 => JumpCond(reg, imed)
    case 3 => Mov(reg, imed)
    case _ => Illegal
  }

  /** Bit 15 selects the format. The processor reads nine bits of immediate. */
  function Decode(w: Word): Instr {
    assert Pow2(9) == 512;
    if GetBits(w, 15, 1) == 0
    then DecodeR(GetBits(w, 9, 6), RegField(w, 6), RegField(w, 3), RegField(w, 0))
    else DecodeI(GetBits(w, 13, 2), RegField(w, 10), GetBits(w, 0, 9))
  }

  datatype AluResult = Value(w: Word) | DivisionByZero

  function Compute(op: AluOp, x: Word, y: Word): AluResult {
    match op
    case Add => Value(Wrap(x + y))
    case Sub => Value(Wrap(x - y))
    case Mul => Value(Wrap(x * y))
    case Div => if y == 0 then DivisionByZero else Value(Quotient(x, y))
    case CmpEqual => Value(if x == y then 1 else 0)
    case CmpNeq => Value(if x != y then 1 else 0)
  }

  /** How often y goes into x. */
  function Quotient(x: Word, y: Word): (r: Word)
    requires y != 0
    ensures r * y <= x < r * y + y
  {
    QuotientBound(x, y);
    x / y
  }

  lemma QuotientBound(x: nat, y: nat)
    requires y > 0
    ensures 0 <= x / y <= x && (x / y) * y <= x < (x / y) * y + y
  {
    Division(x, y);
    AtLeast(y, x / y);
    assert y * (x / y) == (x / y) * y;
  }

  /** What one instruction asks for. `next` is the program counter after the fetch. */
  datatype Effect =
    | Registers(gprs: Regs, pc: Word)
    | ReadWord(addr: Word, dest: Reg)
    | WriteWord(addr: Word, value: Word)
    | Trap
    | BadInstruction
    | Crash

  function Execute(i: Instr, gprs: Regs, next: Word): Effect {
    match i
    case Alu(op, dest, a, b) =>
      (match Compute(op, gprs[a], gprs[b])
       case Value(w) => Registers(gprs[dest := w], next)
       case DivisionByZero => Crash)
    case Load(dest, a) => ReadWord(gprs[a], dest)
    case Store(a, b) => WriteWord(gprs[a], gprs[b])
    case Syscall => Trap
    case Jump(target) => Registers(gprs, target)
    case JumpCond(reg, target) => Registers(gprs, if gprs[reg] == 1 then target else next)
    case Mov(reg, value) => Registers(gprs[reg := value], next)
    case Illegal => BadInstruction
  }

  /** Whether an instruction divides by zero does not depend on where it stands. */
  lemma CrashIndependent(i: Instr, gprs: Regs, x: Word, y: Word)
    ensures Execute(i, gprs, x) == Crash <==> Execute(i, gprs, y) == Crash
  {
  }
}
