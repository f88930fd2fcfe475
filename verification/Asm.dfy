/** The target machine. */
module Asm {
  // The assembly instructions and the machine that runs them.
  //
  // Registers and memory hold 32-bit patterns.  Arithmetic leaves the comparison
  // flags unknown, and a conditional that reads unknown flags is stuck, so a run that
  // is not stuck only ever reads the flags of a comparison.  `M` runs the IR, with
  // any operands; `Hardware` runs only what the instruction set can encode.

  import opened Options
  import opened Words
  import opened Names
  import opened Flow

  datatype Reg = AX | DX | R10 | R11

  datatype Operand = Imm(value: Word) | Register(reg: Reg) | Pseudo(name: string) | Stack(offset: int)

  datatype UnaryOp = NOT | NEG
  datatype BinaryOp = ADD | SUB | MULT
  datatype CondCode = E | NE | G | GE | L | LE

  datatype Instr =
    | Mov(src: Operand, dst: Operand)
    | Ret
    | Unary(unop: UnaryOp, op: Operand)
    | Binary(binop: BinaryOp, op1: Operand, op2: Operand)
    | Cmp(op1: Operand, op2: Operand)
    | Jmp(goal: LabelName)
    | JmpCC(cc: CondCode, goal: LabelName)
    | SetCC(cc: CondCode, op: Operand)
    | Label(name: LabelName)
    | Idiv(op: Operand)
    | Cdq

  datatype Flags = Flags(zf: bool, sf: bool, of: bool)

  type Cells = map<string, Bits>
  type Frame = map<int, Bits>

  /** `cells` hold the pseudo-registers of the IR, `frame` the words at offsets from the frame pointer. */
  datatype State = State(ax: Bits, dx: Bits, r10: Bits, r11: Bits, cells: Cells, frame: Frame, flags: Option<Flags>)

  function GetCell(m: Cells, x: string): Bits { if x in m then m[x] else 0 }

  function GetSlot(m: Frame, k: int): Bits { if k in m then m[k] else 0 }

  function Read(o: Operand, s: State): Bits {
    match o
    case Imm(v) => ToBits(v)
    case Register(AX) => s.ax
    case Register(DX) => s.dx
    case Register(R10) => s.r10
    case Register(R11) => s.r11
    case Pseudo(x) => GetCell(s.cells, x)
    case Stack(k) => GetSlot(s.frame, k)
  }

  /** An immediate cannot be written; no instruction that is executed tries to. */
  function Write(o: Operand, v: Bits, s: State): State {
    match o
    case Imm(_) => s
    case Register(AX) => s.(ax := v)
    case Register(DX) => s.(dx := v)
    case Register(R10) => s.(r10 := v)
    case Register(R11) => s.(r11 := v)
    case Pseudo(x) => s.(cells := s.cells[x := v])
    case Stack(k) => s.(frame := s.frame[k := v])
  }

  // ----- flags -----

  predicate Negative(b: Bits) { b >= 0x8000_0000 }

  /** `cmpl src, dst` subtracts src from dst and keeps only the flags. */
  function Compare(dst: Bits, src: Bits): Flags {
    var d := Mod32(dst - src);
    Flags(d == 0, Negative(d), Negative(dst) != Negative(src) && Negative(d) != Negative(dst))
  }

  predicate Holds(cc: CondCode, f: Flags) {
    match cc
    case E => f.zf
    case NE => !f.zf
    case L => f.sf != f.of
    case LE => f.zf || f.sf != f.of
    case G => !f.zf && f.sf == f.of
    case GE => f.sf == f.of
  }

  /** The signed comparison of dst with src that a condition code stands for. */
  predicate Relation(cc: CondCode, dst: int, src: int) {
    match cc
    case E => dst == src
    case NE => dst != src
    case L => dst < src
    case LE => dst <= src
    case G => dst > src
    case GE => dst >= src
  }

  /** Reading the flags of a wraparound subtraction through a condition code gives the signed comparison. */
  lemma FlagsCompare(cc: CondCode, dst: Bits, src: Bits)
    ensures Holds(cc, Compare(dst, src)) <==> Relation(cc, Signed(dst), Signed(src))
  {
    if dst >= src {
      assert Mod32(dst - src) == dst - src;
    } else {
      ModUnique(dst - src, dst - src + 0x1_0000_0000, -1);
    }
  }

  // ----- steps -----

  /** set<cc> writes one byte, the low one. */
  function SetLowByte(v: Bits, b: bool): Bits { v - v % 256 + if b then 1 else 0 }

  /** The signed 64-bit number in %edx:%eax. */
  function Dividend(s: State): int { Signed(s.dx) * 0x1_0000_0000 + s.ax }

  predicate FitsWord(x: int) { -0x8000_0000 <= x < 0x8000_0000 }

  function Arith(op: BinaryOp, src: Bits, dst: Bits): Bits {
    match op
    case ADD => Mod32(dst + src)
    case SUB => Mod32(dst - src)
    case MULT => Mod32(dst * src)
  }

  function Step(i: Instr, s: State): Control<State> {
    match i
    case Mov(src, dst) => if dst.Imm? then Halt(Stuck) else Next(Write(dst, Read(src, s), s))
    case Ret => Halt(Returned(Signed(s.ax)))
    case Unary(NOT, o) => if o.Imm? then Halt(Stuck) else Next(Write(o, 0xffff_ffff - Read(o, s), s))
    case Unary(NEG, o) => if o.Imm? then Halt(Stuck) else Next(Write(o, Mod32(0 - Read(o, s)), s).(flags := None))
    case Binary(op, src, dst) =>
      if dst.Imm? then Halt(Stuck) else Next(Write(dst, Arith(op, Read(src, s), Read(dst, s)), s).(flags := None))
    case Cmp(src, dst) => Next(s.(flags := Some(Compare(Read(dst, s), Read(src, s)))))
    case Jmp(goal) => Goto(goal, s)
    case JmpCC(cc, goal) =>
      if s.flags.None? then Halt(Stuck) else if Holds(cc, s.flags.value) then Goto(goal, s) else Next(s)
    case SetCC(cc, o) =>
      if s.flags.None? || o.Imm? then Halt(Stuck)
      else Next(Write(o, SetLowByte(Read(o, s), Holds(cc, s.flags.value)), s))
    case Label(_) => Next(s)
    case Cdq => Next(s.(dx := if Negative(s.ax) then 0xffff_ffff else 0))
    case Idiv(o) =>
      var d := Signed(Read(o, s));
      if d == 0 || !FitsWord(Quotient(Dividend(s), d)) then Halt(Fault)
      else Next(s.(ax := Mod32(Quotient(Dividend(s), d)), dx := Mod32(Remainder(Dividend(s), d)), flags := None))
  }

  function LabelOf(i: Instr): Option<LabelName> { if i.Label? then Some(i.name) else None }

  function TargetOf(i: Instr): Option<LabelName> { if i.Jmp? || i.JmpCC? then Some(i.goal) else None }

  const M: Machine<Instr, State> := Machine(Step, LabelOf, TargetOf)

  // ----- what can be encoded -----

  predicate Memory(o: Operand) { o.Stack? }

  predicate Encodable(i: Instr) {
    match i
    case Mov(src, dst) => !src.Pseudo? && !dst.Pseudo? && !dst.Imm? && !(Memory(src) && Memory(dst))
    case Unary(_, o) => o.Register? || o.Stack?
    case Binary(op, src, dst) =>
      !src.Pseudo? && (dst.Register? || dst.Stack?) && !(Memory(src) && Memory(dst)) && (op == MULT ==> dst.Register?)
    case Cmp(src, dst) => !src.Pseudo? && (dst.Register? || dst.Stack?) && !(Memory(src) && Memory(dst))
    case SetCC(_, o) => o.Register? || o.Stack?
    case Idiv(o) => o.Register? || o.Stack?
    case _ => true
  }

  function HardwareStep(i: Instr, s: State): Control<State> {
    if Encodable(i) then Step(i, s) else Halt(Stuck)
  }

  const Hardware: Machine<Instr, State> := Machine(HardwareStep, LabelOf, TargetOf)
}
