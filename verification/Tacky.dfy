/** The three-address IR and what it means to run it. */
module Tacky {
  import opened Options
  import opened Words
  import opened Flow
  import opened Names

  datatype UnOp = COMPLEMENT | NEGATION | NOT

  datatype BinOp =
    | ADD | SUBTRACT | MULTIPLY | DIVIDE | REMAINDER
    | EQUAL | NOT_EQUAL | LESS_THAN | LESS_OR_EQUAL | GREATER_THAN | GREATER_OR_EQUAL

  datatype Val = Constant(value: Word) | Var(name: Name)

  /** A destination is always built as a variable, so it is kept as a name. */
  datatype Instr =
    | Return(val: Val)
    | Unary(unop: UnOp, src: Val, dst: Name)
    | Binary(binop: BinOp, src1: Val, src2: Val, dst: Name)
    | Copy(src: Val, dst: Name)
    | Jump(goal: LabelName)
    | JumpIfZero(cond: Val, goal: LabelName)
    | JumpIfNotZero(cond: Val, goal: LabelName)
    | Label(name: LabelName)

  /** One flat name space: the program's variables and the temporaries.  A name outside the maps holds 0,
      so a pair of maps can stand for any initial store. */
  datatype Store = Store(vars: map<string, Word>, temps: map<nat, Word>)

  function GetVar(vars: map<string, Word>, x: string): Word { if x in vars then vars[x] else 0 }

  function GetTemp(temps: map<nat, Word>, n: nat): Word { if n in temps then temps[n] else 0 }

  function Get(st: Store, x: Name): Word {
    match x
    case Ident(text) => GetVar(st.vars, text)
    case Temp(n) => GetTemp(st.temps, n)
  }

  function Put(st: Store, x: Name, v: Word): Store {
    match x
    case Ident(text) => st.(vars := st.vars[text := v])
    case Temp(n) => st.(temps := st.temps[n := v])
  }

  function ValueOf(v: Val, st: Store): Word {
    match v
    case Constant(c) => c
    case Var(x) => Get(st, x)
  }

  predicate PlainVal(v: Val) { v.Var? ==> Plain(v.name) }

  /** Every name of the instruction is plain. */
  predicate PlainInstr(i: Instr) {
    match i
    case Return(v) => PlainVal(v)
    case Unary(_, src, dst) => PlainVal(src) && Plain(dst)
    case Binary(_, src1, src2, dst) => PlainVal(src1) && PlainVal(src2) && Plain(dst)
    case Copy(src, dst) => PlainVal(src) && Plain(dst)
    case JumpIfZero(c, _) => PlainVal(c)
    case JumpIfNotZero(c, _) => PlainVal(c)
    case _ => true
  }

  function UnaryResult(op: UnOp, a: Word): Word {
    match op
    case COMPLEMENT => -1 - a
    case NEGATION => Wrap(0 - a)
    case NOT => Truth(a == 0)
  }

  /** None: the division has no 32-bit result. */
  function BinaryResult(op: BinOp, a: Word, b: Word): Option<Word> {
    match op
    case ADD => Some(Wrap(a + b))
    case SUBTRACT => Some(Wrap(a - b))
    case MULTIPLY => Some(Wrap(a * b))
    case DIVIDE => if Divides(a, b) then Some(Wrap(Quotient(a, b))) else None
    case REMAINDER => if Divides(a, b) then Some(Wrap(Remainder(a, b))) else None
    case EQUAL => Some(Truth(a == b))
    case NOT_EQUAL => Some(Truth(a != b))
    case LESS_THAN => Some(Truth(a < b))
    case LESS_OR_EQUAL => Some(Truth(a <= b))
    case GREATER_THAN => Some(Truth(a > b))
    case GREATER_OR_EQUAL => Some(Truth(a >= b))
  }

  function Step(i: Instr, st: Store): Control<Store> {
    match i
    case Return(v) => Halt(Returned(ValueOf(v, st)))
    case Unary(op, src, dst) => Next(Put(st, dst, UnaryResult(op, ValueOf(src, st))))
    case Binary(op, src1, src2, dst) =>
      var r := BinaryResult(op, ValueOf(src1, st), ValueOf(src2, st));
      if r.Some? then Next(Put(st, dst, r.value)) else Halt(Fault)
    case Copy(src, dst) => Next(Put(st, dst, ValueOf(src, st)))
    case Jump(goal) => Goto(goal, st)
    case JumpIfZero(c, goal) => if ValueOf(c, st) == 0 then Goto(goal, st) else Next(st)
    case JumpIfNotZero(c, goal) => if ValueOf(c, st) != 0 then Goto(goal, st) else Next(st)
    case Label(_) => Next(st)
  }

  function LabelOf(i: Instr): Option<LabelName> { if i.Label? then Some(i.name) else None }

  function TargetOf(i: Instr): Option<LabelName> {
    if i.Jump? || i.JumpIfZero? || i.JumpIfNotZero? then Some(i.goal) else None
  }

  const M: Machine<Instr, Store> := Machine(Step, LabelOf, TargetOf)
}
