/**
 TACKY generation in three forms.  The class `Generator` is the visitor itself,
 with its counters, its growing instruction list and its shared current value.
 `Visit`, `VisitStmt` and `VisitItems` thread the same state through functions.
 `Emit`, `EmitStmt` and `EmitItems` are the closed form: the code of a phrase in
 front of the code `k` that follows it, numbered from given counters.
*/
module TackyGen {
  import opened Ast
  import opened Names
  import opened Flow
  import T = Tacky

  function ConvertUnop(op: UnaryOpType): T.UnOp {
    match op
    case Complement => T.COMPLEMENT
    case Negate => T.NEGATION
    case Not => T.NOT
  }

  /** Called on the strict operators; `&&` and `||` have code of their own. */
  function ConvertBinop(op: BinaryOpType): T.BinOp
    requires op != And && op != Or
  {
    match op
    case Add => T.ADD
    case Sub => T.SUBTRACT
    case Mul => T.MULTIPLY
    case Div => T.DIVIDE
    case Rem => T.REMAINDER
    case Equal => T.EQUAL
    case NotEqual => T.NOT_EQUAL
    case LessThan => T.LESS_THAN
    case LessOrEqual => T.LESS_OR_EQUAL
    case GreaterThan => T.GREATER_THAN
    case GreaterOrEqual => T.GREATER_OR_EQUAL
  }

  // ----- the visitor's state, threaded -----

  datatype GenState = GenState(code: seq<T.Instr>, val: T.Val, temps: nat, labels: nat)

  function Push(s: GenState, i: T.Instr): GenState { s.(code := s.code + [i]) }

  function TargetName(target: Expr): Name { Ident(if target.Var? then target.name else "") }

  function Visit(e: Expr, s: GenState): GenState
    decreases e, 1
  {
    match e
    case NullExpr => s
    case Constant(c) => s.(val := T.Constant(c))
    case Var(x) => s.(val := T.Var(Ident(x)))
    case Unary(op, a) =>
      var s1 := Visit(a, s);
      var dst := Temp(s1.temps);
      Push(s1, T.Unary(ConvertUnop(op), s1.val, dst)).(val := T.Var(dst), temps := s1.temps + 1)
    case Binary(op, _, _) =>
      if op == And || op == Or then VisitLogical(e, s) else VisitStrict(e, s)
    case Assignment(target, a) =>
      var s1 := Visit(a, s);
      Push(s1, T.Copy(s1.val, TargetName(target))).(val := T.Var(TargetName(target)))
    case Conditional(_, _, _) => VisitConditional(e, s)
  }

  function VisitLogical(e: Expr, s: GenState): GenState
    requires e.Binary?
    decreases e, 0
  {
    var op := e.binop;
    var s1 := Visit(e.left, s.(temps := s.temps + 1, labels := s.labels + 2));
    var s2 := Visit(e.right, Push(s1, Test(op, s1.val, s.labels)));
    VisitLogicTail(op, s.temps, s.labels, Push(s2, Test(op, s2.val, s.labels)))
  }

  function VisitStrict(e: Expr, s: GenState): GenState
    requires e.Binary? && e.binop != And && e.binop != Or
    decreases e, 0
  {
    var s1 := Visit(e.left, s);
    var s2 := Visit(e.right, s1);
    var dst := Temp(s2.temps);
    Push(s2, T.Binary(ConvertBinop(e.binop), s1.val, s2.val, dst)).(val := T.Var(dst), temps := s2.temps + 1)
  }

  function VisitConditional(e: Expr, s: GenState): GenState
    requires e.Conditional?
    decreases e, 0, 1
  {
    var s1 := Visit(e.cond, s);
    VisitArms(e, s1.temps, s1.labels,
              Push(s1, T.JumpIfZero(s1.val, LabelName(E2End, s1.labels))).(temps := s1.temps + 1, labels := s1.labels + 2))
  }

  /** Both arms of `?:`; temporary r holds the result, and its labels are n and n + 1. */
  function VisitArms(e: Expr, r: nat, n: nat, s: GenState): GenState
    requires e.Conditional?
    decreases e, 0, 0
  {
    var e2, end := LabelName(E2End, n), LabelName(ConditionalEnd, n + 1);
    var s1 := Visit(e.yes, s);
    var s2 := Visit(e.no, Push(Push(Push(s1, T.Copy(s1.val, Temp(r))), T.Jump(end)), T.Label(e2)));
    Push(Push(s2, T.Copy(s2.val, Temp(r))), T.Label(end)).(val := T.Var(Temp(r)))
  }

  function ExitLabel(op: BinaryOpType, l: nat): LabelName { LabelName(if op == And then AndFalse else OrTrue, l) }

  function EndLabel(op: BinaryOpType, l: nat): LabelName { LabelName(if op == And then AndElse else OrEnd, l + 1) }

  /** The exit test after each operand of `&&` or `||`. */
  function Test(op: BinaryOpType, v: T.Val, l: nat): T.Instr {
    if op == And then T.JumpIfZero(v, ExitLabel(op, l)) else T.JumpIfNotZero(v, ExitLabel(op, l))
  }

  /** The result when no test jumped, and the result when one did. */
  function Passed(op: BinaryOpType): T.Val { T.Constant(if op == And then 1 else 0) }
  function Exited(op: BinaryOpType): T.Val { T.Constant(if op == And then 0 else 1) }

  function VisitLogicTail(op: BinaryOpType, t: nat, l: nat, s: GenState): GenState {
    var s1 := Push(Push(s, T.Copy(Passed(op), Temp(t))), T.Jump(EndLabel(op, l)));
    var s2 := Push(Push(s1, T.Label(ExitLabel(op, l))), T.Copy(Exited(op), Temp(t)));
    Push(s2, T.Label(EndLabel(op, l))).(val := T.Var(Temp(t)))
  }

  function VisitStmt(s: Stmt, st: GenState): GenState
    decreases s, 1
  {
    match s
    case Return(e) =>
      var s1 := Visit(e, st);
      Push(s1, T.Return(s1.val))
    case If(_, _, _) => VisitIf(s, st)
    case Expression(e) => Visit(e, st)
    case Compound(items) => VisitItems(items, st)
    case Empty => st
  }

  function VisitIf(s: Stmt, st: GenState): GenState
    requires s.If?
    decreases s, 0
  {
    var s1 := Visit(s.test, st);
    var end := LabelName(IfEnd, s1.labels);
    if s.els.Some? then
      var other := LabelName(IfElse, s1.labels + 1);
      var s2 := VisitStmt(s.thn, Push(s1, T.JumpIfZero(s1.val, other)).(labels := s1.labels + 2));
      var s3 := VisitStmt(s.els.value, Push(Push(s2, T.Jump(end)), T.Label(other)));
      Push(s3, T.Label(end))
    else
      Push(VisitStmt(s.thn, Push(s1, T.JumpIfZero(s1.val, end)).(labels := s1.labels + 1)), T.Label(end))
  }

  function VisitItem(item: BlockItem, st: GenState): GenState
    decreases item, 2
  {
    match item
    case Declaration(x, init) =>
      if init == NullExpr then st
      else
        var s1 := Visit(init, st);
        Push(s1, T.Copy(s1.val, Ident(x)))
    case Statement(s) => VisitStmt(s, st)
  }

  function VisitItems(items: seq<BlockItem>, st: GenState): GenState
    decreases items, 0
  {
    if items == [] then st else VisitItems(items[1..], VisitItem(items[0], st))
  }

  // ----- the visitor -----

  /** A method that returns ok == false has thrown: an assignment target was not a variable. */
  class Generator {
    var tempCounter: nat
    var labelCounter: nat
    var currentVal: T.Val
    var instructions: seq<T.Instr>

    constructor ()
      ensures tempCounter == 0 && labelCounter == 0 && instructions == []
    {
      tempCounter, labelCounter, currentVal, instructions := 0, 0, T.Constant(0), [];
    }

    ghost function State(): GenState
      reads this
    {
      GenState(instructions, currentVal, tempCounter, labelCounter)
    }

    method MakeTemporaryName() returns (name: Name)
      modifies this`tempCounter
      ensures name == Temp(old(tempCounter)) && tempCounter == old(tempCounter) + 1
    {
      name := Temp(tempCounter);
      tempCounter := tempCounter + 1;
    }

    method MakeLabelName(k: LabelKind) returns (name: LabelName)
      modifies this`labelCounter
      ensures name == LabelName(k, old(labelCounter)) && labelCounter == old(labelCounter) + 1
    {
      name := LabelName(k, labelCounter);
      labelCounter := labelCounter + 1;
    }

    method PushBack(i: T.Instr)
      modifies this`instructions
      ensures instructions == old(instructions) + [i]
    {
      instructions := instructions + [i];
    }

    method AcceptExpr(e: Expr) returns (ok: bool)
      requires NullFree(e)
      modifies this
      ensures ok == TargetsAreVars(e)
      ensures ok ==> State() == Visit(e, old(State()))
    {
      ok := true;
      match e {
        case Constant(c) => currentVal := T.Constant(c);
        case Var(x) => currentVal := T.Var(Ident(x));
        case Unary(op, a) =>
          ok := AcceptExpr(a);
          if !ok { return; }
          var dst := MakeTemporaryName();
          PushBack(T.Unary(ConvertUnop(op), currentVal, dst));
          currentVal := T.Var(dst);
        case Binary(op, a, b) =>
          if op == And || op == Or {
            ok := AcceptLogical(e, op, a, b);
          } else {
            ok := AcceptExpr(a);
            if !ok { return; }
            var src1 := currentVal;
            ok := AcceptExpr(b);
            if !ok { return; }
            var dst := MakeTemporaryName();
            PushBack(T.Binary(ConvertBinop(op), src1, currentVal, dst));
            currentVal := T.Var(dst);
          }
        case Assignment(target, a) =>
          ok := AcceptExpr(a);
          if !ok { return; }
          if !target.Var? { return false; }
          PushBack(T.Copy(currentVal, Ident(target.name)));
          currentVal := T.Var(Ident(target.name));
        case Conditional(c, a, b) => ok := AcceptConditional(e, c, a, b);
      }
    }

    method AcceptLogical(ghost e: Expr, op: BinaryOpType, a: Expr, b: Expr) returns (ok: bool)
      requires e == Binary(op, a, b) && (op == And || op == Or) && NullFree(e)
      modifies this
      ensures ok == TargetsAreVars(e)
      ensures ok ==> State() == Visit(e, old(State()))
      decreases e, 0
    {
      ghost var s := State();
      var exit := MakeLabelName(if op == And then AndFalse else OrTrue);
      var end := MakeLabelName(if op == And then AndElse else OrEnd);
      var result := MakeTemporaryName();
      ok := AcceptExpr(a);
      if !ok { return; }
      PushBack(if op == And then T.JumpIfZero(currentVal, exit) else T.JumpIfNotZero(currentVal, exit));
      ghost var s1 := Visit(a, s.(temps := s.temps + 1, labels := s.labels + 2));
      assert State() == Push(s1, Test(op, s1.val, s.labels));
      ok := AcceptExpr(b);
      if !ok { return; }
      PushBack(if op == And then T.JumpIfZero(currentVal, exit) else T.JumpIfNotZero(currentVal, exit));
      ghost var s2 := Visit(b, Push(s1, Test(op, s1.val, s.labels)));
      assert State() == Push(s2, Test(op, s2.val, s.labels));
      assert VisitLogical(e, s) == VisitLogicTail(op, s.temps, s.labels, State());
      FinishLogical(op, exit, end, result, s.temps, s.labels);
    }

    /** The end of `&&` and `||`: both results, their labels, and the new current value. */
    method FinishLogical(op: BinaryOpType, exit: LabelName, end: LabelName, result: Name, ghost t: nat, ghost l: nat)
      requires exit == ExitLabel(op, l) && end == EndLabel(op, l) && result == Temp(t)
      modifies this
      ensures State() == VisitLogicTail(op, t, l, old(State()))
    {
      PushBack(T.Copy(Passed(op), result));
      PushBack(T.Jump(end));
      PushBack(T.Label(exit));
      PushBack(T.Copy(Exited(op), result));
      PushBack(T.Label(end));
      currentVal := T.Var(result);
    }

    method AcceptConditional(ghost e: Expr, c: Expr, a: Expr, b: Expr) returns (ok: bool)
      requires e == Conditional(c, a, b) && NullFree(e)
      modifies this
      ensures ok == TargetsAreVars(e)
      ensures ok ==> State() == Visit(e, old(State()))
      decreases e, 0, 1
    {
      ghost var s := State();
      ok := AcceptExpr(c);
      if !ok { return; }
      ghost var s1 := State();
      var test := currentVal;
      var e2 := MakeLabelName(E2End);
      var end := MakeLabelName(ConditionalEnd);
      var result := MakeTemporaryName();
      PushBack(T.JumpIfZero(test, e2));
      ok := AcceptArms(e, a, b, result, e2, end, s1.temps, s1.labels);
      assert ok ==> State() == VisitConditional(e, s);
    }

    method AcceptArms(ghost e: Expr, a: Expr, b: Expr, result: Name, e2: LabelName, end: LabelName,
                      ghost r: nat, ghost n: nat)
      returns (ok: bool)
      requires e.Conditional? && a == e.yes && b == e.no && NullFree(a) && NullFree(b)
      requires result == Temp(r) && e2 == LabelName(E2End, n) && end == LabelName(ConditionalEnd, n + 1)
      modifies this
      ensures ok == (TargetsAreVars(a) && TargetsAreVars(b))
      ensures ok ==> State() == VisitArms(e, r, n, old(State()))
      decreases e, 0, 0
    {
      ok := AcceptExpr(a);
      if !ok { return; }
      PushBack(T.Copy(currentVal, result));
      PushBack(T.Jump(end));
      PushBack(T.Label(e2));
      ghost var s1 := Visit(a, old(State()));
      assert State() == Push(Push(Push(s1, T.Copy(s1.val, result)), T.Jump(end)), T.Label(e2));
      ok := AcceptExpr(b);
      if !ok { return; }
      PushBack(T.Copy(currentVal, result));
      PushBack(T.Label(end));
      currentVal := T.Var(result);
    }

    method AcceptStmt(s: Stmt) returns (ok: bool)
      requires StmtAll(s, NullFree)
      modifies this
      ensures ok == StmtAll(s, TargetsAreVars)
      ensures ok ==> State() == VisitStmt(s, old(State()))
      decreases s, 1
    {
      ok := true;
      match s {
        case Return(e) =>
          ok := AcceptExpr(e);
          if ok { PushBack(T.Return(currentVal)); }
        case If(c, a, b) =>
          ok := AcceptExpr(c);
          if !ok { return; }
          var test := currentVal;
          var end := MakeLabelName(IfEnd);
          if b.Some? {
            var other := MakeLabelName(IfElse);
            PushBack(T.JumpIfZero(test, other));
            ok := AcceptStmt(a);
            if !ok { return; }
            PushBack(T.Jump(end));
            PushBack(T.Label(other));
            ok := AcceptStmt(b.value);
            if !ok { return; }
          } else {
            PushBack(T.JumpIfZero(test, end));
            ok := AcceptStmt(a);
            if !ok { return; }
          }
          PushBack(T.Label(end));
        case Expression(e) => ok := AcceptExpr(e);
        case Compound(items) => ok := AcceptItems(items);
        case Empty =>
      }
    }

    method AcceptItem(item: BlockItem) returns (ok: bool)
      requires ItemAll(item, NullFree)
      modifies this
      ensures ok == ItemAll(item, TargetsAreVars)
      ensures ok ==> State() == VisitItem(item, old(State()))
      decreases item, 2
    {
      match item {
        case Declaration(x, init) =>
          ok := true;
          if init != NullExpr {
            ok := AcceptExpr(init);
            if ok { PushBack(T.Copy(currentVal, Ident(x))); }
          }
        case Statement(s) => ok := AcceptStmt(s);
      }
    }

    method AcceptItems(items: seq<BlockItem>) returns (ok: bool)
      requires ItemsAll(items, NullFree)
      modifies this
      ensures ok == ItemsAll(items, TargetsAreVars)
      ensures ok ==> State() == VisitItems(items, old(State()))
      decreases items, 0
    {
      var k := 0;
      while k < |items|
        invariant 0 <= k <= |items|
        invariant ItemsAll(items[k..], NullFree)
        invariant ItemsAll(items, TargetsAreVars) == ItemsAll(items[k..], TargetsAreVars)
        invariant VisitItems(items, old(State())) == VisitItems(items[k..], State())
      {
        assert items[k..][1..] == items[k + 1..];
        ok := AcceptItem(items[k]);
        if !ok { return; }
        k := k + 1;
      }
      ok := true;
    }

    /** `generate_tacky`: resets the generator and hands the finished list over. */
    method GenerateTacky(f: Function) returns (ok: bool, code: seq<T.Instr>)
      requires ItemsAll(f.body, NullFree)
      modifies this
      ensures ok == ItemsAll(f.body, TargetsAreVars)
      ensures ok ==> code == ToSeq(EmitFunction(f)) && instructions == []
    {
      instructions, tempCounter, labelCounter := [], 0, 0;
      code := [];
      ghost var start := State();
      ok := AcceptItems(f.body);
      if ok {
        VisitItemsEmits(f.body, start, Cons(T.Return(T.Constant(0)), Nil));
        PushBack(T.Return(T.Constant(0)));
        code := instructions;
        instructions := [];
        assert ToSeq(Cons(T.Return(T.Constant(0)), Nil)) == [T.Return(T.Constant(0))];
        assert [] + ToSeq(EmitFunction(f)) == ToSeq(EmitFunction(f));
      }
    }
  }

  // ----- the closed form -----

  type Code = List<T.Instr>

  /** How many temporaries and labels a phrase uses. */
  function TempsOf(e: Expr): nat {
    match e
    case NullExpr => 0
    case Constant(_) => 0
    case Var(_) => 0
    case Unary(_, a) => TempsOf(a) + 1
    case Binary(_, a, b) => TempsOf(a) + TempsOf(b) + 1
    case Assignment(_, a) => TempsOf(a)
    case Conditional(c, a, b) => TempsOf(c) + 1 + TempsOf(a) + TempsOf(b)
  }

  function LabelsOf(e: Expr): nat {
    match e
    case NullExpr => 0
    case Constant(_) => 0
    case Var(_) => 0
    case Unary(_, a) => LabelsOf(a)
    case Binary(op, a, b) => LabelsOf(a) + LabelsOf(b) + if op == And || op == Or then 2 else 0
    case Assignment(_, a) => LabelsOf(a)
    case Conditional(c, a, b) => LabelsOf(c) + 2 + LabelsOf(a) + LabelsOf(b)
  }

  /** The value a visit of `e` leaves, when temporaries are numbered from t. */
  function ValOf(e: Expr, t: nat): T.Val {
    match e
    case NullExpr => T.Constant(0)
    case Constant(c) => T.Constant(c)
    case Var(x) => T.Var(Ident(x))
    case Unary(_, a) => T.Var(Temp(t + TempsOf(a)))
    case Binary(op, a, b) => T.Var(Temp(if op == And || op == Or then t else t + TempsOf(a) + TempsOf(b)))
    case Assignment(target, _) => T.Var(TargetName(target))
    case Conditional(c, _, _) => T.Var(Temp(t + TempsOf(c)))
  }

  /** The code of `e`, with temporaries from t and labels from l, in front of k. */
  function Emit(e: Expr, t: nat, l: nat, k: Code): Code
    decreases e, 1
  {
    match e
    case NullExpr => k
    case Constant(_) => k
    case Var(_) => k
    case Unary(op, a) =>
      Emit(a, t, l, Cons(T.Unary(ConvertUnop(op), ValOf(a, t), Temp(t + TempsOf(a))), k))
    case Binary(op, _, _) =>
      if op == And || op == Or then EmitLogical(e, t, l, k) else EmitStrict(e, t, l, k)
    case Assignment(target, a) => Emit(a, t, l, Cons(T.Copy(ValOf(a, t), TargetName(target)), k))
    case Conditional(_, _, _) => EmitConditional(e, t, l, k)
  }

  function EmitLogical(e: Expr, t: nat, l: nat, k: Code): Code
    requires e.Binary?
    decreases e, 0
  {
    var op, a, b := e.binop, e.left, e.right;
    var u, m := t + 1 + TempsOf(a), l + 2 + LabelsOf(a);
    Emit(a, t + 1, l + 2,
         Cons(Test(op, ValOf(a, t + 1), l), Emit(b, u, m, Cons(Test(op, ValOf(b, u), l), LogicTail(op, t, l, k)))))
  }

  function EmitStrict(e: Expr, t: nat, l: nat, k: Code): Code
    requires e.Binary? && e.binop != And && e.binop != Or
    decreases e, 0
  {
    var u, m := t + TempsOf(e.left), l + LabelsOf(e.left);
    Emit(e.left, t, l, Emit(e.right, u, m, Cons(StrictInstr(e, t), k)))
  }

  function StrictInstr(e: Expr, t: nat): T.Instr
    requires e.Binary? && e.binop != And && e.binop != Or
  {
    var u := t + TempsOf(e.left);
    T.Binary(ConvertBinop(e.binop), ValOf(e.left, t), ValOf(e.right, u), Temp(u + TempsOf(e.right)))
  }

  function EmitConditional(e: Expr, t: nat, l: nat, k: Code): Code
    requires e.Conditional?
    decreases e, 0, 1
  {
    var r, n := t + TempsOf(e.cond), l + LabelsOf(e.cond);
    Emit(e.cond, t, l, Cons(T.JumpIfZero(ValOf(e.cond, t), LabelName(E2End, n)), EmitArms(e, r, n, k)))
  }

  function EmitArms(e: Expr, r: nat, n: nat, k: Code): Code
    requires e.Conditional?
    decreases e, 0, 0
  {
    var u, m := r + 1 + TempsOf(e.yes), n + 2 + LabelsOf(e.yes);
    Emit(e.yes, r + 1, n + 2, FirstArmTail(e.yes, r, n, Emit(e.no, u, m, SecondArmTail(e.no, r, n, u, k))))
  }

  function LogicTail(op: BinaryOpType, t: nat, l: nat, k: Code): Code {
    Cons(T.Copy(Passed(op), Temp(t)), Cons(T.Jump(EndLabel(op, l)),
      Cons(T.Label(ExitLabel(op, l)), Cons(T.Copy(Exited(op), Temp(t)), Cons(T.Label(EndLabel(op, l)), k)))))
  }

  /** Temporary r holds the result of `?:`, whose labels are n and n + 1. */
  function FirstArmTail(a: Expr, r: nat, n: nat, k: Code): Code {
    Cons(T.Copy(ValOf(a, r + 1), Temp(r)),
         Cons(T.Jump(LabelName(ConditionalEnd, n + 1)), Cons(T.Label(LabelName(E2End, n)), k)))
  }

  function SecondArmTail(b: Expr, r: nat, n: nat, u: nat, k: Code): Code {
    Cons(T.Copy(ValOf(b, u), Temp(r)), Cons(T.Label(LabelName(ConditionalEnd, n + 1)), k))
  }

  function TempsOfStmt(s: Stmt): nat
    decreases s, 1
  {
    match s
    case Return(e) => TempsOf(e)
    case If(c, a, b) => TempsOf(c) + TempsOfStmt(a) + if b.Some? then TempsOfStmt(b.value) else 0
    case Expression(e) => TempsOf(e)
    case Compound(items) => TempsOfItems(items)
    case Empty => 0
  }

  function TempsOfItem(item: BlockItem): nat
    decreases item, 2
  {
    match item
    case Declaration(_, init) => TempsOf(init)
    case Statement(s) => TempsOfStmt(s)
  }

  function TempsOfItems(items: seq<BlockItem>): nat
    decreases items, 0
  {
    if items == [] then 0 else TempsOfItem(items[0]) + TempsOfItems(items[1..])
  }

  function LabelsOfStmt(s: Stmt): nat
    decreases s, 1
  {
    match s
    case Return(e) => LabelsOf(e)
    case If(c, a, b) => LabelsOf(c) + 1 + LabelsOfStmt(a) + if b.Some? then 1 + LabelsOfStmt(b.value) else 0
    case Expression(e) => LabelsOf(e)
    case Compound(items) => LabelsOfItems(items)
    case Empty => 0
  }

  function LabelsOfItem(item: BlockItem): nat
    decreases item, 2
  {
    match item
    case Declaration(_, init) => LabelsOf(init)
    case Statement(s) => LabelsOfStmt(s)
  }

  function LabelsOfItems(items: seq<BlockItem>): nat
    decreases items, 0
  {
    if items == [] then 0 else LabelsOfItem(items[0]) + LabelsOfItems(items[1..])
  }

  function EmitStmt(s: Stmt, t: nat, l: nat, k: Code): Code
    decreases s, 1
  {
    match s
    case Return(e) => Emit(e, t, l, Cons(T.Return(ValOf(e, t)), k))
    case If(_, _, _) => EmitIf(s, t, l, k)
    case Expression(e) => Emit(e, t, l, k)
    case Compound(items) => EmitItems(items, t, l, k)
    case Empty => k
  }

  function EmitIf(s: Stmt, t: nat, l: nat, k: Code): Code
    requires s.If?
    decreases s, 0, 1
  {
    var u, n := t + TempsOf(s.test), l + LabelsOf(s.test);
    var exit := if s.els.Some? then LabelName(IfElse, n + 1) else LabelName(IfEnd, n);
    Emit(s.test, t, l, Cons(T.JumpIfZero(ValOf(s.test, t), exit), EmitBranches(s, u, n, k)))
  }

  /** The code behind the test of an if statement. */
  function EmitBranches(s: Stmt, u: nat, n: nat, k: Code): Code
    requires s.If?
    decreases s, 0, 0
  {
    var end := Cons(T.Label(LabelName(IfEnd, n)), k);
    if s.els.Some? then
      EmitStmt(s.thn, u, n + 2, Cons(T.Jump(LabelName(IfEnd, n)), Cons(T.Label(LabelName(IfElse, n + 1)),
        EmitStmt(s.els.value, u + TempsOfStmt(s.thn), n + 2 + LabelsOfStmt(s.thn), end))))
    else EmitStmt(s.thn, u, n + 1, end)
  }

  function EmitItem(item: BlockItem, t: nat, l: nat, k: Code): Code
    decreases item, 2
  {
    match item
    case Declaration(x, init) =>
      if init == NullExpr then k else Emit(init, t, l, Cons(T.Copy(ValOf(init, t), Ident(x)), k))
    case Statement(s) => EmitStmt(s, t, l, k)
  }

  function EmitItems(items: seq<BlockItem>, t: nat, l: nat, k: Code): Code
    decreases items, 0
  {
    if items == [] then k
    else EmitItem(items[0], t, l, EmitItems(items[1..], t + TempsOfItem(items[0]), l + LabelsOfItem(items[0]), k))
  }

  /** The whole list, closed by a return of 0. */
  function EmitFunction(f: Function): Code { EmitItems(f.body, 0, 0, Cons(T.Return(T.Constant(0)), Nil)) }

  // ----- the visitor builds the closed form -----

  lemma {:induction false} PushCode(s: GenState, i: T.Instr, k: Code)
    ensures Push(s, i).code + ToSeq(k) == s.code + ToSeq(Cons(i, k))
  {}

  lemma {:induction false} VisitEmits(e: Expr, s: GenState, k: Code)
    requires NullFree(e)
    ensures Visit(e, s).code + ToSeq(k) == s.code + ToSeq(Emit(e, s.temps, s.labels, k))
    ensures Visit(e, s).val == ValOf(e, s.temps)
    ensures Visit(e, s).temps == s.temps + TempsOf(e)
    ensures Visit(e, s).labels == s.labels + LabelsOf(e)
    decreases e, 1
  {
    match e {
      case Constant(_) =>
      case Var(_) =>
      case Unary(op, a) =>
        var s1 := Visit(a, s);
        var i := T.Unary(ConvertUnop(op), s1.val, Temp(s1.temps));
        VisitEmits(a, s, Cons(i, k));
        PushCode(s1, i, k);
      case Binary(op, a, b) =>
        if op == And || op == Or {
          VisitEmitsLogical(op, a, b, s, k);
        } else {
          VisitEmitsStrict(e, s, k);
        }
      case Assignment(target, a) =>
        var s1 := Visit(a, s);
        var i := T.Copy(s1.val, TargetName(target));
        VisitEmits(a, s, Cons(i, k));
        PushCode(s1, i, k);
      case Conditional(_, _, _) => VisitEmitsConditional(e, s, k);
    }
  }

  lemma {:induction false} VisitEmitsStrict(e: Expr, s: GenState, k: Code)
    requires e.Binary? && e.binop != And && e.binop != Or && NullFree(e)
    ensures VisitStrict(e, s).code + ToSeq(k) == s.code + ToSeq(EmitStrict(e, s.temps, s.labels, k))
    ensures VisitStrict(e, s).val == ValOf(e, s.temps)
    ensures VisitStrict(e, s).temps == s.temps + TempsOf(e)
    ensures VisitStrict(e, s).labels == s.labels + LabelsOf(e)
    decreases e, 0
  {
    var s1 := Visit(e.left, s);
    var s2 := Visit(e.right, s1);
    var i := T.Binary(ConvertBinop(e.binop), s1.val, s2.val, Temp(s2.temps));
    VisitEmits(e.right, s1, Cons(i, k));
    VisitEmits(e.left, s, Emit(e.right, s1.temps, s1.labels, Cons(i, k)));
    PushCode(s2, i, k);
  }

  lemma {:induction false} LogicTailEmits(op: BinaryOpType, t: nat, l: nat, s: GenState, k: Code)
    ensures VisitLogicTail(op, t, l, s).code + ToSeq(k) == s.code + ToSeq(LogicTail(op, t, l, k))
  {
    var i1, i2, i3, i4, i5 := T.Copy(Passed(op), Temp(t)), T.Jump(EndLabel(op, l)), T.Label(ExitLabel(op, l)),
      T.Copy(Exited(op), Temp(t)), T.Label(EndLabel(op, l));
    PushTwo(s, i1, i2, Cons(i3, Cons(i4, Cons(i5, k))));
    PushTwo(Push(Push(s, i1), i2), i3, i4, Cons(i5, k));
    PushCode(Push(Push(Push(Push(s, i1), i2), i3), i4), i5, k);
  }

  lemma {:induction false} PushTwo(s: GenState, i: T.Instr, j: T.Instr, k: Code)
    ensures Push(Push(s, i), j).code + ToSeq(k) == s.code + ToSeq(Cons(i, Cons(j, k)))
  {
    PushCode(Push(s, i), j, k);
    PushCode(s, i, Cons(j, k));
  }

  lemma {:induction false} VisitEmitsLogical(op: BinaryOpType, a: Expr, b: Expr, s: GenState, k: Code)
    requires (op == And || op == Or) && NullFree(a) && NullFree(b)
    ensures var e := Binary(op, a, b);
      && Visit(e, s).code + ToSeq(k) == s.code + ToSeq(Emit(e, s.temps, s.labels, k))
      && Visit(e, s).val == ValOf(e, s.temps)
      && Visit(e, s).temps == s.temps + TempsOf(e)
      && Visit(e, s).labels == s.labels + LabelsOf(e)
    decreases Binary(op, a, b), 0
  {
    var s0 := s.(temps := s.temps + 1, labels := s.labels + 2);
    var s1 := Visit(a, s0);
    var i := Test(op, s1.val, s.labels);
    var s2 := Visit(b, Push(s1, i));
    var j := Test(op, s2.val, s.labels);
    var tail := LogicTail(op, s.temps, s.labels, k);
    var rest := Emit(b, s1.temps, s1.labels, Cons(j, tail));
    VisitEmits(a, s0, Cons(i, rest));
    PushCode(s1, i, rest);
    VisitEmits(b, Push(s1, i), Cons(j, tail));
    PushCode(s2, j, tail);
    LogicTailEmits(op, s.temps, s.labels, Push(s2, j), k);
  }

  lemma {:induction false} VisitEmitsConditional(e: Expr, s: GenState, k: Code)
    requires e.Conditional? && NullFree(e)
    ensures VisitConditional(e, s).code + ToSeq(k) == s.code + ToSeq(EmitConditional(e, s.temps, s.labels, k))
    ensures VisitConditional(e, s).val == ValOf(e, s.temps)
    ensures VisitConditional(e, s).temps == s.temps + TempsOf(e)
    ensures VisitConditional(e, s).labels == s.labels + LabelsOf(e)
    decreases e, 0, 1
  {
    var s1 := Visit(e.cond, s);
    var i := T.JumpIfZero(s1.val, LabelName(E2End, s1.labels));
    var k0 := EmitArms(e, s1.temps, s1.labels, k);
    VisitEmits(e.cond, s, Cons(i, k0));
    PushCode(s1, i, k0);
    VisitEmitsArms(e, s1.temps, s1.labels, Push(s1, i).(temps := s1.temps + 1, labels := s1.labels + 2), k);
  }

  lemma {:induction false} VisitEmitsArms(e: Expr, r: nat, n: nat, s: GenState, k: Code)
    requires e.Conditional? && NullFree(e) && s.temps == r + 1 && s.labels == n + 2
    ensures VisitArms(e, r, n, s).code + ToSeq(k) == s.code + ToSeq(EmitArms(e, r, n, k))
    ensures VisitArms(e, r, n, s).val == T.Var(Temp(r))
    ensures VisitArms(e, r, n, s).temps == s.temps + TempsOf(e.yes) + TempsOf(e.no)
    ensures VisitArms(e, r, n, s).labels == s.labels + LabelsOf(e.yes) + LabelsOf(e.no)
    decreases e, 0, 0
  {
    var u, m := r + 1 + TempsOf(e.yes), n + 2 + LabelsOf(e.yes);
    var k2 := SecondArmTail(e.no, r, n, u, k);
    var k1 := Emit(e.no, u, m, k2);
    var s1 := Visit(e.yes, s);
    var i1, i2, i3 := T.Copy(s1.val, Temp(r)), T.Jump(LabelName(ConditionalEnd, n + 1)), T.Label(LabelName(E2End, n));
    var s1' := Push(Push(Push(s1, i1), i2), i3);
    VisitEmits(e.yes, s, FirstArmTail(e.yes, r, n, k1));
    PushTwo(s1, i1, i2, Cons(i3, k1));
    PushCode(Push(Push(s1, i1), i2), i3, k1);
    VisitEmits(e.no, s1', k2);
    var s2 := Visit(e.no, s1');
    PushTwo(s2, T.Copy(s2.val, Temp(r)), T.Label(LabelName(ConditionalEnd, n + 1)), k);
  }

  lemma {:induction false} VisitStmtEmits(s: Stmt, st: GenState, k: Code)
    requires StmtAll(s, NullFree)
    ensures VisitStmt(s, st).code + ToSeq(k) == st.code + ToSeq(EmitStmt(s, st.temps, st.labels, k))
    ensures VisitStmt(s, st).temps == st.temps + TempsOfStmt(s)
    ensures VisitStmt(s, st).labels == st.labels + LabelsOfStmt(s)
    decreases s, 1
  {
    match s {
      case Return(e) =>
        var s1 := Visit(e, st);
        VisitEmits(e, st, Cons(T.Return(s1.val), k));
        PushCode(s1, T.Return(s1.val), k);
      case If(_, _, _) => VisitIfEmits(s, st, k);
      case Expression(e) => VisitEmits(e, st, k);
      case Compound(items) => VisitItemsEmits(items, st, k);
      case Empty =>
    }
  }

  lemma {:induction false} VisitIfEmits(s: Stmt, st: GenState, k: Code)
    requires s.If? && StmtAll(s, NullFree)
    ensures VisitIf(s, st).code + ToSeq(k) == st.code + ToSeq(EmitIf(s, st.temps, st.labels, k))
    ensures VisitIf(s, st).temps == st.temps + TempsOfStmt(s)
    ensures VisitIf(s, st).labels == st.labels + LabelsOfStmt(s)
    decreases s, 0
  {
    var s1 := Visit(s.test, st);
    var u, n := s1.temps, s1.labels;
    var i := T.JumpIfZero(s1.val, if s.els.Some? then LabelName(IfElse, n + 1) else LabelName(IfEnd, n));
    var k0 := EmitBranches(s, u, n, k);
    VisitEmits(s.test, st, Cons(i, k0));
    PushCode(s1, i, k0);
    if s.els.Some? {
      VisitElseEmits(s, n, Push(s1, i).(labels := n + 2), k);
    } else {
      var s1' := Push(s1, i).(labels := n + 1);
      VisitStmtEmits(s.thn, s1', Cons(T.Label(LabelName(IfEnd, n)), k));
      PushCode(VisitStmt(s.thn, s1'), T.Label(LabelName(IfEnd, n)), k);
      assert VisitIf(s, st) == Push(VisitStmt(s.thn, s1'), T.Label(LabelName(IfEnd, n)));
    }
  }

  /** The two branches of `if` and `else`, after the test. */
  function VisitElse(s: Stmt, n: nat, st: GenState): GenState
    requires s.If? && s.els.Some?
  {
    var end, other := LabelName(IfEnd, n), LabelName(IfElse, n + 1);
    Push(VisitStmt(s.els.value, Push(Push(VisitStmt(s.thn, st), T.Jump(end)), T.Label(other))), T.Label(end))
  }

  lemma {:induction false} VisitElseEmits(s: Stmt, n: nat, st: GenState, k: Code)
    requires s.If? && s.els.Some? && StmtAll(s, NullFree) && st.labels == n + 2
    ensures VisitElse(s, n, st).code + ToSeq(k) == st.code + ToSeq(EmitBranches(s, st.temps, n, k))
    ensures VisitElse(s, n, st).temps == st.temps + TempsOfStmt(s.thn) + TempsOfStmt(s.els.value)
    ensures VisitElse(s, n, st).labels == n + 2 + LabelsOfStmt(s.thn) + LabelsOfStmt(s.els.value)
    decreases s, 0, 0
  {
    var a, end, other := s.thn, LabelName(IfEnd, n), LabelName(IfElse, n + 1);
    var last := Cons(T.Label(end), k);
    var s2 := VisitStmt(a, st);
    var s2' := Push(Push(s2, T.Jump(end)), T.Label(other));
    var k2 := EmitStmt(s.els.value, st.temps + TempsOfStmt(a), n + 2 + LabelsOfStmt(a), last);
    VisitStmtEmits(a, st, Cons(T.Jump(end), Cons(T.Label(other), k2)));
    PushTwo(s2, T.Jump(end), T.Label(other), k2);
    VisitStmtEmits(s.els.value, s2', last);
    PushCode(VisitStmt(s.els.value, s2'), T.Label(end), k);
  }

  lemma {:induction false} VisitItemEmits(item: BlockItem, st: GenState, k: Code)
    requires ItemAll(item, NullFree)
    ensures VisitItem(item, st).code + ToSeq(k) == st.code + ToSeq(EmitItem(item, st.temps, st.labels, k))
    ensures VisitItem(item, st).temps == st.temps + TempsOfItem(item)
    ensures VisitItem(item, st).labels == st.labels + LabelsOfItem(item)
    decreases item, 2
  {
    match item {
      case Declaration(x, init) =>
        if init != NullExpr {
          var s1 := Visit(init, st);
          VisitEmits(init, st, Cons(T.Copy(s1.val, Ident(x)), k));
          PushCode(s1, T.Copy(s1.val, Ident(x)), k);
        }
      case Statement(s) => VisitStmtEmits(s, st, k);
    }
  }

  /** What the visitor appends for a block is the closed form of the block. */
  lemma {:induction false} VisitItemsEmits(items: seq<BlockItem>, st: GenState, k: Code)
    requires ItemsAll(items, NullFree)
    ensures VisitItems(items, st).code + ToSeq(k) == st.code + ToSeq(EmitItems(items, st.temps, st.labels, k))
    ensures VisitItems(items, st).temps == st.temps + TempsOfItems(items)
    ensures VisitItems(items, st).labels == st.labels + LabelsOfItems(items)
    decreases items, 0
  {
    if items != [] {
      var s1 := VisitItem(items[0], st);
      VisitItemEmits(items[0], st, EmitItems(items[1..], s1.temps, s1.labels, k));
      VisitItemsEmits(items[1..], s1, k);
    }
  }
}
