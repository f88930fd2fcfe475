/**
 What generated code may touch: the code of a phrase touches the temporaries of its own
 counter interval, reads the variables the phrase names and writes those it assigns, and
 nothing else.  An earlier sibling's temporary is therefore never overwritten, and the
 names of a program without dots are spelled unlike every temporary.
*/
module TackyFrame {
  import opened Options
  import opened Ast
  import opened Names
  import opened Flow
  import opened Scoping
  import opened TackyGen
  import T = Tacky

  /** Temporaries lo to hi - 1, and variables that may be written or read. */
  datatype Footprint = Footprint(lo: nat, hi: nat, writable: string -> bool, readable: string -> bool)

  predicate Writable(x: Name, f: Footprint) { if x.Temp? then f.lo <= x.number < f.hi else f.writable(x.text) }

  predicate Readable(v: T.Val, f: Footprint) {
    v.Var? ==> if v.name.Temp? then f.lo <= v.name.number < f.hi else f.readable(v.name.text)
  }

  predicate InstrWithin(i: T.Instr, f: Footprint) {
    match i
    case Return(v) => Readable(v, f)
    case Unary(_, src, dst) => Readable(src, f) && Writable(dst, f)
    case Binary(_, src1, src2, dst) => Readable(src1, f) && Readable(src2, f) && Writable(dst, f)
    case Copy(src, dst) => Readable(src, f) && Writable(dst, f)
    case JumpIfZero(c, _) => Readable(c, f)
    case JumpIfNotZero(c, _) => Readable(c, f)
    case _ => true
  }

  predicate Within(code: Code, f: Footprint) {
    code.Cons? ==> InstrWithin(code.head, f) && Within(code.tail, f)
  }

  lemma {:induction false} SuffixWithin(code: Code, name: LabelName, f: Footprint)
    requires Within(code, f)
    ensures Within(Suffix(T.M, code, name), f)
  {
    if code.Cons? && T.LabelOf(code.head) != Some(name) { SuffixWithin(code.tail, name, f); }
  }

  // ----- expressions -----

  ghost predicate Fits(e: Expr, t: nat, f: Footprint) {
    && TargetsAreVars(e) && NamesAll(e, f.readable) && (forall x :: x in Assigned(e) ==> f.writable(x))
    && f.lo <= t && t + TempsOf(e) <= f.hi
  }

  lemma ValWithin(e: Expr, t: nat, f: Footprint)
    requires Fits(e, t, f)
    ensures Readable(ValOf(e, t), f)
  {
    if e.Assignment? { assert NamesAll(e.target, f.readable); }
  }

  lemma {:induction false} EmitWithin(e: Expr, t: nat, l: nat, k: Code, f: Footprint)
    requires Fits(e, t, f) && Within(k, f)
    ensures Within(Emit(e, t, l, k), f)
    decreases e, 1
  {
    if e.Unary? {
      var a := e.inner;
      ValWithin(a, t, f);
      EmitWithin(a, t, l, Cons(T.Unary(ConvertUnop(e.unop), ValOf(a, t), Temp(t + TempsOf(a))), k), f);
    } else if e.Binary? {
      if e.binop == And || e.binop == Or {
        LogicalWithin(e, t, l, k, f, EmitLogical(e, t, l, k));
      } else {
        StrictWithin(e, t, l, k, f);
      }
    } else if e.Assignment? {
      ValWithin(e.source, t, f);
      assert e.target.name in Assigned(e);
      EmitWithin(e.source, t, l, Cons(T.Copy(ValOf(e.source, t), TargetName(e.target)), k), f);
    } else if e.Conditional? {
      ConditionalWithin(e, t, l, k, f);
    }
  }

  lemma {:induction false} StrictWithin(e: Expr, t: nat, l: nat, k: Code, f: Footprint)
    requires e.Binary? && e.binop != And && e.binop != Or && Fits(e, t, f) && Within(k, f)
    ensures Within(EmitStrict(e, t, l, k), f)
    decreases e, 0
  {
    var a, b := e.left, e.right;
    var u, m, k1 := t + TempsOf(a), l + LabelsOf(a), Cons(StrictInstr(e, t), k);
    ValWithin(a, t, f);
    ValWithin(b, u, f);
    EmitWithin(b, u, m, k1, f);
    EmitWithin(a, t, l, Emit(b, u, m, k1), f);
  }

  lemma {:induction false} LogicalWithin(e: Expr, t: nat, l: nat, k: Code, f: Footprint, code: Code)
    requires e.Binary? && Fits(e, t, f) && Within(k, f)
    requires code == EmitLogical(e, t, l, k)
    ensures Within(code, f)
    decreases e, 0
  {
    var op, a, b := e.binop, e.left, e.right;
    var u, m := t + 1 + TempsOf(a), l + 2 + LabelsOf(a);
    var k1 := Emit(b, u, m, Cons(Test(op, ValOf(b, u), l), LogicTail(op, t, l, k)));
    OperandsFit(e, t, f);
    SecondOperandWithin(op, b, t, u, l, m, k, f);
    TestedWithin(op, a, t + 1, l, l + 2, k1, f);
    LogicalIs(e, t, l, k);
  }

  lemma {:induction false} LogicalIs(e: Expr, t: nat, l: nat, k: Code)
    requires e.Binary?
    ensures var op, a, b := e.binop, e.left, e.right;
      var u, m := t + 1 + TempsOf(a), l + 2 + LabelsOf(a);
      EmitLogical(e, t, l, k) == Emit(a, t + 1, l + 2, Cons(Test(op, ValOf(a, t + 1), l),
        Emit(b, u, m, Cons(Test(op, ValOf(b, u), l), LogicTail(op, t, l, k)))))
  {}

  lemma OperandsFit(e: Expr, t: nat, f: Footprint)
    requires e.Binary? && Fits(e, t, f)
    ensures Fits(e.left, t + 1, f) && Fits(e.right, t + 1 + TempsOf(e.left), f) && t < f.hi
  {}

  lemma {:induction false} SecondOperandWithin(op: BinaryOpType, b: Expr, t: nat, u: nat, l: nat, m: nat, k: Code,
                                               f: Footprint)
    requires Fits(b, u, f) && f.lo <= t < f.hi && Within(k, f)
    ensures Within(Emit(b, u, m, Cons(Test(op, ValOf(b, u), l), LogicTail(op, t, l, k))), f)
    decreases b, 3
  {
    LogicTailWithin(op, t, l, k, f);
    TestedWithin(op, b, u, l, m, LogicTail(op, t, l, k), f);
  }

  /** An operand and the test after it. */
  lemma {:induction false} TestedWithin(op: BinaryOpType, e: Expr, t: nat, l: nat, m: nat, k: Code, f: Footprint)
    requires Fits(e, t, f) && Within(k, f)
    ensures Within(Emit(e, t, m, Cons(Test(op, ValOf(e, t), l), k)), f)
    decreases e, 2
  {
    TestWithin(op, e, t, l, k, f);
    EmitWithin(e, t, m, Cons(Test(op, ValOf(e, t), l), k), f);
  }

  lemma TestWithin(op: BinaryOpType, e: Expr, t: nat, l: nat, k: Code, f: Footprint)
    requires Fits(e, t, f) && Within(k, f)
    ensures Within(Cons(Test(op, ValOf(e, t), l), k), f)
  {
    ValWithin(e, t, f);
  }

  lemma {:induction false} LogicTailWithin(op: BinaryOpType, t: nat, l: nat, k: Code, f: Footprint)
    requires f.lo <= t < f.hi && Within(k, f)
    ensures Within(LogicTail(op, t, l, k), f)
  {
    var end := Cons(T.Label(ExitLabel(op, l)), Cons(T.Copy(Exited(op), Temp(t)), Cons(T.Label(EndLabel(op, l)), k)));
    assert Within(end, f);
  }

  lemma {:induction false} ConditionalWithin(e: Expr, t: nat, l: nat, k: Code, f: Footprint)
    requires e.Conditional? && Fits(e, t, f) && Within(k, f)
    ensures Within(EmitConditional(e, t, l, k), f)
    decreases e, 0, 1
  {
    var c := e.cond;
    var r, n := t + TempsOf(c), l + LabelsOf(c);
    PartsFit(e, t, f);
    ArmsWithin(e, r, n, k, f, EmitArms(e, r, n, k));
    ConditionWithin(c, t, l, n, EmitArms(e, r, n, k), f);
  }

  lemma {:induction false} ConditionWithin(c: Expr, t: nat, l: nat, n: nat, arms: Code, f: Footprint)
    requires Fits(c, t, f) && Within(arms, f)
    ensures Within(Emit(c, t, l, Cons(T.JumpIfZero(ValOf(c, t), LabelName(E2End, n)), arms)), f)
    decreases c, 2
  {
    ValWithin(c, t, f);
    EmitWithin(c, t, l, Cons(T.JumpIfZero(ValOf(c, t), LabelName(E2End, n)), arms), f);
  }

  lemma PartsFit(e: Expr, t: nat, f: Footprint)
    requires e.Conditional? && Fits(e, t, f)
    ensures var r := t + TempsOf(e.cond);
      Fits(e.cond, t, f) && Fits(e.yes, r + 1, f) && Fits(e.no, r + 1 + TempsOf(e.yes), f) && f.lo <= r < f.hi
  {}

  lemma {:induction false} ArmsWithin(e: Expr, r: nat, n: nat, k: Code, f: Footprint, code: Code)
    requires e.Conditional? && f.lo <= r < f.hi && Within(k, f)
    requires Fits(e.yes, r + 1, f) && Fits(e.no, r + 1 + TempsOf(e.yes), f)
    requires code == EmitArms(e, r, n, k)
    ensures Within(code, f)
    decreases e, 0, 0
  {
    var a, b := e.yes, e.no;
    var u, m := r + 1 + TempsOf(a), n + 2 + LabelsOf(a);
    var k1 := Emit(b, u, m, SecondArmTail(b, r, n, u, k));
    SecondArmWithin(b, r, n, u, m, k, f);
    FirstArmWithin(a, r, n, k1, f);
    ArmsAre(e, r, n, k);
  }

  lemma {:induction false} ArmsAre(e: Expr, r: nat, n: nat, k: Code)
    requires e.Conditional?
    ensures var a, b := e.yes, e.no;
      var u, m := r + 1 + TempsOf(a), n + 2 + LabelsOf(a);
      EmitArms(e, r, n, k) == Emit(a, r + 1, n + 2, FirstArmTail(a, r, n, Emit(b, u, m, SecondArmTail(b, r, n, u, k))))
  {}

  lemma {:induction false} SecondArmWithin(b: Expr, r: nat, n: nat, u: nat, m: nat, k: Code, f: Footprint)
    requires f.lo <= r < f.hi && Fits(b, u, f) && Within(k, f)
    ensures Within(Emit(b, u, m, SecondArmTail(b, r, n, u, k)), f)
    decreases b, 2
  {
    ValWithin(b, u, f);
    EmitWithin(b, u, m, SecondArmTail(b, r, n, u, k), f);
  }

  lemma {:induction false} FirstArmWithin(a: Expr, r: nat, n: nat, k: Code, f: Footprint)
    requires f.lo <= r < f.hi && Fits(a, r + 1, f) && Within(k, f)
    ensures Within(Emit(a, r + 1, n + 2, FirstArmTail(a, r, n, k)), f)
    decreases a, 2
  {
    FirstTailWithin(a, r, n, k, f);
    EmitWithin(a, r + 1, n + 2, FirstArmTail(a, r, n, k), f);
  }

  lemma {:induction false} FirstTailWithin(a: Expr, r: nat, n: nat, k: Code, f: Footprint)
    requires f.lo <= r < f.hi && Fits(a, r + 1, f) && Within(k, f)
    ensures Within(FirstArmTail(a, r, n, k), f)
  {
    ValWithin(a, r + 1, f);
    assert Within(Cons(T.Label(LabelName(E2End, n)), k), f);
  }

  // ----- statements -----

  ghost predicate FitsStmt(s: Stmt, t: nat, f: Footprint) {
    && StmtAll(s, TargetsAreVars) && StmtNames(s, f.readable) && f.writable == f.readable
    && f.lo <= t && t + TempsOfStmt(s) <= f.hi
  }

  lemma {:induction false} AssignedNamed(e: Expr, p: string -> bool)
    requires NamesAll(e, p)
    ensures forall x :: x in Assigned(e) ==> p(x)
  {
    match e {
      case Unary(_, a) => AssignedNamed(a, p);
      case Binary(_, a, b) => AssignedNamed(a, p); AssignedNamed(b, p);
      case Assignment(a, b) => AssignedNamed(b, p);
      case Conditional(c, a, b) => AssignedNamed(c, p); AssignedNamed(a, p); AssignedNamed(b, p);
      case _ =>
    }
  }

  /** An expression of a statement, and the instruction that uses its value. */
  lemma {:induction false} UseWithin(e: Expr, t: nat, l: nat, i: T.Instr, k: Code, f: Footprint)
    requires TargetsAreVars(e) && NamesAll(e, f.readable) && f.writable == f.readable
    requires f.lo <= t && t + TempsOf(e) <= f.hi
    requires Readable(ValOf(e, t), f) ==> InstrWithin(i, f)
    requires Within(k, f)
    ensures Within(Emit(e, t, l, Cons(i, k)), f) && Within(Emit(e, t, l, k), f)
  {
    AssignedNamed(e, f.readable);
    ValWithin(e, t, f);
    EmitWithin(e, t, l, Cons(i, k), f);
    EmitWithin(e, t, l, k, f);
  }

  lemma {:induction false} StmtWithin(s: Stmt, t: nat, l: nat, k: Code, f: Footprint)
    requires FitsStmt(s, t, f) && Within(k, f)
    ensures Within(EmitStmt(s, t, l, k), f)
    decreases s, 1
  {
    match s {
      case Return(e) => UseWithin(e, t, l, T.Return(ValOf(e, t)), k, f);
      case If(_, _, _) => IfWithin(s, t, l, k, f);
      case Expression(e) => UseWithin(e, t, l, T.Return(ValOf(e, t)), k, f);
      case Compound(items) => ItemsWithin(items, t, l, k, f);
      case Empty =>
    }
  }

  lemma {:induction false} IfWithin(s: Stmt, t: nat, l: nat, k: Code, f: Footprint)
    requires s.If? && FitsStmt(s, t, f) && Within(k, f)
    ensures Within(EmitIf(s, t, l, k), f)
    decreases s, 0, 1
  {
    var u, n := t + TempsOf(s.test), l + LabelsOf(s.test);
    var exit := if s.els.Some? then LabelName(IfElse, n + 1) else LabelName(IfEnd, n);
    BranchesWithin(s, u, n, k, f);
    UseWithin(s.test, t, l, T.JumpIfZero(ValOf(s.test, t), exit), EmitBranches(s, u, n, k), f);
  }

  lemma {:induction false} BranchesWithin(s: Stmt, u: nat, n: nat, k: Code, f: Footprint)
    requires s.If? && FitsStmt(s.thn, u, f) && Within(k, f)
    requires s.els.Some? ==> FitsStmt(s.els.value, u + TempsOfStmt(s.thn), f)
    ensures Within(EmitBranches(s, u, n, k), f)
    decreases s, 0, 0
  {
    var end := Cons(T.Label(LabelName(IfEnd, n)), k);
    if s.els.Some? {
      var v, m := u + TempsOfStmt(s.thn), n + 2 + LabelsOfStmt(s.thn);
      StmtWithin(s.els.value, v, m, end, f);
      var k1 := Cons(T.Label(LabelName(IfElse, n + 1)), EmitStmt(s.els.value, v, m, end));
      StmtWithin(s.thn, u, n + 2, Cons(T.Jump(LabelName(IfEnd, n)), k1), f);
    } else {
      StmtWithin(s.thn, u, n + 1, end, f);
    }
  }

  lemma {:induction false} ItemWithin(item: BlockItem, t: nat, l: nat, k: Code, f: Footprint)
    requires ItemAll(item, TargetsAreVars) && ItemNames(item, f.readable) && f.writable == f.readable
    requires f.lo <= t && t + TempsOfItem(item) <= f.hi && Within(k, f)
    ensures Within(EmitItem(item, t, l, k), f)
    decreases item, 2
  {
    match item {
      case Declaration(x, init) =>
        if init != NullExpr { UseWithin(init, t, l, T.Copy(ValOf(init, t), Ident(x)), k, f); }
      case Statement(s) => StmtWithin(s, t, l, k, f);
    }
  }

  lemma {:induction false} ItemsWithin(items: seq<BlockItem>, t: nat, l: nat, k: Code, f: Footprint)
    requires ItemsAll(items, TargetsAreVars) && ItemsNames(items, f.readable) && f.writable == f.readable
    requires f.lo <= t && t + TempsOfItems(items) <= f.hi && Within(k, f)
    ensures Within(EmitItems(items, t, l, k), f)
    decreases items, 0
  {
    if items != [] {
      var u, m := t + TempsOfItem(items[0]), l + LabelsOfItem(items[0]);
      ItemsWithin(items[1..], u, m, k, f);
      ItemWithin(items[0], t, l, EmitItems(items[1..], u, m, k), f);
    }
  }

  // ----- the frame of an expression -----

  function OwnFootprint(e: Expr, t: nat): Footprint {
    Footprint(t, t + TempsOf(e), In(Assigned(e)), x => true)
  }

  /** The code of e writes only its own temporaries and the variables e assigns. */
  lemma OwnWrites(e: Expr, t: nat, l: nat)
    requires TargetsAreVars(e)
    ensures Within(Emit(e, t, l, Nil), OwnFootprint(e, t))
  {
    AnyName(e);
    EmitWithin(e, t, l, Nil, OwnFootprint(e, t));
  }

  lemma {:induction false} AnyName(e: Expr)
    ensures NamesAll(e, x => true)
  {
    match e {
      case Unary(_, a) => AnyName(a);
      case Binary(_, a, b) => AnyName(a); AnyName(b);
      case Assignment(a, b) => AnyName(a); AnyName(b);
      case Conditional(c, a, b) => AnyName(c); AnyName(a); AnyName(b);
      case _ =>
    }
  }

  /** Running a list from its start until it falls off the end; None when it stops before. */
  function Through(code: Code, st: T.Store): (r: Option<T.Store>)
    decreases code
  {
    if code.Nil? then Some(st)
    else
      match T.Step(code.head, st)
      case Next(st') => Through(code.tail, st')
      case Goto(name, st') => Through(Suffix(T.M, code.tail, name), st')
      case Halt(_) => None
  }

  /** An instruction leaves every name it may not write alone. */
  lemma StepKeeps(i: T.Instr, st: T.Store, x: Name, f: Footprint)
    requires InstrWithin(i, f) && !Writable(x, f)
    ensures match T.Step(i, st)
      case Next(st') => T.Get(st', x) == T.Get(st, x)
      case Goto(_, st') => T.Get(st', x) == T.Get(st, x)
      case Halt(_) => true
  {}

  lemma {:induction false} ThroughKeeps(code: Code, st: T.Store, x: Name, f: Footprint)
    requires Within(code, f) && !Writable(x, f)
    ensures Through(code, st).Some? ==> T.Get(Through(code, st).value, x) == T.Get(st, x)
    decreases code
  {
    if code.Cons? {
      StepKeeps(code.head, st, x, f);
      match T.Step(code.head, st)
      case Next(st') => ThroughKeeps(code.tail, st', x, f);
      case Goto(name, st') =>
        SuffixWithin(code.tail, name, f);
        ThroughKeeps(Suffix(T.M, code.tail, name), st', x, f);
      case Halt(_) =>
    }
  }

  /** Running the code of e leaves every variable e does not assign, and every temporary of its siblings, unchanged. */
  lemma EmitKeeps(e: Expr, t: nat, l: nat, st: T.Store, x: Name)
    requires TargetsAreVars(e) && if x.Temp? then !(t <= x.number < t + TempsOf(e)) else x.text !in Assigned(e)
    ensures var r := Through(Emit(e, t, l, Nil), st); r.Some? ==> T.Get(r.value, x) == T.Get(st, x)
  {
    OwnWrites(e, t, l);
    ThroughKeeps(Emit(e, t, l, Nil), st, x, OwnFootprint(e, t));
  }

  // ----- which variables are written -----

  /** Some instruction of the list has the variable as its destination. */
  predicate WritesVar(code: Code, x: string) {
    code.Cons? && (Destination(code.head) == Some(Ident(x)) || WritesVar(code.tail, x))
  }

  function Destination(i: T.Instr): Option<Name> {
    if i.Unary? || i.Binary? || i.Copy? then Some(i.dst) else None
  }

  lemma {:induction false} EmitWritesVar(e: Expr, t: nat, l: nat, k: Code, x: string)
    requires TargetsAreVars(e)
    ensures WritesVar(Emit(e, t, l, k), x) <==> x in Assigned(e) || WritesVar(k, x)
    decreases e, 1
  {
    if e.Unary? {
      var a := e.inner;
      EmitWritesVar(a, t, l, Cons(T.Unary(ConvertUnop(e.unop), ValOf(a, t), Temp(t + TempsOf(a))), k), x);
    } else if e.Binary? {
      if e.binop == And || e.binop == Or {
        LogicalWritesVar(e, t, l, k, x, EmitLogical(e, t, l, k));
      } else {
        StrictWritesVar(e, t, l, k, x);
      }
    } else if e.Assignment? {
      EmitWritesVar(e.source, t, l, Cons(T.Copy(ValOf(e.source, t), TargetName(e.target)), k), x);
    } else if e.Conditional? {
      ConditionalWritesVar(e, t, l, k, x);
    }
  }

  lemma {:induction false} StrictWritesVar(e: Expr, t: nat, l: nat, k: Code, x: string)
    requires e.Binary? && e.binop != And && e.binop != Or && TargetsAreVars(e)
    ensures WritesVar(EmitStrict(e, t, l, k), x) <==> x in Assigned(e) || WritesVar(k, x)
    decreases e, 0
  {
    var u, m, k1 := t + TempsOf(e.left), l + LabelsOf(e.left), Cons(StrictInstr(e, t), k);
    EmitWritesVar(e.right, u, m, k1, x);
    EmitWritesVar(e.left, t, l, Emit(e.right, u, m, k1), x);
  }

  lemma {:induction false} LogicalWritesVar(e: Expr, t: nat, l: nat, k: Code, x: string, code: Code)
    requires e.Binary? && TargetsAreVars(e) && code == EmitLogical(e, t, l, k)
    ensures WritesVar(code, x) <==> x in Assigned(e) || WritesVar(k, x)
    decreases e, 0
  {
    var op, a, b := e.binop, e.left, e.right;
    var u, m := t + 1 + TempsOf(a), l + 2 + LabelsOf(a);
    var k1 := Emit(b, u, m, Cons(Test(op, ValOf(b, u), l), LogicTail(op, t, l, k)));
    SecondOperandWritesVar(op, b, t, u, l, m, k, x);
    TestedWritesVar(op, a, t + 1, l, l + 2, k1, x);
    LogicalIs(e, t, l, k);
  }

  lemma {:induction false} TestedWritesVar(op: BinaryOpType, e: Expr, t: nat, l: nat, m: nat, k: Code, x: string)
    requires TargetsAreVars(e)
    ensures WritesVar(Emit(e, t, m, Cons(Test(op, ValOf(e, t), l), k)), x) <==> x in Assigned(e) || WritesVar(k, x)
    decreases e, 2
  {
    EmitWritesVar(e, t, m, Cons(Test(op, ValOf(e, t), l), k), x);
  }

  lemma {:induction false} SecondOperandWritesVar(op: BinaryOpType, b: Expr, t: nat, u: nat, l: nat, m: nat, k: Code,
                                                  x: string)
    requires TargetsAreVars(b)
    ensures WritesVar(Emit(b, u, m, Cons(Test(op, ValOf(b, u), l), LogicTail(op, t, l, k))), x) <==>
            x in Assigned(b) || WritesVar(k, x)
    decreases b, 3
  {
    LogicTailWritesVar(op, t, l, k, x);
    TestedWritesVar(op, b, u, l, m, LogicTail(op, t, l, k), x);
  }

  lemma {:induction false} LogicTailWritesVar(op: BinaryOpType, t: nat, l: nat, k: Code, x: string)
    ensures WritesVar(LogicTail(op, t, l, k), x) <==> WritesVar(k, x)
  {
    var last := Cons(T.Label(EndLabel(op, l)), k);
    assert WritesVar(last, x) <==> WritesVar(k, x);
    var exit := Cons(T.Label(ExitLabel(op, l)), Cons(T.Copy(Exited(op), Temp(t)), last));
    assert WritesVar(exit, x) <==> WritesVar(last, x);
  }

  lemma {:induction false} ConditionalWritesVar(e: Expr, t: nat, l: nat, k: Code, x: string)
    requires e.Conditional? && TargetsAreVars(e)
    ensures WritesVar(EmitConditional(e, t, l, k), x) <==> x in Assigned(e) || WritesVar(k, x)
    decreases e, 0, 1
  {
    var r, n := t + TempsOf(e.cond), l + LabelsOf(e.cond);
    ArmsWriteVar(e, r, n, k, x);
    EmitWritesVar(e.cond, t, l, Cons(T.JumpIfZero(ValOf(e.cond, t), LabelName(E2End, n)), EmitArms(e, r, n, k)), x);
  }

  lemma {:induction false} ArmsWriteVar(e: Expr, r: nat, n: nat, k: Code, x: string)
    requires e.Conditional? && TargetsAreVars(e)
    ensures WritesVar(EmitArms(e, r, n, k), x) <==> x in Assigned(e.yes) || x in Assigned(e.no) || WritesVar(k, x)
    decreases e, 0, 0
  {
    var a, b := e.yes, e.no;
    var u, m := r + 1 + TempsOf(a), n + 2 + LabelsOf(a);
    var k1 := Emit(b, u, m, SecondArmTail(b, r, n, u, k));
    EmitWritesVar(b, u, m, SecondArmTail(b, r, n, u, k), x);
    FirstArmWritesVar(a, r, n, k1, x);
    ArmsAre(e, r, n, k);
  }

  lemma {:induction false} FirstArmWritesVar(a: Expr, r: nat, n: nat, k: Code, x: string)
    requires TargetsAreVars(a)
    ensures WritesVar(Emit(a, r + 1, n + 2, FirstArmTail(a, r, n, k)), x) <==> x in Assigned(a) || WritesVar(k, x)
    decreases a, 2
  {
    FirstTailWritesVar(a, r, n, k, x);
    EmitWritesVar(a, r + 1, n + 2, FirstArmTail(a, r, n, k), x);
  }

  lemma {:induction false} FirstTailWritesVar(a: Expr, r: nat, n: nat, k: Code, x: string)
    ensures WritesVar(FirstArmTail(a, r, n, k), x) <==> WritesVar(k, x)
  {
    assert WritesVar(Cons(T.Label(LabelName(E2End, n)), k), x) <==> WritesVar(k, x);
  }

  /** The code of e writes a variable exactly when e assigns it: that is when a reference held by a left operand
      can be read too late. */
  lemma WritesExactlyAssigned(e: Expr, t: nat, l: nat, x: string)
    requires TargetsAreVars(e)
    ensures WritesVar(Emit(e, t, l, Nil), x) <==> x in Assigned(e)
  {
    EmitWritesVar(e, t, l, Nil, x);
  }

  // ----- names without dots -----

  lemma {:induction false} WithinPlain(code: Code, f: Footprint)
    requires Within(code, f) && f.readable == Dotless() && f.writable == Dotless()
    ensures All(code, T.PlainInstr)
  {
    if code.Cons? { WithinPlain(code.tail, f); }
  }

  /** In the code of a function without dots in its names, no two names are spelled alike. */
  lemma FunctionPlain(f: Function)
    requires ItemsAll(f.body, TargetsAreVars) && ItemsNames(f.body, Dotless())
    ensures All(EmitFunction(f), T.PlainInstr)
  {
    var p := Footprint(0, TempsOfItems(f.body), Dotless(), Dotless());
    var end := Cons(T.Return(T.Constant(0)), Nil);
    ItemsWithin(f.body, 0, 0, end, p);
    WithinPlain(EmitFunction(f), p);
  }
}
