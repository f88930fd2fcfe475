/**
 The shape of every generated list: labels are placed once, every jump goes
 forward to a placed label, and no binary instruction overwrites its own second
 source.  The list therefore halts within as many steps as it has instructions.
*/
module TackyControl {
  import opened Ast
  import opened Names
  import opened Flow
  import opened FlatSemantics
  import opened TackyGen
  import opened TackyCorrect
  import opened TackyStatements
  import T = Tacky

  /** None of the labels numbered lo to hi - 1 is placed in k. */
  ghost predicate Fresh(k: Code, lo: nat, hi: nat) {
    forall name: LabelName :: lo <= name.number < hi ==> !Places(T.M, k, name)
  }

  lemma {:induction false} PlacesSuffix(code: Code, name: LabelName)
    ensures Places(T.M, code, name) <==> Suffix(T.M, code, name).Cons?
  {
    if code.Cons? { PlacesSuffix(code.tail, name); }
  }

  /** A phrase places only labels of its own. */
  lemma PlacesEmit(e: Expr, t: nat, l: nat, k: Code, name: LabelName)
    requires !(l <= name.number < l + LabelsOf(e))
    ensures Places(T.M, Emit(e, t, l, k), name) <==> Places(T.M, k, name)
  {
    SuffixSkipsEmit(e, t, l, k, name);
    PlacesSuffix(Emit(e, t, l, k), name);
    PlacesSuffix(k, name);
  }

  lemma PlacesEmitStmt(s: Stmt, t: nat, l: nat, k: Code, name: LabelName)
    requires !(l <= name.number < l + LabelsOfStmt(s))
    ensures Places(T.M, EmitStmt(s, t, l, k), name) <==> Places(T.M, k, name)
  {
    SuffixSkipsStmt(s, t, l, k, name);
    PlacesSuffix(EmitStmt(s, t, l, k), name);
    PlacesSuffix(k, name);
  }

  lemma FreshEmit(e: Expr, t: nat, l: nat, k: Code, lo: nat, hi: nat)
    requires Fresh(k, lo, hi) && (hi <= l || l + LabelsOf(e) <= lo)
    ensures Fresh(Emit(e, t, l, k), lo, hi)
  {
    forall name: LabelName | lo <= name.number < hi ensures !Places(T.M, Emit(e, t, l, k), name) {
      PlacesEmit(e, t, l, k, name);
    }
  }

  lemma FreshEmitStmt(s: Stmt, t: nat, l: nat, k: Code, lo: nat, hi: nat)
    requires Fresh(k, lo, hi) && (hi <= l || l + LabelsOfStmt(s) <= lo)
    ensures Fresh(EmitStmt(s, t, l, k), lo, hi)
  {
    forall name: LabelName | lo <= name.number < hi ensures !Places(T.M, EmitStmt(s, t, l, k), name) {
      PlacesEmitStmt(s, t, l, k, name);
    }
  }

  lemma FreshEmitItems(items: seq<BlockItem>, t: nat, l: nat, k: Code, lo: nat, hi: nat)
    requires Fresh(k, lo, hi) && (hi <= l || l + LabelsOfItems(items) <= lo)
    ensures Fresh(EmitItems(items, t, l, k), lo, hi)
  {
    forall name: LabelName | lo <= name.number < hi ensures !Places(T.M, EmitItems(items, t, l, k), name) {
      SuffixSkipsItems(items, t, l, k, name);
      PlacesSuffix(EmitItems(items, t, l, k), name);
      PlacesSuffix(k, name);
    }
  }

  // ----- forward jumps -----

  lemma {:induction false} ForwardEmit(e: Expr, t: nat, l: nat, k: Code)
    requires Forward(T.M, k) && Fresh(k, l, l + LabelsOf(e))
    ensures Forward(T.M, Emit(e, t, l, k))
    decreases e, 1
  {
    match e {
      case NullExpr =>
      case Constant(_) =>
      case Var(_) =>
      case Unary(op, a) =>
        ForwardEmit(a, t, l, Cons(T.Unary(ConvertUnop(op), ValOf(a, t), Temp(t + TempsOf(a))), k));
      case Binary(op, _, _) =>
        if op == And || op == Or { ForwardLogical(e, t, l, k); } else { ForwardStrict(e, t, l, k); }
      case Assignment(target, a) => ForwardEmit(a, t, l, Cons(T.Copy(ValOf(a, t), TargetName(target)), k));
      case Conditional(_, _, _) => ForwardConditional(e, t, l, k);
    }
  }

  lemma ForwardInstr(i: T.Instr, k: Code, lo: nat, hi: nat)
    requires !i.Label? && T.TargetOf(i).None? && Forward(T.M, k) && Fresh(k, lo, hi)
    ensures Forward(T.M, Cons(i, k)) && Fresh(Cons(i, k), lo, hi)
  {}

  lemma {:induction false} ForwardStrict(e: Expr, t: nat, l: nat, k: Code)
    requires e.Binary? && e.binop != And && e.binop != Or && Forward(T.M, k) && Fresh(k, l, l + LabelsOf(e))
    ensures Forward(T.M, EmitStrict(e, t, l, k))
    decreases e, 0
  {
    var m := l + LabelsOf(e.left);
    var k1 := Cons(StrictInstr(e, t), k);
    var k0 := Emit(e.right, t + TempsOf(e.left), m, k1);
    ForwardInstr(StrictInstr(e, t), k, l, m + LabelsOf(e.right));
    ForwardEmit(e.right, t + TempsOf(e.left), m, k1);
    FreshEmit(e.right, t + TempsOf(e.left), m, k1, l, m);
    ForwardEmit(e.left, t, l, k0);
    StrictIs(e, t, l, k, k0);
  }

  lemma ForwardLogicTail(op: BinaryOpType, t: nat, l: nat, k: Code, lo: nat, hi: nat)
    requires Forward(T.M, k) && Fresh(k, l, l + 2) && l + 2 <= lo && Fresh(k, lo, hi)
    ensures Forward(T.M, LogicTail(op, t, l, k)) && Fresh(LogicTail(op, t, l, k), lo, hi)
    ensures Places(T.M, LogicTail(op, t, l, k), ExitLabel(op, l))
  {
    var end := Cons(T.Label(EndLabel(op, l)), k);
    var k2 := Cons(T.Copy(Exited(op), Temp(t)), end);
    var k1 := Cons(T.Label(ExitLabel(op, l)), k2);
    assert Forward(T.M, end) && Fresh(end, lo, hi) && Forward(T.M, k2) && Fresh(k2, lo, hi);
    assert !Places(T.M, k2, ExitLabel(op, l)) && Places(T.M, k2, EndLabel(op, l));
    assert Forward(T.M, k1) && Fresh(k1, lo, hi);
    assert Forward(T.M, Cons(T.Jump(EndLabel(op, l)), k1));
  }

  lemma {:induction false} ForwardLogical(e: Expr, t: nat, l: nat, k: Code)
    requires e.Binary? && (e.binop == And || e.binop == Or) && Forward(T.M, k) && Fresh(k, l, l + LabelsOf(e))
    ensures Forward(T.M, EmitLogical(e, t, l, k))
    decreases e, 0
  {
    var op, a, b := e.binop, e.left, e.right;
    var u, m := t + 1 + TempsOf(a), l + 2 + LabelsOf(a);
    var k1 := Cons(Test(op, ValOf(b, u), l), LogicTail(op, t, l, k));
    var k0 := Cons(Test(op, ValOf(a, t + 1), l), Emit(b, u, m, k1));
    ForwardSecond(op, b, t, u, l, m, k, k1);
    ForwardTest(op, ValOf(a, t + 1), l, Emit(b, u, m, k1), l + 2, m);
    ForwardEmit(a, t + 1, l + 2, k0);
    assert EmitLogical(e, t, l, k) == Emit(a, t + 1, l + 2, k0);
  }

  /** The test jumps to the exit label, which is placed behind it. */
  lemma ForwardTest(op: BinaryOpType, v: T.Val, l: nat, k: Code, lo: nat, hi: nat)
    requires Forward(T.M, k) && Fresh(k, lo, hi) && Places(T.M, k, ExitLabel(op, l))
    ensures var k1 := Cons(Test(op, v, l), k);
      Forward(T.M, k1) && Fresh(k1, lo, hi) && Places(T.M, k1, ExitLabel(op, l))
  {}

  lemma {:induction false} ForwardSecond(op: BinaryOpType, b: Expr, t: nat, u: nat, l: nat, m: nat, k: Code, k1: Code)
    requires Forward(T.M, k) && Fresh(k, l, m + LabelsOf(b)) && l + 2 <= m
    requires k1 == Cons(Test(op, ValOf(b, u), l), LogicTail(op, t, l, k))
    ensures var k0 := Emit(b, u, m, k1); Forward(T.M, k0) && Fresh(k0, l + 2, m) && Places(T.M, k0, ExitLabel(op, l))
    decreases b, 2
  {
    var hi := m + LabelsOf(b);
    ForwardLogicTail(op, t, l, k, l + 2, hi);
    ForwardTest(op, ValOf(b, u), l, LogicTail(op, t, l, k), l + 2, hi);
    ForwardEmit(b, u, m, k1);
    FreshEmit(b, u, m, k1, l + 2, m);
    PlacesEmit(b, u, m, k1, ExitLabel(op, l));
  }

  lemma {:induction false} ForwardConditional(e: Expr, t: nat, l: nat, k: Code)
    requires e.Conditional? && Forward(T.M, k) && Fresh(k, l, l + LabelsOf(e))
    ensures Forward(T.M, EmitConditional(e, t, l, k))
    decreases e, 0, 1
  {
    var r, n := t + TempsOf(e.cond), l + LabelsOf(e.cond);
    ForwardArms(e, r, n, k, l);
    ForwardEmit(e.cond, t, l, Cons(T.JumpIfZero(ValOf(e.cond, t), LabelName(E2End, n)), EmitArms(e, r, n, k)));
  }

  lemma {:induction false} ForwardArms(e: Expr, r: nat, n: nat, k: Code, lo: nat)
    requires e.Conditional? && Forward(T.M, k) && lo <= n
    requires Fresh(k, lo, n + 2 + LabelsOf(e.yes) + LabelsOf(e.no))
    ensures Forward(T.M, EmitArms(e, r, n, k)) && Fresh(EmitArms(e, r, n, k), lo, n)
    ensures Places(T.M, EmitArms(e, r, n, k), LabelName(E2End, n))
    decreases e, 0, 0
  {
    var a, b := e.yes, e.no;
    var u, m := r + 1 + TempsOf(a), n + 2 + LabelsOf(a);
    var hi := m + LabelsOf(b);
    var e2, end := LabelName(E2End, n), LabelName(ConditionalEnd, n + 1);
    var k2 := SecondArmTail(b, r, n, u, k);
    SecondArmForward(b, r, n, u, k, hi, lo);
    var k1 := Emit(b, u, m, k2);
    assert Fresh(k2, m, hi);
    ForwardEmit(b, u, m, k2);
    FreshArm(b, u, m, k2, n, lo);
    var k0 := FirstArmTail(a, r, n, k1);
    FirstArmForward(a, r, n, k1, m, lo);
    ForwardEmit(a, r + 1, n + 2, k0);
    FreshEmit(a, r + 1, n + 2, k0, lo, n);
    PlacesEmit(a, r + 1, n + 2, k0, e2);
  }

  lemma SecondArmForward(b: Expr, r: nat, n: nat, u: nat, k: Code, hi: nat, lo: nat)
    requires Forward(T.M, k) && lo <= n && n + 2 <= hi && Fresh(k, lo, hi)
    ensures var k2 := SecondArmTail(b, r, n, u, k);
      && Forward(T.M, k2) && Fresh(k2, n + 2, hi) && Fresh(k2, lo, n)
      && Places(T.M, k2, LabelName(ConditionalEnd, n + 1)) && !Places(T.M, k2, LabelName(E2End, n))
  {
    var end := LabelName(ConditionalEnd, n + 1);
    assert !Places(T.M, k, end) && !Places(T.M, k, LabelName(E2End, n));
    var k1 := Cons(T.Label(end), k);
    assert Forward(T.M, k1) && Fresh(k1, n + 2, hi) && Fresh(k1, lo, n);
  }

  /** The second arm in front of its tail. */
  lemma FreshArm(b: Expr, u: nat, m: nat, k: Code, n: nat, lo: nat)
    requires lo <= n && n + 2 <= m && Fresh(k, n + 2, m) && Fresh(k, lo, n)
    requires Places(T.M, k, LabelName(ConditionalEnd, n + 1)) && !Places(T.M, k, LabelName(E2End, n))
    ensures var k1 := Emit(b, u, m, k);
      && Fresh(k1, n + 2, m) && Fresh(k1, lo, n)
      && Places(T.M, k1, LabelName(ConditionalEnd, n + 1)) && !Places(T.M, k1, LabelName(E2End, n))
  {
    FreshEmit(b, u, m, k, n + 2, m);
    FreshEmit(b, u, m, k, lo, n);
    PlacesEmit(b, u, m, k, LabelName(ConditionalEnd, n + 1));
    PlacesEmit(b, u, m, k, LabelName(E2End, n));
  }

  lemma FirstArmForward(a: Expr, r: nat, n: nat, k: Code, m: nat, lo: nat)
    requires Forward(T.M, k) && Fresh(k, n + 2, m) && lo <= n && Fresh(k, lo, n)
    requires Places(T.M, k, LabelName(ConditionalEnd, n + 1)) && !Places(T.M, k, LabelName(E2End, n))
    ensures Forward(T.M, FirstArmTail(a, r, n, k)) && Fresh(FirstArmTail(a, r, n, k), n + 2, m)
    ensures Fresh(FirstArmTail(a, r, n, k), lo, n) && Places(T.M, FirstArmTail(a, r, n, k), LabelName(E2End, n))
  {
    var k1 := Cons(T.Label(LabelName(E2End, n)), k);
    assert Forward(T.M, k1) && Fresh(k1, n + 2, m) && Fresh(k1, lo, n);
    var k2 := Cons(T.Jump(LabelName(ConditionalEnd, n + 1)), k1);
    assert Forward(T.M, k2) && Fresh(k2, n + 2, m) && Fresh(k2, lo, n);
  }

  lemma {:induction false} ForwardStmt(s: Stmt, t: nat, l: nat, k: Code)
    requires Forward(T.M, k) && Fresh(k, l, l + LabelsOfStmt(s))
    ensures Forward(T.M, EmitStmt(s, t, l, k))
    decreases s, 1
  {
    match s {
      case Return(e) => ForwardEmit(e, t, l, Cons(T.Return(ValOf(e, t)), k));
      case If(_, _, _) => ForwardIf(s, t, l, k);
      case Expression(e) => ForwardEmit(e, t, l, k);
      case Compound(items) => ForwardItems(items, t, l, k);
      case Empty =>
    }
  }

  lemma {:induction false} ForwardIf(s: Stmt, t: nat, l: nat, k: Code)
    requires s.If? && Forward(T.M, k) && Fresh(k, l, l + LabelsOfStmt(s))
    ensures Forward(T.M, EmitIf(s, t, l, k))
    decreases s, 0, 1
  {
    var u, n := t + TempsOf(s.test), l + LabelsOf(s.test);
    var exit := if s.els.Some? then LabelName(IfElse, n + 1) else LabelName(IfEnd, n);
    if s.els.Some? {
      ForwardIfElse(s, u, n, k, l);
    } else {
      ForwardIfOnly(s, u, n, k, l);
    }
    ForwardEmit(s.test, t, l, Cons(T.JumpIfZero(ValOf(s.test, t), exit), EmitBranches(s, u, n, k)));
  }

  lemma {:induction false} ForwardIfOnly(s: Stmt, u: nat, n: nat, k: Code, lo: nat)
    requires s.If? && s.els.None? && Forward(T.M, k) && lo <= n && Fresh(k, lo, n + 1 + LabelsOfStmt(s.thn))
    ensures Forward(T.M, EmitBranches(s, u, n, k)) && Fresh(EmitBranches(s, u, n, k), lo, n)
    ensures Places(T.M, EmitBranches(s, u, n, k), LabelName(IfEnd, n))
    decreases s, 0, 0
  {
    var end := LabelName(IfEnd, n);
    var last := Cons(T.Label(end), k);
    assert Forward(T.M, last) && Fresh(last, n + 1, n + 1 + LabelsOfStmt(s.thn)) && Fresh(last, lo, n);
    ForwardStmt(s.thn, u, n + 1, last);
    FreshEmitStmt(s.thn, u, n + 1, last, lo, n);
    PlacesEmitStmt(s.thn, u, n + 1, last, end);
  }

  lemma {:induction false} ForwardIfElse(s: Stmt, u: nat, n: nat, k: Code, lo: nat)
    requires s.If? && s.els.Some? && Forward(T.M, k) && lo <= n
    requires Fresh(k, lo, n + 2 + LabelsOfStmt(s.thn) + LabelsOfStmt(s.els.value))
    ensures Forward(T.M, EmitBranches(s, u, n, k)) && Fresh(EmitBranches(s, u, n, k), lo, n)
    ensures Places(T.M, EmitBranches(s, u, n, k), LabelName(IfElse, n + 1))
    decreases s, 0, 0
  {
    var end, other := LabelName(IfEnd, n), LabelName(IfElse, n + 1);
    var v, m := u + TempsOfStmt(s.thn), n + 2 + LabelsOfStmt(s.thn);
    var last := Cons(T.Label(end), k);
    assert Forward(T.M, last) && Fresh(last, n + 1, m + LabelsOfStmt(s.els.value)) && Fresh(last, lo, n);
    var k2 := EmitStmt(s.els.value, v, m, last);
    ForwardStmt(s.els.value, v, m, last);
    FreshEmitStmt(s.els.value, v, m, last, n + 1, m);
    FreshEmitStmt(s.els.value, v, m, last, lo, n);
    PlacesEmitStmt(s.els.value, v, m, last, end);
    var k1 := Cons(T.Jump(end), Cons(T.Label(other), k2));
    BetweenBranches(k2, n, m, lo);
    ForwardStmt(s.thn, u, n + 2, k1);
    FreshEmitStmt(s.thn, u, n + 2, k1, lo, n);
    PlacesEmitStmt(s.thn, u, n + 2, k1, other);
  }

  /** The jump and the label between the two branches of an if-else. */
  lemma BetweenBranches(k: Code, n: nat, m: nat, lo: nat)
    requires Forward(T.M, k) && Fresh(k, n + 1, m) && n + 2 <= m && Fresh(k, lo, n) && lo <= n
    requires Places(T.M, k, LabelName(IfEnd, n))
    ensures var k1 := Cons(T.Jump(LabelName(IfEnd, n)), Cons(T.Label(LabelName(IfElse, n + 1)), k));
      Forward(T.M, k1) && Fresh(k1, n + 2, m) && Fresh(k1, lo, n) && Places(T.M, k1, LabelName(IfElse, n + 1))
  {
    var k0 := Cons(T.Label(LabelName(IfElse, n + 1)), k);
    assert !Places(T.M, k, LabelName(IfElse, n + 1));
    assert Forward(T.M, k0) && Fresh(k0, n + 2, m) && Fresh(k0, lo, n);
  }

  lemma {:induction false} ForwardItem(item: BlockItem, t: nat, l: nat, k: Code)
    requires Forward(T.M, k) && Fresh(k, l, l + LabelsOfItem(item))
    ensures Forward(T.M, EmitItem(item, t, l, k))
    decreases item, 2
  {
    match item {
      case Declaration(x, init) =>
        if init != NullExpr { ForwardEmit(init, t, l, Cons(T.Copy(ValOf(init, t), Ident(x)), k)); }
      case Statement(s) => ForwardStmt(s, t, l, k);
    }
  }

  lemma {:induction false} ForwardItems(items: seq<BlockItem>, t: nat, l: nat, k: Code)
    requires Forward(T.M, k) && Fresh(k, l, l + LabelsOfItems(items))
    ensures Forward(T.M, EmitItems(items, t, l, k))
    decreases items, 0
  {
    if items != [] {
      var u, m := t + TempsOfItem(items[0]), l + LabelsOfItem(items[0]);
      ForwardItems(items[1..], u, m, k);
      FreshEmitItems(items[1..], u, m, k, l, m);
      ForwardItem(items[0], t, l, EmitItems(items[1..], u, m, k));
    }
  }

  /** In every generated list the labels are distinct and every jump goes to a label strictly later. */
  lemma FunctionForward(f: Function)
    ensures Forward(T.M, EmitFunction(f))
  {
    ForwardItems(f.body, 0, 0, Cons(T.Return(T.Constant(0)), Nil));
  }

  /** Every run reaches a return or a fault within as many steps as there are instructions. */
  lemma FunctionHalts(f: Function, st: T.Store, fuel: nat)
    requires ItemsAll(f.body, Good) && fuel >= |ToSeq(EmitFunction(f))|
    ensures Run(T.M, ToSeq(EmitFunction(f)), 0, st, fuel) == LateFunction(f, st.vars)
    ensures Run(T.M, ToSeq(EmitFunction(f)), 0, st, fuel) != OutOfSteps
    ensures Run(T.M, ToSeq(EmitFunction(f)), 0, st, fuel) != Stuck
  {
    var code := ToSeq(EmitFunction(f));
    FunctionForward(f);
    FunctionRuns(f, st);
    FromToSeq(EmitFunction(f));
    assert code[0..] == code;
    RunIsExec(T.M, code, 0, st, fuel);
  }

  // ----- destinations -----

  /** The destination of a binary instruction is not its second source. */
  predicate Separate(i: T.Instr) { i.Binary? ==> i.src2 != T.Var(i.dst) }

  lemma ValBelow(e: Expr, t: nat, n: nat)
    requires ValOf(e, t) == T.Var(Temp(n))
    ensures n < t + TempsOf(e)
  {}

  lemma {:induction false} SeparateEmit(e: Expr, t: nat, l: nat, k: Code)
    requires All(k, Separate)
    ensures All(Emit(e, t, l, k), Separate)
    decreases e, 1
  {
    match e {
      case NullExpr =>
      case Constant(_) =>
      case Var(_) =>
      case Unary(op, a) => SeparateEmit(a, t, l, Cons(T.Unary(ConvertUnop(op), ValOf(a, t), Temp(t + TempsOf(a))), k));
      case Binary(op, a, b) =>
        if op == And || op == Or {
          SeparateLogical(e, t, l, k);
        } else {
          var u, m := t + TempsOf(a), l + LabelsOf(a);
          if ValOf(b, u) == T.Var(Temp(u + TempsOf(b))) { ValBelow(b, u, u + TempsOf(b)); }
          SeparateEmit(b, u, m, Cons(StrictInstr(e, t), k));
          SeparateEmit(a, t, l, Emit(b, u, m, Cons(StrictInstr(e, t), k)));
        }
      case Assignment(target, a) => SeparateEmit(a, t, l, Cons(T.Copy(ValOf(a, t), TargetName(target)), k));
      case Conditional(_, _, _) => SeparateConditional(e, t, l, k);
    }
  }

  lemma {:induction false} SeparateLogical(e: Expr, t: nat, l: nat, k: Code)
    requires e.Binary? && All(k, Separate)
    ensures All(EmitLogical(e, t, l, k), Separate)
    decreases e, 0
  {
    var op, a, b := e.binop, e.left, e.right;
    var u, m := t + 1 + TempsOf(a), l + 2 + LabelsOf(a);
    var end := Cons(T.Label(ExitLabel(op, l)), Cons(T.Copy(Exited(op), Temp(t)), Cons(T.Label(EndLabel(op, l)), k)));
    assert All(end, Separate);
    var k1 := Cons(Test(op, ValOf(b, u), l), LogicTail(op, t, l, k));
    assert All(k1, Separate);
    SeparateEmit(b, u, m, k1);
    SeparateEmit(a, t + 1, l + 2, Cons(Test(op, ValOf(a, t + 1), l), Emit(b, u, m, k1)));
  }

  lemma {:induction false} SeparateConditional(e: Expr, t: nat, l: nat, k: Code)
    requires e.Conditional? && All(k, Separate)
    ensures All(EmitConditional(e, t, l, k), Separate)
    decreases e, 0
  {
    var r, n := t + TempsOf(e.cond), l + LabelsOf(e.cond);
    var u, m := r + 1 + TempsOf(e.yes), n + 2 + LabelsOf(e.yes);
    var k2 := SecondArmTail(e.no, r, n, u, k);
    var k1 := Emit(e.no, u, m, k2);
    SeparateEmit(e.no, u, m, k2);
    assert All(Cons(T.Label(LabelName(E2End, n)), k1), Separate);
    SeparateEmit(e.yes, r + 1, n + 2, FirstArmTail(e.yes, r, n, k1));
    SeparateEmit(e.cond, t, l, Cons(T.JumpIfZero(ValOf(e.cond, t), LabelName(E2End, n)), EmitArms(e, r, n, k)));
  }

  lemma {:induction false} SeparateStmt(s: Stmt, t: nat, l: nat, k: Code)
    requires All(k, Separate)
    ensures All(EmitStmt(s, t, l, k), Separate)
    decreases s, 1
  {
    match s {
      case Return(e) => SeparateEmit(e, t, l, Cons(T.Return(ValOf(e, t)), k));
      case If(c, a, b) =>
        var u, n := t + TempsOf(c), l + LabelsOf(c);
        var last := Cons(T.Label(LabelName(IfEnd, n)), k);
        if b.Some? {
          var v, m := u + TempsOfStmt(a), n + 2 + LabelsOfStmt(a);
          SeparateStmt(b.value, v, m, last);
          var k1 := Cons(T.Label(LabelName(IfElse, n + 1)), EmitStmt(b.value, v, m, last));
          SeparateStmt(a, u, n + 2, Cons(T.Jump(LabelName(IfEnd, n)), k1));
          SeparateEmit(c, t, l, Cons(T.JumpIfZero(ValOf(c, t), LabelName(IfElse, n + 1)), EmitBranches(s, u, n, k)));
        } else {
          SeparateStmt(a, u, n + 1, last);
          SeparateEmit(c, t, l, Cons(T.JumpIfZero(ValOf(c, t), LabelName(IfEnd, n)), EmitBranches(s, u, n, k)));
        }
      case Expression(e) => SeparateEmit(e, t, l, k);
      case Compound(items) => SeparateItems(items, t, l, k);
      case Empty =>
    }
  }

  lemma {:induction false} SeparateItems(items: seq<BlockItem>, t: nat, l: nat, k: Code)
    requires All(k, Separate)
    ensures All(EmitItems(items, t, l, k), Separate)
    decreases items, 0
  {
    if items != [] {
      var u, m := t + TempsOfItem(items[0]), l + LabelsOfItem(items[0]);
      SeparateItems(items[1..], u, m, k);
      SeparateItem(items[0], t, l, EmitItems(items[1..], u, m, k));
    }
  }

  lemma {:induction false} SeparateItem(item: BlockItem, t: nat, l: nat, k: Code)
    requires All(k, Separate)
    ensures All(EmitItem(item, t, l, k), Separate)
    decreases item, 2
  {
    match item {
      case Declaration(x, init) =>
        if init != NullExpr { SeparateEmit(init, t, l, Cons(T.Copy(ValOf(init, t), Ident(x)), k)); }
      case Statement(s) => SeparateStmt(s, t, l, k);
    }
  }

  lemma FunctionSeparate(f: Function)
    ensures All(EmitFunction(f), Separate)
  {
    SeparateItems(f.body, 0, 0, Cons(T.Return(T.Constant(0)), Nil));
  }
}
