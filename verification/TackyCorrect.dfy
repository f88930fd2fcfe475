/** Expressions in TACKY. */
module TackyCorrect {
  // Running the list generated for an expression gives the meaning of the tree.

  import opened Words
  import opened Ast
  import opened Names
  import opened Flow
  import opened CSemantics
  import opened FlatSemantics
  import opened TackyGen
  import T = Tacky

  // ----- operators -----

  lemma UnopKept(op: UnaryOpType, a: Word)
    ensures T.UnaryResult(ConvertUnop(op), a) == ApplyUnary(op, a)
  {}

  lemma BinopKept(op: BinaryOpType, a: Word, b: Word)
    requires op != And && op != Or
    ensures T.BinaryResult(ConvertBinop(op), a, b) == ApplyBinary(op, a, b)
  {}

  // ----- what a phrase may change -----

  /** Temporaries below lo are as before. */
  ghost predicate KeepsTemps(st: T.Store, st': T.Store, lo: nat) {
    forall n: nat :: n < lo ==> T.GetTemp(st'.temps, n) == T.GetTemp(st.temps, n)
  }

  /** The value v denotes the operand o: the same constant or variable, or a temporary below hi that holds it. */
  ghost predicate Holds(v: T.Val, o: Operand, st: T.Store, hi: nat) {
    match v
    case Constant(c) => o == Known(c)
    case Var(Ident(x)) => o == At(x)
    case Var(Temp(n)) => n < hi && o == Known(T.GetTemp(st.temps, n))
  }

  lemma HoldsReads(v: T.Val, o: Operand, s: Vars, st: T.Store, hi: nat)
    requires Holds(v, o, st, hi) && s == st.vars
    ensures T.ValueOf(v, st) == Read(o, s)
  {}

  /** A later phrase, with temporaries of its own, leaves a held value alone. */
  lemma HoldsKept(v: T.Val, o: Operand, st: T.Store, st': T.Store, hi: nat)
    requires Holds(v, o, st, hi) && KeepsTemps(st, st', hi)
    ensures Holds(v, o, st', hi)
  {}

  // ----- jumping over a phrase -----

  lemma {:induction false} StrictIs(e: Expr, t: nat, l: nat, k: Code, k0: Code)
    requires e.Binary? && e.binop != And && e.binop != Or
    requires k0 == Emit(e.right, t + TempsOf(e.left), l + LabelsOf(e.left), Cons(StrictInstr(e, t), k))
    ensures EmitStrict(e, t, l, k) == Emit(e.left, t, l, k0)
  {}

  /** A label that is not one of the phrase's own is found behind it. */
  lemma {:induction false} SuffixSkipsEmit(e: Expr, t: nat, l: nat, k: Code, name: LabelName)
    requires !(l <= name.number < l + LabelsOf(e))
    ensures Suffix(T.M, Emit(e, t, l, k), name) == Suffix(T.M, k, name)
    decreases e, 1
  {
    match e {
      case NullExpr =>
      case Constant(_) =>
      case Var(_) =>
      case Unary(op, a) =>
        var i := T.Unary(ConvertUnop(op), ValOf(a, t), Temp(t + TempsOf(a)));
        SuffixSkipsEmit(a, t, l, Cons(i, k), name);
      case Binary(op, _, _) =>
        if op == And || op == Or {
          SuffixSkipsLogical(e, t, l, k, name);
        } else {
          SuffixSkipsStrict(e, t, l, k, name);
        }
      case Assignment(target, a) =>
        var i := T.Copy(ValOf(a, t), TargetName(target));
        SuffixSkipsEmit(a, t, l, Cons(i, k), name);
      case Conditional(_, _, _) => SuffixSkipsConditional(e, t, l, k, name);
    }
  }

  lemma {:induction false} SuffixSkipsStrict(e: Expr, t: nat, l: nat, k: Code, name: LabelName)
    requires e.Binary? && e.binop != And && e.binop != Or && !(l <= name.number < l + LabelsOf(e))
    ensures Suffix(T.M, EmitStrict(e, t, l, k), name) == Suffix(T.M, k, name)
    decreases e, 0
  {
    var i := StrictInstr(e, t);
    var k0 := Emit(e.right, t + TempsOf(e.left), l + LabelsOf(e.left), Cons(i, k));
    StrictIs(e, t, l, k, k0);
    SuffixSkipsTwo(e, e.left, e.right, t, t + TempsOf(e.left), l, l + LabelsOf(e.left), i, k, name);
  }

  lemma {:induction false} SuffixSkipsTwo(e: Expr, a: Expr, b: Expr, t: nat, u: nat, l: nat, m: nat, i: T.Instr, k: Code,
                                          name: LabelName)
    requires e.Binary? && a == e.left && b == e.right && !i.Label?
    requires m == l + LabelsOf(a) && !(l <= name.number < m + LabelsOf(b))
    ensures Suffix(T.M, Emit(a, t, l, Emit(b, u, m, Cons(i, k))), name) == Suffix(T.M, k, name)
    decreases e, 0, 0
  {
    SuffixSkipsEmit(a, t, l, Emit(b, u, m, Cons(i, k)), name);
    SuffixSkipsEmit(b, u, m, Cons(i, k), name);
    SuffixSkipsInstr(i, k, name);
  }

  lemma SuffixSkipsInstr(i: T.Instr, k: Code, name: LabelName)
    requires !i.Label?
    ensures Suffix(T.M, Cons(i, k), name) == Suffix(T.M, k, name)
  {}

  lemma {:induction false} SuffixSkipsLogical(e: Expr, t: nat, l: nat, k: Code, name: LabelName)
    requires e.Binary? && (e.binop == And || e.binop == Or)
    requires !(l <= name.number < l + LabelsOf(e))
    ensures Suffix(T.M, EmitLogical(e, t, l, k), name) == Suffix(T.M, k, name)
    decreases e, 0
  {
    var op, a, b := e.binop, e.left, e.right;
    var u, m := t + 1 + TempsOf(a), l + 2 + LabelsOf(a);
    var i, j := Test(op, ValOf(a, t + 1), l), Test(op, ValOf(b, u), l);
    var k1 := Cons(j, LogicTail(op, t, l, k));
    assert EmitLogical(e, t, l, k) == Emit(a, t + 1, l + 2, Cons(i, Emit(b, u, m, k1)));
    SuffixSkipsEmit(a, t + 1, l + 2, Cons(i, Emit(b, u, m, k1)), name);
    SuffixSkipsEmit(b, u, m, k1, name);
    LogicTailSuffix(op, t, l, k, name);
  }

  lemma {:induction false} LogicTailSuffix(op: BinaryOpType, t: nat, l: nat, k: Code, name: LabelName)
    ensures name.number != l && name.number != l + 1 ==> Suffix(T.M, LogicTail(op, t, l, k), name) == Suffix(T.M, k, name)
    ensures Suffix(T.M, LogicTail(op, t, l, k), ExitLabel(op, l)) ==
            Cons(T.Label(ExitLabel(op, l)), Cons(T.Copy(Exited(op), Temp(t)), Cons(T.Label(EndLabel(op, l)), k)))
  {
    var end := Cons(T.Label(EndLabel(op, l)), k);
    var exit := Cons(T.Label(ExitLabel(op, l)), Cons(T.Copy(Exited(op), Temp(t)), end));
    assert Suffix(T.M, LogicTail(op, t, l, k), name) == Suffix(T.M, exit, name);
    assert Suffix(T.M, Cons(T.Copy(Exited(op), Temp(t)), end), name) == Suffix(T.M, end, name);
    assert Suffix(T.M, LogicTail(op, t, l, k), ExitLabel(op, l)) == Suffix(T.M, exit, ExitLabel(op, l));
  }

  lemma {:induction false} SuffixSkipsConditional(e: Expr, t: nat, l: nat, k: Code, name: LabelName)
    requires e.Conditional? && !(l <= name.number < l + LabelsOf(e))
    ensures Suffix(T.M, EmitConditional(e, t, l, k), name) == Suffix(T.M, k, name)
    decreases e, 0, 1
  {
    var r, n := t + TempsOf(e.cond), l + LabelsOf(e.cond);
    var i := T.JumpIfZero(ValOf(e.cond, t), LabelName(E2End, n));
    assert EmitConditional(e, t, l, k) == Emit(e.cond, t, l, Cons(i, EmitArms(e, r, n, k)));
    SuffixSkipsEmit(e.cond, t, l, Cons(i, EmitArms(e, r, n, k)), name);
    SuffixSkipsArms(e, r, n, k, name);
  }

  lemma {:induction false} SuffixSkipsArms(e: Expr, r: nat, n: nat, k: Code, name: LabelName)
    requires e.Conditional? && !(n <= name.number < n + 2 + LabelsOf(e.yes) + LabelsOf(e.no))
    ensures Suffix(T.M, EmitArms(e, r, n, k), name) == Suffix(T.M, k, name)
    decreases e, 0, 0
  {
    var u, m := r + 1 + TempsOf(e.yes), n + 2 + LabelsOf(e.yes);
    var k2 := SecondArmTail(e.no, r, n, u, k);
    var k1 := Emit(e.no, u, m, k2);
    assert EmitArms(e, r, n, k) == Emit(e.yes, r + 1, n + 2, FirstArmTail(e.yes, r, n, k1));
    SuffixSkipsEmit(e.yes, r + 1, n + 2, FirstArmTail(e.yes, r, n, k1), name);
    FirstArmSuffix(e.yes, r, n, k1, name);
    SuffixSkipsEmit(e.no, u, m, k2, name);
    SecondArmSuffix(e.no, r, n, u, k, name);
  }

  lemma FirstArmSuffix(a: Expr, r: nat, n: nat, k: Code, name: LabelName)
    ensures Suffix(T.M, FirstArmTail(a, r, n, k), name) ==
            if name == LabelName(E2End, n) then Cons(T.Label(name), k) else Suffix(T.M, k, name)
  {
    var last := Cons(T.Label(LabelName(E2End, n)), k);
    assert Suffix(T.M, FirstArmTail(a, r, n, k), name) == Suffix(T.M, last, name);
  }

  lemma SecondArmSuffix(b: Expr, r: nat, n: nat, u: nat, k: Code, name: LabelName)
    ensures Suffix(T.M, SecondArmTail(b, r, n, u, k), name) ==
            if name == LabelName(ConditionalEnd, n + 1) then Cons(T.Label(name), k) else Suffix(T.M, k, name)
  {
  }

  // ----- expressions -----

  ghost predicate Good(e: Expr) { NullFree(e) && TargetsAreVars(e) }

  /** From st, an execution with outcome `out` does what the meaning r asks for: it traps, or it comes to st', from
      where the outcome is `more`, with r's operand in v. */
  ghost predicate Comes(r: Late, v: T.Val, out: Outcome, more: Outcome, st: T.Store, st': T.Store, lo: nat, hi: nat) {
    if r.LTrap? then out == Fault
    else out == more && st'.vars == r.st && KeepsTemps(st, st', lo) && Holds(v, r.o, st', hi)
  }

  /** From st, `code` does what the meaning r asks for, ending in st' in front of k with r's operand in v. */
  ghost predicate Ends(r: Late, v: T.Val, code: Code, k: Code, st: T.Store, st': T.Store, lo: nat, hi: nat) {
    Comes(r, v, Exec(T.M, code, st), Exec(T.M, k, st'), st, st', lo, hi)
  }

  /** The code of e in front of k evaluates e. */
  lemma {:induction false} ExprRuns(e: Expr, t: nat, l: nat, k: Code, st: T.Store) returns (st': T.Store)
    requires Good(e)
    ensures Ends(EvalLate(e, st.vars), ValOf(e, t), Emit(e, t, l, k), k, st, st', t, t + TempsOf(e))
    decreases e, 1
  {
    st' := st;
    match e {
      case Constant(_) =>
      case Var(_) =>
      case Unary(_, _) => st' := UnaryRuns(e, t, l, k, st);
      case Binary(op, _, _) =>
        if op == And || op == Or {
          st' := LogicalRuns(e, t, l, k, EmitLogical(e, t, l, k), st);
        } else {
          st' := StrictRuns(e, t, l, k, EmitStrict(e, t, l, k), st);
        }
      case Assignment(_, _) => st' := AssignmentRuns(e, t, l, k, st);
      case Conditional(_, _, _) => st' := ConditionalRuns(e, t, l, k, st);
    }
  }

  lemma {:induction false} UnaryRuns(e: Expr, t: nat, l: nat, k: Code, st: T.Store) returns (st': T.Store)
    requires e.Unary? && Good(e)
    ensures Ends(EvalLate(e, st.vars), ValOf(e, t), Emit(e, t, l, k), k, st, st', t, t + TempsOf(e))
    decreases e, 0
  {
    var a, n := e.inner, t + TempsOf(e.inner);
    var i := T.Unary(ConvertUnop(e.unop), ValOf(a, t), Temp(n));
    st' := ExprRuns(a, t, l, Cons(i, k), st);
    var r := EvalLate(a, st.vars);
    if r.LDone? {
      HoldsReads(ValOf(a, t), r.o, r.st, st', n);
      UnopKept(e.unop, Read(r.o, r.st));
      st' := T.Put(st', Temp(n), ApplyUnary(e.unop, Read(r.o, r.st)));
    }
  }

  lemma {:induction false} StrictRuns(e: Expr, t: nat, l: nat, k: Code, code: Code, st: T.Store) returns (st': T.Store)
    requires e.Binary? && e.binop != And && e.binop != Or && Good(e) && code == EmitStrict(e, t, l, k)
    ensures var n := t + TempsOf(e.left) + TempsOf(e.right);
      Ends(LateStrict(e, st.vars), T.Var(Temp(n)), code, k, st, st', t, n + 1)
    decreases e, 0
  {
    var u := t + TempsOf(e.left);
    var k0 := Emit(e.right, u, l + LabelsOf(e.left), Cons(StrictInstr(e, t), k));
    StrictIs(e, t, l, k, k0);
    st' := StrictLeft(e, e.left, ValOf(e.left, t), t, u, u + TempsOf(e.right), l, k, k0, st);
  }

  lemma {:induction false} StrictLeft(e: Expr, a: Expr, v: T.Val, t: nat, u: nat, n: nat, l: nat, k: Code, k0: Code,
                                      st: T.Store) returns (st': T.Store)
    requires e.Binary? && e.binop != And && e.binop != Or && Good(e) && a == e.left && v == ValOf(a, t)
    requires u == t + TempsOf(a) && n == u + TempsOf(e.right)
    requires k0 == Emit(e.right, u, l + LabelsOf(a), Cons(StrictInstr(e, t), k))
    ensures Comes(LateStrict(e, st.vars), T.Var(Temp(n)), Exec(T.M, Emit(a, t, l, k0), st), Exec(T.M, k, st'),
                  st, st', t, n + 1)
    decreases e, 0, 0
  {
    st' := ExprRuns(a, t, l, k0, st);
    var p := EvalLate(a, st.vars);
    if p.LDone? {
      var st1 := st';
      st' := StrictRest(e, t, l, k, k0, p.o, st1);
      ComesThen(p, v, StrictLate(e.binop, p.o, EvalLate(e.right, st1.vars)), T.Var(Temp(n)),
                Exec(T.M, Emit(a, t, l, k0), st), Exec(T.M, k0, st1), Exec(T.M, k, st'), st, st1, st', t, u, n + 1);
    }
  }

  lemma {:induction false} StrictRest(e: Expr, t: nat, l: nat, k: Code, k0: Code, o: Operand, st: T.Store)
    returns (st': T.Store)
    requires e.Binary? && e.binop != And && e.binop != Or && Good(e.right)
    requires Holds(ValOf(e.left, t), o, st, t + TempsOf(e.left))
    requires k0 == Emit(e.right, t + TempsOf(e.left), l + LabelsOf(e.left), Cons(StrictInstr(e, t), k))
    ensures var n := t + TempsOf(e.left) + TempsOf(e.right);
      Comes(StrictLate(e.binop, o, EvalLate(e.right, st.vars)), T.Var(Temp(n)), Exec(T.M, k0, st), Exec(T.M, k, st'),
            st, st', t + TempsOf(e.left), n + 1)
    decreases e.right, 3
  {
    var u := t + TempsOf(e.left);
    st' := StrictRight(e.binop, ValOf(e.left, t), e.right, ValOf(e.right, u), u, u + TempsOf(e.right),
                       l + LabelsOf(e.left), k, Cons(StrictInstr(e, t), k), o, st);
  }

  /** The operator, once the left operand is known and the right one has run: both are read now. */
  function StrictLate(op: BinaryOpType, o: Operand, q: Late): Late {
    if q.LTrap? then LTrap
    else
      var w := ApplyBinary(op, Read(o, q.st), Read(q.o, q.st));
      if w.None? then LTrap else LDone(Known(w.value), q.st)
  }

  lemma {:induction false} StrictRight(op: BinaryOpType, v: T.Val, b: Expr, w: T.Val, u: nat, n: nat, m: nat, k: Code,
                                       k1: Code, o: Operand, st: T.Store) returns (st': T.Store)
    requires op != And && op != Or && Good(b) && Holds(v, o, st, u) && w == ValOf(b, u) && n == u + TempsOf(b)
    requires k1 == Cons(T.Binary(ConvertBinop(op), v, w, Temp(n)), k)
    ensures Comes(StrictLate(op, o, EvalLate(b, st.vars)), T.Var(Temp(n)), Exec(T.M, Emit(b, u, m, k1), st),
                  Exec(T.M, k, st'), st, st', u, n + 1)
    decreases b, 2
  {
    var st1 := ExprRuns(b, u, m, k1, st);
    st' := StrictLast(op, v, w, u, n, k, k1, o, EvalLate(b, st.vars), Exec(T.M, Emit(b, u, m, k1), st), st, st1);
  }

  /** After the right operand: the instruction reads both. */
  lemma StrictLast(op: BinaryOpType, v: T.Val, w: T.Val, u: nat, n: nat, k: Code, k1: Code, o: Operand, q: Late,
                   out: Outcome, st: T.Store, st1: T.Store) returns (st': T.Store)
    requires op != And && op != Or && Holds(v, o, st, u) && u <= n
    requires k1 == Cons(T.Binary(ConvertBinop(op), v, w, Temp(n)), k)
    requires Comes(q, w, out, Exec(T.M, k1, st1), st, st1, u, n)
    ensures Comes(StrictLate(op, o, q), T.Var(Temp(n)), out, Exec(T.M, k, st'), st, st', u, n + 1)
  {
    st' := st1;
    if q.LDone? {
      HoldsKept(v, o, st, st1, u);
      st' := StrictStep(op, v, w, n, k, o, q.o, st1);
    }
  }

  lemma StrictStep(op: BinaryOpType, v: T.Val, w: T.Val, n: nat, k: Code, o: Operand, o': Operand, st: T.Store)
    returns (st': T.Store)
    requires op != And && op != Or && Holds(v, o, st, n) && Holds(w, o', st, n)
    ensures var r := StrictLate(op, o, LDone(o', st.vars));
      var out := Exec(T.M, Cons(T.Binary(ConvertBinop(op), v, w, Temp(n)), k), st);
      if r.LTrap? then out == Fault else st' == T.Put(st, Temp(n), r.o.v) && out == Exec(T.M, k, st')
  {
    HoldsReads(v, o, st.vars, st, n);
    HoldsReads(w, o', st.vars, st, n);
    BinopKept(op, Read(o, st.vars), Read(o', st.vars));
    var c := ApplyBinary(op, Read(o, st.vars), Read(o', st.vars));
    st' := if c.None? then st else T.Put(st, Temp(n), c.value);
    assert T.Step(T.Binary(ConvertBinop(op), v, w, Temp(n)), st) == if c.None? then Halt(Fault) else Next(st');
  }

  /** One meaning after another. */
  lemma ComesThen(p: Late, v: T.Val, r: Late, w: T.Val, out: Outcome, out1: Outcome, more: Outcome,
                  st: T.Store, st1: T.Store, st': T.Store, t: nat, u: nat, hi: nat)
    requires p.LDone? && Comes(p, v, out, out1, st, st1, t, u) && Comes(r, w, out1, more, st1, st', t, hi)
    ensures Comes(r, w, out, more, st, st', t, hi)
  {}

  lemma {:induction false} AssignmentRuns(e: Expr, t: nat, l: nat, k: Code, st: T.Store) returns (st': T.Store)
    requires e.Assignment? && Good(e)
    ensures Ends(EvalLate(e, st.vars), ValOf(e, t), Emit(e, t, l, k), k, st, st', t, t + TempsOf(e))
    decreases e, 0
  {
    var a := e.source;
    var i := T.Copy(ValOf(a, t), TargetName(e.target));
    st' := ExprRuns(a, t, l, Cons(i, k), st);
    var r := EvalLate(a, st.vars);
    if r.LDone? {
      HoldsReads(ValOf(a, t), r.o, r.st, st', t + TempsOf(a));
      st' := T.Put(st', Ident(e.target.name), Read(r.o, r.st));
    }
  }

  lemma {:induction false} LogicTailRuns(op: BinaryOpType, t: nat, l: nat, k: Code, st: T.Store)
    ensures Exec(T.M, LogicTail(op, t, l, k), st) == Exec(T.M, k, T.Put(st, Temp(t), if op == And then 1 else 0))
    ensures Exec(T.M, Suffix(T.M, LogicTail(op, t, l, k), ExitLabel(op, l)), st) ==
            Exec(T.M, k, T.Put(st, Temp(t), if op == And then 0 else 1))
  {
    var end := Cons(T.Label(EndLabel(op, l)), k);
    var exit := Cons(T.Label(ExitLabel(op, l)), Cons(T.Copy(Exited(op), Temp(t)), end));
    LogicTailSuffix(op, t, l, k, ExitLabel(op, l));
    var st1 := T.Put(st, Temp(t), if op == And then 1 else 0);
    assert Exec(T.M, LogicTail(op, t, l, k), st) == Exec(T.M, Suffix(T.M, exit, EndLabel(op, l)), st1);
    assert Suffix(T.M, exit, EndLabel(op, l)) ==
      Suffix(T.M, Cons(T.Copy(Exited(op), Temp(t)), end), EndLabel(op, l)) == end;
    var st0 := T.Put(st, Temp(t), if op == And then 0 else 1);
    assert Exec(T.M, exit, st) == Exec(T.M, Cons(T.Copy(Exited(op), Temp(t)), end), st) == Exec(T.M, end, st0);
  }

  /** The test after an operand: on the exit value it jumps to the exit label, otherwise it falls through. */
  lemma TestRuns(op: BinaryOpType, v: T.Val, w: Word, l: nat, k: Code, st: T.Store)
    requires (op == And || op == Or) && T.ValueOf(v, st) == w
    ensures Exec(T.M, Cons(Test(op, v, l), k), st) ==
            if (op == And) == (w == 0) then Exec(T.M, Suffix(T.M, k, ExitLabel(op, l)), st) else Exec(T.M, k, st)
  {
  }

  lemma {:induction false} LogicalIs(e: Expr, t: nat, l: nat, k: Code, k1: Code)
    requires e.Binary? && (e.binop == And || e.binop == Or)
    requires var op, b, u := e.binop, e.right, t + 1 + TempsOf(e.left);
      k1 == Cons(Test(op, ValOf(e.left, t + 1), l),
                 Emit(b, u, l + 2 + LabelsOf(e.left), Cons(Test(op, ValOf(b, u), l), LogicTail(op, t, l, k))))
    ensures EmitLogical(e, t, l, k) == Emit(e.left, t + 1, l + 2, k1)
  {}

  lemma {:induction false} LogicalRuns(e: Expr, t: nat, l: nat, k: Code, code: Code, st: T.Store) returns (st': T.Store)
    requires e.Binary? && (e.binop == And || e.binop == Or) && Good(e) && code == EmitLogical(e, t, l, k)
    ensures Ends(LateLogical(e, st.vars), T.Var(Temp(t)), code, k, st, st', t, t + 1 + TempsOf(e.left) + TempsOf(e.right))
    decreases e, 0
  {
    var op, b, u := e.binop, e.right, t + 1 + TempsOf(e.left);
    var k0 := Emit(b, u, l + 2 + LabelsOf(e.left), Cons(Test(op, ValOf(b, u), l), LogicTail(op, t, l, k)));
    var k1 := Cons(Test(op, ValOf(e.left, t + 1), l), k0);
    LogicalIs(e, t, l, k, k1);
    st' := LogicalLeft(e, e.left, ValOf(e.left, t + 1), t, u, u + TempsOf(b), l, k, k0, k1, st);
  }

  lemma {:induction false} LogicalLeft(e: Expr, a: Expr, v: T.Val, t: nat, u: nat, n: nat, l: nat, k: Code, k0: Code,
                                       k1: Code, st: T.Store) returns (st': T.Store)
    requires e.Binary? && (e.binop == And || e.binop == Or) && Good(e) && a == e.left && v == ValOf(a, t + 1)
    requires u == t + 1 + TempsOf(a) && n == u + TempsOf(e.right) && k1 == Cons(Test(e.binop, v, l), k0)
    requires k0 == Emit(e.right, u, l + 2 + LabelsOf(a),
                        Cons(Test(e.binop, ValOf(e.right, u), l), LogicTail(e.binop, t, l, k)))
    ensures Comes(LateLogical(e, st.vars), T.Var(Temp(t)), Exec(T.M, Emit(a, t + 1, l + 2, k1), st), Exec(T.M, k, st'),
                  st, st', t, n)
    decreases e, 0, 0
  {
    st' := ExprRuns(a, t + 1, l + 2, k1, st);
    var p := EvalLate(a, st.vars);
    if p.LDone? {
      var st1 := st';
      st' := TestedRuns(e, t, l, k, k0, p.o, st1);
      ComesThen(p, v, LogicalLate(e, p.o, st1.vars), T.Var(Temp(t)), Exec(T.M, Emit(a, t + 1, l + 2, k1), st),
                Exec(T.M, k1, st1), Exec(T.M, k, st'), st, st1, st', t, u, n);
    }
  }

  /** The rest of `&&` or `||`, once the left operand is known. */
  function LogicalLate(e: Expr, o: Operand, st: Vars): Late
    requires e.Binary?
  {
    if (e.binop == And) == (Read(o, st) == 0) then LDone(Known(if e.binop == And then 0 else 1), st)
    else
      var q := EvalLate(e.right, st);
      if q.LTrap? then LTrap else LDone(Known(Truth(Read(q.o, q.st) != 0)), q.st)
  }

  lemma {:induction false} TestedRuns(e: Expr, t: nat, l: nat, k: Code, k0: Code, o: Operand, st: T.Store)
    returns (st': T.Store)
    requires e.Binary? && (e.binop == And || e.binop == Or) && Good(e.right)
    requires Holds(ValOf(e.left, t + 1), o, st, t + 1 + TempsOf(e.left))
    requires var u := t + 1 + TempsOf(e.left);
      k0 == Emit(e.right, u, l + 2 + LabelsOf(e.left),
                 Cons(Test(e.binop, ValOf(e.right, u), l), LogicTail(e.binop, t, l, k)))
    ensures Comes(LogicalLate(e, o, st.vars), T.Var(Temp(t)),
                  Exec(T.M, Cons(Test(e.binop, ValOf(e.left, t + 1), l), k0), st),
                  Exec(T.M, k, st'), st, st', t, t + 1 + TempsOf(e.left) + TempsOf(e.right))
    decreases e.right, 3
  {
    var op, b, v := e.binop, e.right, Read(o, st.vars);
    var u, m := t + 1 + TempsOf(e.left), l + 2 + LabelsOf(e.left);
    HoldsReads(ValOf(e.left, t + 1), o, st.vars, st, u);
    TestRuns(op, ValOf(e.left, t + 1), v, l, k0, st);
    if (op == And) == (v == 0) {
      FirstTestExits(op, b, t, u, l, m, k, st);
      st' := T.Put(st, Temp(t), if op == And then 0 else 1);
    } else {
      st' := SecondRuns(op, b, t, u, l, m, k, st);
    }
  }

  lemma {:induction false} SecondRuns(op: BinaryOpType, b: Expr, t: nat, u: nat, l: nat, m: nat, k: Code, st: T.Store)
    returns (st': T.Store)
    requires (op == And || op == Or) && Good(b) && t < u
    ensures var q := EvalLate(b, st.vars);
      Comes(if q.LTrap? then LTrap else LDone(Known(Truth(Read(q.o, q.st) != 0)), q.st), T.Var(Temp(t)),
            Exec(T.M, Emit(b, u, m, Cons(Test(op, ValOf(b, u), l), LogicTail(op, t, l, k))), st),
            Exec(T.M, k, st'), st, st', t, u + TempsOf(b))
    decreases b, 2
  {
    st' := ExprRuns(b, u, m, Cons(Test(op, ValOf(b, u), l), LogicTail(op, t, l, k)), st);
    var q := EvalLate(b, st.vars);
    if q.LDone? { st' := SecondTestRuns(op, b, t, u, l, k, q, st'); }
  }

  /** The first operand decides: the jump skips the second operand. */
  lemma {:induction false} FirstTestExits(op: BinaryOpType, b: Expr, t: nat, u: nat, l: nat, m: nat, k: Code, st: T.Store)
    requires (op == And || op == Or) && l + 2 <= m
    ensures var tail := LogicTail(op, t, l, k);
      Exec(T.M, Suffix(T.M, Emit(b, u, m, Cons(Test(op, ValOf(b, u), l), tail)), ExitLabel(op, l)), st) ==
      Exec(T.M, k, T.Put(st, Temp(t), if op == And then 0 else 1))
  {
    var tail := LogicTail(op, t, l, k);
    var k1 := Cons(Test(op, ValOf(b, u), l), tail);
    SuffixSkipsEmit(b, u, m, k1, ExitLabel(op, l));
    LogicTailRuns(op, t, l, k, st);
    assert Suffix(T.M, k1, ExitLabel(op, l)) == Suffix(T.M, tail, ExitLabel(op, l));
  }

  /** After the second operand of `&&` or `||`. */
  lemma {:induction false} SecondTestRuns(op: BinaryOpType, b: Expr, t: nat, u: nat, l: nat, k: Code,
                                          q: Late, st: T.Store) returns (st': T.Store)
    requires (op == And || op == Or) && q.LDone? && st.vars == q.st && Holds(ValOf(b, u), q.o, st, u + TempsOf(b))
    ensures st' == T.Put(st, Temp(t), Truth(Read(q.o, q.st) != 0))
    ensures Exec(T.M, Cons(Test(op, ValOf(b, u), l), LogicTail(op, t, l, k)), st) == Exec(T.M, k, st')
  {
    HoldsReads(ValOf(b, u), q.o, q.st, st, u + TempsOf(b));
    TestRuns(op, ValOf(b, u), Read(q.o, q.st), l, LogicTail(op, t, l, k), st);
    LogicTailRuns(op, t, l, k, st);
    st' := T.Put(st, Temp(t), Truth(Read(q.o, q.st) != 0));
  }

  lemma {:induction false} ConditionalRuns(e: Expr, t: nat, l: nat, k: Code, st: T.Store) returns (st': T.Store)
    requires e.Conditional? && Good(e)
    ensures Ends(EvalLate(e, st.vars), ValOf(e, t), EmitConditional(e, t, l, k), k, st, st', t, t + TempsOf(e))
    decreases e, 0
  {
    var c := e.cond;
    var r, n := t + TempsOf(c), l + LabelsOf(c);
    var i := T.JumpIfZero(ValOf(c, t), LabelName(E2End, n));
    st' := ExprRuns(c, t, l, Cons(i, EmitArms(e, r, n, k)), st);
    var p := EvalLate(c, st.vars);
    if p.LDone? {
      var st1 := st';
      HoldsReads(ValOf(c, t), p.o, p.st, st1, r);
      if Read(p.o, p.st) != 0 {
        st' := FirstArmRuns(e, r, n, k, st1);
      } else {
        st' := SecondArmRuns(e, r, n, k, st1);
      }
    }
  }

  /** An arm of `?:` ends in front of k with its value in temporary r. */
  ghost predicate ArmEnds(q: Late, code: Code, r: nat, k: Code, st: T.Store, st': T.Store) {
    if q.LTrap? then Exec(T.M, code, st) == Fault
    else
      && Exec(T.M, code, st) == Exec(T.M, k, st')
      && st'.vars == q.st
      && KeepsTemps(st, st', r)
      && T.GetTemp(st'.temps, r) == Read(q.o, q.st)
  }

  lemma {:induction false} FirstArmRuns(e: Expr, r: nat, n: nat, k: Code, st: T.Store) returns (st': T.Store)
    requires e.Conditional? && Good(e.yes)
    ensures ArmEnds(EvalLate(e.yes, st.vars), EmitArms(e, r, n, k), r, k, st, st')
    decreases e.yes, 2
  {
    var a, b := e.yes, e.no;
    var u, m := r + 1 + TempsOf(a), n + 2 + LabelsOf(a);
    var k2 := SecondArmTail(b, r, n, u, k);
    var k1 := Emit(b, u, m, k2);
    st' := ExprRuns(a, r + 1, n + 2, FirstArmTail(a, r, n, k1), st);
    var q := EvalLate(a, st.vars);
    if q.LDone? {
      HoldsReads(ValOf(a, r + 1), q.o, q.st, st', u);
      FirstTailRuns(a, b, r, n, u, m, k, st');
      st' := T.Put(st', Temp(r), Read(q.o, q.st));
    }
  }

  /** The end of the first arm stores its value and jumps over the second arm. */
  lemma {:induction false} FirstTailRuns(a: Expr, b: Expr, r: nat, n: nat, u: nat, m: nat, k: Code, st: T.Store)
    requires n + 2 <= m
    ensures Exec(T.M, FirstArmTail(a, r, n, Emit(b, u, m, SecondArmTail(b, r, n, u, k))), st) ==
            Exec(T.M, k, T.Put(st, Temp(r), T.ValueOf(ValOf(a, r + 1), st)))
  {
    var k2 := SecondArmTail(b, r, n, u, k);
    var k1 := Emit(b, u, m, k2);
    var end := LabelName(ConditionalEnd, n + 1);
    var last := Cons(T.Label(LabelName(E2End, n)), k1);
    var st' := T.Put(st, Temp(r), T.ValueOf(ValOf(a, r + 1), st));
    assert Exec(T.M, FirstArmTail(a, r, n, k1), st) == Exec(T.M, Cons(T.Jump(end), last), st') ==
      Exec(T.M, Suffix(T.M, last, end), st');
    assert Suffix(T.M, last, end) == Suffix(T.M, k1, end);
    SuffixSkipsEmit(b, u, m, k2, end);
    SecondArmSuffix(b, r, n, u, k, end);
  }

  lemma {:induction false} SecondArmRuns(e: Expr, r: nat, n: nat, k: Code, st: T.Store) returns (st': T.Store)
    requires e.Conditional? && Good(e.no)
    ensures ArmEnds(EvalLate(e.no, st.vars), Suffix(T.M, EmitArms(e, r, n, k), LabelName(E2End, n)), r, k, st, st')
    decreases e.no, 2
  {
    var a, b := e.yes, e.no;
    var u, m := r + 1 + TempsOf(a), n + 2 + LabelsOf(a);
    var k2 := SecondArmTail(b, r, n, u, k);
    var k1 := Emit(b, u, m, k2);
    var e2 := LabelName(E2End, n);
    assert EmitArms(e, r, n, k) == Emit(a, r + 1, n + 2, FirstArmTail(a, r, n, k1));
    SuffixSkipsEmit(a, r + 1, n + 2, FirstArmTail(a, r, n, k1), e2);
    FirstArmSuffix(a, r, n, k1, e2);
    assert Exec(T.M, Cons(T.Label(e2), k1), st) == Exec(T.M, k1, st);
    st' := ExprRuns(b, u, m, k2, st);
    var q := EvalLate(b, st.vars);
    if q.LDone? {
      HoldsReads(ValOf(b, u), q.o, q.st, st', u + TempsOf(b));
      var i := T.Label(LabelName(ConditionalEnd, n + 1));
      var st1 := st';
      st' := T.Put(st1, Temp(r), Read(q.o, q.st));
      assert Exec(T.M, k2, st1) == Exec(T.M, Cons(i, k), st');
    }
  }
}
