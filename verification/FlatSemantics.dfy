/** One flat store. */
module FlatSemantics {
  // The meaning the generator gives to a syntax tree: one flat store of names, and
  // an operand that is a plain variable (or an assignment, whose value is its
  // variable) stays a reference that is read when the operator is applied, after
  // the right operand has run.

  import opened Words
  import opened Ast
  import opened Flow
  import opened CSemantics
  import T = Tacky

  type Vars = map<string, Word>

  datatype Operand = Known(v: Word) | At(name: string)

  function Read(o: Operand, st: Vars): Word { if o.Known? then o.v else T.GetVar(st, o.name) }

  datatype Late = LTrap | LDone(o: Operand, st: Vars)

  function EvalLate(e: Expr, st: Vars): Late
    decreases e, 1
  {
    match e
    case NullExpr => LDone(Known(0), st)
    case Constant(c) => LDone(Known(c), st)
    case Var(x) => LDone(At(x), st)
    case Unary(op, a) =>
      var r := EvalLate(a, st);
      if r.LTrap? then LTrap else LDone(Known(ApplyUnary(op, Read(r.o, r.st))), r.st)
    case Binary(op, _, _) => if op == And || op == Or then LateLogical(e, st) else LateStrict(e, st)
    case Assignment(l, r) =>
      var q := EvalLate(r, st);
      if q.LTrap? || !l.Var? then LTrap else LDone(At(l.name), q.st[l.name := Read(q.o, q.st)])
    case Conditional(c, t, f) =>
      var p := EvalLate(c, st);
      if p.LTrap? then LTrap
      else
        var q := EvalLate(if Read(p.o, p.st) != 0 then t else f, p.st);
        if q.LTrap? then LTrap else LDone(Known(Read(q.o, q.st)), q.st)
  }

  function LateLogical(e: Expr, st: Vars): Late
    requires e.Binary?
    decreases e, 0
  {
    var p := EvalLate(e.left, st);
    if p.LTrap? then LTrap
    else if e.binop == And && Read(p.o, p.st) == 0 then LDone(Known(0), p.st)
    else if e.binop != And && Read(p.o, p.st) != 0 then LDone(Known(1), p.st)
    else
      var q := EvalLate(e.right, p.st);
      if q.LTrap? then LTrap else LDone(Known(Truth(Read(q.o, q.st) != 0)), q.st)
  }

  /** Both operands are read in the store the right operand leaves. */
  function LateStrict(e: Expr, st: Vars): Late
    requires e.Binary?
    decreases e, 0
  {
    var p := EvalLate(e.left, st);
    if p.LTrap? then LTrap
    else
      var q := EvalLate(e.right, p.st);
      if q.LTrap? then LTrap
      else
        var w := ApplyBinary(e.binop, Read(p.o, q.st), Read(q.o, q.st));
        if w.None? then LTrap else LDone(Known(w.value), q.st)
  }

  datatype LEffect = LAbort | LExit(v: Word) | LFall(st: Vars)

  function LateStmt(s: Stmt, st: Vars): LEffect
    decreases s, 1
  {
    match s
    case Return(e) =>
      var r := EvalLate(e, st);
      if r.LTrap? then LAbort else LExit(Read(r.o, r.st))
    case If(c, t, f) =>
      var r := EvalLate(c, st);
      if r.LTrap? then LAbort
      else if Read(r.o, r.st) != 0 then LateStmt(t, r.st)
      else if f.Some? then LateStmt(f.value, r.st)
      else LFall(r.st)
    case Expression(e) =>
      var r := EvalLate(e, st);
      if r.LTrap? then LAbort else LFall(r.st)
    case Compound(items) => LateItems(items, st)
    case Empty => LFall(st)
  }

  function LateItem(item: BlockItem, st: Vars): LEffect
    decreases item, 2
  {
    match item
    case Declaration(x, init) =>
      if init == NullExpr then LFall(st)
      else
        var r := EvalLate(init, st);
        if r.LTrap? then LAbort else LFall(r.st[x := Read(r.o, r.st)])
    case Statement(s) => LateStmt(s, st)
  }

  function LateItems(items: seq<BlockItem>, st: Vars): LEffect
    decreases items, 0
  {
    if items == [] then LFall(st)
    else
      var r := LateItem(items[0], st);
      if r.LFall? then LateItems(items[1..], r.st) else r
  }

  function LateFunction(f: Function, st: Vars): Outcome {
    match LateItems(f.body, st)
    case LAbort => Fault
    case LExit(v) => Returned(v)
    case LFall(_) => Returned(0)
  }
}
