/** What C11 says. */
module CSemantics {
  // The meaning of a function body: nested scopes with innermost lookup, operands
  // evaluated left to right, `&&`, `||` and `?:` evaluating only what they need.
  // Signed overflow wraps around; a division whose quotient does not exist is
  // reported as a trap.  Two things are undefined: reading a variable in which
  // nothing has been stored (C11 6.3.2.1 p2), and a right operand that stores into
  // the variable its left operand stands for (C11 6.5 p2).  Other unsequenced
  // conflicts are simply evaluated left to right.

  import opened Options
  import opened Words
  import opened Ast

  function ApplyUnary(op: UnaryOpType, a: Word): Word {
    match op
    case Complement => -1 - a
    case Negate => Wrap(0 - a)
    case Not => Truth(a == 0)
  }

  /** The strict operators; `&&` and `||` are not evaluated through this. */
  function ApplyBinary(op: BinaryOpType, a: Word, b: Word): Option<Word> {
    match op
    case Add => Some(Wrap(a + b))
    case Sub => Some(Wrap(a - b))
    case Mul => Some(Wrap(a * b))
    case Div => if Divides(a, b) then Some(Wrap(Quotient(a, b))) else None
    case Rem => if Divides(a, b) then Some(Wrap(Remainder(a, b))) else None
    case And => Some(Truth(a != 0 && b != 0))
    case Or => Some(Truth(a != 0 || b != 0))
    case Equal => Some(Truth(a == b))
    case NotEqual => Some(Truth(a != b))
    case LessThan => Some(Truth(a < b))
    case LessOrEqual => Some(Truth(a <= b))
    case GreaterThan => Some(Truth(a > b))
    case GreaterOrEqual => Some(Truth(a >= b))
  }

  /** One map for each open block, the innermost last; None is a variable in which nothing has been stored. */
  type Scope = map<string, Option<Word>>
  type Scopes = seq<Scope>

  function Put(m: Scope, x: string, v: Option<Word>): Scope { m[x := v] }

  predicate Visible(sc: Scopes, x: string) { exists k :: 0 <= k < |sc| && x in sc[k] }

  function Lookup(sc: Scopes, x: string): Option<Word> {
    if sc == [] then None
    else if x in sc[|sc| - 1] then sc[|sc| - 1][x]
    else Lookup(sc[..|sc| - 1], x)
  }

  function Update(sc: Scopes, x: string, v: Word): (r: Scopes)
    ensures |r| == |sc| && forall k :: 0 <= k < |sc| ==> r[k].Keys == sc[k].Keys
  {
    if sc == [] then []
    else if x in sc[|sc| - 1] then sc[|sc| - 1 := Put(sc[|sc| - 1], x, Some(v))]
    else Update(sc[..|sc| - 1], x, v) + [sc[|sc| - 1]]
  }

  /** Declaring a name puts it into the innermost scope, with nothing stored in it. */
  function Declare(sc: Scopes, x: string): Scopes
    requires sc != []
  {
    sc[|sc| - 1 := Put(sc[|sc| - 1], x, None)]
  }

  /** The variable an operand stands for: a variable itself, or the target of an assignment. */
  function ResultVar(e: Expr): Option<string> {
    match e
    case Var(x) => Some(x)
    case Assignment(Var(x), _) => Some(x)
    case _ => None
  }

  /** `writes` are the variables the evaluation has stored into. */
  datatype Value = Trap | Wild | Done(v: Word, sc: Scopes, writes: set<string>)

  function Eval(e: Expr, sc: Scopes): (r: Value)
    ensures r.Done? ==> |r.sc| == |sc| && forall k :: 0 <= k < |sc| ==> r.sc[k].Keys == sc[k].Keys
    decreases e, 1
  {
    match e
    case NullExpr => Done(0, sc, {})
    case Constant(c) => Done(c, sc, {})
    case Var(x) =>
      var v := Lookup(sc, x);
      if v.None? then Wild else Done(v.value, sc, {})
    case Unary(op, a) =>
      var r := Eval(a, sc);
      if r.Done? then Done(ApplyUnary(op, r.v), r.sc, r.writes) else r
    case Binary(op, _, _) => if op == And || op == Or then EvalLogical(e, sc) else EvalStrict(e, sc)
    case Assignment(l, a) =>
      var q := Eval(a, sc);
      if !q.Done? then q
      else if !l.Var? then Wild
      else Done(q.v, Update(q.sc, l.name, q.v), q.writes + {l.name})
    case Conditional(c, t, f) =>
      var p := Eval(c, sc);
      if !p.Done? then p
      else
        var q := if p.v != 0 then Eval(t, p.sc) else Eval(f, p.sc);
        if q.Done? then q.(writes := p.writes + q.writes) else q
  }

  function EvalLogical(e: Expr, sc: Scopes): (r: Value)
    requires e.Binary?
    ensures r.Done? ==> |r.sc| == |sc| && forall k :: 0 <= k < |sc| ==> r.sc[k].Keys == sc[k].Keys
    decreases e, 0
  {
    var p := Eval(e.left, sc);
    if !p.Done? then p
    else if (e.binop == And) == (p.v == 0) then p.(v := Truth(p.v != 0))
    else
      var q := Eval(e.right, p.sc);
      if q.Done? then Done(Truth(q.v != 0), q.sc, p.writes + q.writes) else q
  }

  function EvalStrict(e: Expr, sc: Scopes): (r: Value)
    requires e.Binary?
    ensures r.Done? ==> |r.sc| == |sc| && forall k :: 0 <= k < |sc| ==> r.sc[k].Keys == sc[k].Keys
    decreases e, 0
  {
    var p := Eval(e.left, sc);
    if !p.Done? then p
    else
      var q := Eval(e.right, p.sc);
      if !q.Done? then q
      else if ResultVar(e.left).Some? && ResultVar(e.left).value in q.writes then Wild
      else
        var w := ApplyBinary(e.binop, p.v, q.v);
        if w.None? then Trap else Done(w.value, q.sc, p.writes + q.writes)
  }

  datatype Effect = Abort | Astray | Exit(v: Word) | Fall(sc: Scopes)

  /** An evaluation that did not end in a value ends the function. */
  function Ended(r: Value): Effect
    requires !r.Done?
  {
    if r.Trap? then Abort else Astray
  }

  function ExecStmt(s: Stmt, sc: Scopes): (r: Effect)
    ensures r.Fall? ==> |r.sc| == |sc|
    decreases s, 1
  {
    match s
    case Return(e) =>
      var r := Eval(e, sc);
      if r.Done? then Exit(r.v) else Ended(r)
    case If(c, t, f) =>
      var r := Eval(c, sc);
      if !r.Done? then Ended(r)
      else if r.v != 0 then ExecStmt(t, r.sc)
      else if f.Some? then ExecStmt(f.value, r.sc)
      else Fall(r.sc)
    case Expression(e) =>
      var r := Eval(e, sc);
      if r.Done? then Fall(r.sc) else Ended(r)
    case Compound(items) =>
      var r := ExecItems(items, sc + [map[]]);
      if r.Fall? then Fall(r.sc[..|sc|]) else r
    case Empty => Fall(sc)
  }

  /** The scope of a declared name begins before its own initializer (C11 6.2.1 p7). */
  function ExecItem(item: BlockItem, sc: Scopes): (r: Effect)
    requires sc != []
    ensures r.Fall? ==> |r.sc| == |sc|
    decreases item, 2
  {
    match item
    case Declaration(x, init) =>
      var sc1 := Declare(sc, x);
      if init == NullExpr then Fall(sc1)
      else
        var r := Eval(init, sc1);
        if r.Done? then Fall(Update(r.sc, x, r.v)) else Ended(r)
    case Statement(s) => ExecStmt(s, sc)
  }

  function ExecItems(items: seq<BlockItem>, sc: Scopes): (r: Effect)
    requires sc != []
    ensures r.Fall? ==> |r.sc| == |sc|
    decreases items, 0
  {
    if items == [] then Fall(sc)
    else
      var r := ExecItem(items[0], sc);
      if r.Fall? then ExecItems(items[1..], r.sc) else r
  }

  datatype Behaviour = Exits(v: Word) | DivisionFault | Undefined

  /** Falling off the end of `main` returns 0 (C11 5.1.2.2.3). */
  function RunFunction(f: Function): Behaviour {
    match ExecItems(f.body, [map[], map[]])
    case Abort => DivisionFault
    case Astray => Undefined
    case Exit(v) => Exits(v)
    case Fall(_) => Exits(0)
  }
}
