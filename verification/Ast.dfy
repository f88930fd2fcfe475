/** The syntax trees of the parser.  `NullExpr` is a null child pointer. */
module Ast {
  import opened Options
  import opened Words

  datatype UnaryOpType = Complement | Negate | Not

  datatype BinaryOpType =
    | Add | Sub | Mul | Div | Rem | And | Or
    | Equal | NotEqual | LessThan | LessOrEqual | GreaterThan | GreaterOrEqual

  datatype Expr =
    | NullExpr
    | Constant(value: Word)
    | Var(name: string)
    | Unary(unop: UnaryOpType, inner: Expr)
    | Binary(binop: BinaryOpType, left: Expr, right: Expr)
    | Assignment(target: Expr, source: Expr)
    | Conditional(cond: Expr, yes: Expr, no: Expr)

  datatype Stmt =
    | Return(result: Expr)
    | If(test: Expr, thn: Stmt, els: Option<Stmt>)
    | Expression(e: Expr)
    | Compound(items: seq<BlockItem>)
    | Empty

  /** A declaration without initializer holds `NullExpr`. */
  datatype BlockItem =
    | Declaration(name: string, init: Expr)
    | Statement(s: Stmt)

  datatype Function = Function(name: string, body: seq<BlockItem>)

  // ----- no null children -----

  predicate NullFree(e: Expr) {
    match e
    case NullExpr => false
    case Constant(_) => true
    case Var(_) => true
    case Unary(_, a) => NullFree(a)
    case Binary(_, l, r) => NullFree(l) && NullFree(r)
    case Assignment(l, r) => NullFree(l) && NullFree(r)
    case Conditional(c, t, f) => NullFree(c) && NullFree(t) && NullFree(f)
  }

  // ----- every assignment target is a variable -----

  predicate TargetsAreVars(e: Expr) {
    match e
    case NullExpr => true
    case Constant(_) => true
    case Var(_) => true
    case Unary(_, a) => TargetsAreVars(a)
    case Binary(_, l, r) => TargetsAreVars(l) && TargetsAreVars(r)
    case Assignment(l, r) => l.Var? && TargetsAreVars(r)
    case Conditional(c, t, f) => TargetsAreVars(c) && TargetsAreVars(t) && TargetsAreVars(f)
  }

  // ----- a property of every expression of a statement -----

  predicate StmtAll(s: Stmt, p: Expr -> bool)
    decreases s, 1
  {
    match s
    case Return(e) => p(e)
    case If(c, t, f) => p(c) && StmtAll(t, p) && (f.Some? ==> StmtAll(f.value, p))
    case Expression(e) => p(e)
    case Compound(items) => ItemsAll(items, p)
    case Empty => true
  }

  predicate ItemAll(item: BlockItem, p: Expr -> bool)
    decreases item, 2
  {
    match item
    case Declaration(_, init) => init == NullExpr || p(init)
    case Statement(s) => StmtAll(s, p)
  }

  predicate ItemsAll(items: seq<BlockItem>, p: Expr -> bool)
    decreases items, 0
  {
    items == [] || (ItemAll(items[0], p) && ItemsAll(items[1..], p))
  }

  // ----- names -----

  /** Every name used in the expression satisfies p. */
  predicate NamesAll(e: Expr, p: string -> bool) {
    match e
    case NullExpr => true
    case Constant(_) => true
    case Var(x) => p(x)
    case Unary(_, a) => NamesAll(a, p)
    case Binary(_, l, r) => NamesAll(l, p) && NamesAll(r, p)
    case Assignment(l, r) => NamesAll(l, p) && NamesAll(r, p)
    case Conditional(c, t, f) => NamesAll(c, p) && NamesAll(t, p) && NamesAll(f, p)
  }

  /** Every name used or declared satisfies p. */
  predicate StmtNames(s: Stmt, p: string -> bool)
    decreases s, 1
  {
    match s
    case Return(e) => NamesAll(e, p)
    case If(c, a, b) => NamesAll(c, p) && StmtNames(a, p) && (b.Some? ==> StmtNames(b.value, p))
    case Expression(e) => NamesAll(e, p)
    case Compound(items) => ItemsNames(items, p)
    case Empty => true
  }

  predicate ItemNames(item: BlockItem, p: string -> bool)
    decreases item, 2
  {
    match item
    case Declaration(x, init) => p(x) && NamesAll(init, p)
    case Statement(s) => StmtNames(s, p)
  }

  predicate ItemsNames(items: seq<BlockItem>, p: string -> bool)
    decreases items, 0
  {
    items == [] || (ItemNames(items[0], p) && ItemsNames(items[1..], p))
  }

  /** The variables an expression assigns. */
  function Assigned(e: Expr): set<string> {
    match e
    case NullExpr => {}
    case Constant(_) => {}
    case Var(_) => {}
    case Unary(_, a) => Assigned(a)
    case Binary(_, a, b) => Assigned(a) + Assigned(b)
    case Assignment(l, a) => Assigned(a) + (if l.Var? then {l.name} else {})
    case Conditional(c, a, b) => Assigned(c) + Assigned(a) + Assigned(b)
  }

  /** The names declared by a statement and by the blocks inside it, in source order. */
  function DeclaredStmt(s: Stmt): seq<string>
    decreases s, 1
  {
    match s
    case Return(_) => []
    case If(_, t, f) => DeclaredStmt(t) + (if f.Some? then DeclaredStmt(f.value) else [])
    case Expression(_) => []
    case Compound(items) => DeclaredItems(items)
    case Empty => []
  }

  function DeclaredItem(item: BlockItem): seq<string>
    decreases item, 2
  {
    match item
    case Declaration(x, _) => [x]
    case Statement(s) => DeclaredStmt(s)
  }

  function DeclaredItems(items: seq<BlockItem>): seq<string>
    decreases items, 0
  {
    if items == [] then [] else DeclaredItem(items[0]) + DeclaredItems(items[1..])
  }

  ghost predicate Distinct(names: seq<string>) {
    forall j, k :: 0 <= j < k < |names| ==> names[j] != names[k]
  }
}
