/**
 The expression grammar, stratified by precedence, without a parser.  A `Tree` is a
 derivation: it keeps the parentheses that the syntax tree drops.
*/
module Grammar {
  import opened Options
  import opened Words
  import opened Ast
  import opened Flow
  import K = Tokens

  const CONDITIONAL_LEVEL := 3
  const ASSIGNMENT_LEVEL := 1

  function Precedence(k: K.TokenType): int {
    match k
    case Multiplication | Division | Modulus => 50
    case Addition | Minus => 45
    case Lesser | LesserEqual | Greater | GreaterEqual => 35
    case Equality | NotEquality => 30
    case AndAnd => 10
    case OrOr => 5
    case QuestionMark => CONDITIONAL_LEVEL
    case Assign => ASSIGNMENT_LEVEL
    case _ => -1
  }

  function BinaryToken(op: BinaryOpType): K.TokenType {
    match op
    case Add => K.Addition
    case Sub => K.Minus
    case Mul => K.Multiplication
    case Div => K.Division
    case Rem => K.Modulus
    case And => K.AndAnd
    case Or => K.OrOr
    case Equal => K.Equality
    case NotEqual => K.NotEquality
    case LessThan => K.Lesser
    case LessOrEqual => K.LesserEqual
    case GreaterThan => K.Greater
    case GreaterOrEqual => K.GreaterEqual
  }

  function UnaryToken(op: UnaryOpType): K.TokenType {
    match op
    case Complement => K.Tilde
    case Negate => K.Minus
    case Not => K.Bang
  }

  function Level(op: BinaryOpType): (p: int)
    ensures 5 <= p <= 50
  {
    Precedence(BinaryToken(op))
  }

  // ----- derivations -----

  datatype Tree =
    | TNull
    | TConst(value: Word)
    | TVar(name: string)
    | TUnary(unop: UnaryOpType, inner: Tree)
    | TParen(inner: Tree)
    | TBinary(binop: BinaryOpType, left: Tree, right: Tree)
    | TAssign(left: Tree, right: Tree)
    | TCond(cond: Tree, yes: Tree, no: Tree)

  /** The syntax tree of a derivation. */
  function Erase(t: Tree): Expr {
    match t
    case TNull => NullExpr
    case TConst(v) => Constant(v)
    case TVar(x) => Var(x)
    case TUnary(op, a) => Unary(op, Erase(a))
    case TParen(a) => Erase(a)
    case TBinary(op, l, r) => Binary(op, Erase(l), Erase(r))
    case TAssign(l, r) => Assignment(Erase(l), Erase(r))
    case TCond(c, a, b) => Conditional(Erase(c), Erase(a), Erase(b))
  }

  predicate NoNull(t: Tree) {
    match t
    case TNull => false
    case TConst(_) => true
    case TVar(_) => true
    case TUnary(_, a) => NoNull(a)
    case TParen(a) => NoNull(a)
    case TBinary(_, l, r) => NoNull(l) && NoNull(r)
    case TAssign(l, r) => NoNull(l) && NoNull(r)
    case TCond(c, a, b) => NoNull(c) && NoNull(a) && NoNull(b)
  }

  lemma {:induction false} NullFreeErase(t: Tree)
    ensures NullFree(Erase(t)) <==> NoNull(t)
  {
    match t {
      case TUnary(_, a) => NullFreeErase(a);
      case TParen(a) => NullFreeErase(a);
      case TBinary(_, l, r) => NullFreeErase(l); NullFreeErase(r);
      case TAssign(l, r) => NullFreeErase(l); NullFreeErase(r);
      case TCond(c, a, b) => NullFreeErase(c); NullFreeErase(a); NullFreeErase(b);
      case _ =>
    }
  }

  const PRIMARY := 100

  /** The precedence of the operator at the top. */
  function Top(t: Tree): int {
    match t
    case TBinary(op, _, _) => Level(op)
    case TAssign(_, _) => ASSIGNMENT_LEVEL
    case TCond(_, _, _) => CONDITIONAL_LEVEL
    case _ => PRIMARY
  }

  /** Every operand is at the level its place asks for: the left operand of a binary operator at the level of the
      operator, the right one above it; `=` and `?:` group to the right. */
  predicate Stratified(t: Tree) {
    match t
    case TNull => false
    case TConst(_) => true
    case TVar(_) => true
    case TUnary(_, a) => Top(a) == PRIMARY && Stratified(a)
    case TParen(a) => Stratified(a)
    case TBinary(op, l, r) => Top(l) >= Level(op) && Top(r) > Level(op) && Stratified(l) && Stratified(r)
    case TAssign(l, r) => Top(l) > ASSIGNMENT_LEVEL && Top(r) >= ASSIGNMENT_LEVEL && Stratified(l) && Stratified(r)
    case TCond(c, a, b) => Top(c) > CONDITIONAL_LEVEL && Top(b) >= CONDITIONAL_LEVEL
                           && Stratified(c) && Stratified(a) && Stratified(b)
  }

  lemma {:induction false} StratifiedNoNull(t: Tree)
    requires Stratified(t)
    ensures NoNull(t)
  {
    match t {
      case TUnary(_, a) => StratifiedNoNull(a);
      case TParen(a) => StratifiedNoNull(a);
      case TBinary(_, l, r) => StratifiedNoNull(l); StratifiedNoNull(r);
      case TAssign(l, r) => StratifiedNoNull(l); StratifiedNoNull(r);
      case TCond(c, a, b) => StratifiedNoNull(c); StratifiedNoNull(a); StratifiedNoNull(b);
      case _ =>
    }
  }

  /** A derivation at level m. */
  predicate Fits(t: Tree, m: int) { Stratified(t) && Top(t) >= m }

  // ----- the tokens of a derivation -----

  /** What the parser reads of a token. */
  datatype Lexeme = Number(value: Word) | Name(text: string) | Symbol(kind: K.TokenType)

  function Look(t: K.Token): Lexeme {
    if t.kind == K.Numeral then Number(K.IntOf(t.text))
    else if t.kind == K.Identifier then Name(t.text)
    else Symbol(t.kind)
  }

  type Input = List<Lexeme>

  /** The kind of the next token; the input ends with an end of file. */
  function Kind(ts: Input): (k: K.TokenType)
    ensures k != K.Numeral && k != K.Identifier && k != K.EndOfFile ==> ts.Cons? && ts.head == Symbol(k)
  {
    match ts
    case Nil => K.EndOfFile
    case Cons(Number(_), _) => K.Numeral
    case Cons(Name(_), _) => K.Identifier
    case Cons(Symbol(k), _) => k
  }

  /** The tokens of the derivation, and then `rest`. */
  function Emit(t: Tree, rest: Input): Input {
    match t
    case TNull => rest
    case TConst(v) => Cons(Number(v), rest)
    case TVar(x) => Cons(Name(x), rest)
    case TUnary(op, a) => Cons(Symbol(UnaryToken(op)), Emit(a, rest))
    case TParen(a) => Cons(Symbol(K.OpenParenthesis), Emit(a, Cons(Symbol(K.CloseParenthesis), rest)))
    case TBinary(op, l, r) => Emit(l, Cons(Symbol(BinaryToken(op)), Emit(r, rest)))
    case TAssign(l, r) => Emit(l, Cons(Symbol(K.Assign), Emit(r, rest)))
    case TCond(c, a, b) =>
      Emit(c, Cons(Symbol(K.QuestionMark), Emit(a, Cons(Symbol(K.Colon), Emit(b, rest)))))
  }

  // ----- statements -----

  /** `return;` holds a TNull. */
  datatype StmtTree =
    | SReturn(result: Tree)
    | SIf(test: Tree, thn: StmtTree, els: Option<StmtTree>)
    | SExpr(e: Tree)
    | SBlock(items: List<ItemTree>)
    | SEmpty

  /** A declaration without initializer holds a TNull. */
  datatype ItemTree = IDeclaration(name: string, init: Tree) | IStatement(s: StmtTree)

  datatype FunctionTree = FunctionTree(name: string, body: List<ItemTree>)

  function EraseStmt(s: StmtTree): Stmt
    decreases s, 1
  {
    match s
    case SReturn(e) => Return(Erase(e))
    case SIf(c, t, f) => If(Erase(c), EraseStmt(t), EraseElse(f))
    case SExpr(e) => Expression(Erase(e))
    case SBlock(items) => Compound(EraseItems(items))
    case SEmpty => Empty
  }

  function EraseElse(f: Option<StmtTree>): Option<Stmt>
    decreases f, 2
  {
    if f.Some? then Some(EraseStmt(f.value)) else None
  }

  function EraseItem(item: ItemTree): BlockItem
    decreases item, 2
  {
    match item
    case IDeclaration(x, init) => Declaration(x, Erase(init))
    case IStatement(s) => Statement(EraseStmt(s))
  }

  function EraseItems(items: List<ItemTree>): seq<BlockItem>
    decreases items, 0
  {
    if items.Nil? then [] else [EraseItem(items.head)] + EraseItems(items.tail)
  }

  function EraseFunction(f: FunctionTree): Function { Function(f.name, EraseItems(f.body)) }

  /** The statement ends in an `if` without `else`, so that an `else` after it would be taken for that `if`. */
  predicate EndsOpen(s: StmtTree) { s.SIf? && (s.els.None? || EndsOpen(s.els.value)) }

  /** Every expression is a derivation, and no `else` could belong to a nearer `if` (C11 6.8.4.1 p3). */
  predicate Proper(s: StmtTree)
    decreases s, 1
  {
    match s
    case SReturn(e) => e.TNull? || Stratified(e)
    case SIf(c, t, f) => Stratified(c) && Proper(t) && (f.Some? ==> !EndsOpen(t) && Proper(f.value))
    case SExpr(e) => Stratified(e)
    case SBlock(items) => ProperItems(items)
    case SEmpty => true
  }

  predicate ProperItem(item: ItemTree)
    decreases item, 2
  {
    match item
    case IDeclaration(_, init) => init.TNull? || Stratified(init)
    case IStatement(s) => Proper(s)
  }

  predicate ProperItems(items: List<ItemTree>)
    decreases items, 0
  {
    items.Cons? ==> ProperItem(items.head) && ProperItems(items.tail)
  }

  function EmitStmt(s: StmtTree, rest: Input): Input
    decreases s, 1
  {
    match s
    case SReturn(e) => Cons(Symbol(K.ReturnKeyword), Emit(e, Cons(Symbol(K.Semicolon), rest)))
    case SIf(c, t, f) =>
      Cons(Symbol(K.IfKeyword), Cons(Symbol(K.OpenParenthesis), Emit(c, Cons(Symbol(K.CloseParenthesis),
        EmitStmt(t, if f.Some? then Cons(Symbol(K.ElseKeyword), EmitStmt(f.value, rest)) else rest)))))
    case SExpr(e) => Emit(e, Cons(Symbol(K.Semicolon), rest))
    case SBlock(items) => Cons(Symbol(K.OpenBrace), EmitItems(items, Cons(Symbol(K.CloseBrace), rest)))
    case SEmpty => Cons(Symbol(K.Semicolon), rest)
  }

  function EmitItem(item: ItemTree, rest: Input): Input
    decreases item, 2
  {
    match item
    case IDeclaration(x, init) =>
      var more := Cons(Symbol(K.Semicolon), rest);
      Cons(Symbol(K.IntKeyword), Cons(Name(x), if init.TNull? then more else Cons(Symbol(K.Assign), Emit(init, more))))
    case IStatement(s) => EmitStmt(s, rest)
  }

  function EmitItems(items: List<ItemTree>, rest: Input): Input
    decreases items, 0
  {
    if items.Nil? then rest else EmitItem(items.head, EmitItems(items.tail, rest))
  }

  function EmitFunction(f: FunctionTree, rest: Input): Input {
    Cons(Symbol(K.IntKeyword), Cons(Name(f.name), Cons(Symbol(K.OpenParenthesis), Cons(Symbol(K.VoidKeyword),
      Cons(Symbol(K.CloseParenthesis), EmitStmt(SBlock(f.body), rest))))))
  }

  /** A whole program: one function and the end of the file. */
  function EmitProgram(f: FunctionTree): Input { EmitFunction(f, Cons(Symbol(K.EndOfFile), Nil)) }
}
