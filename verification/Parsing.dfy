/** Precedence climbing, and the statements around it. */
module Parsing {
  // The parser as functions of the remaining input; the parser object is proved to
  // compute these.

  import opened Options
  import opened Ast
  import opened Flow
  import opened Grammar
  import K = Tokens

  /** An exception of the parser, or a result and the input after it. */
  datatype Parsed<+T> = SyntaxError | Ok(value: T, rest: Input)

  function Size(ts: Input): nat { if ts.Nil? then 0 else 1 + Size(ts.tail) }

  function OperatorOf(k: K.TokenType): Option<BinaryOpType> {
    match k
    case Addition => Some(Add)
    case Minus => Some(Sub)
    case Multiplication => Some(Mul)
    case Division => Some(Div)
    case Modulus => Some(Rem)
    case AndAnd => Some(And)
    case OrOr => Some(Or)
    case Equality => Some(Equal)
    case NotEquality => Some(NotEqual)
    case Lesser => Some(LessThan)
    case LesserEqual => Some(LessOrEqual)
    case Greater => Some(GreaterThan)
    case GreaterEqual => Some(GreaterOrEqual)
    case _ => None
  }

  function UnaryOf(k: K.TokenType): Option<UnaryOpType> {
    match k
    case Tilde => Some(Complement)
    case Minus => Some(Negate)
    case Bang => Some(Not)
    case _ => None
  }

  lemma OperatorToken(k: K.TokenType, op: BinaryOpType)
    ensures OperatorOf(k) == Some(op) <==> k == BinaryToken(op)
  {}

  lemma UnaryTokenOf(k: K.TokenType, op: UnaryOpType)
    ensures UnaryOf(k) == Some(op) <==> k == UnaryToken(op)
  {}

  /** A null result consumes nothing, any other at least one token. */
  ghost predicate Shrinks(r: Parsed<Tree>, ts: Input) {
    r.Ok? ==> if r.value.TNull? then r.rest == ts else Size(r.rest) < Size(ts)
  }

  /** A token of kind k, which must be the next one. */
  function Expect<T>(r: Parsed<T>, k: K.TokenType): (q: Parsed<T>)
    requires k != K.EndOfFile
    ensures q.Ok? ==> r.Ok? && Size(q.rest) < Size(r.rest)
  {
    if r.SyntaxError? || Kind(r.rest) != k then SyntaxError else Ok(r.value, r.rest.tail)
  }

  function Factor(ts: Input): (r: Parsed<Tree>)
    ensures Shrinks(r, ts)
    decreases Size(ts), 0
  {
    match ts
    case Nil => Ok(TNull, ts)
    case Cons(Number(v), rest) => Ok(TConst(v), rest)
    case Cons(Name(x), rest) => Ok(TVar(x), rest)
    case Cons(Symbol(k), rest) =>
      if UnaryOf(k).Some? then
        var r := Factor(rest);
        if r.SyntaxError? || r.value.TNull? then SyntaxError else Ok(TUnary(UnaryOf(k).value, r.value), r.rest)
      else if k == K.OpenParenthesis then
        var r := Climb(rest, 0);
        if r.SyntaxError? || r.value.TNull? || Kind(r.rest) != K.CloseParenthesis then SyntaxError
        else Ok(TParen(r.value), r.rest.tail)
      else Ok(TNull, ts)
  }

  /** parse_expr: a factor, then operators of precedence `m` or more. */
  function Climb(ts: Input, m: nat): (r: Parsed<Tree>)
    ensures Shrinks(r, ts)
    decreases Size(ts), 2
  {
    var l := Factor(ts);
    if l.SyntaxError? || l.value.TNull? then l else Loop(l.rest, m, l.value)
  }

  function Loop(ts: Input, m: nat, left: Tree): (r: Parsed<Tree>)
    requires !left.TNull?
    ensures r.Ok? ==> Size(r.rest) <= Size(ts) && !r.value.TNull?
    decreases Size(ts), 1
  {
    if Precedence(Kind(ts)) < m then Ok(left, ts)
    else
      var r := Step(ts, left);
      if r.SyntaxError? then r else Loop(r.rest, m, r.value)
  }

  /** One round of the loop: the operator that comes next, and its right operand. */
  function Step(ts: Input, left: Tree): (r: Parsed<Tree>)
    requires !left.TNull? && Precedence(Kind(ts)) >= 0
    ensures r.Ok? ==> Size(r.rest) < Size(ts) && !r.value.TNull?
    decreases Size(ts), 0
  {
    var k := Kind(ts);
    if k == K.Assign then
      var r := Climb(ts.tail, ASSIGNMENT_LEVEL);
      if r.SyntaxError? || r.value.TNull? then SyntaxError else Ok(TAssign(left, r.value), r.rest)
    else if k == K.QuestionMark then
      var b := Branches(ts.tail);
      if b.SyntaxError? then SyntaxError else Ok(TCond(left, b.value.0, b.value.1), b.rest)
    else if OperatorOf(k).None? then SyntaxError
    else
      var r := Climb(ts.tail, Precedence(k) + 1);
      if r.SyntaxError? || r.value.TNull? then SyntaxError else Ok(TBinary(OperatorOf(k).value, left, r.value), r.rest)
  }

  /** The round for a binary operator. */
  lemma {:induction false} BinaryIs(ts: Input, left: Tree)
    requires !left.TNull? && Precedence(Kind(ts)) >= 0 && Kind(ts) != K.Assign && Kind(ts) != K.QuestionMark
    ensures var op, r := OperatorOf(Kind(ts)), Climb(ts.tail, Precedence(Kind(ts)) + 1);
      Step(ts, left) == if op.None? || r.SyntaxError? || r.value.TNull? then SyntaxError
                        else Ok(TBinary(op.value, left, r.value), r.rest)
  {}

  /** After the `?`: neither operand is checked for null. */
  function Branches(ts: Input): (r: Parsed<(Tree, Tree)>)
    ensures r.Ok? ==> Size(r.rest) <= Size(ts)
    decreases Size(ts), 3
  {
    var a := Expect(Climb(ts, 0), K.Colon);
    if a.SyntaxError? then SyntaxError
    else
      var b := Climb(a.rest, CONDITIONAL_LEVEL);
      if b.SyntaxError? then SyntaxError else Ok((a.value, b.value), b.rest)
  }

  lemma {:induction false} QuestionIs(ts: Input, left: Tree)
    requires !left.TNull? && Kind(ts) == K.QuestionMark
    ensures var b := Branches(ts.tail);
      Step(ts, left) == if b.SyntaxError? then SyntaxError else Ok(TCond(left, b.value.0, b.value.1), b.rest)
  {}

  // ----- statements -----

  ghost predicate Shorter<T>(r: Parsed<T>, ts: Input) { r.Ok? ==> Size(r.rest) < Size(ts) }

  /** An expression where a null pointer is an error. */
  function FullExpr(ts: Input): (r: Parsed<Tree>)
    ensures Shorter(r, ts) && (r.Ok? ==> !r.value.TNull?)
  {
    var r := Climb(ts, 0);
    if r.SyntaxError? || r.value.TNull? then SyntaxError else r
  }

  function ReadStatement(ts: Input): (r: Parsed<StmtTree>)
    ensures Shorter(r, ts)
    decreases Size(ts), 1
  {
    var k := Kind(ts);
    if k == K.ReturnKeyword then
      var r := if Kind(ts.tail) == K.Semicolon then Ok(TNull, ts.tail) else FullExpr(ts.tail);
      var q := Expect(r, K.Semicolon);
      if q.SyntaxError? then SyntaxError else Ok(SReturn(q.value), q.rest)
    else if k == K.Semicolon then Ok(SEmpty, ts.tail)
    else if k == K.OpenBrace then
      var q := Expect(ReadItems(ts.tail), K.CloseBrace);
      if q.SyntaxError? then SyntaxError else Ok(SBlock(q.value), q.rest)
    else if k == K.IfKeyword then ReadIf(ts.tail)
    else
      var q := Expect(FullExpr(ts), K.Semicolon);
      if q.SyntaxError? then SyntaxError else Ok(SExpr(q.value), q.rest)
  }

  /** After the `if`. */
  function ReadIf(ts: Input): (r: Parsed<StmtTree>)
    ensures Shorter(r, ts)
    decreases Size(ts), 3
  {
    if Kind(ts) != K.OpenParenthesis then SyntaxError
    else
      var c := Expect(FullExpr(ts.tail), K.CloseParenthesis);
      if c.SyntaxError? then SyntaxError
      else
        var t := ReadStatement(c.rest);
        if t.SyntaxError? then SyntaxError
        else
          var f := ReadElse(t.rest);
          if f.SyntaxError? then SyntaxError else Ok(SIf(c.value, t.value, f.value), f.rest)
  }

  /** The `else` branch, if there is one. */
  function ReadElse(ts: Input): (r: Parsed<Option<StmtTree>>)
    ensures r.Ok? ==> Size(r.rest) <= Size(ts)
    decreases Size(ts), 2
  {
    if Kind(ts) != K.ElseKeyword then Ok(None, ts)
    else
      var f := ReadStatement(ts.tail);
      if f.SyntaxError? then SyntaxError else Ok(Some(f.value), f.rest)
  }

  predicate NameNext(ts: Input) { ts.Cons? && ts.head.Name? }

  /** After the `int`. */
  function ReadDeclaration(ts: Input): (r: Parsed<ItemTree>)
    ensures Shorter(r, ts)
  {
    if !NameNext(ts) then SyntaxError
    else
      var x := ts.head.text;
      var r := if Kind(ts.tail) == K.Assign then FullExpr(ts.tail.tail) else Ok(TNull, ts.tail);
      var q := Expect(r, K.Semicolon);
      if q.SyntaxError? then SyntaxError else Ok(IDeclaration(x, q.value), q.rest)
  }

  function ReadItem(ts: Input): (r: Parsed<ItemTree>)
    ensures Shorter(r, ts)
    decreases Size(ts), 2
  {
    if Kind(ts) == K.IntKeyword then ReadDeclaration(ts.tail)
    else
      var r := ReadStatement(ts);
      if r.SyntaxError? then SyntaxError else Ok(IStatement(r.value), r.rest)
  }

  /** Items up to a closing brace. */
  function ReadItems(ts: Input): (r: Parsed<List<ItemTree>>)
    ensures r.Ok? ==> Size(r.rest) <= Size(ts)
    decreases Size(ts), 3
  {
    if Kind(ts) == K.CloseBrace then Ok(Nil, ts)
    else
      var r := ReadItem(ts);
      if r.SyntaxError? then SyntaxError
      else
        var q := ReadItems(r.rest);
        if q.SyntaxError? then SyntaxError else Ok(Cons(r.value, q.value), q.rest)
  }

  function ReadBlock(ts: Input): (r: Parsed<List<ItemTree>>)
    ensures Shorter(r, ts)
  {
    if Kind(ts) != K.OpenBrace then SyntaxError else Expect(ReadItems(ts.tail), K.CloseBrace)
  }

  /** From the `int` to the closing parenthesis: the name of the function. */
  function ReadHeader(ts: Input): Parsed<string> {
    if Kind(ts) != K.IntKeyword || !NameNext(ts.tail) then SyntaxError
    else
      var p := ts.tail.tail;
      if Kind(p) == K.OpenParenthesis && Kind(p.tail) == K.VoidKeyword && Kind(p.tail.tail) == K.CloseParenthesis
      then Ok(ts.tail.head.text, p.tail.tail.tail)
      else SyntaxError
  }

  function ReadFunction(ts: Input): Parsed<FunctionTree> {
    var h := ReadHeader(ts);
    if h.SyntaxError? then SyntaxError
    else
      var b := ReadBlock(h.rest);
      if b.SyntaxError? then SyntaxError else Ok(FunctionTree(h.value, b.value), b.rest)
  }

  function ReadProgram(ts: Input): Parsed<FunctionTree> {
    var f := ReadFunction(ts);
    if f.Ok? && Kind(f.rest) != K.EndOfFile then SyntaxError else f
  }
}
