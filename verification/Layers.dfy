/** C11 expression grammar. */
module Layers {
  // One nonterminal for each class of operators (C11 6.5.3 to 6.5.16), written without
  // precedence numbers and proved to be what the stratified grammar, and so the parser,
  // reads.  The parser lets any conditional expression stand to the left of `=`, where
  // C11 asks for a unary expression; scope analysis rejects what is not a variable.

  import opened Ast
  import opened Grammar
  import opened Parsing
  import opened ParserCorrect
  import opened LexerCorrect
  import K = Tokens

  predicate Primary(t: Tree)
    decreases t, 0
  {
    t.TConst? || t.TVar? || (t.TParen? && Expression(t.inner))
  }

  predicate UnaryExpression(t: Tree)
    decreases t, 1
  {
    Primary(t) || (t.TUnary? && UnaryExpression(t.inner))
  }

  predicate Multiplicative(t: Tree)
    decreases t, 2
  {
    || UnaryExpression(t)
    || (t.TBinary? && (t.binop == Mul || t.binop == Div || t.binop == Rem)
        && Multiplicative(t.left) && UnaryExpression(t.right))
  }

  predicate Additive(t: Tree)
    decreases t, 3
  {
    Multiplicative(t) || (t.TBinary? && (t.binop == Add || t.binop == Sub) && Additive(t.left) && Multiplicative(t.right))
  }

  predicate Relational(t: Tree)
    decreases t, 4
  {
    || Additive(t)
    || (t.TBinary? && Relational(t.left) && Additive(t.right)
        && (t.binop == LessThan || t.binop == LessOrEqual || t.binop == GreaterThan || t.binop == GreaterOrEqual))
  }

  predicate Comparison(t: Tree)
    decreases t, 5
  {
    Relational(t) || (t.TBinary? && (t.binop == Equal || t.binop == NotEqual) && Comparison(t.left) && Relational(t.right))
  }

  predicate LogicalAnd(t: Tree)
    decreases t, 6
  {
    Comparison(t) || (t.TBinary? && t.binop == And && LogicalAnd(t.left) && Comparison(t.right))
  }

  predicate LogicalOr(t: Tree)
    decreases t, 7
  {
    LogicalAnd(t) || (t.TBinary? && t.binop == Or && LogicalOr(t.left) && LogicalAnd(t.right))
  }

  predicate ConditionalExpression(t: Tree)
    decreases t, 8
  {
    LogicalOr(t) || (t.TCond? && LogicalOr(t.cond) && Expression(t.yes) && ConditionalExpression(t.no))
  }

  predicate Expression(t: Tree)
    decreases t, 9
  {
    ConditionalExpression(t) || (t.TAssign? && ConditionalExpression(t.left) && Expression(t.right))
  }

  // ----- the levels of the operators -----

  /** Nothing lies between an operator and the next layer. */
  lemma NextLayer(t: Tree)
    ensures Top(t) > Level(Mul) <==> Top(t) >= PRIMARY
    ensures Top(t) > Level(Add) <==> Top(t) >= Level(Mul)
    ensures Top(t) > Level(LessThan) <==> Top(t) >= Level(Add)
    ensures Top(t) > Level(Equal) <==> Top(t) >= Level(LessThan)
    ensures Top(t) > Level(And) <==> Top(t) >= Level(Equal)
    ensures Top(t) > Level(Or) <==> Top(t) >= Level(And)
    ensures Top(t) > CONDITIONAL_LEVEL <==> Top(t) >= Level(Or)
  {
    match t {
      case TBinary(op, _, _) => OperatorLevels(op);
      case _ =>
    }
  }

  /** Which operators share a level. */
  lemma OperatorLevels(op: BinaryOpType)
    ensures Level(op) == Level(Mul) <==> op == Mul || op == Div || op == Rem
    ensures Level(op) == Level(Add) <==> op == Add || op == Sub
    ensures Level(op) == Level(LessThan) <==>
            op == LessThan || op == LessOrEqual || op == GreaterThan || op == GreaterOrEqual
    ensures Level(op) == Level(Equal) <==> op == Equal || op == NotEqual
    ensures Level(op) == Level(And) <==> op == And
    ensures Level(op) == Level(Or) <==> op == Or
    ensures Level(op) in {Level(Mul), Level(Add), Level(LessThan), Level(Equal), Level(And), Level(Or)}
    ensures ASSIGNMENT_LEVEL < CONDITIONAL_LEVEL < Level(Or) < Level(And)
    ensures Level(And) < Level(Equal) < Level(LessThan) < Level(Add) < Level(Mul)
  {}

  // ----- the layers are the levels -----

  lemma {:induction false} PrimaryIs(t: Tree)
    ensures Primary(t) <==> (t.TConst? || t.TVar? || t.TParen?) && Stratified(t)
    decreases t, 0
  {
    if t.TParen? { ExpressionIs(t.inner); }
  }

  lemma {:induction false} UnaryIs(t: Tree)
    ensures UnaryExpression(t) <==> Fits(t, PRIMARY)
    decreases t, 1
  {
    PrimaryIs(t);
    if t.TUnary? { UnaryIs(t.inner); }
  }

  lemma {:induction false} MultiplicativeIs(t: Tree)
    ensures Multiplicative(t) <==> Fits(t, Level(Mul))
    decreases t, 2
  {
    UnaryIs(t);
    NextLayer(t);
    if t.TBinary? {
      OperatorLevels(t.binop);
      MultiplicativeIs(t.left);
      UnaryIs(t.right);
      NextLayer(t.right);
    }
  }

  lemma {:induction false} AdditiveIs(t: Tree)
    ensures Additive(t) <==> Fits(t, Level(Add))
    decreases t, 3
  {
    MultiplicativeIs(t);
    NextLayer(t);
    if t.TBinary? {
      OperatorLevels(t.binop);
      AdditiveIs(t.left);
      MultiplicativeIs(t.right);
      NextLayer(t.right);
    }
  }

  lemma {:induction false} RelationalIs(t: Tree)
    ensures Relational(t) <==> Fits(t, Level(LessThan))
    decreases t, 4
  {
    AdditiveIs(t);
    NextLayer(t);
    if t.TBinary? {
      OperatorLevels(t.binop);
      RelationalIs(t.left);
      AdditiveIs(t.right);
      NextLayer(t.right);
    }
  }

  lemma {:induction false} ComparisonIs(t: Tree)
    ensures Comparison(t) <==> Fits(t, Level(Equal))
    decreases t, 5
  {
    RelationalIs(t);
    NextLayer(t);
    if t.TBinary? {
      OperatorLevels(t.binop);
      ComparisonIs(t.left);
      RelationalIs(t.right);
      NextLayer(t.right);
    }
  }

  lemma {:induction false} LogicalAndIs(t: Tree)
    ensures LogicalAnd(t) <==> Fits(t, Level(And))
    decreases t, 6
  {
    ComparisonIs(t);
    NextLayer(t);
    if t.TBinary? {
      OperatorLevels(t.binop);
      LogicalAndIs(t.left);
      ComparisonIs(t.right);
      NextLayer(t.right);
    }
  }

  lemma {:induction false} LogicalOrIs(t: Tree)
    ensures LogicalOr(t) <==> Fits(t, Level(Or))
    decreases t, 7
  {
    LogicalAndIs(t);
    NextLayer(t);
    if t.TBinary? {
      OperatorLevels(t.binop);
      LogicalOrIs(t.left);
      LogicalAndIs(t.right);
      NextLayer(t.right);
    }
  }

  lemma {:induction false} ConditionalIs(t: Tree)
    ensures ConditionalExpression(t) <==> Fits(t, CONDITIONAL_LEVEL)
    decreases t, 8
  {
    LogicalOrIs(t);
    NextLayer(t);
    if t.TCond? {
      LogicalOrIs(t.cond);
      NextLayer(t.cond);
      ExpressionIs(t.yes);
      ConditionalIs(t.no);
    }
  }

  /** The expressions of C11 are the trees stratified by precedence. */
  lemma {:induction false} ExpressionIs(t: Tree)
    ensures Expression(t) <==> Stratified(t)
    decreases t, 9
  {
    ConditionalIs(t);
    if t.TAssign? {
      ConditionalIs(t.left);
      ExpressionIs(t.right);
    }
  }

  // ----- the terminals -----

  function OperatorText(op: BinaryOpType): string {
    match op
    case Add => "+"
    case Sub => "-"
    case Mul => "*"
    case Div => "/"
    case Rem => "%"
    case And => "&&"
    case Or => "||"
    case Equal => "=="
    case NotEqual => "!="
    case LessThan => "<"
    case LessOrEqual => "<="
    case GreaterThan => ">"
    case GreaterOrEqual => ">="
  }

  function UnaryText(op: UnaryOpType): string {
    match op
    case Complement => "~"
    case Negate => "-"
    case Not => "!"
  }

  /** From the characters to the operator of the tree and back: a token that is read as an operator is spelled as C11
      spells it. */
  lemma OperatorsSpelled(k: K.TokenType)
    ensures OperatorOf(k).Some? ==> Spelling(k) == OperatorText(OperatorOf(k).value)
    ensures UnaryOf(k).Some? ==> Spelling(k) == UnaryText(UnaryOf(k).value)
  {}

  lemma PunctuationSpelled()
    ensures Spelling(K.Assign) == "=" && Spelling(K.QuestionMark) == "?" && Spelling(K.Colon) == ":"
    ensures Spelling(K.OpenParenthesis) == "(" && Spelling(K.CloseParenthesis) == ")"
    ensures Spelling(K.OpenBrace) == "{" && Spelling(K.CloseBrace) == "}" && Spelling(K.Semicolon) == ";"
    ensures Spelling(K.IntKeyword) == "int" && Spelling(K.VoidKeyword) == "void" && Spelling(K.ReturnKeyword) == "return"
    ensures Spelling(K.IfKeyword) == "if" && Spelling(K.ElseKeyword) == "else"
  {}

  // ----- the parser -----

  /** A token that goes on with an expression. */
  predicate GoesOn(k: K.TokenType) { OperatorOf(k).Some? || k == K.QuestionMark || k == K.Assign }

  lemma GoesOnIs(k: K.TokenType)
    ensures GoesOn(k) <==> Precedence(k) >= 0
  {}

  /** A whole expression is read exactly when the tokens are one by the grammar of C11 and it cannot go on. */
  lemma ParsesExpressions(ts: Input, t: Tree, rest: Input)
    ensures Climb(ts, 0) == Ok(t, rest) && NullFree(Erase(t)) <==>
            Expression(t) && ts == Emit(t, rest) && !GoesOn(Kind(rest))
  {
    ParsesExactly(ts, 0, t, rest);
    ExpressionIs(t);
    GoesOnIs(Kind(rest));
    TopPositive(t);
  }

  lemma TopPositive(t: Tree)
    ensures Top(t) >= 0
  {}

  /** The right operand of a binary operator is an expression of the next layer: this is what groups operators. */
  lemma OperandLayers(op: BinaryOpType, l: Tree, r: Tree)
    ensures Expression(TBinary(op, l, r)) <==>
      match op
      case Mul => Multiplicative(l) && UnaryExpression(r)
      case Div => Multiplicative(l) && UnaryExpression(r)
      case Rem => Multiplicative(l) && UnaryExpression(r)
      case Add => Additive(l) && Multiplicative(r)
      case Sub => Additive(l) && Multiplicative(r)
      case And => LogicalAnd(l) && Comparison(r)
      case Or => LogicalOr(l) && LogicalAnd(r)
      case Equal => Comparison(l) && Relational(r)
      case NotEqual => Comparison(l) && Relational(r)
      case _ => Relational(l) && Additive(r)
  {
    ExpressionIs(TBinary(op, l, r));
    OperatorLevels(op);
    NextLayer(r);
    MultiplicativeIs(l);
    AdditiveIs(l);
    RelationalIs(l);
    ComparisonIs(l);
    LogicalAndIs(l);
    LogicalOrIs(l);
    UnaryIs(r);
    MultiplicativeIs(r);
    AdditiveIs(r);
    RelationalIs(r);
    ComparisonIs(r);
    LogicalAndIs(r);
  }
}
