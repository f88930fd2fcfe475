/** No token is lost. */
module Reading {
  // The parser neither drops, adds nor reorders anything: apart from parentheses, the
  // tokens of a program are those of its syntax tree, read from left to right.

  import opened Ast
  import opened Flow
  import opened Grammar
  import opened Parsing
  import opened StatementParser
  import opened RoundTrip
  import K = Tokens

  predicate IsParenthesis(l: Lexeme) { l == Symbol(K.OpenParenthesis) || l == Symbol(K.CloseParenthesis) }

  function Strip(ts: Input): Input {
    if ts.Nil? then Nil else if IsParenthesis(ts.head) then Strip(ts.tail) else Cons(ts.head, Strip(ts.tail))
  }

  // ----- the tokens of a syntax tree, from left to right -----

  function Infix(e: Expr, rest: Input): Input {
    match e
    case NullExpr => rest
    case Constant(v) => Cons(Number(v), rest)
    case Var(x) => Cons(Name(x), rest)
    case Unary(op, a) => Cons(Symbol(UnaryToken(op)), Infix(a, rest))
    case Binary(op, a, b) => Infix(a, Cons(Symbol(BinaryToken(op)), Infix(b, rest)))
    case Assignment(a, b) => Infix(a, Cons(Symbol(K.Assign), Infix(b, rest)))
    case Conditional(c, a, b) =>
      Infix(c, Cons(Symbol(K.QuestionMark), Infix(a, Cons(Symbol(K.Colon), Infix(b, rest)))))
  }

  function InfixStmt(s: Stmt, rest: Input): Input
    decreases s, 1
  {
    match s
    case Return(e) => Cons(Symbol(K.ReturnKeyword), Infix(e, Cons(Symbol(K.Semicolon), rest)))
    case If(c, a, b) =>
      var more := if b.Some? then Cons(Symbol(K.ElseKeyword), InfixStmt(b.value, rest)) else rest;
      Cons(Symbol(K.IfKeyword), Infix(c, InfixStmt(a, more)))
    case Expression(e) => Infix(e, Cons(Symbol(K.Semicolon), rest))
    case Compound(items) => Cons(Symbol(K.OpenBrace), InfixItems(items, Cons(Symbol(K.CloseBrace), rest)))
    case Empty => Cons(Symbol(K.Semicolon), rest)
  }

  function InfixItem(item: BlockItem, rest: Input): Input
    decreases item, 2
  {
    match item
    case Declaration(x, init) =>
      var more := Infix(init, Cons(Symbol(K.Semicolon), rest));
      Cons(Symbol(K.IntKeyword), Cons(Name(x), if init == NullExpr then more else Cons(Symbol(K.Assign), more)))
    case Statement(s) => InfixStmt(s, rest)
  }

  function InfixItems(items: seq<BlockItem>, rest: Input): Input
    decreases items, 0
  {
    if items == [] then rest else InfixItem(items[0], InfixItems(items[1..], rest))
  }

  /** `int`, the name, `void` and the body. */
  function InfixFunction(f: Function, rest: Input): Input {
    Cons(Symbol(K.IntKeyword), Cons(Name(f.name), Cons(Symbol(K.VoidKeyword), InfixStmt(Compound(f.body), rest))))
  }

  // ----- a derivation has the tokens of its tree -----

  lemma Keeps(l: Lexeme, rest: Input)
    requires !IsParenthesis(l)
    ensures Strip(Cons(l, rest)) == Cons(l, Strip(rest))
  {}

  lemma {:induction false} ExprKept(t: Tree, rest: Input)
    ensures Strip(Emit(t, rest)) == Infix(Erase(t), Strip(rest))
    decreases t, 1
  {
    match t {
      case TUnary(_, a) => ExprKept(a, rest);
      case TParen(a) => ExprKept(a, Cons(Symbol(K.CloseParenthesis), rest));
      case TBinary(op, a, b) =>
        ExprKept(a, Cons(Symbol(BinaryToken(op)), Emit(b, rest)));
        ExprKept(b, rest);
      case TAssign(a, b) =>
        ExprKept(a, Cons(Symbol(K.Assign), Emit(b, rest)));
        ExprKept(b, rest);
      case TCond(c, a, b) => ConditionalKept(c, a, b, rest);
      case _ =>
    }
  }

  lemma {:induction false} ConditionalKept(c: Tree, a: Tree, b: Tree, rest: Input)
    ensures Strip(Emit(TCond(c, a, b), rest)) == Infix(Erase(TCond(c, a, b)), Strip(rest))
    decreases TCond(c, a, b), 0
  {
    var more := Cons(Symbol(K.Colon), Emit(b, rest));
    ExprKept(c, Cons(Symbol(K.QuestionMark), Emit(a, more)));
    ExprKept(a, more);
    ExprKept(b, rest);
    Keeps(Symbol(K.Colon), Emit(b, rest));
    Keeps(Symbol(K.QuestionMark), Emit(a, more));
  }

  lemma {:induction false} StmtKept(s: StmtTree, rest: Input)
    requires Whole(s)
    ensures Strip(EmitStmt(s, rest)) == InfixStmt(EraseStmt(s), Strip(rest))
    decreases s, 1
  {
    match s {
      case SReturn(e) => ExprKept(e, Cons(Symbol(K.Semicolon), rest));
      case SIf(_, _, _) => IfKept(s, rest);
      case SExpr(e) => ExprKept(e, Cons(Symbol(K.Semicolon), rest));
      case SBlock(items) => ItemsKept(items, Cons(Symbol(K.CloseBrace), rest));
      case SEmpty =>
    }
  }

  lemma {:induction false} IfKept(s: StmtTree, rest: Input)
    requires s.SIf? && Whole(s)
    ensures Strip(EmitStmt(s, rest)) == InfixStmt(EraseStmt(s), Strip(rest))
    decreases s, 0
  {
    var more := if s.els.Some? then Cons(Symbol(K.ElseKeyword), EmitStmt(s.els.value, rest)) else rest;
    if s.els.Some? { StmtKept(s.els.value, rest); }
    StmtKept(s.thn, more);
    ExprKept(s.test, Cons(Symbol(K.CloseParenthesis), EmitStmt(s.thn, more)));
  }

  /** A declaration holds a null initializer only where none is written. */
  lemma DeclarationKept(x: string, init: Tree, rest: Input)
    requires init.TNull? || NoNull(init)
    ensures var item := IDeclaration(x, init); Strip(EmitItem(item, rest)) == InfixItem(EraseItem(item), Strip(rest))
  {
    var end := Cons(Symbol(K.Semicolon), rest);
    var more := if init.TNull? then end else Cons(Symbol(K.Assign), Emit(init, end));
    NullFreeErase(init);
    ExprKept(init, end);
    Keeps(Symbol(K.Semicolon), rest);
    Keeps(Symbol(K.Assign), Emit(init, end));
    Keeps(Name(x), more);
    Keeps(Symbol(K.IntKeyword), Cons(Name(x), more));
  }

  lemma {:induction false} ItemKept(item: ItemTree, rest: Input)
    requires WholeItem(item)
    ensures Strip(EmitItem(item, rest)) == InfixItem(EraseItem(item), Strip(rest))
    decreases item, 2
  {
    match item {
      case IDeclaration(x, init) => DeclarationKept(x, init, rest);
      case IStatement(s) => StmtKept(s, rest);
    }
  }

  lemma {:induction false} ItemsKept(items: List<ItemTree>, rest: Input)
    requires WholeItems(items)
    ensures Strip(EmitItems(items, rest)) == InfixItems(EraseItems(items), Strip(rest))
    decreases items, 0
  {
    if items.Cons? {
      ItemKept(items.head, EmitItems(items.tail, rest));
      ItemsKept(items.tail, rest);
      assert EraseItems(items)[1..] == EraseItems(items.tail);
    }
  }

  lemma FunctionKept(f: FunctionTree, rest: Input)
    requires WholeItems(f.body)
    ensures Strip(EmitFunction(f, rest)) == InfixFunction(EraseFunction(f), Strip(rest))
  {
    var body := EmitStmt(SBlock(f.body), rest);
    StmtKept(SBlock(f.body), rest);
    var close := Cons(Symbol(K.CloseParenthesis), body);
    assert Strip(close) == Strip(body);
    Keeps(Symbol(K.VoidKeyword), close);
    var open := Cons(Symbol(K.OpenParenthesis), Cons(Symbol(K.VoidKeyword), close));
    assert Strip(open) == Cons(Symbol(K.VoidKeyword), Strip(body));
    Keeps(Name(f.name), open);
    Keeps(Symbol(K.IntKeyword), Cons(Name(f.name), open));
  }

  /** What the parser has read are the tokens of the tree it returns. */
  lemma ParserKeepsTokens(ts: Input)
    requires ReadProgram(ts).Ok? && WholeItems(ReadProgram(ts).value.body)
    ensures var r := ReadProgram(ts); Strip(ts) == InfixFunction(EraseFunction(r.value), Strip(r.rest))
  {
    var r := ReadProgram(ts);
    ParsesProgramExactly(ts, r.value, r.rest);
    FunctionKept(r.value, r.rest);
  }
}
