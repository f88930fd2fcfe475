/**
 The names a source program can contain: whatever the front end returns, its names are
 identifiers and its constants are not negative, as both come from single tokens.  So no
 name contains a dot, and no name is spelled like a temporary.
*/
module FrontNames {
  import opened Names
  import opened Ast
  import opened Flow
  import opened Grammar
  import opened Parsing
  import opened Scanning
  import opened LexerCorrect
  import opened SourceText
  import K = Tokens

  /** Every name is an identifier and no constant is negative. */
  predicate Named(ts: Input) {
    ts.Cons? ==>
      (ts.head.Name? ==> IsIdentifier(ts.head.text)) && (ts.head.Number? ==> ts.head.value >= 0) && Named(ts.tail)
  }

  lemma {:induction false} CleanNamed(tokens: List<K.Token>)
    requires Clean(tokens)
    ensures Named(Looks(tokens))
  {
    if tokens.tail.Cons? { CleanNamed(tokens.tail); }
  }

  // ----- expressions -----

  ghost predicate NamedExpr(r: Parsed<Tree>) { r.Ok? ==> Spellable(Erase(r.value)) && Named(r.rest) }

  lemma {:induction false} FactorNamed(ts: Input)
    requires Named(ts)
    ensures NamedExpr(Factor(ts))
    decreases Size(ts), 0
  {
    if ts.Cons? && ts.head.Symbol? {
      if UnaryOf(ts.head.kind).Some? {
        FactorNamed(ts.tail);
      } else if ts.head.kind == K.OpenParenthesis {
        ClimbNamed(ts.tail, 0);
      }
    }
  }

  lemma {:induction false} ClimbNamed(ts: Input, m: nat)
    requires Named(ts)
    ensures NamedExpr(Climb(ts, m))
    decreases Size(ts), 2
  {
    FactorNamed(ts);
    var l := Factor(ts);
    if l.Ok? && !l.value.TNull? { LoopNamed(l.rest, m, l.value); }
  }

  lemma {:induction false} LoopNamed(ts: Input, m: nat, left: Tree)
    requires Named(ts) && !left.TNull? && Spellable(Erase(left))
    ensures NamedExpr(Loop(ts, m, left))
    decreases Size(ts), 1
  {
    if Precedence(Kind(ts)) >= m {
      StepNamed(ts, left);
      var r := Step(ts, left);
      if r.Ok? { LoopNamed(r.rest, m, r.value); }
    }
  }

  lemma {:induction false} StepNamed(ts: Input, left: Tree)
    requires Named(ts) && !left.TNull? && Spellable(Erase(left)) && Precedence(Kind(ts)) >= 0
    ensures NamedExpr(Step(ts, left))
    decreases Size(ts), 0
  {
    var k := Kind(ts);
    if k == K.Assign {
      AssignNamed(ts, left);
    } else if k == K.QuestionMark {
      QuestionNamed(ts, left);
    } else if OperatorOf(k).Some? {
      BinaryNamed(ts, left);
    }
  }

  lemma {:induction false} AssignNamed(ts: Input, left: Tree)
    requires Named(ts) && !left.TNull? && Spellable(Erase(left)) && Kind(ts) == K.Assign
    ensures NamedExpr(Step(ts, left))
    decreases Size(ts), 0, 0
  {
    ClimbNamed(ts.tail, ASSIGNMENT_LEVEL);
  }

  lemma {:induction false} QuestionNamed(ts: Input, left: Tree)
    requires Named(ts) && !left.TNull? && Spellable(Erase(left)) && Kind(ts) == K.QuestionMark
    ensures NamedExpr(Step(ts, left))
    decreases Size(ts), 0, 0
  {
    BranchesNamed(ts.tail);
    QuestionIs(ts, left);
    QuestionJoined(left, Branches(ts.tail), Step(ts, left));
  }

  lemma {:induction false} BinaryNamed(ts: Input, left: Tree)
    requires Named(ts) && !left.TNull? && Spellable(Erase(left)) && OperatorOf(Kind(ts)).Some?
    ensures NamedExpr(Step(ts, left))
    decreases Size(ts), 0, 0
  {
    var r := Climb(ts.tail, Precedence(Kind(ts)) + 1);
    ClimbNamed(ts.tail, Precedence(Kind(ts)) + 1);
    BinaryIs(ts, left);
    BinaryJoined(OperatorOf(Kind(ts)).value, left, r, Step(ts, left));
  }

  ghost predicate NamedPair(r: Parsed<(Tree, Tree)>) {
    r.Ok? ==> Spellable(Erase(r.value.0)) && Spellable(Erase(r.value.1)) && Named(r.rest)
  }

  lemma QuestionJoined(left: Tree, b: Parsed<(Tree, Tree)>, p: Parsed<Tree>)
    requires Spellable(Erase(left)) && NamedPair(b)
    requires p == if b.SyntaxError? then SyntaxError else Ok(TCond(left, b.value.0, b.value.1), b.rest)
    ensures NamedExpr(p)
  {}

  lemma BinaryJoined(op: BinaryOpType, left: Tree, r: Parsed<Tree>, p: Parsed<Tree>)
    requires Spellable(Erase(left)) && NamedExpr(r)
    requires p == if r.SyntaxError? || r.value.TNull? then SyntaxError else Ok(TBinary(op, left, r.value), r.rest)
    ensures NamedExpr(p)
  {}

  lemma {:induction false} BranchesNamed(ts: Input)
    requires Named(ts)
    ensures NamedPair(Branches(ts))
    decreases Size(ts), 3
  {
    ClimbNamed(ts, 0);
    var a := Expect(Climb(ts, 0), K.Colon);
    if a.Ok? { ClimbNamed(a.rest, CONDITIONAL_LEVEL); }
  }

  // ----- statements -----

  ghost predicate NamedStmt(r: Parsed<StmtTree>) { r.Ok? ==> SpellableStmt(EraseStmt(r.value)) && Named(r.rest) }

  lemma {:induction false} FullExprNamed(ts: Input, k: K.TokenType)
    requires Named(ts) && k != K.EndOfFile
    ensures NamedExpr(FullExpr(ts)) && NamedExpr(Expect(FullExpr(ts), k))
  {
    ClimbNamed(ts, 0);
  }

  lemma {:induction false} StatementNamed(ts: Input)
    requires Named(ts)
    ensures NamedStmt(ReadStatement(ts))
    decreases Size(ts), 1
  {
    var k := Kind(ts);
    if k == K.ReturnKeyword {
      FullExprNamed(ts.tail, K.Semicolon);
    } else if k == K.Semicolon {
    } else if k == K.OpenBrace {
      ItemsNamed(ts.tail);
    } else if k == K.IfKeyword {
      IfNamed(ts.tail);
    } else {
      FullExprNamed(ts, K.Semicolon);
    }
  }

  lemma {:induction false} IfNamed(ts: Input)
    requires Named(ts)
    ensures NamedStmt(ReadIf(ts))
    decreases Size(ts), 3
  {
    if Kind(ts) == K.OpenParenthesis {
      FullExprNamed(ts.tail, K.CloseParenthesis);
      var c := Expect(FullExpr(ts.tail), K.CloseParenthesis);
      if c.Ok? {
        StatementNamed(c.rest);
        var t := ReadStatement(c.rest);
        if t.Ok? { ElseNamed(t.rest); }
      }
    }
  }

  lemma {:induction false} ElseNamed(ts: Input)
    requires Named(ts)
    ensures var r := ReadElse(ts);
      r.Ok? ==> (r.value.Some? ==> SpellableStmt(EraseStmt(r.value.value))) && Named(r.rest)
    decreases Size(ts), 2
  {
    if Kind(ts) == K.ElseKeyword { StatementNamed(ts.tail); }
  }

  lemma {:induction false} ItemNamed(ts: Input)
    requires Named(ts)
    ensures var r := ReadItem(ts); r.Ok? ==> SpellableItem(EraseItem(r.value)) && Named(r.rest)
    decreases Size(ts), 2
  {
    if Kind(ts) == K.IntKeyword { DeclarationNamed(ts.tail); } else { StatementNamed(ts); }
  }

  lemma {:induction false} DeclarationNamed(ts: Input)
    requires Named(ts)
    ensures var r := ReadDeclaration(ts); r.Ok? ==> SpellableItem(EraseItem(r.value)) && Named(r.rest)
  {
    if NameNext(ts) {
      var more := ts.tail;
      assert Named(more);
      if Kind(more) == K.Assign { FullExprNamed(more.tail, K.Semicolon); }
    }
  }

  lemma {:induction false} ItemsNamed(ts: Input)
    requires Named(ts)
    ensures var r := ReadItems(ts); r.Ok? ==> SpellableItems(EraseItems(r.value)) && Named(r.rest)
    decreases Size(ts), 3
  {
    if Kind(ts) != K.CloseBrace {
      ItemNamed(ts);
      var r := ReadItem(ts);
      if r.Ok? {
        ItemsNamed(r.rest);
        var q := ReadItems(r.rest);
        if q.Ok? { assert EraseItems(Cons(r.value, q.value))[1..] == EraseItems(q.value); }
      }
    }
  }

  lemma {:induction false} ProgramNamed(ts: Input)
    requires Named(ts) && ReadProgram(ts).Ok?
    ensures SpellableFunction(EraseFunction(ReadProgram(ts).value))
  {
    HeaderNamed(ts);
    ItemsNamed(ReadHeader(ts).rest.tail);
  }

  lemma {:induction false} HeaderNamed(ts: Input)
    requires Named(ts)
    ensures var h := ReadHeader(ts); h.Ok? ==> IsIdentifier(h.value) && Named(h.rest)
  {
    if ReadHeader(ts).Ok? {
      var name := ts.tail;
      var open := name.tail;
      assert Named(name) && Named(open) && Named(open.tail) && Named(open.tail.tail);
    }
  }

  /** Whatever the front end returns can be spelled: its names are identifiers and its constants are not negative. */
  lemma FrontSpellable(source: string)
    requires Front(source).Success?
    ensures SpellableFunction(Front(source).value)
  {
    LexedIsClean(source, 0);
    var tokens := LexFrom(source, 0).value;
    CleanNamed(tokens);
    ProgramNamed(Looks(tokens));
  }

  // ----- no dots -----

  lemma {:induction false} ExprNames(e: Expr, p: string -> bool)
    requires Spellable(e) && forall x :: IsIdentifier(x) ==> p(x)
    ensures NamesAll(e, p)
  {
    match e {
      case Unary(_, a) => ExprNames(a, p);
      case Binary(_, a, b) => ExprNames(a, p); ExprNames(b, p);
      case Assignment(a, b) => ExprNames(a, p); ExprNames(b, p);
      case Conditional(c, a, b) => ExprNames(c, p); ExprNames(a, p); ExprNames(b, p);
      case _ =>
    }
  }

  lemma {:induction false} StatementNames(s: Stmt, p: string -> bool)
    requires SpellableStmt(s) && forall x :: IsIdentifier(x) ==> p(x)
    ensures StmtNames(s, p)
    decreases s, 1
  {
    match s {
      case Return(e) => ExprNames(e, p);
      case If(c, a, b) =>
        ExprNames(c, p);
        StatementNames(a, p);
        if b.Some? { StatementNames(b.value, p); }
      case Expression(e) => ExprNames(e, p);
      case Compound(items) => BlockNames(items, p);
      case Empty =>
    }
  }

  lemma {:induction false} BlockItemNames(item: BlockItem, p: string -> bool)
    requires SpellableItem(item) && forall x :: IsIdentifier(x) ==> p(x)
    ensures ItemNames(item, p)
    decreases item, 2
  {
    match item {
      case Declaration(_, init) => ExprNames(init, p);
      case Statement(s) => StatementNames(s, p);
    }
  }

  /** What can be spelled names nothing but identifiers. */
  lemma {:induction false} BlockNames(items: seq<BlockItem>, p: string -> bool)
    requires SpellableItems(items) && forall x :: IsIdentifier(x) ==> p(x)
    ensures ItemsNames(items, p)
    decreases items, 0
  {
    if items != [] {
      BlockItemNames(items[0], p);
      BlockNames(items[1..], p);
    }
  }

  lemma SpellableDotless(items: seq<BlockItem>)
    requires SpellableItems(items)
    ensures ItemsNames(items, Dotless())
  {
    forall x | IsIdentifier(x) ensures Dotless()(x) {}
    BlockNames(items, Dotless());
  }

  /** No name in a program read from a source contains a dot. */
  lemma FrontDotless(source: string)
    requires Front(source).Success?
    ensures ItemsNames(Front(source).value.body, Dotless())
  {
    FrontSpellable(source);
    SpellableDotless(Front(source).value.body);
  }
}
