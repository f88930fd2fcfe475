/**
 The recursive-descent parser: a token vector and a cursor.  Each method computes the
 parsing function of the same name on the tokens from the cursor on, and leaves the
 cursor after what it has read.
*/
module Parser {
  import opened Options
  import opened Ast
  import opened Names
  import opened Flow
  import opened Grammar
  import opened Parsing
  import K = Tokens

  /** What is left to read from position i. */
  function From(tokens: seq<K.Token>, i: nat): Input
    decreases |tokens| - i
  {
    if i >= |tokens| then Nil else Cons(Look(tokens[i]), From(tokens, i + 1))
  }

  // ----- null pointers -----

  lemma {:induction false} FactorNull(ts: Input)
    ensures var r := Factor(ts); r.Ok? ==> (r.value.TNull? <==> Erase(r.value) == NullExpr)
    decreases Size(ts), 0
  {
    if ts.Cons? && ts.head.Symbol? && UnaryOf(ts.head.kind).None? && ts.head.kind == K.OpenParenthesis {
      ClimbNull(ts.tail, 0);
    }
  }

  lemma {:induction false} ClimbNull(ts: Input, m: nat)
    ensures var r := Climb(ts, m); r.Ok? ==> (r.value.TNull? <==> Erase(r.value) == NullExpr)
    decreases Size(ts), 2
  {
    FactorNull(ts);
    var l := Factor(ts);
    if l.Ok? && !l.value.TNull? { LoopNull(l.rest, m, l.value); }
  }

  lemma {:induction false} LoopNull(ts: Input, m: nat, left: Tree)
    requires !left.TNull? && Erase(left) != NullExpr
    ensures var r := Loop(ts, m, left); r.Ok? ==> Erase(r.value) != NullExpr
    decreases Size(ts), 1
  {
    if Precedence(Kind(ts)) >= m {
      StepNull(ts, left);
      var r := Step(ts, left);
      if r.Ok? { LoopNull(r.rest, m, r.value); }
    }
  }

  lemma {:induction false} StepNull(ts: Input, left: Tree)
    requires !left.TNull? && Precedence(Kind(ts)) >= 0
    ensures Step(ts, left).Ok? ==> Erase(Step(ts, left).value) != NullExpr
  {}

  // ----- the items read so far -----

  /** What is read in all is the items so far and then what is read from here. */
  ghost predicate Continues(p: Parsed<List<ItemTree>>, items: seq<BlockItem>, q: Parsed<List<ItemTree>>) {
    if p.Ok? then q.Ok? && EraseItems(p.value) == items + EraseItems(q.value) && q.rest == p.rest else q.SyntaxError?
  }

  lemma {:induction false} ContinuesNext(p: Parsed<List<ItemTree>>, items: seq<BlockItem>, ts: Input)
    requires Continues(p, items, ReadItems(ts)) && Kind(ts) != K.CloseBrace && ReadItem(ts).Ok?
    ensures Continues(p, items + [EraseItem(ReadItem(ts).value)], ReadItems(ReadItem(ts).rest))
  {
    if p.Ok? {
      var q := ReadItems(ReadItem(ts).rest);
      var item := EraseItem(ReadItem(ts).value);
      assert items + ([item] + EraseItems(q.value)) == items + [item] + EraseItems(q.value);
    }
  }

  class Parser {
    const tokens: K.Tokens
    var cur: nat

    /** The cursor is on a token. */
    ghost predicate Valid()
      reads this
    {
      cur < |tokens|
    }

    ghost function Left(): Input
      reads this
    {
      From(tokens, cur)
    }

    constructor (tokens: K.Tokens)
      ensures Valid() && this.tokens == tokens && Left() == From(tokens, 0)
    {
      this.tokens := tokens;
      this.cur := 0;
    }

    function Peek(): (t: K.Token)
      requires Valid()
      reads this
      ensures t.kind == Kind(Left()) && Left() == Cons(Look(t), Left().tail)
    {
      tokens[cur]
    }

    /** The cursor stays on the end of file. */
    method Advance() returns (t: K.Token)
      requires Valid()
      modifies this`cur
      ensures Valid() && t == old(Peek())
      ensures Left() == if t.kind == K.EndOfFile then old(Left()) else old(Left()).tail
    {
      t := Peek();
      if t.kind != K.EndOfFile { cur := cur + 1; }
    }

    method Consume(k: K.TokenType) returns (r: Result<K.Token>)
      requires Valid()
      modifies this`cur
      ensures Valid()
      ensures r == if old(Peek()).kind == k then Success(old(Peek())) else Thrown
      ensures r.Success? ==> Left() == if k == K.EndOfFile then old(Left()) else old(Left()).tail
    {
      if Peek().kind == k {
        var t := Advance();
        return Success(t);
      }
      return Thrown;
    }

    // ----- expressions -----

    method ParseFactor() returns (r: Result<Expr>)
      requires Valid()
      modifies this`cur
      ensures Valid()
      ensures var p := Factor(old(Left()));
        if p.Ok? then r == Success(Erase(p.value)) && Left() == p.rest else r.Thrown?
      ensures var c := old(Peek());
        c.kind == K.Numeral && K.InRange(c.text) ==>
          PlaceValue(c.text, |c.text|) < 0x8000_0000 && r == Success(Constant(PlaceValue(c.text, |c.text|)))
      decreases Size(Left()), 0
    {
      var c := Peek();
      if c.kind == K.Numeral {
        K.ConstantIsPlaceValue(c.text);
        var t := Advance();
        return Success(Constant(K.IntOf(c.text)));
      } else if c.kind == K.Identifier {
        var t := Advance();
        return Success(Var(t.text));
      } else if c.kind == K.Tilde || c.kind == K.Minus || c.kind == K.Bang {
        r := ParseUnary();
        return;
      } else if c.kind == K.OpenParenthesis {
        r := ParseParenthesized();
        return;
      }
      return Success(NullExpr);
    }

    method ParseUnary() returns (r: Result<Expr>)
      requires Valid() && UnaryOf(Peek().kind).Some?
      modifies this`cur
      ensures Valid()
      ensures var p := Factor(old(Left()));
        if p.Ok? then r == Success(Erase(p.value)) && Left() == p.rest else r.Thrown?
      decreases Size(Left()), 0, 0
    {
      var t := Advance();
      FactorNull(Left());
      var inner :- ParseFactor();
      if inner.NullExpr? { return Thrown; }
      return Success(Unary(UnaryOf(t.kind).value, inner));
    }

    method ParseParenthesized() returns (r: Result<Expr>)
      requires Valid() && Peek().kind == K.OpenParenthesis
      modifies this`cur
      ensures Valid()
      ensures var p := Factor(old(Left()));
        if p.Ok? then r == Success(Erase(p.value)) && Left() == p.rest else r.Thrown?
      decreases Size(Left()), 0, 0
    {
      var inner :- ParseOperand(0);
      var t :- Consume(K.CloseParenthesis);
      return Success(inner);
    }

    /** The token at the cursor, and an expression after it that may not be missing. */
    method ParseOperand(minPrec: nat) returns (r: Result<Expr>)
      requires Valid() && Peek().kind != K.EndOfFile
      modifies this`cur
      ensures Valid()
      ensures var p := Climb(old(Left()).tail, minPrec);
        if p.Ok? && !p.value.TNull? then r == Success(Erase(p.value)) && Left() == p.rest else r.Thrown?
      decreases Size(Left()), 0, 0, 0
    {
      var t := Advance();
      ClimbNull(Left(), minPrec);
      var e :- ParseExpr(minPrec);
      return if e.NullExpr? then Thrown else Success(e);
    }

    method ParseExpr(minPrec: nat) returns (r: Result<Expr>)
      requires Valid()
      modifies this`cur
      ensures Valid()
      ensures var p := Climb(old(Left()), minPrec);
        if p.Ok? then r == Success(Erase(p.value)) && Left() == p.rest else r.Thrown?
      decreases Size(Left()), 2
    {
      ghost var start := Left();
      FactorNull(start);
      var left :- ParseFactor();
      if left.NullExpr? { return Success(NullExpr); }
      ghost var tree := Factor(start).value;
      while Precedence(Peek().kind) >= minPrec
        invariant Valid() && !tree.TNull? && left == Erase(tree)
        invariant Size(Left()) < Size(start)
        invariant Climb(start, minPrec) == Loop(Left(), minPrec, tree)
        decreases Size(Left())
      {
        ghost var before := Left();
        left :- ParseOperator(left, tree);
        tree := Step(before, tree).value;
      }
      return Success(left);
    }

    /** The body of the loop: the operator at the cursor and its right operand. */
    method ParseOperator(left: Expr, ghost tree: Tree) returns (r: Result<Expr>)
      requires Valid() && !tree.TNull? && left == Erase(tree) && Precedence(Peek().kind) >= 0
      modifies this`cur
      ensures Valid()
      ensures var p := Step(old(Left()), tree);
        if p.Ok? then r == Success(Erase(p.value)) && Left() == p.rest else r.Thrown?
      decreases Size(Left()), 0
    {
      var c := Peek();
      if c.kind == K.Assign {
        r := ParseAssignment(left, tree);
      } else if c.kind == K.QuestionMark {
        var branches :- ParseBranches();
        return Success(Conditional(left, branches.0, branches.1));
      } else {
        r := ParseBinary(left, tree);
      }
    }

    method ParseAssignment(left: Expr, ghost tree: Tree) returns (r: Result<Expr>)
      requires Valid() && !tree.TNull? && left == Erase(tree) && Peek().kind == K.Assign
      modifies this`cur
      ensures Valid()
      ensures var p := Step(old(Left()), tree);
        if p.Ok? then r == Success(Erase(p.value)) && Left() == p.rest else r.Thrown?
      decreases Size(Left()), 0, 0
    {
      var right :- ParseOperand(ASSIGNMENT_LEVEL);
      return Success(Assignment(left, right));
    }

    method ParseBinary(left: Expr, ghost tree: Tree) returns (r: Result<Expr>)
      requires Valid() && !tree.TNull? && left == Erase(tree) && Precedence(Peek().kind) >= 0
      requires Peek().kind != K.Assign && Peek().kind != K.QuestionMark
      modifies this`cur
      ensures Valid()
      ensures var p := Step(old(Left()), tree);
        if p.Ok? then r == Success(Erase(p.value)) && Left() == p.rest else r.Thrown?
      decreases Size(Left()), 0, 0
    {
      var c := Peek();
      var op := OperatorOf(c.kind);
      BinaryIs(Left(), tree);
      if op.None? { return Thrown; }
      var level: nat := Precedence(c.kind);
      var right :- ParseOperand(level + 1);
      return Success(Binary(op.value, left, right));
    }

    /** `?` and the two operands after it; neither is checked for null. */
    method ParseBranches() returns (r: Result<(Expr, Expr)>)
      requires Valid() && Peek().kind == K.QuestionMark
      modifies this`cur
      ensures Valid()
      ensures var p := Branches(old(Left()).tail);
        if p.Ok? then r == Success((Erase(p.value.0), Erase(p.value.1))) && Left() == p.rest else r.Thrown?
      decreases Size(Left()), 0, 0
    {
      var middle :- ParseMiddle();
      var right :- ParseExpr(CONDITIONAL_LEVEL);
      return Success((middle, right));
    }

    /** From the `?` to the `:`. */
    method ParseMiddle() returns (r: Result<Expr>)
      requires Valid() && Peek().kind == K.QuestionMark
      modifies this`cur
      ensures Valid()
      ensures var p := Expect(Climb(old(Left()).tail, 0), K.Colon);
        if p.Ok? then r == Success(Erase(p.value)) && Left() == p.rest else r.Thrown?
      ensures r.Success? ==> Size(Left()) < Size(old(Left()))
      decreases Size(Left()), 0, 0, 0
    {
      var t := Advance();
      var middle :- ParseExpr(0);
      t :- Consume(K.Colon);
      return Success(middle);
    }

    // ----- statements -----

    /** An expression that may not be missing, and the token after it. */
    method ParseExprThen(k: K.TokenType) returns (r: Result<Expr>)
      requires Valid() && k != K.EndOfFile
      modifies this`cur
      ensures Valid()
      ensures var p := Expect(FullExpr(old(Left())), k);
        if p.Ok? then r == Success(Erase(p.value)) && Left() == p.rest else r.Thrown?
    {
      ClimbNull(Left(), 0);
      var e :- ParseExpr(0);
      if e.NullExpr? { return Thrown; }
      var t :- Consume(k);
      return Success(e);
    }

    method ParseStatement() returns (r: Result<Stmt>)
      requires Valid()
      modifies this`cur
      ensures Valid()
      ensures var p := ReadStatement(old(Left()));
        if p.Ok? then r == Success(EraseStmt(p.value)) && Left() == p.rest else r.Thrown?
      decreases Size(Left()), 2
    {
      var k := Peek().kind;
      if k == K.ReturnKeyword {
        r := ParseReturn();
      } else if k == K.Semicolon {
        var t := Advance();
        r := Success(Empty);
      } else if k == K.OpenBrace {
        var items :- ParseBlock();
        r := Success(Compound(items));
      } else if k == K.IfKeyword {
        r := ParseIf();
      } else {
        var e :- ParseExprThen(K.Semicolon);
        r := Success(Expression(e));
      }
    }

    method ParseReturn() returns (r: Result<Stmt>)
      requires Valid() && Peek().kind == K.ReturnKeyword
      modifies this`cur
      ensures Valid()
      ensures var p := ReadStatement(old(Left()));
        if p.Ok? then r == Success(EraseStmt(p.value)) && Left() == p.rest else r.Thrown?
    {
      var t := Advance();
      if Peek().kind == K.Semicolon {
        t := Advance();
        return Success(Return(NullExpr));
      }
      var e :- ParseExprThen(K.Semicolon);
      return Success(Return(e));
    }

    method ParseIf() returns (r: Result<Stmt>)
      requires Valid() && Peek().kind == K.IfKeyword
      modifies this`cur
      ensures Valid()
      ensures var p := ReadIf(old(Left()).tail);
        if p.Ok? then r == Success(EraseStmt(p.value)) && Left() == p.rest else r.Thrown?
      decreases Size(Left()), 1
    {
      var c :- ParseTest();
      var t :- ParseStatement();
      var f :- ParseElse();
      return Success(If(c, t, f));
    }

    /** From the `if` to the closing parenthesis. */
    method ParseTest() returns (r: Result<Expr>)
      requires Valid() && Peek().kind == K.IfKeyword
      modifies this`cur
      ensures Valid()
      ensures var ts := old(Left()).tail;
        if Kind(ts) == K.OpenParenthesis && Expect(FullExpr(ts.tail), K.CloseParenthesis).Ok?
        then var p := Expect(FullExpr(ts.tail), K.CloseParenthesis); r == Success(Erase(p.value)) && Left() == p.rest
        else r.Thrown?
      ensures r.Success? ==> Size(Left()) < Size(old(Left()))
    {
      var t := Advance();
      t :- Consume(K.OpenParenthesis);
      r := ParseExprThen(K.CloseParenthesis);
    }

    method ParseElse() returns (r: Result<Option<Stmt>>)
      requires Valid()
      modifies this`cur
      ensures Valid()
      ensures var p := ReadElse(old(Left()));
        if p.Ok? then r == Success(EraseElse(p.value)) && Left() == p.rest else r.Thrown?
      decreases Size(Left()), 3
    {
      if Peek().kind != K.ElseKeyword { return Success(None); }
      var t := Advance();
      var s :- ParseStatement();
      return Success(Some(s));
    }

    method ParseDeclaration() returns (r: Result<BlockItem>)
      requires Valid() && Peek().kind == K.IntKeyword
      modifies this`cur
      ensures Valid()
      ensures var p := ReadDeclaration(old(Left()).tail);
        if p.Ok? then r == Success(EraseItem(p.value)) && Left() == p.rest else r.Thrown?
    {
      ghost var start := Left().tail;
      var t := Advance();
      var name :- Consume(K.Identifier);
      assert NameNext(start) && name.text == start.head.text && Left() == start.tail;
      if Peek().kind == K.Assign {
        t := Advance();
        assert Left() == start.tail.tail;
        var e :- ParseExprThen(K.Semicolon);
        return Success(Declaration(name.text, e));
      }
      t :- Consume(K.Semicolon);
      return Success(Declaration(name.text, NullExpr));
    }

    method ParseBlockItem() returns (r: Result<BlockItem>)
      requires Valid()
      modifies this`cur
      ensures Valid()
      ensures var p := ReadItem(old(Left()));
        if p.Ok? then r == Success(EraseItem(p.value)) && Left() == p.rest else r.Thrown?
      decreases Size(Left()), 3
    {
      if Peek().kind == K.IntKeyword {
        r := ParseDeclaration();
      } else {
        var s :- ParseStatement();
        r := Success(Statement(s));
      }
    }

    method ParseBlock() returns (r: Result<seq<BlockItem>>)
      requires Valid()
      modifies this`cur
      ensures Valid()
      ensures var p := ReadBlock(old(Left()));
        if p.Ok? then r == Success(EraseItems(p.value)) && Left() == p.rest else r.Thrown?
      decreases Size(Left()), 1
    {
      var t :- Consume(K.OpenBrace);
      r := ParseItems();
    }

    /** Items up to a closing brace, and the brace. */
    method ParseItems() returns (r: Result<seq<BlockItem>>)
      requires Valid()
      modifies this`cur
      ensures Valid()
      ensures var p := Expect(ReadItems(old(Left())), K.CloseBrace);
        if p.Ok? then r == Success(EraseItems(p.value)) && Left() == p.rest else r.Thrown?
      decreases Size(Left()), 4
    {
      ghost var start := Left();
      ghost var p := ReadItems(start);
      var items: seq<BlockItem> := [];
      while Peek().kind != K.CloseBrace
        invariant Valid() && Size(Left()) <= Size(start)
        invariant Continues(p, items, ReadItems(Left()))
        decreases Size(Left())
      {
        ghost var before := Left();
        var item :- ParseBlockItem();
        ContinuesNext(p, items, before);
        items := items + [item];
      }
      assert ReadItems(Left()) == Ok(Nil, Left()) && items + EraseItems(Nil) == items;
      var t := Advance();
      return Success(items);
    }

    /** `int` and the name. */
    method ParseName() returns (r: Result<string>)
      requires Valid()
      modifies this`cur
      ensures Valid()
      ensures var ts := old(Left());
        if Kind(ts) == K.IntKeyword && NameNext(ts.tail) then r == Success(ts.tail.head.text) && Left() == ts.tail.tail
        else r.Thrown?
    {
      var t :- Consume(K.IntKeyword);
      t :- Consume(K.Identifier);
      return Success(t.text);
    }

    /** `int`, the name, `(void)`. */
    method ParseHeader() returns (r: Result<string>)
      requires Valid()
      modifies this`cur
      ensures Valid()
      ensures var p := ReadHeader(old(Left()));
        if p.Ok? then r == Success(p.value) && Left() == p.rest else r.Thrown?
    {
      var name :- ParseName();
      var t :- Consume(K.OpenParenthesis);
      t :- Consume(K.VoidKeyword);
      t :- Consume(K.CloseParenthesis);
      return Success(name);
    }

    method ParseFunction() returns (r: Result<Function>)
      requires Valid()
      modifies this`cur
      ensures Valid()
      ensures var p := ReadFunction(old(Left()));
        if p.Ok? then r == Success(EraseFunction(p.value)) && Left() == p.rest else r.Thrown?
    {
      ghost var start := Left();
      var name :- ParseHeader();
      ghost var h := ReadHeader(start);
      assert h == Ok(name, Left());
      var body :- ParseBlock();
      ghost var b := ReadBlock(h.rest);
      assert ReadFunction(start) == Ok(FunctionTree(name, b.value), b.rest);
      return Success(Function(name, body));
    }

    /** The whole input, up to the end of the file. */
    method ParseProgram() returns (r: Result<Function>)
      requires Valid()
      modifies this`cur
      ensures Valid()
      ensures var p := ReadProgram(old(Left()));
        if p.Ok? then r == Success(EraseFunction(p.value)) && Left() == p.rest else r.Thrown?
    {
      var f :- ParseFunction();
      var t :- Consume(K.EndOfFile);
      return Success(f);
    }
  }
}
