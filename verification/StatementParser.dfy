/** The statement parser. */
module StatementParser {
  // It decides the statement grammar: it returns exactly the proper derivations, so
  // every `else` belongs to the nearest `if`.

  import opened Options
  import opened Flow
  import opened Grammar
  import opened Parsing
  import opened ParserCorrect
  import K = Tokens

  // ----- trees without null pointers, except in `return;` and in declarations without initializer -----

  predicate Whole(s: StmtTree)
    decreases s, 1
  {
    match s
    case SReturn(e) => e.TNull? || NoNull(e)
    case SIf(c, t, f) => NoNull(c) && Whole(t) && (f.Some? ==> Whole(f.value))
    case SExpr(e) => NoNull(e)
    case SBlock(items) => WholeItems(items)
    case SEmpty => true
  }

  predicate WholeItem(item: ItemTree)
    decreases item, 2
  {
    match item
    case IDeclaration(_, init) => init.TNull? || NoNull(init)
    case IStatement(s) => Whole(s)
  }

  predicate WholeItems(items: List<ItemTree>)
    decreases items, 0
  {
    items.Cons? ==> WholeItem(items.head) && WholeItems(items.tail)
  }

  /** The input is the tokens of the statement and then `rest`, which does not go on with it. */
  ghost predicate DerivesStmt(s: StmtTree, ts: Input, rest: Input) {
    Proper(s) && ts == EmitStmt(s, rest) && (EndsOpen(s) ==> Kind(rest) != K.ElseKeyword)
  }

  // ----- soundness -----

  lemma {:induction false} FullExprSound(ts: Input)
    ensures var r := FullExpr(ts); r.Ok? && NoNull(r.value) ==> Stratified(r.value) && ts == Emit(r.value, r.rest)
  {
    ClimbSound(ts, 0);
  }

  lemma {:induction false} StatementSound(ts: Input)
    ensures var r := ReadStatement(ts); r.Ok? && Whole(r.value) ==> DerivesStmt(r.value, ts, r.rest)
    decreases Size(ts), 1
  {
    var k := Kind(ts);
    if k == K.ReturnKeyword {
      FullExprSound(ts.tail);
    } else if k == K.Semicolon {
    } else if k == K.OpenBrace {
      ItemsSound(ts.tail);
    } else if k == K.IfKeyword {
      IfSound(ts);
    } else {
      FullExprSound(ts);
    }
  }

  lemma {:induction false} IfSound(ts: Input)
    requires Kind(ts) == K.IfKeyword
    ensures var r := ReadIf(ts.tail); r.Ok? && Whole(r.value) ==> DerivesStmt(r.value, ts, r.rest)
    decreases Size(ts), 0
  {
    if Kind(ts.tail) == K.OpenParenthesis {
      var more := ts.tail.tail;
      assert Size(more) < Size(ts);
      var c := Expect(FullExpr(more), K.CloseParenthesis);
      FullExprSound(more);
      if c.Ok? {
        var t := ReadStatement(c.rest);
        StatementSound(c.rest);
        if t.Ok? {
          var f := ReadElse(t.rest);
          ElseSound(t.rest);
          if f.Ok? && Whole(SIf(c.value, t.value, f.value)) {
            IfJoin(ts, c.value, t.value, f.value, c.rest, t.rest, f.rest);
          }
        }
      }
    }
  }

  /** What follows the first branch: an `else` and its branch, or something else. */
  ghost predicate DerivesElse(f: Option<StmtTree>, ts: Input, rest: Input) {
    if f.Some? then Kind(ts) == K.ElseKeyword && DerivesStmt(f.value, ts.tail, rest)
    else Kind(ts) != K.ElseKeyword && rest == ts
  }

  lemma {:induction false} ElseSound(ts: Input)
    ensures var r := ReadElse(ts);
      r.Ok? && (r.value.Some? ==> Whole(r.value.value)) ==> DerivesElse(r.value, ts, r.rest)
    decreases Size(ts), 2
  {
    if Kind(ts) == K.ElseKeyword { StatementSound(ts.tail); }
  }

  lemma {:induction false} IfJoin(ts: Input, c: Tree, t: StmtTree, f: Option<StmtTree>, u: Input, v: Input, rest: Input)
    requires Kind(ts) == K.IfKeyword && Kind(ts.tail) == K.OpenParenthesis
    requires Stratified(c) && ts.tail.tail == Emit(c, Cons(Symbol(K.CloseParenthesis), u))
    requires DerivesStmt(t, u, v) && DerivesElse(f, v, rest)
    ensures DerivesStmt(SIf(c, t, f), ts, rest)
  {}

  lemma {:induction false} DeclarationSound(ts: Input)
    requires Kind(ts) == K.IntKeyword
    ensures var r := ReadDeclaration(ts.tail);
      r.Ok? && WholeItem(r.value) ==> ProperItem(r.value) && ts == EmitItem(r.value, r.rest)
  {
    if NameNext(ts.tail) && Kind(ts.tail.tail) == K.Assign { FullExprSound(ts.tail.tail.tail); }
  }

  lemma {:induction false} ItemSound(ts: Input)
    ensures var r := ReadItem(ts); r.Ok? && WholeItem(r.value) ==> ProperItem(r.value) && ts == EmitItem(r.value, r.rest)
    decreases Size(ts), 2
  {
    if Kind(ts) == K.IntKeyword { DeclarationSound(ts); } else { StatementSound(ts); }
  }

  lemma {:induction false} ItemsSound(ts: Input)
    ensures var r := ReadItems(ts);
      r.Ok? && WholeItems(r.value) ==>
        ProperItems(r.value) && ts == EmitItems(r.value, r.rest) && Kind(r.rest) == K.CloseBrace
    decreases Size(ts), 3
  {
    if Kind(ts) != K.CloseBrace {
      ItemSound(ts);
      var r := ReadItem(ts);
      if r.Ok? { ItemsSound(r.rest); }
    }
  }

  // ----- completeness -----

  predicate StartsExpr(k: K.TokenType) {
    k == K.Numeral || k == K.Identifier || k == K.Tilde || k == K.Minus || k == K.Bang || k == K.OpenParenthesis
  }

  lemma {:induction false} ExprStarts(t: Tree, rest: Input)
    requires Stratified(t)
    ensures StartsExpr(Kind(Emit(t, rest)))
  {
    match t {
      case TBinary(op, l, r) => ExprStarts(l, Cons(Symbol(BinaryToken(op)), Emit(r, rest)));
      case TAssign(l, r) => ExprStarts(l, Cons(Symbol(K.Assign), Emit(r, rest)));
      case TCond(c, a, b) => ExprStarts(c, Cons(Symbol(K.QuestionMark), Emit(a, Cons(Symbol(K.Colon), Emit(b, rest)))));
      case _ =>
    }
  }

  predicate StartsStmt(k: K.TokenType) {
    StartsExpr(k) || k == K.ReturnKeyword || k == K.Semicolon || k == K.OpenBrace || k == K.IfKeyword
  }

  lemma {:induction false} StmtStarts(s: StmtTree, rest: Input)
    requires Proper(s)
    ensures StartsStmt(Kind(EmitStmt(s, rest)))
  {
    if s.SExpr? { ExprStarts(s.e, Cons(Symbol(K.Semicolon), rest)); }
  }

  lemma {:induction false} FullExprComplete(t: Tree, rest: Input)
    requires Stratified(t) && NextLevel(rest) < 0
    ensures FullExpr(Emit(t, rest)) == Ok(t, rest)
  {
    ClimbComplete(t, rest, 0);
  }

  lemma {:induction false} StatementComplete(s: StmtTree, rest: Input)
    requires Proper(s) && (EndsOpen(s) ==> Kind(rest) != K.ElseKeyword)
    ensures ReadStatement(EmitStmt(s, rest)) == Ok(s, rest)
    decreases s, 1
  {
    match s {
      case SReturn(e) => ReturnComplete(e, rest);
      case SIf(_, _, _) => IfComplete(s, rest);
      case SExpr(e) => ExprComplete(e, rest);
      case SBlock(items) => ItemsComplete(items, Cons(Symbol(K.CloseBrace), rest));
      case SEmpty =>
    }
  }

  lemma {:induction false} ReturnComplete(e: Tree, rest: Input)
    requires e.TNull? || Stratified(e)
    ensures ReadStatement(EmitStmt(SReturn(e), rest)) == Ok(SReturn(e), rest)
  {
    var more := Cons(Symbol(K.Semicolon), rest);
    if !e.TNull? {
      ExprStarts(e, more);
      FullExprComplete(e, more);
    }
  }

  lemma {:induction false} ExprComplete(e: Tree, rest: Input)
    requires Stratified(e)
    ensures ReadStatement(EmitStmt(SExpr(e), rest)) == Ok(SExpr(e), rest)
  {
    var more := Cons(Symbol(K.Semicolon), rest);
    ExprStarts(e, more);
    FullExprComplete(e, more);
  }

  lemma {:induction false} IfComplete(s: StmtTree, rest: Input)
    requires s.SIf? && Proper(s) && (EndsOpen(s) ==> Kind(rest) != K.ElseKeyword)
    ensures ReadStatement(EmitStmt(s, rest)) == Ok(s, rest)
    decreases s, 0
  {
    var after := if s.els.Some? then Cons(Symbol(K.ElseKeyword), EmitStmt(s.els.value, rest)) else rest;
    var body := EmitStmt(s.thn, after);
    FullExprComplete(s.test, Cons(Symbol(K.CloseParenthesis), body));
    StatementComplete(s.thn, after);
    if s.els.Some? { StatementComplete(s.els.value, rest); }
    IfParses(s, Emit(s.test, Cons(Symbol(K.CloseParenthesis), body)), body, after, rest);
  }

  lemma {:induction false} IfParses(s: StmtTree, ts: Input, body: Input, after: Input, rest: Input)
    requires s.SIf? && FullExpr(ts) == Ok(s.test, Cons(Symbol(K.CloseParenthesis), body))
    requires ReadStatement(body) == Ok(s.thn, after)
    requires if s.els.Some? then Kind(after) == K.ElseKeyword && ReadStatement(after.tail) == Ok(s.els.value, rest)
             else Kind(after) != K.ElseKeyword && after == rest
    ensures ReadStatement(Cons(Symbol(K.IfKeyword), Cons(Symbol(K.OpenParenthesis), ts))) == Ok(s, rest)
  {
    assert ReadIf(Cons(Symbol(K.OpenParenthesis), ts)) == Ok(s, rest);
  }

  lemma DeclarationComplete(x: string, init: Tree, rest: Input)
    requires init.TNull? || Stratified(init)
    ensures var item := IDeclaration(x, init);
      ReadItem(EmitItem(item, rest)) == Ok(item, rest) && Kind(EmitItem(item, rest)) != K.CloseBrace
  {
    if !init.TNull? { FullExprComplete(init, Cons(Symbol(K.Semicolon), rest)); }
  }

  lemma {:induction false} ItemComplete(item: ItemTree, rest: Input)
    requires ProperItem(item) && (item.IStatement? && EndsOpen(item.s) ==> Kind(rest) != K.ElseKeyword)
    ensures ReadItem(EmitItem(item, rest)) == Ok(item, rest) && Kind(EmitItem(item, rest)) != K.CloseBrace
    decreases item, 2
  {
    match item {
      case IDeclaration(x, init) => DeclarationComplete(x, init, rest);
      case IStatement(s) =>
        StmtStarts(s, rest);
        StatementComplete(s, rest);
    }
  }

  lemma {:induction false} ItemsStart(items: List<ItemTree>, rest: Input)
    requires ProperItems(items) && Kind(rest) == K.CloseBrace
    ensures Kind(EmitItems(items, rest)) != K.ElseKeyword
  {
    if items.Cons? && items.head.IStatement? { StmtStarts(items.head.s, EmitItems(items.tail, rest)); }
  }

  lemma {:induction false} ItemsComplete(items: List<ItemTree>, rest: Input)
    requires ProperItems(items) && Kind(rest) == K.CloseBrace
    ensures ReadItems(EmitItems(items, rest)) == Ok(items, rest)
    decreases items, 0
  {
    if items.Cons? {
      ItemsStart(items.tail, rest);
      ItemComplete(items.head, EmitItems(items.tail, rest));
      ItemsComplete(items.tail, rest);
    }
  }

  // ----- the parser and the grammar -----

  lemma {:induction false} ProperWhole(s: StmtTree)
    requires Proper(s)
    ensures Whole(s)
    decreases s, 1
  {
    match s {
      case SReturn(e) => if !e.TNull? { StratifiedNoNull(e); }
      case SIf(c, t, f) =>
        StratifiedNoNull(c);
        ProperWhole(t);
        if f.Some? { ProperWhole(f.value); }
      case SExpr(e) => StratifiedNoNull(e);
      case SBlock(items) => ProperWholeItems(items);
      case SEmpty =>
    }
  }

  lemma {:induction false} ProperWholeItems(items: List<ItemTree>)
    requires ProperItems(items)
    ensures WholeItems(items)
    decreases items, 0
  {
    if items.Cons? {
      match items.head {
        case IDeclaration(_, init) => if !init.TNull? { StratifiedNoNull(init); }
        case IStatement(s) => ProperWhole(s);
      }
      ProperWholeItems(items.tail);
    }
  }

  /** A statement is parsed to a whole tree exactly when it is a proper derivation of the tokens consumed; after an
      open `if` no `else` follows, so an `else` is always taken by the nearest `if`. */
  lemma ParsesStatementExactly(ts: Input, s: StmtTree, rest: Input)
    ensures ReadStatement(ts) == Ok(s, rest) && Whole(s) <==> DerivesStmt(s, ts, rest)
  {
    StatementSound(ts);
    if DerivesStmt(s, ts, rest) {
      ProperWhole(s);
      StatementComplete(s, rest);
    }
  }
}
