/** Writing and reading back. */
module RoundTrip {
  // Writing a syntax tree with as few parentheses as possible and parsing it gives the
  // same tree back; and the trees the parser can return are exactly those in which no
  // `else` is separated from the `if` it would be read with.

  import opened Options
  import opened Ast
  import opened Flow
  import opened Grammar
  import opened Parsing
  import opened ParserCorrect
  import opened StatementParser
  import K = Tokens

  // ----- writing expressions -----

  /** The expression, in parentheses if its operator is below level m. */
  function At(e: Expr, m: int): Tree
    decreases e, 1
  {
    var t := Bare(e);
    if Top(t) >= m then t else TParen(t)
  }

  function Bare(e: Expr): Tree
    decreases e, 0
  {
    match e
    case NullExpr => TNull
    case Constant(v) => TConst(v)
    case Var(x) => TVar(x)
    case Unary(op, a) => TUnary(op, At(a, PRIMARY))
    case Binary(op, a, b) => TBinary(op, At(a, Level(op)), At(b, Level(op) + 1))
    case Assignment(a, b) => TAssign(At(a, ASSIGNMENT_LEVEL + 1), At(b, ASSIGNMENT_LEVEL))
    case Conditional(c, a, b) => TCond(At(c, CONDITIONAL_LEVEL + 1), At(a, 0), At(b, CONDITIONAL_LEVEL))
  }

  lemma {:induction false} BareIs(e: Expr)
    requires NullFree(e)
    ensures Stratified(Bare(e)) && Erase(Bare(e)) == e && ASSIGNMENT_LEVEL <= Top(Bare(e)) <= PRIMARY
    decreases e, 0
  {
    if e.Unary? {
      AtIs(e.inner, PRIMARY);
      assert Bare(e) == TUnary(e.unop, At(e.inner, PRIMARY));
    } else if e.Binary? {
      BareBinaryIs(e);
    } else if e.Assignment? {
      BareAssignmentIs(e);
    } else if e.Conditional? {
      BareConditionalIs(e);
    }
  }

  lemma {:induction false} BareAssignmentIs(e: Expr)
    requires e.Assignment? && NullFree(e)
    ensures Stratified(Bare(e)) && Erase(Bare(e)) == e && Top(Bare(e)) == ASSIGNMENT_LEVEL
    decreases e, 0, 0
  {
    AtIs(e.target, ASSIGNMENT_LEVEL + 1);
    AtIs(e.source, ASSIGNMENT_LEVEL);
    var l, r := At(e.target, ASSIGNMENT_LEVEL + 1), At(e.source, ASSIGNMENT_LEVEL);
    assert Stratified(TAssign(l, r));
    assert Bare(e) == TAssign(l, r);
  }

  lemma {:induction false} BareConditionalIs(e: Expr)
    requires e.Conditional? && NullFree(e)
    ensures Stratified(Bare(e)) && Erase(Bare(e)) == e && Top(Bare(e)) == CONDITIONAL_LEVEL
    decreases e, 0, 0
  {
    AtIs(e.cond, CONDITIONAL_LEVEL + 1);
    AtIs(e.yes, 0);
    AtIs(e.no, CONDITIONAL_LEVEL);
    ConditionalFits(At(e.cond, CONDITIONAL_LEVEL + 1), At(e.yes, 0), At(e.no, CONDITIONAL_LEVEL));
    assert Bare(e) == TCond(At(e.cond, CONDITIONAL_LEVEL + 1), At(e.yes, 0), At(e.no, CONDITIONAL_LEVEL));
  }

  lemma ConditionalFits(c: Tree, a: Tree, b: Tree)
    requires Fits(c, CONDITIONAL_LEVEL + 1) && Fits(a, 0) && Fits(b, CONDITIONAL_LEVEL)
    ensures Stratified(TCond(c, a, b)) && Erase(TCond(c, a, b)) == Conditional(Erase(c), Erase(a), Erase(b))
    ensures Top(TCond(c, a, b)) == CONDITIONAL_LEVEL
  {}

  lemma {:induction false} BareBinaryIs(e: Expr)
    requires e.Binary? && NullFree(e)
    ensures Stratified(Bare(e)) && Erase(Bare(e)) == e && ASSIGNMENT_LEVEL <= Top(Bare(e)) <= PRIMARY
    decreases e, 0, 0
  {
    var p := Level(e.binop);
    AtIs(e.left, p);
    AtIs(e.right, p + 1);
    var l, r := At(e.left, p), At(e.right, p + 1);
    assert Stratified(TBinary(e.binop, l, r));
    assert Bare(e) == TBinary(e.binop, l, r);
  }

  lemma {:induction false} AtIs(e: Expr, m: int)
    requires NullFree(e) && m <= PRIMARY
    ensures Fits(At(e, m), m) && Erase(At(e, m)) == e
    decreases e, 1
  {
    BareIs(e);
  }

  /** The expression round trip: any null-free expression, written for level m and followed by anything below m. */
  lemma ExpressionRoundTrip(e: Expr, m: nat, rest: Input)
    requires NullFree(e) && m < PRIMARY && NextLevel(rest) < m
    ensures Climb(Emit(At(e, m), rest), m) == Ok(At(e, m), rest) && Erase(At(e, m)) == e
  {
    AtIs(e, m);
    ClimbComplete(At(e, m), rest, m);
  }

  /** The number of tokens. */
  function Length(t: Tree): nat {
    match t
    case TNull => 0
    case TConst(_) => 1
    case TVar(_) => 1
    case TUnary(_, a) => 1 + Length(a)
    case TParen(a) => 2 + Length(a)
    case TBinary(_, l, r) => Length(l) + 1 + Length(r)
    case TAssign(l, r) => Length(l) + 1 + Length(r)
    case TCond(c, a, b) => Length(c) + 1 + Length(a) + 1 + Length(b)
  }

  lemma {:induction false} LengthIs(t: Tree, rest: Input)
    ensures Size(Emit(t, rest)) == Length(t) + Size(rest)
  {
    match t {
      case TUnary(_, a) => LengthIs(a, rest);
      case TParen(a) => LengthIs(a, Cons(Symbol(K.CloseParenthesis), rest));
      case TBinary(op, l, r) =>
        LengthIs(l, Cons(Symbol(BinaryToken(op)), Emit(r, rest)));
        LengthIs(r, rest);
      case TAssign(l, r) =>
        LengthIs(l, Cons(Symbol(K.Assign), Emit(r, rest)));
        LengthIs(r, rest);
      case TCond(c, a, b) =>
        LengthIs(c, Cons(Symbol(K.QuestionMark), Emit(a, Cons(Symbol(K.Colon), Emit(b, rest)))));
        LengthIs(a, Cons(Symbol(K.Colon), Emit(b, rest)));
        LengthIs(b, rest);
      case _ =>
    }
  }

  lemma {:induction false} AtFewest(t: Tree, m: int)
    requires Fits(t, m) && m <= PRIMARY
    ensures Length(At(Erase(t), m)) <= Length(t)
    decreases t, 0
  {
    if t.TUnary? {
      AtFewest(t.inner, PRIMARY);
      assert At(Erase(t), m) == TUnary(t.unop, At(Erase(t.inner), PRIMARY));
    } else if t.TParen? {
      ParenFewest(t.inner, m);
    } else if t.TBinary? {
      BinaryFewest(t, m);
    } else if t.TAssign? {
      AssignFewest(t, m);
    } else if t.TCond? {
      ConditionalFewest(t, m);
    }
  }

  lemma {:induction false} AssignFewest(t: Tree, m: int)
    requires t.TAssign? && Fits(t, m)
    ensures Length(At(Erase(t), m)) <= Length(t)
    decreases t, 0, 0
  {
    AtFewest(t.left, ASSIGNMENT_LEVEL + 1);
    AtFewest(t.right, ASSIGNMENT_LEVEL);
    assert Bare(Erase(t)) == TAssign(At(Erase(t.left), ASSIGNMENT_LEVEL + 1), At(Erase(t.right), ASSIGNMENT_LEVEL));
    assert At(Erase(t), m) == Bare(Erase(t));
  }

  lemma {:induction false} ConditionalFewest(t: Tree, m: int)
    requires t.TCond? && Fits(t, m)
    ensures Length(At(Erase(t), m)) <= Length(t)
    decreases t, 0, 0
  {
    AtFewest(t.cond, CONDITIONAL_LEVEL + 1);
    AtFewest(t.yes, 0);
    AtFewest(t.no, CONDITIONAL_LEVEL);
    assert Bare(Erase(t)) ==
      TCond(At(Erase(t.cond), CONDITIONAL_LEVEL + 1), At(Erase(t.yes), 0), At(Erase(t.no), CONDITIONAL_LEVEL));
    assert At(Erase(t), m) == Bare(Erase(t));
  }

  lemma {:induction false} BinaryFewest(t: Tree, m: int)
    requires t.TBinary? && Fits(t, m)
    ensures Length(At(Erase(t), m)) <= Length(t)
    decreases t, 0, 0
  {
    var p, l, r := Level(t.binop), Erase(t.left), Erase(t.right);
    AtFewest(t.left, p);
    AtFewest(t.right, p + 1);
    assert Bare(Erase(t)) == TBinary(t.binop, At(l, p), At(r, p + 1));
    assert At(Erase(t), m) == Bare(Erase(t));
  }

  lemma {:induction false} ParenFewest(a: Tree, m: int)
    requires Stratified(a)
    ensures Length(At(Erase(a), m)) <= 2 + Length(a)
    decreases a, 1
  {
    AtFewest(a, 0);
    StratifiedNoNull(a);
    NullFreeErase(a);
    BareIs(Erase(a));
    assert At(Erase(a), 0) == Bare(Erase(a));
  }

  /** No input that the parser reads as this expression is shorter. */
  lemma FewestTokens(ts: Input, m: nat, t: Tree, rest: Input)
    requires m < PRIMARY && Climb(ts, m) == Ok(t, rest) && NullFree(Erase(t))
    ensures Size(Emit(At(Erase(t), m), rest)) <= Size(ts)
  {
    ParsesExactly(ts, m, t, rest);
    AtFewest(t, m);
    LengthIs(t, rest);
    LengthIs(At(Erase(t), m), rest);
  }

  // ----- the syntax trees a parser can return -----

  predicate OpenIf(s: Stmt) { s.If? && (s.els.None? || OpenIf(s.els.value)) }

  /** Null-free, but for `return;`, and no `else` could belong to a nearer `if`. */
  predicate Parsable(s: Stmt)
    decreases s, 1
  {
    match s
    case Return(e) => e.NullExpr? || NullFree(e)
    case If(c, t, f) => NullFree(c) && Parsable(t) && (f.Some? ==> !OpenIf(t) && Parsable(f.value))
    case Expression(e) => NullFree(e)
    case Compound(items) => ParsableItems(items)
    case Empty => true
  }

  predicate ParsableItem(item: BlockItem)
    decreases item, 2
  {
    match item
    case Declaration(_, init) => init.NullExpr? || NullFree(init)
    case Statement(s) => Parsable(s)
  }

  predicate ParsableItems(items: seq<BlockItem>)
    decreases items, 0
  {
    items != [] ==> ParsableItem(items[0]) && ParsableItems(items[1..])
  }

  // ----- writing statements -----

  function WriteStmt(s: Stmt): StmtTree
    decreases s, 1
  {
    match s
    case Return(e) => SReturn(At(e, 0))
    case If(c, t, f) => SIf(At(c, 0), WriteStmt(t), if f.Some? then Some(WriteStmt(f.value)) else None)
    case Expression(e) => SExpr(At(e, 0))
    case Compound(items) => SBlock(WriteItems(items))
    case Empty => SEmpty
  }

  function WriteItem(item: BlockItem): ItemTree
    decreases item, 2
  {
    match item
    case Declaration(x, init) => IDeclaration(x, At(init, 0))
    case Statement(s) => IStatement(WriteStmt(s))
  }

  function WriteItems(items: seq<BlockItem>): List<ItemTree>
    decreases items, 0
  {
    if items == [] then Nil else Cons(WriteItem(items[0]), WriteItems(items[1..]))
  }

  function WriteFunction(f: Function): FunctionTree { FunctionTree(f.name, WriteItems(f.body)) }

  lemma WriteExpr(e: Expr)
    requires e.NullExpr? || NullFree(e)
    ensures var t := At(e, 0); Erase(t) == e && (t.TNull? || Stratified(t)) && (NullFree(e) ==> !t.TNull?)
  {
    if !e.NullExpr? { AtIs(e, 0); }
  }

  lemma {:induction false} WriteStmtIs(s: Stmt)
    requires Parsable(s)
    ensures var t := WriteStmt(s); EraseStmt(t) == s && Proper(t) && (EndsOpen(t) <==> OpenIf(s))
    decreases s, 1
  {
    match s {
      case Return(e) => WriteExpr(e);
      case If(c, t, f) =>
        WriteExpr(c);
        WriteStmtIs(t);
        if f.Some? { WriteStmtIs(f.value); }
      case Expression(e) => WriteExpr(e);
      case Compound(items) => WriteItemsIs(items);
      case Empty =>
    }
  }

  lemma {:induction false} WriteItemIs(item: BlockItem)
    requires ParsableItem(item)
    ensures EraseItem(WriteItem(item)) == item && ProperItem(WriteItem(item))
    decreases item, 2
  {
    match item {
      case Declaration(_, init) => WriteExpr(init);
      case Statement(s) => WriteStmtIs(s);
    }
  }

  lemma {:induction false} WriteItemsIs(items: seq<BlockItem>)
    requires ParsableItems(items)
    ensures EraseItems(WriteItems(items)) == items && ProperItems(WriteItems(items))
    decreases items, 0
  {
    if items != [] {
      WriteItemIs(items[0]);
      WriteItemsIs(items[1..]);
    }
  }

  lemma {:induction false} OpenErase(s: StmtTree)
    ensures OpenIf(EraseStmt(s)) <==> EndsOpen(s)
    decreases s
  {
    if s.SIf? && s.els.Some? { OpenErase(s.els.value); }
  }

  lemma EraseExpr(t: Tree)
    requires Stratified(t)
    ensures NullFree(Erase(t))
  {
    StratifiedNoNull(t);
    NullFreeErase(t);
  }

  lemma {:induction false} ProperParsable(s: StmtTree)
    requires Proper(s)
    ensures Parsable(EraseStmt(s))
    decreases s, 1
  {
    match s {
      case SReturn(e) => if !e.TNull? { EraseExpr(e); }
      case SIf(c, t, f) =>
        EraseExpr(c);
        ProperParsable(t);
        if f.Some? {
          OpenErase(t);
          ProperParsable(f.value);
        }
      case SExpr(e) => EraseExpr(e);
      case SBlock(items) => ProperParsableItems(items);
      case SEmpty =>
    }
  }

  lemma {:induction false} ProperParsableItems(items: List<ItemTree>)
    requires ProperItems(items)
    ensures ParsableItems(EraseItems(items))
    decreases items, 0
  {
    if items.Cons? {
      match items.head {
        case IDeclaration(_, init) => if !init.TNull? { EraseExpr(init); }
        case IStatement(s) => ProperParsable(s);
      }
      ProperParsableItems(items.tail);
      assert EraseItems(items)[1..] == EraseItems(items.tail);
    }
  }

  /** The statement round trip. */
  lemma StatementRoundTrip(s: Stmt, rest: Input)
    requires Parsable(s) && (OpenIf(s) ==> Kind(rest) != K.ElseKeyword)
    ensures ReadStatement(EmitStmt(WriteStmt(s), rest)) == Ok(WriteStmt(s), rest) && EraseStmt(WriteStmt(s)) == s
  {
    WriteStmtIs(s);
    StatementComplete(WriteStmt(s), rest);
  }

  // ----- whole programs -----

  lemma ProgramSound(ts: Input)
    ensures var r := ReadProgram(ts);
      r.Ok? && WholeItems(r.value.body) ==>
        ProperItems(r.value.body) && ts == EmitFunction(r.value, r.rest) && Kind(r.rest) == K.EndOfFile
  {
    var r := ReadProgram(ts);
    if r.Ok? {
      var block := ts.tail.tail.tail.tail.tail;
      assert ReadBlock(block) == Ok(r.value.body, r.rest);
      ItemsSound(block.tail);
    }
  }

  lemma ProgramComplete(f: FunctionTree, rest: Input)
    requires ProperItems(f.body) && Kind(rest) == K.EndOfFile
    ensures ReadProgram(EmitFunction(f, rest)) == Ok(f, rest)
  {
    var block := EmitStmt(SBlock(f.body), rest);
    ItemsComplete(f.body, Cons(Symbol(K.CloseBrace), rest));
    assert ReadBlock(block) == Ok(f.body, rest);
  }

  /** The parser accepts a program exactly when the input is a proper derivation of it, up to the end of the file. */
  lemma ParsesProgramExactly(ts: Input, f: FunctionTree, rest: Input)
    ensures ReadProgram(ts) == Ok(f, rest) && WholeItems(f.body) <==>
            ProperItems(f.body) && ts == EmitFunction(f, rest) && Kind(rest) == K.EndOfFile
  {
    ProgramSound(ts);
    if ProperItems(f.body) && ts == EmitFunction(f, rest) && Kind(rest) == K.EndOfFile {
      ProperWholeItems(f.body);
      ProgramComplete(f, rest);
    }
  }

  lemma ProgramRoundTrip(f: Function)
    requires ParsableItems(f.body)
    ensures ReadProgram(EmitProgram(WriteFunction(f))) == Ok(WriteFunction(f), Cons(Symbol(K.EndOfFile), Nil))
    ensures EraseFunction(WriteFunction(f)) == f
  {
    WriteItemsIs(f.body);
    ParsesProgramExactly(EmitProgram(WriteFunction(f)), WriteFunction(f), Cons(Symbol(K.EndOfFile), Nil));
  }

  /** Every program the parser returns has this shape. */
  lemma ParsedIsParsable(ts: Input)
    requires ReadProgram(ts).Ok? && WholeItems(ReadProgram(ts).value.body)
    ensures ParsableItems(EraseFunction(ReadProgram(ts).value).body)
  {
    var r := ReadProgram(ts);
    ParsesProgramExactly(ts, r.value, r.rest);
    ProperParsableItems(r.value.body);
  }
}
