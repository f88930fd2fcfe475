/**
 From source text to syntax tree and back: the lexer and the parser together read a
 program from the text that is written for it, with a space before and after every
 token and with no more parentheses than the tree needs.  What can be written is
 every tree the parser can return, as long as its names are identifiers.
*/
module SourceText {
  import opened Options
  import opened Names
  import opened Ast
  import opened Flow
  import opened Grammar
  import opened Parsing
  import opened RoundTrip
  import opened Scanning
  import opened LexerCorrect
  import P = Parser
  import K = Tokens

  // ----- the front end -----

  /** What the parser reads of the tokens. */
  function Looks(tokens: List<K.Token>): Input {
    if tokens.Nil? then Nil else Cons(Look(tokens.head), Looks(tokens.tail))
  }

  /** The tokens fit an int where they are constants. */
  predicate ConstantsFit(tokens: List<K.Token>) {
    tokens.Cons? ==> (tokens.head.kind == K.Numeral ==> K.InRange(tokens.head.text)) && ConstantsFit(tokens.tail)
  }

  /** Lexing and parsing. */
  function Front(source: string): Result<Function> {
    var l := LexFrom(source, 0);
    if l.Thrown? then Thrown
    else
      var p := ReadProgram(Looks(l.value));
      if p.SyntaxError? then Thrown else Success(EraseFunction(p.value))
  }

  lemma {:induction false} LooksFrom(tokens: seq<K.Token>, i: nat)
    requires i <= |tokens|
    ensures P.From(tokens, i) == Looks(FromSeq(tokens[i..]))
    decreases |tokens| - i
  {
    if i < |tokens| {
      LooksFrom(tokens, i + 1);
      assert tokens[i..][1..] == tokens[i + 1..];
    }
  }

  lemma {:induction false} CleanReadable(l: List<K.Token>)
    requires Clean(l)
    ensures K.Readable(ToSeq(l))
  {
    if l.tail.Cons? {
      CleanReadable(l.tail);
      var ts, rest := ToSeq(l), ToSeq(l.tail);
      assert ts == [l.head] + rest;
      forall k | 0 <= k < |ts| ensures ts[k].kind == K.EndOfFile <==> k == |ts| - 1 {
        if k > 0 { assert ts[k] == rest[k - 1]; }
      }
    } else {
      assert ToSeq(l) == [l.head];
    }
  }

  // ----- writing a program as text -----

  predicate LexemeSpelled(l: Lexeme) {
    match l
    case Number(v) => v >= 0
    case Name(x) => IsIdentifier(x)
    case Symbol(k) => Spelling(k) != ""
  }

  /** Lexemes that can be spelled, up to an end of file. */
  predicate Written(ts: Input) {
    ts.Cons? && if ts.tail.Nil? then ts.head == Symbol(K.EndOfFile) else LexemeSpelled(ts.head) && Written(ts.tail)
  }

  function PieceOf(l: Lexeme): Piece
    requires LexemeSpelled(l)
  {
    match l
    case Number(v) => Piece(K.Numeral, Decimal(v), " ")
    case Name(x) => Piece(K.Identifier, x, " ")
    case Symbol(k) => Piece(k, Spelling(k), " ")
  }

  function PiecesOf(ts: Input): List<Piece>
    requires Written(ts)
  {
    if ts.tail.Nil? then Nil else Cons(PieceOf(ts.head), PiecesOf(ts.tail))
  }

  /** The text: a space before and after every token. */
  function TextOf(ts: Input): string
    requires Written(ts)
  {
    " " + Layout(PiecesOf(ts))
  }

  lemma PieceSpelled(l: Lexeme)
    requires LexemeSpelled(l)
    ensures var p := PieceOf(l);
      && Spelled(p.kind, p.text) && p.kind != K.EndOfFile
      && (l.Number? ==> K.InRange(p.text) && K.IntOf(p.text) == l.value)
  {
    if l.Number? { ValueDecimal(l.value); }
  }

  lemma {:induction false} PiecesSpaced(ts: Input)
    requires Written(ts)
    ensures WellSpaced(PiecesOf(ts))
  {
    if ts.tail.Cons? {
      PieceSpelled(ts.head);
      PiecesSpaced(ts.tail);
    }
  }

  lemma PieceLooks(l: Lexeme, t: K.Token)
    requires LexemeSpelled(l) && t.kind == PieceOf(l).kind
    requires t.kind == K.Identifier || t.kind == K.Numeral ==> t.text == PieceOf(l).text
    ensures Look(t) == l && (t.kind == K.Numeral ==> K.InRange(t.text))
  {
    PieceSpelled(l);
  }

  lemma {:induction false} TellsLooks(tokens: List<K.Token>, ts: Input)
    requires Written(ts) && Tells(tokens, PiecesOf(ts))
    ensures Looks(tokens) == ts && ConstantsFit(tokens)
  {
    if ts.tail.Cons? {
      PieceLooks(ts.head, tokens.head);
      TellsLooks(tokens.tail, ts.tail);
    }
  }

  // ----- programs that can be written -----

  /** Constants are not negative, and names are identifiers. */
  predicate Spellable(e: Expr) {
    match e
    case NullExpr => true
    case Constant(v) => v >= 0
    case Var(x) => IsIdentifier(x)
    case Unary(_, a) => Spellable(a)
    case Binary(_, a, b) => Spellable(a) && Spellable(b)
    case Assignment(a, b) => Spellable(a) && Spellable(b)
    case Conditional(c, a, b) => Spellable(c) && Spellable(a) && Spellable(b)
  }

  predicate SpellableStmt(s: Stmt)
    decreases s, 1
  {
    match s
    case Return(e) => Spellable(e)
    case If(c, t, f) => Spellable(c) && SpellableStmt(t) && (f.Some? ==> SpellableStmt(f.value))
    case Expression(e) => Spellable(e)
    case Compound(items) => SpellableItems(items)
    case Empty => true
  }

  predicate SpellableItem(item: BlockItem)
    decreases item, 2
  {
    match item
    case Declaration(x, init) => IsIdentifier(x) && Spellable(init)
    case Statement(s) => SpellableStmt(s)
  }

  predicate SpellableItems(items: seq<BlockItem>)
    decreases items, 0
  {
    items != [] ==> SpellableItem(items[0]) && SpellableItems(items[1..])
  }

  lemma OperatorSpelled(op: BinaryOpType)
    ensures Spelling(BinaryToken(op)) != ""
  {}

  lemma UnarySpelled(op: UnaryOpType)
    ensures Spelling(UnaryToken(op)) != ""
  {}

  lemma SymbolWritten(k: K.TokenType, ts: Input)
    requires Spelling(k) != "" && Written(ts)
    ensures Written(Cons(Symbol(k), ts))
  {}

  lemma {:induction false} AtWritten(e: Expr, m: int, rest: Input)
    requires Spellable(e) && Written(rest)
    ensures Written(Emit(At(e, m), rest))
    decreases e, 1
  {
    if Top(Bare(e)) >= m {
      BareWritten(e, rest);
    } else {
      BareWritten(e, Cons(Symbol(K.CloseParenthesis), rest));
    }
  }

  lemma {:induction false} BareWritten(e: Expr, rest: Input)
    requires Spellable(e) && Written(rest)
    ensures Written(Emit(Bare(e), rest))
    decreases e, 0
  {
    if e.Unary? {
      UnarySpelled(e.unop);
      AtWritten(e.inner, PRIMARY, rest);
      assert Bare(e) == TUnary(e.unop, At(e.inner, PRIMARY));
    } else if e.Binary? {
      BinaryWritten(e, rest);
    } else if e.Assignment? {
      AssignmentWritten(e, rest);
    } else if e.Conditional? {
      ConditionalWritten(e, rest);
    }
  }

  lemma {:induction false} BinaryWritten(e: Expr, rest: Input)
    requires e.Binary? && Spellable(e) && Written(rest)
    ensures Written(Emit(Bare(e), rest))
    decreases e, 0, 0
  {
    var a, b := At(e.left, Level(e.binop)), At(e.right, Level(e.binop) + 1);
    AtWritten(e.right, Level(e.binop) + 1, rest);
    OperatorSpelled(e.binop);
    SymbolWritten(BinaryToken(e.binop), Emit(b, rest));
    AtWritten(e.left, Level(e.binop), Cons(Symbol(BinaryToken(e.binop)), Emit(b, rest)));
    assert Bare(e) == TBinary(e.binop, a, b);
  }

  lemma {:induction false} AssignmentWritten(e: Expr, rest: Input)
    requires e.Assignment? && Spellable(e) && Written(rest)
    ensures Written(Emit(Bare(e), rest))
    decreases e, 0, 0
  {
    var a, b := At(e.target, ASSIGNMENT_LEVEL + 1), At(e.source, ASSIGNMENT_LEVEL);
    AfterWritten(K.Assign, e.source, ASSIGNMENT_LEVEL, rest);
    AtWritten(e.target, ASSIGNMENT_LEVEL + 1, Cons(Symbol(K.Assign), Emit(b, rest)));
    assert Bare(e) == TAssign(a, b);
  }

  lemma {:induction false} ConditionalWritten(e: Expr, rest: Input)
    requires e.Conditional? && Spellable(e) && Written(rest)
    ensures Written(Emit(Bare(e), rest))
    decreases e, 0, 0
  {
    var all := Cons(Symbol(K.QuestionMark),
                    Emit(At(e.yes, 0), Cons(Symbol(K.Colon), Emit(At(e.no, CONDITIONAL_LEVEL), rest))));
    BranchesWritten(e, rest);
    AtWritten(e.cond, CONDITIONAL_LEVEL + 1, all);
    BareConditional(e, rest, all);
  }

  lemma {:induction false} BareConditional(e: Expr, rest: Input, all: Input)
    requires e.Conditional?
    requires all == Cons(Symbol(K.QuestionMark),
                         Emit(At(e.yes, 0), Cons(Symbol(K.Colon), Emit(At(e.no, CONDITIONAL_LEVEL), rest))))
    ensures Emit(Bare(e), rest) == Emit(At(e.cond, CONDITIONAL_LEVEL + 1), all)
  {
    assert Bare(e) == TCond(At(e.cond, CONDITIONAL_LEVEL + 1), At(e.yes, 0), At(e.no, CONDITIONAL_LEVEL));
  }

  lemma {:induction false} BranchesWritten(e: Expr, rest: Input)
    requires e.Conditional? && Spellable(e) && Written(rest)
    ensures Written(Cons(Symbol(K.QuestionMark),
                         Emit(At(e.yes, 0), Cons(Symbol(K.Colon), Emit(At(e.no, CONDITIONAL_LEVEL), rest)))))
    decreases e, 0, 0, 0
  {
    var more := NoWritten(e, rest);
    AfterWritten(K.QuestionMark, e.yes, 0, more);
  }

  lemma {:induction false} NoWritten(e: Expr, rest: Input) returns (more: Input)
    requires e.Conditional? && Spellable(e) && Written(rest)
    ensures more == Cons(Symbol(K.Colon), Emit(At(e.no, CONDITIONAL_LEVEL), rest)) && Written(more)
    decreases e, 0, 0, 0, 0
  {
    more := Cons(Symbol(K.Colon), Emit(At(e.no, CONDITIONAL_LEVEL), rest));
    AfterWritten(K.Colon, e.no, CONDITIONAL_LEVEL, rest);
  }

  lemma {:induction false} AfterWritten(k: K.TokenType, e: Expr, m: int, rest: Input)
    requires Spelling(k) != "" && Spellable(e) && Written(rest)
    ensures Written(Cons(Symbol(k), Emit(At(e, m), rest)))
    decreases e, 2
  {
    AtWritten(e, m, rest);
    SymbolWritten(k, Emit(At(e, m), rest));
  }

  lemma {:induction false} StmtWritten(s: Stmt, rest: Input)
    requires SpellableStmt(s) && Written(rest)
    ensures Written(EmitStmt(WriteStmt(s), rest))
    decreases s, 1
  {
    var more := Cons(Symbol(K.Semicolon), rest);
    match s {
      case Return(e) => AtWritten(e, 0, more);
      case If(c, t, f) =>
        if f.Some? { StmtWritten(f.value, rest); }
        var after := if f.Some? then Cons(Symbol(K.ElseKeyword), EmitStmt(WriteStmt(f.value), rest)) else rest;
        StmtWritten(t, after);
        AtWritten(c, 0, Cons(Symbol(K.CloseParenthesis), EmitStmt(WriteStmt(t), after)));
      case Expression(e) => AtWritten(e, 0, more);
      case Compound(items) => ItemsWritten(items, Cons(Symbol(K.CloseBrace), rest));
      case Empty =>
    }
  }

  lemma DeclarationWritten(x: string, init: Tree, rest: Input)
    requires IsIdentifier(x) && Written(rest) && Written(Emit(init, Cons(Symbol(K.Semicolon), rest)))
    ensures Written(EmitItem(IDeclaration(x, init), rest))
  {
    var more := Cons(Symbol(K.Semicolon), rest);
    var value := if init.TNull? then more else Cons(Symbol(K.Assign), Emit(init, more));
    SymbolWritten(K.Semicolon, rest);
    SymbolWritten(K.Assign, Emit(init, more));
    assert Written(value);
    assert Written(Cons(Name(x), value));
    SymbolWritten(K.IntKeyword, Cons(Name(x), value));
  }

  lemma {:induction false} ItemWritten(item: BlockItem, rest: Input)
    requires SpellableItem(item) && Written(rest)
    ensures Written(EmitItem(WriteItem(item), rest))
    decreases item, 2
  {
    match item {
      case Declaration(x, init) =>
        AtWritten(init, 0, Cons(Symbol(K.Semicolon), rest));
        DeclarationWritten(x, At(init, 0), rest);
      case Statement(s) => StmtWritten(s, rest);
    }
  }

  lemma {:induction false} ItemsWritten(items: seq<BlockItem>, rest: Input)
    requires SpellableItems(items) && Written(rest)
    ensures Written(EmitItems(WriteItems(items), rest))
    decreases items, 0
  {
    if items != [] {
      ItemsWritten(items[1..], rest);
      ItemWritten(items[0], EmitItems(WriteItems(items[1..]), rest));
    }
  }

  predicate SpellableFunction(f: Function) { IsIdentifier(f.name) && SpellableItems(f.body) }

  lemma ProgramWritten(f: Function)
    requires SpellableFunction(f)
    ensures Written(EmitProgram(WriteFunction(f)))
  {
    var end := Cons(Symbol(K.EndOfFile), Nil);
    var body := EmitStmt(SBlock(WriteItems(f.body)), end);
    ItemsWritten(f.body, Cons(Symbol(K.CloseBrace), end));
    SymbolWritten(K.CloseParenthesis, body);
    var close := Cons(Symbol(K.CloseParenthesis), body);
    SymbolWritten(K.VoidKeyword, close);
    SymbolWritten(K.OpenParenthesis, Cons(Symbol(K.VoidKeyword), close));
    var name := Cons(Name(f.name), Cons(Symbol(K.OpenParenthesis), Cons(Symbol(K.VoidKeyword), close)));
    assert Written(name);
    SymbolWritten(K.IntKeyword, name);
  }

  /** The text of a program. */
  function ProgramText(f: Function): string
    requires SpellableFunction(f)
  {
    ProgramWritten(f);
    TextOf(EmitProgram(WriteFunction(f)))
  }

  /** The front end reads every program that can be written back from its text, and its constants fit. */
  lemma FrontRoundTrip(f: Function)
    requires SpellableFunction(f) && ParsableItems(f.body)
    ensures Front(ProgramText(f)) == Success(f)
    ensures ConstantsFit(LexFrom(ProgramText(f), 0).value)
  {
    ProgramWritten(f);
    var ts := EmitProgram(WriteFunction(f));
    PiecesSpaced(ts);
    LexRoundTrip(" ", PiecesOf(ts));
    TellsLooks(LexFrom(ProgramText(f), 0).value, ts);
    ProgramRoundTrip(f);
  }
}
