/** One program, from its text to its result. */
module Example {
  // The end-to-end theorem says something: this text is compiled, and its lines return 42.

  import opened Options
  import opened Ast
  import opened Flow
  import opened Names
  import opened Grammar
  import opened Scoping
  import opened CSemantics
  import opened SourceCorrect
  import opened Spelled
  import opened RoundTrip
  import opened LexerCorrect
  import opened SourceText
  import opened Compiler
  import Analysis = Semantic
  import A = Asm
  import K = Tokens

  /** int main(void) { int a = 10; return 2 + a * 4; } */
  function Answer(): Function { Function("main", [Declaration("a", Constant(10)), Statement(Return(AnswerValue()))]) }

  function AnswerValue(): Expr { Binary(Add, Constant(2), Binary(Mul, Var("a"), Constant(4))) }

  // ----- its text -----

  /** Each word followed by a space. */
  function Spaced(words: seq<string>): string {
    if words == [] then "" else words[0] + " " + Spaced(words[1..])
  }

  function Texts(ts: Input): seq<string>
    requires Written(ts)
  {
    if ts.tail.Nil? then [] else [PieceOf(ts.head).text] + Texts(ts.tail)
  }

  lemma {:induction false} LayoutSpaced(ts: Input)
    requires Written(ts)
    ensures Layout(PiecesOf(ts)) == Spaced(Texts(ts))
  {
    if ts.tail.Cons? {
      LayoutSpaced(ts.tail);
      assert Texts(ts)[1..] == Texts(ts.tail);
    }
  }

  const ANSWER_WORDS := ["int", "main", "(", "void"] + ([")", "{", "int", "a"] + (["=", "10", ";"] + RETURN_WORDS))
  const RETURN_WORDS := ["return", "2", "+", "a"] + ["*", "4", ";", "}"]

  function AnswerTree(): Tree { TBinary(Add, TConst(2), TBinary(Mul, TVar("a"), TConst(4))) }

  lemma AnswerTreeIs()
    ensures At(AnswerValue(), 0) == AnswerTree()
  {
    var product := Binary(Mul, Var("a"), Constant(4));
    assert Bare(Var("a")) == TVar("a") && Bare(Constant(4)) == TConst(4) && Bare(Constant(2)) == TConst(2);
    assert At(product, Level(Add) + 1) == TBinary(Mul, TVar("a"), TConst(4));
  }

  lemma AnswerExpr(rest: Input)
    ensures Emit(AnswerTree(), rest) ==
      Cons(Number(2), Cons(Symbol(K.Addition), Cons(Name("a"), Cons(Symbol(K.Multiplication), Cons(Number(4), rest)))))
  {
    var four := Cons(Number(4), rest);
    assert Emit(TConst(4), rest) == four;
    var product := Cons(Name("a"), Cons(Symbol(K.Multiplication), four));
    assert Emit(TVar("a"), Cons(Symbol(K.Multiplication), four)) == product;
    assert Emit(TBinary(Mul, TVar("a"), TConst(4)), rest) == product;
    assert Emit(TConst(2), Cons(Symbol(K.Addition), product)) == Cons(Number(2), Cons(Symbol(K.Addition), product));
  }

  function AnswerReturn(): Input {
    var end := Cons(Symbol(K.Semicolon), Cons(Symbol(K.CloseBrace), Cons(Symbol(K.EndOfFile), Nil)));
    Cons(Symbol(K.ReturnKeyword), Cons(Number(2), Cons(Symbol(K.Addition), Cons(Name("a"),
      Cons(Symbol(K.Multiplication), Cons(Number(4), end))))))
  }

  function AnswerTokens(): Input {
    Cons(Symbol(K.IntKeyword), Cons(Name("main"), Cons(Symbol(K.OpenParenthesis), Cons(Symbol(K.VoidKeyword),
      Cons(Symbol(K.CloseParenthesis), Cons(Symbol(K.OpenBrace), Cons(Symbol(K.IntKeyword), Cons(Name("a"),
        Cons(Symbol(K.Assign), Cons(Number(10), Cons(Symbol(K.Semicolon), AnswerReturn())))))))))))
  }

  lemma AnswerEmits()
    ensures EmitProgram(WriteFunction(Answer())) == AnswerTokens()
  {
    var end := Cons(Symbol(K.EndOfFile), Nil);
    var close := Cons(Symbol(K.CloseBrace), end);
    var body := Answer().body;
    var item := IStatement(SReturn(AnswerTree()));
    var first := IDeclaration("a", TConst(10));
    AnswerTreeIs();
    AnswerExpr(Cons(Symbol(K.Semicolon), close));
    assert WriteItem(body[1]) == item && WriteItem(body[0]) == first;
    assert body[1..] == [body[1]] && body[1..][1..] == [];
    assert WriteItems(body[1..]) == Cons(item, Nil);
    assert WriteItems(body) == Cons(first, Cons(item, Nil));
    assert EmitItem(item, close) == AnswerReturn();
    assert EmitItems(Cons(item, Nil), close) == AnswerReturn();
    assert Emit(TConst(10), Cons(Symbol(K.Semicolon), AnswerReturn())) ==
      Cons(Number(10), Cons(Symbol(K.Semicolon), AnswerReturn()));
  }

  /** Four tokens and their texts. */
  lemma FourWords(ts: Input, a: string, b: string, c: string, d: string, words: seq<string>)
    requires Written(ts) && ts.tail.Cons? && ts.tail.tail.Cons? && ts.tail.tail.tail.Cons? && ts.tail.tail.tail.tail.Cons?
    requires Written(ts.tail) && Written(ts.tail.tail) && Written(ts.tail.tail.tail) && Written(ts.tail.tail.tail.tail)
    requires PieceOf(ts.head).text == a && PieceOf(ts.tail.head).text == b
    requires PieceOf(ts.tail.tail.head).text == c && PieceOf(ts.tail.tail.tail.head).text == d
    requires Texts(ts.tail.tail.tail.tail) == words
    ensures Texts(ts) == [a, b, c, d] + words
  {
    var t1, t2, t3 := ts.tail, ts.tail.tail, ts.tail.tail.tail;
    assert Texts(t3) == [d] + words;
    assert Texts(t2) == [c] + ([d] + words) == [c, d] + words;
    assert Texts(t1) == [b] + ([c, d] + words) == [b, c, d] + words;
    assert Texts(ts) == [a] + ([b, c, d] + words) == [a, b, c, d] + words;
  }

  lemma ReturnTexts(ts: Input)
    requires ts == AnswerReturn() && Written(ts)
    ensures Texts(ts) == RETURN_WORDS
  {
    var t4 := ts.tail.tail.tail.tail;
    assert Written(ts.tail) && Written(ts.tail.tail) && Written(ts.tail.tail.tail) && Written(t4);
    assert Written(t4.tail) && Written(t4.tail.tail) && Written(t4.tail.tail.tail) && Written(t4.tail.tail.tail.tail);
    assert Decimal(2) == "2" && Decimal(4) == "4";
    FourWords(t4, "*", "4", ";", "}", []);
    FourWords(ts, "return", "2", "+", "a", Texts(t4));
  }

  lemma InitializerTexts(ts: Input)
    requires ts == Cons(Symbol(K.Assign), Cons(Number(10), Cons(Symbol(K.Semicolon), AnswerReturn()))) && Written(ts)
    ensures Texts(ts) == ["=", "10", ";"] + RETURN_WORDS
  {
    assert Written(ts.tail) && Written(ts.tail.tail) && Written(ts.tail.tail.tail);
    DecimalTen();
    ReturnTexts(ts.tail.tail.tail);
    ThreeWords(ts, "=", "10", ";", RETURN_WORDS);
  }

  lemma ThreeWords(ts: Input, a: string, b: string, c: string, words: seq<string>)
    requires Written(ts) && ts.tail.Cons? && ts.tail.tail.Cons? && ts.tail.tail.tail.Cons?
    requires Written(ts.tail) && Written(ts.tail.tail) && Written(ts.tail.tail.tail)
    requires PieceOf(ts.head).text == a && PieceOf(ts.tail.head).text == b && PieceOf(ts.tail.tail.head).text == c
    requires Texts(ts.tail.tail.tail) == words
    ensures Texts(ts) == [a, b, c] + words
  {
    var t1, t2 := ts.tail, ts.tail.tail;
    assert Texts(t2) == [c] + words;
    assert Texts(t1) == [b] + ([c] + words) == [b, c] + words;
    assert Texts(ts) == [a] + ([b, c] + words) == [a, b, c] + words;
  }

  lemma DeclarationTexts(ts: Input, more: Input)
    requires ts == Cons(Symbol(K.CloseParenthesis), Cons(Symbol(K.OpenBrace),
                     Cons(Symbol(K.IntKeyword), Cons(Name("a"), more))))
    requires more.Cons? && Written(ts)
    ensures Written(more) && Texts(ts) == [")", "{", "int", "a"] + Texts(more)
  {
    assert Written(ts.tail) && Written(ts.tail.tail) && Written(ts.tail.tail.tail) && Written(more);
    FourWords(ts, ")", "{", "int", "a", Texts(more));
  }

  lemma HeadTexts(ts: Input, more: Input)
    requires ts == Cons(Symbol(K.IntKeyword), Cons(Name("main"),
                     Cons(Symbol(K.OpenParenthesis), Cons(Symbol(K.VoidKeyword), more))))
    requires more.Cons? && Written(ts)
    ensures Written(more) && Texts(ts) == ["int", "main", "(", "void"] + Texts(more)
  {
    assert Written(ts.tail) && Written(ts.tail.tail) && Written(ts.tail.tail.tail) && Written(more);
    FourWords(ts, "int", "main", "(", "void", Texts(more));
  }

  lemma AnswerTexts(ts: Input)
    requires ts == AnswerTokens() && Written(ts)
    ensures Texts(ts) == ANSWER_WORDS
  {
    var init := Cons(Symbol(K.Assign), Cons(Number(10), Cons(Symbol(K.Semicolon), AnswerReturn())));
    var decl := Cons(Symbol(K.CloseParenthesis), Cons(Symbol(K.OpenBrace),
                  Cons(Symbol(K.IntKeyword), Cons(Name("a"), init))));
    HeadTexts(ts, decl);
    DeclarationTexts(decl, init);
    InitializerTexts(init);
  }

  lemma DecimalTen()
    ensures Decimal(10) == "10"
  {
    assert Decimal(1) == "1";
  }

  // ----- what it does -----

  lemma AnswerWritable()
    ensures SpellableFunction(Answer()) && ParsableItems(Answer().body)
  {
    var body := Answer().body;
    assert IsIdentifier("a") && IsIdentifier("main");
    assert Spellable(AnswerValue()) && NullFree(AnswerValue());
    assert body[1..] == [body[1]] && body[1..][1..] == [];
  }

  /** Its text, word by word. */
  lemma AnswerText()
    ensures SpellableFunction(Answer()) && ProgramText(Answer()) == " " + Spaced(ANSWER_WORDS)
  {
    AnswerWritable();
    AnswerEmits();
    ProgramWritten(Answer());
    AnswerTexts(AnswerTokens());
    LayoutSpaced(AnswerTokens());
  }

  lemma AnswerInC()
    ensures RunFunction(Answer()) == Exits(42)
  {
    var body := Answer().body;
    var empty: Scope := map[];
    var ten: Scope := map["a" := Some(10)];
    var sc := [empty, ten];
    var product := Binary(Mul, Var("a"), Constant(4));
    DeclareConstant("a", 10, [empty, empty]);
    assert [empty, empty][1 := ten] == sc;
    assert Eval(Var("a"), sc) == Done(10, sc, {}) && Eval(Constant(4), sc) == Done(4, sc, {});
    assert EvalStrict(product, sc).Done? && EvalStrict(product, sc).v == 40;
    assert Eval(Constant(2), sc) == Done(2, sc, {}) && Eval(product, sc) == EvalStrict(product, sc);
    assert EvalStrict(AnswerValue(), sc).v == 42;
    assert ExecItem(body[1], sc) == Exit(42);
    assert body[1..] == [body[1]];
  }

  lemma AnswerAccepted()
    ensures Compilable(Answer()) && ShadowFree(Answer().body, {})
  {
    var body := Answer().body;
    assert body[1..] == [body[1]] && body[1..][1..] == [];
    assert DirectNames(body[..1]) == {"a"} by { assert body[..1][0].name == "a"; }
    assert DirectNames(body[..2]) == {"a"} by { assert body[..2][0].name == "a"; }
    assert UsesVisible(AnswerValue(), {} + {"a"});
    forall k | 0 <= k < |body| ensures ScopedItem(body[k], {} + DirectNames(body[..k + 1])) {}
    assert Dotless()("a");
    Analysis.AcceptsIffScoped(Answer());
  }

  /** From this text all phases come to the end, and the lines return 42 from every machine state. */
  lemma AnswerRuns(source: string, f: Function, t: A.State)
    requires source == " " + Spaced(ANSWER_WORDS) && f == Answer()
    ensures Compiles(source) && Front(source) == Success(f)
    ensures RunText(A.Hardware, Compiled(f), 0, t, |Compiled(f)|) == Returned(42)
  {
    AnswerText();
    AnswerWritable();
    AnswerAccepted();
    AnswerInC();
    FrontRoundTrip(f);
    EndToEnd(f, t, |Compiled(f)|);
  }
}
