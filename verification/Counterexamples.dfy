/** Two programs that are compiled to something else. */
module Counterexamples {
  // Neither condition of the end-to-end theorem can be dropped: both programs are read
  // from their text and accepted, and their lines return 2 from every machine state.

  import opened Options
  import opened Ast
  import opened Flow
  import opened Scoping
  import opened CSemantics
  import opened FlatSemantics
  import opened SourceCorrect
  import opened Hiding
  import opened Spelled
  import opened FrontNames
  import opened SourceText
  import opened Compiler
  import RoundTrip
  import LexerCorrect
  import Analysis = Semantic
  import A = Asm

  /** There is a text from which it is read and which the phases take to the end. */
  ghost predicate Received(f: Function) {
    SpellableFunction(f) && Front(ProgramText(f)) == Success(f) && Compiles(ProgramText(f))
  }

  lemma FromText(f: Function)
    requires SpellableFunction(f) && RoundTrip.ParsableItems(f.body) && Analysis.Accepted(f)
    ensures Received(f) && Compilable(f)
  {
    FrontRoundTrip(f);
    SpellableDotless(f.body);
  }

  // ----- a hidden name -----

  /** int main(void) { int a = 1; { int a = 2; } return a; } */
  function ShadowingProgram(): Function {
    Function("main", [Declaration("a", Constant(1)), Statement(Compound([Declaration("a", Constant(2))])),
                      Statement(Return(Var("a")))])
  }

  function ShadowingOutline(): Outline { Binds("a", Nested(Binds("a", End), End)) }

  lemma ShadowingIsWitness()
    ensures Once(ShadowingOutline(), {}) && !Free(ShadowingOutline(), {})
    ensures ShadowingProgram().body == Witness(ShadowingOutline(), {})
    ensures !ShadowFree(ShadowingProgram().body, {})
  {
    var inner := Binds("a", End);
    assert Witness(inner, {} + {"a"}) == [Declaration("a", Constant(2))];
    WitnessOutline(ShadowingOutline(), {});
    ItemsFree(ShadowingProgram().body, {});
  }

  lemma ShadowingWritable()
    ensures SpellableFunction(ShadowingProgram()) && RoundTrip.ParsableItems(ShadowingProgram().body)
  {
    assert LexerCorrect.IsIdentifier("a") && LexerCorrect.IsIdentifier("main");
    assert SimpleItem(Declaration("a", Constant(2)), LexerCorrect.IsIdentifier);
    assert Simple(ShadowingProgram().body, LexerCorrect.IsIdentifier);
    SimpleWritable(ShadowingProgram().body);
  }

  /** It returns 1 in C11, and 2 when compiled. */
  lemma ShadowingDiffers(f: Function, t: A.State, fuel: nat)
    requires f == ShadowingProgram() && fuel >= |Compiled(f)|
    ensures Received(f) && !ShadowFree(f.body, {}) && RunFunction(f) == Exits(1)
    ensures RunText(A.Hardware, Compiled(f), 0, t, fuel) == Returned(2)
  {
    ShadowingReceived(f);
    ShadowingInC(f);
    ShadowingIsWitness();
    ShadowingRuns(f, ShadowingOutline(), t, fuel);
  }

  lemma ShadowingReceived(f: Function)
    requires f == ShadowingProgram()
    ensures Received(f) && Compilable(f)
  {
    ShadowingIsWitness();
    ShadowingWritable();
    WitnessAccepted(f, f, ShadowingOutline());
    FromText(f);
  }

  lemma ShadowingInC(f: Function)
    requires f == ShadowingProgram()
    ensures RunFunction(f) == Exits(1)
  {
    ShadowingIsWitness();
    WitnessRuns(ShadowingOutline());
  }

  lemma ShadowingRuns(f: Function, o: Outline, t: A.State, fuel: nat)
    requires Once(o, {}) && !Free(o, {}) && f.body == Witness(o, {}) && Compilable(f) && fuel >= |Compiled(f)|
    ensures RunText(A.Hardware, Compiled(f), 0, t, fuel) == Returned(2)
  {
    WitnessReturns(o, f, VarsAt(f, t));
    CompiledRuns(f, t, fuel);
  }

  // ----- a late read -----

  function LateRead(): Expr { Binary(Add, Var("x"), Assignment(Var("x"), Constant(1))) }

  /** int main(void) { int x = 0; return x + (x = 1); } */
  function LateReadProgram(): Function {
    Function("main", [Declaration("x", Constant(0)), Statement(Return(LateRead()))])
  }

  lemma LateReadAccepted()
    ensures Analysis.Accepted(LateReadProgram()) && ShadowFree(LateReadProgram().body, {})
  {
    var body := LateReadProgram().body;
    assert body[1..] == [body[1]] && body[1..][1..] == [];
    assert DirectNames(body[..1]) == {"x"} by { assert body[..1][0].name == "x"; }
    assert DirectNames(body[..2]) == {"x"} by { assert body[..2][0].name == "x"; }
    assert UsesVisible(LateRead(), {} + {"x"});
    forall k | 0 <= k < |body| ensures ScopedItem(body[k], {} + DirectNames(body[..k + 1])) {}
    Analysis.AcceptsIffScoped(LateReadProgram());
  }

  lemma LateReadInC(sc: Scopes)
    requires sc == [map[], map["x" := Some(0)]]
    ensures RunFunction(LateReadProgram()) == Undefined
    ensures Eval(Var("x"), sc) == Done(0, sc, {})
    ensures Eval(Assignment(Var("x"), Constant(1)), sc).Done? && Eval(Assignment(Var("x"), Constant(1)), sc).v == 1
  {
    var body := LateReadProgram().body;
    var empty: Scope := map[];
    DeclareConstant("x", 0, [empty, empty]);
    assert [empty, empty][1 := map["x" := Some(0)]] == sc;
    assert Eval(LateRead(), sc) == EvalStrict(LateRead(), sc) == Wild;
    assert ExecItem(body[1], sc) == Astray;
    assert body[1..] == [body[1]];
  }

  lemma LateReadLate(vars: Vars)
    ensures LateFunction(LateReadProgram(), vars) == Returned(2)
  {
    var body, zero := LateReadProgram().body, vars["x" := 0];
    assert LateItem(body[0], vars) == LFall(zero);
    assert EvalLate(LateRead(), zero) == LateStrict(LateRead(), zero) == LDone(Known(2), zero["x" := 1]);
    assert LateItem(body[1], zero) == LExit(2);
    assert body[1..] == [body[1]];
  }

  lemma LateReadWritable()
    ensures SpellableFunction(LateReadProgram()) && RoundTrip.ParsableItems(LateReadProgram().body)
  {
    var body := LateReadProgram().body;
    assert LexerCorrect.IsIdentifier("x") && LexerCorrect.IsIdentifier("main");
    assert Spellable(LateRead());
    assert body[1..] == [body[1]] && body[1..][1..] == [];
  }

  /** Read from left to right the sum is 1, the lines return 2; C11 leaves the program undefined. */
  lemma LateReadDiffers(f: Function, t: A.State, fuel: nat, sc: Scopes)
    requires f == LateReadProgram() && fuel >= |Compiled(f)| && sc == [map[], map["x" := Some(0)]]
    ensures Received(f) && ShadowFree(f.body, {}) && RunFunction(f) == Undefined
    ensures Eval(Var("x"), sc).Done? && Eval(Assignment(Var("x"), Constant(1)), sc).Done?
    ensures Eval(Var("x"), sc).v + Eval(Assignment(Var("x"), Constant(1)), sc).v == 1
    ensures RunText(A.Hardware, Compiled(f), 0, t, fuel) == Returned(2)
  {
    LateReadAccepted();
    LateReadInC(sc);
    LateReadLate(VarsAt(f, t));
    LateReadWritable();
    FromText(f);
    CompiledRuns(f, t, fuel);
  }
}
