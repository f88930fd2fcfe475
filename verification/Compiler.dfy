/** The whole compiler. */
module Compiler {
  // For every program that the analyzer accepts, in which no
  // declaration hides a visible name, and whose behaviour C11 defines, the emitted
  // lines leave the value of `main` in `%eax` at `ret`, or fault on a division
  // exactly when the program divides without a quotient.  Where a declaration does hide
  // a name, some program with the same scopes is compiled wrongly.

  import opened Options
  import opened Ast
  import opened Flow
  import opened Scoping
  import opened CSemantics
  import opened FlatSemantics
  import opened SourceCorrect
  import opened Hiding
  import opened Names
  import opened Spelled
  import opened FrontNames
  import opened AsmCorrect
  import Analysis = Semantic
  import Lexing = Lexer
  import Parse = Parser
  import Text = SourceText
  import Scanning
  import LexerCorrect
  import RoundTrip
  import T = Tacky
  import G = TackyGen
  import Correct = TackyCorrect
  import Statements = TackyStatements
  import Control = TackyControl
  import Frame = TackyFrame
  import A = Asm
  import C = CodeGen
  import B = BackEnd

  /** The lines emitted for a function. */
  function Compiled(f: Function): seq<A.Instr> {
    C.Printed(C.Generate(ToSeq(G.EmitFunction(f))))
  }

  // ----- what the analyzer guarantees to the generator -----

  lemma {:induction false} ScopedStmtGood(s: Stmt, vis: set<string>)
    requires StmtAll(s, NullFree) && ScopedStmt(s, vis)
    ensures StmtAll(s, Correct.Good) && StmtAll(s, TargetsAreVars)
    decreases s, 1
  {
    match s {
      case If(_, a, b) =>
        ScopedStmtGood(a, vis);
        if b.Some? { ScopedStmtGood(b.value, vis); }
      case Compound(items) =>
        ScopedBlockIs(items, vis);
        ScopedItemsGood(items, vis, {});
      case _ =>
    }
  }

  lemma {:induction false} ScopedItemGood(item: BlockItem, vis: set<string>)
    requires ItemAll(item, NullFree) && ScopedItem(item, vis)
    ensures ItemAll(item, Correct.Good) && ItemAll(item, TargetsAreVars)
    decreases item, 2
  {
    if item.Statement? { ScopedStmtGood(item.s, vis); }
  }

  lemma {:induction false} ScopedItemsGood(items: seq<BlockItem>, outer: set<string>, local: set<string>)
    requires ItemsAll(items, NullFree) && ScopedRest(items, outer, local)
    ensures ItemsAll(items, Correct.Good) && ItemsAll(items, TargetsAreVars)
    decreases items, 0
  {
    if items != [] {
      var now := local + DirectNames(items[..1]);
      ScopedItemGood(items[0], outer + now);
      ScopedItemsGood(items[1..], outer, now);
    }
  }

  /** A function the analyzer accepts goes through the generator without an exception. */
  lemma AcceptedGood(f: Function)
    requires ItemsAll(f.body, NullFree) && ScopedFunction(f)
    ensures ItemsAll(f.body, Correct.Good) && ItemsAll(f.body, TargetsAreVars)
  {
    ScopedBlockIs(f.body, {});
    ScopedItemsGood(f.body, {}, {});
  }

  // ----- the main theorem -----

  /** What reaches the generator from a source text: an accepted function, whose names the lexer can deliver. */
  predicate Compilable(f: Function) { Analysis.Accepted(f) && ItemsNames(f.body, Dotless()) }

  lemma {:induction false} AllClear(code: List<T.Instr>)
    requires All(code, Control.Separate) && All(code, T.PlainInstr)
    ensures All(code, Clear)
  {
    if code.Cons? { AllClear(code.tail); }
  }

  /** What the variables hold when the run starts. */
  function VarsAt(f: Function, t: A.State): Vars { B.StoreOf(B.SlotsOf(ToSeq(G.EmitFunction(f))), t).vars }

  /** The emitted lines, with jumps to the text of labels, do what the generator makes of the tree. */
  lemma CompiledRuns(f: Function, t: A.State, fuel: nat)
    requires Compilable(f) && fuel >= |Compiled(f)|
    ensures RunText(A.Hardware, Compiled(f), 0, t, fuel) == LateFunction(f, VarsAt(f, t))
  {
    var code := G.EmitFunction(f);
    Analysis.AcceptsIffScoped(f);
    AcceptedGood(f);
    FromToSeq(code);
    Control.FunctionForward(f);
    Control.FunctionSeparate(f);
    Frame.FunctionPlain(f);
    AllClear(code);
    RunTextIsRun(A.Hardware, Compiled(f), 0, t, fuel);
    B.BackEndCorrect(ToSeq(code), t, fuel);
    Statements.FunctionRuns(f, B.StoreOf(B.SlotsOf(ToSeq(code)), t));
  }

  /** Running the emitted lines, from any machine state, does what C11 says the function does. */
  lemma EndToEnd(f: Function, t: A.State, fuel: nat)
    requires Compilable(f) && ShadowFree(f.body, {}) && !RunFunction(f).Undefined?
    requires fuel >= |Compiled(f)|
    ensures RunText(A.Hardware, Compiled(f), 0, t, fuel) == Expected(RunFunction(f))
  {
    Analysis.AcceptsIffScoped(f);
    CompiledRuns(f, t, fuel);
    FlatIsC(f, VarsAt(f, t));
  }

  // ----- and when it fails -----

  /** The emitted lines do what C11 says, if it says anything. */
  ghost predicate Faithful(f: Function) {
    !RunFunction(f).Undefined? ==> forall t: A.State, fuel: nat :: fuel >= |Compiled(f)| ==>
      RunText(A.Hardware, Compiled(f), 0, t, fuel) == Expected(RunFunction(f))
  }

  /** The compiler is right about all programs with the scopes of f exactly when f hides no name. */
  lemma CompiledExactly(f: Function)
    requires Compilable(f)
    ensures ShadowFree(f.body, {}) <==> forall g :: SameScopes(f, g) && Compilable(g) ==> Faithful(g)
  {
    if ShadowFree(f.body, {}) {
      forall g | SameScopes(f, g) && Compilable(g) ensures Faithful(g) { FreeFaithful(f, g); }
    } else {
      WitnessUnfaithful(f);
    }
  }

  lemma FreeFaithful(f: Function, g: Function)
    requires ShadowFree(f.body, {}) && SameScopes(f, g) && Compilable(g)
    ensures Faithful(g)
  {
    ItemsFree(f.body, {});
    ItemsFree(g.body, {});
    if !RunFunction(g).Undefined? {
      forall t: A.State, fuel: nat | fuel >= |Compiled(g)|
        ensures RunText(A.Hardware, Compiled(g), 0, t, fuel) == Expected(RunFunction(g))
      {
        EndToEnd(g, t, fuel);
      }
    }
  }

  /** The lines of the witness return 2 from every machine state. */
  lemma WitnessCompiled(f: Function, t: A.State, fuel: nat)
    requires Compilable(f) && !ShadowFree(f.body, {}) && fuel >= |Compiled(WitnessFor(f))|
    ensures SameScopes(f, WitnessFor(f)) && Compilable(WitnessFor(f)) && RunFunction(WitnessFor(f)) == Exits(1)
    ensures RunText(A.Hardware, Compiled(WitnessFor(f)), 0, t, fuel) == Returned(2)
  {
    WitnessDiffers(f);
    WitnessNames(f, Dotless());
    CompiledRuns(WitnessFor(f), t, fuel);
  }

  lemma WitnessUnfaithful(f: Function)
    requires Compilable(f) && !ShadowFree(f.body, {})
    ensures SameScopes(f, WitnessFor(f)) && Compilable(WitnessFor(f)) && !Faithful(WitnessFor(f))
  {
    var t := A.State(0, 0, 0, 0, map[], map[], None);
    WitnessCompiled(f, t, |Compiled(WitnessFor(f))|);
  }

  // ----- the phases in order -----

  /** Inputs the source handles: constants that fit an int, and no null pointer in the tree. */
  predicate Handled(source: string) {
    var l := Scanning.LexFrom(source, 0);
    && (l.Success? ==> Text.ConstantsFit(l.value))
    && (Text.Front(source).Success? ==> ItemsAll(Text.Front(source).value.body, NullFree))
  }

  /** The text is turned into tokens, a tree, a check of its scopes, TACKY, assembly and its lines; a phase that
      throws ends the run. */
  method Compile(source: string) returns (r: Result<seq<A.Instr>>)
    requires Handled(source)
    ensures var f := Text.Front(source);
      r == if f.Success? && Analysis.CheckFunction(f.value).Some? then Success(Compiled(f.value)) else Thrown
  {
    var tokens :- Lexing.Tokenize(source);
    ghost var l := Scanning.LexFrom(source, 0).value;
    LexerCorrect.LexedIsClean(source, 0);
    Text.CleanReadable(l);
    Text.LooksFrom(tokens, 0);
    assert tokens[0..] == tokens;
    FromToSeq(l);
    var parser := new Parse.Parser(tokens);
    var f :- parser.ParseProgram();
    var analyzer := new Analysis.SemanticAnalyzer();
    var ok := analyzer.VisitProgram(f);
    if !ok { return Thrown; }
    Analysis.AcceptsIffScoped(f);
    AcceptedGood(f);
    var generator := new G.Generator();
    var code: seq<T.Instr>;
    ok, code := generator.GenerateTacky(f);
    var coder := new C.CodeGenerator();
    var ir := coder.GenerateFunction(code);
    var lines := C.PrintFunction(ir);
    return Success(lines);
  }

  /** A source text the phases take to the end. */
  ghost predicate Compiles(source: string) {
    Handled(source) && Text.Front(source).Success? && Analysis.CheckFunction(Text.Front(source).value).Some?
  }

  lemma CompilesCompilable(source: string)
    requires Compiles(source)
    ensures Compilable(Text.Front(source).value)
  {
    FrontDotless(source);
  }

  /** From a source text to what its lines do. */
  lemma TextToBehaviour(source: string, t: A.State, fuel: nat)
    requires Compiles(source)
    requires var f := Text.Front(source).value;
      ShadowFree(f.body, {}) && !RunFunction(f).Undefined? && fuel >= |Compiled(f)|
    ensures var f := Text.Front(source).value; RunText(A.Hardware, Compiled(f), 0, t, fuel) == Expected(RunFunction(f))
  {
    CompilesCompilable(source);
    EndToEnd(Text.Front(source).value, t, fuel);
  }

  /** The compiler is right about all sources with the scopes of this one exactly when this one hides no name. */
  lemma SourceExactly(source: string)
    requires Compiles(source)
    ensures var f := Text.Front(source).value;
      ShadowFree(f.body, {}) <==>
      forall other :: Compiles(other) && SameScopes(f, Text.Front(other).value) ==> Faithful(Text.Front(other).value)
  {
    var f := Text.Front(source).value;
    CompilesCompilable(source);
    if ShadowFree(f.body, {}) {
      forall other | Compiles(other) && SameScopes(f, Text.Front(other).value) ensures Faithful(Text.Front(other).value) {
        CompilesCompilable(other);
        FreeFaithful(f, Text.Front(other).value);
      }
    } else {
      FrontSpellable(source);
      WitnessUnfaithful(f);
      WitnessText(f);
      assert Compiles(Text.ProgramText(WitnessFor(f)));
    }
  }

  /** The witness is read from its text. */
  lemma WitnessText(f: Function)
    requires Compilable(f) && !ShadowFree(f.body, {}) && Text.SpellableFunction(f)
    ensures var g := WitnessFor(f);
      Text.SpellableFunction(g) && Text.Front(Text.ProgramText(g)) == Success(g) && Compiles(Text.ProgramText(g))
  {
    BlockNames(f.body, LexerCorrect.IsIdentifier);
    WitnessNames(f, LexerCorrect.IsIdentifier);
    SimpleWritable(WitnessFor(f).body);
    WitnessUnfaithful(f);
    Text.FrontRoundTrip(WitnessFor(f));
  }

  lemma {:induction false} SimpleItemWritable(item: BlockItem)
    requires SimpleItem(item, LexerCorrect.IsIdentifier)
    ensures Text.SpellableItem(item) && RoundTrip.ParsableItem(item)
    decreases item, 2
  {
    match item {
      case Statement(Compound(items)) => SimpleWritable(items);
      case _ =>
    }
  }

  lemma {:induction false} SimpleWritable(items: seq<BlockItem>)
    requires Simple(items, LexerCorrect.IsIdentifier)
    ensures Text.SpellableItems(items) && RoundTrip.ParsableItems(items)
    decreases items, 0
  {
    if items != [] {
      SimpleItemWritable(items[0]);
      SimpleWritable(items[1..]);
    }
  }
}
