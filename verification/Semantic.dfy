/** Scope analysis. */
module Semantic {
  // Scope analysis and variable resolution.  `ResolveExpr` and the `Check` functions
  // say what a visit does to the scope stack and the counter, and when it throws; the
  // class `SemanticAnalyzer` is the visitor.  Acceptance is then shown to be exactly
  // the declarative judgement of `Scoping`.

  import opened Options
  import opened Ast
  import opened Names
  import opened Scoping

  /** One map from names to unique names for each open block, the innermost last. */
  type ScopeMap = map<string, string>
  type ScopeMaps = seq<ScopeMap>

  function Bind(m: ScopeMap, x: string, u: string): ScopeMap { m[x := u] }

  function Lookup(maps: ScopeMaps, x: string): Option<string> {
    if maps == [] then None
    else if x in maps[|maps| - 1] then Some(maps[|maps| - 1][x])
    else Lookup(maps[..|maps| - 1], x)
  }

  function UniqueName(x: string, n: nat): string { Numbered(x + ".", n) }

  /** None: an undeclared name, or an assignment target that is not a variable. */
  function ResolveExpr(e: Expr, maps: ScopeMaps): Option<Expr> {
    match e
    case NullExpr => None
    case Constant(_) => Some(e)
    case Var(x) =>
      var u := Lookup(maps, x);
      if u.Some? then Some(Var(u.value)) else None
    case Unary(op, a) =>
      var a' := ResolveExpr(a, maps);
      if a'.Some? then Some(Unary(op, a'.value)) else None
    case Binary(op, a, b) =>
      var a', b' := ResolveExpr(a, maps), ResolveExpr(b, maps);
      if a'.Some? && b'.Some? then Some(Binary(op, a'.value, b'.value)) else None
    case Assignment(a, b) =>
      if !a.Var? then None
      else
        var a', b' := ResolveExpr(a, maps), ResolveExpr(b, maps);
        if a'.Some? && b'.Some? then Some(Assignment(a'.value, b'.value)) else None
    case Conditional(c, a, b) =>
      var c', a', b' := ResolveExpr(c, maps), ResolveExpr(a, maps), ResolveExpr(b, maps);
      if c'.Some? && a'.Some? && b'.Some? then Some(Conditional(c'.value, a'.value, b'.value)) else None
  }

  datatype ScopeState = ScopeState(maps: ScopeMaps, counter: nat)

  function CheckExpr(e: Expr, st: ScopeState): Option<ScopeState> {
    if ResolveExpr(e, st.maps).Some? then Some(st) else None
  }

  function CheckStmt(s: Stmt, st: ScopeState): Option<ScopeState>
    decreases s, 1
  {
    match s
    case Return(e) => CheckExpr(e, st)
    case If(c, a, b) =>
      if CheckExpr(c, st).None? then None
      else
        var st1 := CheckStmt(a, st);
        if st1.None? || b.None? then st1 else CheckStmt(b.value, st1.value)
    case Expression(e) => CheckExpr(e, st)
    case Compound(items) => CheckBlock(items, st)
    case Empty => Some(st)
  }

  /** A block pushes an empty map, visits its items and pops. */
  function CheckBlock(items: seq<BlockItem>, st: ScopeState): Option<ScopeState>
    decreases items, 3
  {
    var r := CheckItems(items, ScopeState(st.maps + [map[]], st.counter));
    if r.None? || r.value.maps == [] then None else Some(r.value.(maps := r.value.maps[..|r.value.maps| - 1]))
  }

  /** The name is entered into the innermost map before the initializer is resolved. */
  function CheckItem(item: BlockItem, st: ScopeState): Option<ScopeState>
    decreases item, 2
  {
    match item
    case Declaration(x, init) =>
      if st.maps == [] || x in st.maps[|st.maps| - 1] then None
      else
        var st1 := Declare(st, x);
        if init == NullExpr then Some(st1) else CheckExpr(init, st1)
    case Statement(s) => CheckStmt(s, st)
  }

  function Declare(st: ScopeState, x: string): ScopeState
    requires st.maps != []
  {
    var k := |st.maps| - 1;
    ScopeState(st.maps[k := Bind(st.maps[k], x, UniqueName(x, st.counter))], st.counter + 1)
  }

  function CheckItems(items: seq<BlockItem>, st: ScopeState): Option<ScopeState>
    decreases items, 0
  {
    if items == [] then Some(st)
    else
      var st1 := CheckItem(items[0], st);
      if st1.None? then None else CheckItems(items[1..], st1.value)
  }

  /** The function body inside a global scope; a fresh analyzer starts with no scope and counter 0. */
  function CheckFunction(f: Function): Option<ScopeState> { CheckProgram(f, ScopeState([], 0)) }

  function CheckProgram(f: Function, st: ScopeState): Option<ScopeState> {
    CheckBlock(f.body, st.(maps := st.maps + [map[]]))
  }

  // ----- the analyzer -----

  /** The initializer over unique names; the name it initializes is already bound. */
  function ResolvedInit(init: Expr, maps: ScopeMaps): Expr {
    var r := ResolveExpr(init, maps);
    if init == NullExpr || r.None? then NullExpr else r.value
  }

  /** A unique name is the name, a dot and the counter in base ten. */
  lemma UniqueNameText(x: string, n: nat)
    ensures var u := UniqueName(x, n);
      && |u| > |x| + 1 && u[..|x|] == x && u[|x|] == '.'
      && Canonical(u[|x| + 1..]) && PlaceValue(u[|x| + 1..], |u| - |x| - 1) == n
  {
    var u, d := UniqueName(x, n), Decimal(n);
    DecimalPlaceValue(n);
    assert u == x + ("." + d) == (x + ".") + d;
    assert u[..|x|] == x && u[|x|] == '.' && u[|x| + 1..] == d;
  }

  /** A method that returns ok == false has thrown. */
  class SemanticAnalyzer {
    var variableMaps: ScopeMaps
    var counter: nat
    var resultExpr: Expr
    var resultDecl: BlockItem

    constructor ()
      ensures variableMaps == [] && counter == 0
    {
      variableMaps, counter, resultExpr, resultDecl := [], 0, NullExpr, Statement(Empty);
    }

    ghost function State(): ScopeState
      reads this
    {
      ScopeState(variableMaps, counter)
    }

    /** `lookup_variable`: from the innermost map outwards. */
    method LookupVariable(name: string) returns (r: Option<string>)
      ensures r == Lookup(variableMaps, name)
    {
      var k := |variableMaps|;
      assert variableMaps[..k] == variableMaps;
      while k > 0
        invariant 0 <= k <= |variableMaps|
        invariant Lookup(variableMaps, name) == Lookup(variableMaps[..k], name)
      {
        assert variableMaps[..k][..k - 1] == variableMaps[..k - 1];
        if name in variableMaps[k - 1] { return Some(variableMaps[k - 1][name]); }
        k := k - 1;
      }
      r := None;
    }

    method MakeTemporaryVarName(name: string) returns (u: string)
      modifies this`counter
      ensures u == UniqueName(name, old(counter)) && counter == old(counter) + 1
    {
      u := UniqueName(name, counter);
      counter := counter + 1;
    }

    method Resolve(e: Expr) returns (ok: bool)
      requires NullFree(e)
      modifies this`resultExpr
      ensures ok == ResolveExpr(e, variableMaps).Some?
      ensures ok ==> resultExpr == ResolveExpr(e, variableMaps).value
    {
      ok := true;
      match e {
        case Constant(c) => resultExpr := Constant(c);
        case Var(x) =>
          var u := LookupVariable(x);
          if u.None? { return false; }
          resultExpr := Var(u.value);
        case Unary(op, a) =>
          ok := Resolve(a);
          resultExpr := Unary(op, resultExpr);
        case Binary(op, a, b) =>
          ok := Resolve(a);
          if !ok { return; }
          var a' := resultExpr;
          ok := Resolve(b);
          resultExpr := Binary(op, a', resultExpr);
        case Assignment(a, b) =>
          if !a.Var? { return false; }
          ok := Resolve(a);
          if !ok { return; }
          var a' := resultExpr;
          ok := Resolve(b);
          resultExpr := Assignment(a', resultExpr);
        case Conditional(c, a, b) =>
          ok := Resolve(c);
          if !ok { return; }
          var c' := resultExpr;
          ok := Resolve(a);
          if !ok { return; }
          var a' := resultExpr;
          ok := Resolve(b);
          resultExpr := Conditional(c', a', resultExpr);
      }
    }

    method VisitStmt(s: Stmt) returns (ok: bool)
      requires StmtAll(s, NullFree)
      modifies this
      ensures ok == CheckStmt(s, old(State())).Some?
      ensures ok ==> State() == CheckStmt(s, old(State())).value
      decreases s, 1
    {
      ok := true;
      match s {
        case Return(e) => ok := Resolve(e);
        case If(c, a, b) =>
          ok := Resolve(c);
          if !ok { return; }
          ok := VisitStmt(a);
          if ok && b.Some? { ok := VisitStmt(b.value); }
        case Expression(e) => ok := Resolve(e);
        case Compound(items) => ok := VisitBlock(items);
        case Empty =>
      }
    }

    method VisitBlock(items: seq<BlockItem>) returns (ok: bool)
      requires ItemsAll(items, NullFree)
      modifies this
      ensures ok == CheckBlock(items, old(State())).Some?
      ensures ok ==> State() == CheckBlock(items, old(State())).value
      decreases items, 3
    {
      ghost var st := ScopeState(variableMaps + [map[]], counter);
      variableMaps := variableMaps + [map[]];
      var k := 0;
      while k < |items|
        invariant 0 <= k <= |items|
        invariant ItemsAll(items[k..], NullFree)
        invariant CheckItems(items, st) == CheckItems(items[k..], State())
      {
        assert items[k..][1..] == items[k + 1..];
        ok := VisitItem(items[k]);
        if !ok { return; }
        k := k + 1;
      }
      assert CheckItems(items, st) == Some(State());
      if variableMaps == [] { return false; }
      variableMaps := variableMaps[..|variableMaps| - 1];
      ok := true;
    }

    method VisitItem(item: BlockItem) returns (ok: bool)
      requires ItemAll(item, NullFree)
      modifies this
      ensures ok == CheckItem(item, old(State())).Some?
      ensures ok ==> State() == CheckItem(item, old(State())).value
      ensures ok && item.Declaration? ==>
        resultDecl == Declaration(UniqueName(item.name, old(counter)), ResolvedInit(item.init, variableMaps))
      decreases item, 2
    {
      match item {
        case Declaration(x, init) =>
          if variableMaps == [] { return false; }
          var last := |variableMaps| - 1;
          if x in variableMaps[last] { return false; }
          var u := MakeTemporaryVarName(x);
          variableMaps := variableMaps[last := Bind(variableMaps[last], x, u)];
          ok := true;
          var init' := NullExpr;
          if init != NullExpr {
            ok := Resolve(init);
            init' := resultExpr;
          }
          resultDecl := Declaration(u, init');
        case Statement(s) => ok := VisitStmt(s);
      }
    }

    /** `visit(Program)`: the global scope around the function. */
    method VisitProgram(f: Function) returns (ok: bool)
      requires ItemsAll(f.body, NullFree)
      modifies this
      ensures ok == CheckProgram(f, old(State())).Some?
      ensures ok ==> variableMaps == old(variableMaps) && counter == CheckProgram(f, old(State())).value.counter
    {
      ghost var st := ScopeState(variableMaps + [map[]], counter);
      variableMaps := variableMaps + [map[]];
      ok := VisitBlock(f.body);
      if ok {
        BlockRestores(f.body, st);
        variableMaps := variableMaps[..|variableMaps| - 1];
      }
    }
  }

  // ----- the scope stack -----

  /** Same enclosing maps; the innermost one may have grown. */
  ghost predicate GrowsTop(a: ScopeState, b: ScopeState) {
    && a.maps != [] && |b.maps| == |a.maps|
    && b.maps[..|a.maps| - 1] == a.maps[..|a.maps| - 1]
    && a.counter <= b.counter
  }

  lemma {:induction false} StmtRestores(s: Stmt, st: ScopeState)
    requires CheckStmt(s, st).Some?
    ensures CheckStmt(s, st).value.maps == st.maps && st.counter <= CheckStmt(s, st).value.counter
    decreases s, 1
  {
    match s {
      case If(c, a, b) =>
        StmtRestores(a, st);
        if b.Some? { StmtRestores(b.value, CheckStmt(a, st).value); }
      case Compound(items) => BlockRestores(items, st);
      case _ =>
    }
  }

  lemma {:induction false} ItemGrows(item: BlockItem, st: ScopeState)
    requires CheckItem(item, st).Some? && st.maps != []
    ensures GrowsTop(st, CheckItem(item, st).value)
    ensures item.Statement? ==> CheckItem(item, st).value.maps == st.maps
    ensures item.Declaration? ==> CheckItem(item, st).value == Declare(st, item.name)
    decreases item, 2
  {
    if item.Statement? { StmtRestores(item.s, st); }
  }

  lemma {:induction false} ItemsGrow(items: seq<BlockItem>, st: ScopeState)
    requires CheckItems(items, st).Some? && st.maps != []
    ensures GrowsTop(st, CheckItems(items, st).value)
    decreases items, 0
  {
    if items != [] {
      ItemGrows(items[0], st);
      ItemsGrow(items[1..], CheckItem(items[0], st).value);
    }
  }

  /** After a block the scope stack is exactly what it was on entry. */
  lemma {:induction false} BlockRestores(items: seq<BlockItem>, st: ScopeState)
    requires CheckBlock(items, st).Some?
    ensures CheckBlock(items, st).value.maps == st.maps && st.counter <= CheckBlock(items, st).value.counter
    decreases items, 3
  {
    ItemsGrow(items, ScopeState(st.maps + [map[]], st.counter));
  }

  // ----- acceptance is well-scopedness -----

  function VisibleNames(maps: ScopeMaps): set<string> {
    set k, x | 0 <= k < |maps| && x in maps[k] :: x
  }

  lemma {:induction false} LookupFinds(maps: ScopeMaps, x: string)
    ensures Lookup(maps, x).Some? <==> x in VisibleNames(maps)
  {
    if maps != [] {
      var init, last := maps[..|maps| - 1], maps[|maps| - 1];
      LookupFinds(init, x);
      if x in VisibleNames(maps) && x !in last {
        var k :| 0 <= k < |maps| && x in maps[k];
        assert x in init[k];
      }
      if x in VisibleNames(init) {
        var k :| 0 <= k < |init| && x in init[k];
        assert x in maps[k];
      }
    }
  }

  lemma {:induction false} ResolveAccepts(e: Expr, maps: ScopeMaps)
    requires NullFree(e)
    ensures ResolveExpr(e, maps).Some? <==> UsesVisible(e, VisibleNames(maps))
  {
    match e {
      case Constant(_) =>
      case Var(x) => LookupFinds(maps, x);
      case Unary(_, a) => ResolveAccepts(a, maps);
      case Binary(_, a, b) =>
        ResolveAccepts(a, maps);
        ResolveAccepts(b, maps);
      case Assignment(a, b) =>
        ResolveAccepts(a, maps);
        ResolveAccepts(b, maps);
      case Conditional(c, a, b) =>
        ResolveAccepts(c, maps);
        ResolveAccepts(a, maps);
        ResolveAccepts(b, maps);
    }
  }

  lemma {:induction false} StmtAccepts(s: Stmt, st: ScopeState)
    requires StmtAll(s, NullFree)
    ensures CheckStmt(s, st).Some? <==> ScopedStmt(s, VisibleNames(st.maps))
    decreases s, 1
  {
    match s {
      case Return(e) => ResolveAccepts(e, st.maps);
      case If(c, a, b) =>
        ResolveAccepts(c, st.maps);
        StmtAccepts(a, st);
        if b.Some? && CheckStmt(a, st).Some? {
          StmtRestores(a, st);
          StmtAccepts(b.value, CheckStmt(a, st).value);
        }
      case Expression(e) => ResolveAccepts(e, st.maps);
      case Compound(items) => BlockAccepts(items, st);
      case Empty =>
    }
  }

  lemma VisiblePush(maps: ScopeMaps, top: ScopeMap)
    ensures VisibleNames(maps + [top]) == VisibleNames(maps) + top.Keys
  {
    var all := maps + [top];
    forall x | x in VisibleNames(maps) + top.Keys ensures x in VisibleNames(all) {
      if x in top {
        assert x in all[|maps|];
      } else {
        var k :| 0 <= k < |maps| && x in maps[k];
        assert x in all[k];
      }
    }
  }

  lemma {:induction false} BlockAccepts(items: seq<BlockItem>, st: ScopeState)
    requires ItemsAll(items, NullFree)
    ensures CheckBlock(items, st).Some? <==> ScopedBlock(items, VisibleNames(st.maps))
    decreases items, 3
  {
    var st1 := ScopeState(st.maps + [map[]], st.counter);
    var empty: ScopeMap := map[];
    assert empty.Keys == {};
    ItemsAccept(items, st.maps, empty, st1);
    ScopedBlockIs(items, VisibleNames(st.maps));
    if CheckItems(items, st1).Some? { ItemsGrow(items, st1); }
  }

  lemma {:induction false} ItemAccepts(item: BlockItem, outer: ScopeMaps, top: ScopeMap, st: ScopeState)
    requires ItemAll(item, NullFree) && st.maps == outer + [top]
    ensures CheckItem(item, st).Some? <==>
      && (item.Declaration? ==> item.name !in top)
      && ScopedItem(item, VisibleNames(outer) + (top.Keys + DirectNames([item])))
    decreases item, 2
  {
    match item {
      case Declaration(x, init) =>
        assert DirectNames([item]) == {x} by { assert [item][0].name == x; }
        var top' := Bind(top, x, UniqueName(x, st.counter));
        assert Declare(st, x).maps == outer + [top'];
        VisiblePush(outer, top');
        assert VisibleNames(outer) + (top.Keys + {x}) == VisibleNames(outer + [top']);
        if init != NullExpr { ResolveAccepts(init, outer + [top']); }
      case Statement(s) =>
        assert DirectNames([item]) == {};
        VisiblePush(outer, top);
        assert VisibleNames(outer) + (top.Keys + {}) == VisibleNames(st.maps);
        StmtAccepts(s, st);
    }
  }

  lemma {:induction false} ItemsAccept(items: seq<BlockItem>, outer: ScopeMaps, top: ScopeMap, st: ScopeState)
    requires ItemsAll(items, NullFree) && st.maps == outer + [top]
    ensures CheckItems(items, st).Some? <==> ScopedRest(items, VisibleNames(outer), top.Keys)
    decreases items, 0
  {
    if items != [] {
      var item := items[0];
      assert items[..1] == [item];
      ItemAccepts(item, outer, top, st);
      if CheckItem(item, st).Some? {
        ItemGrows(item, st);
        var st' := CheckItem(item, st).value;
        var top' := st'.maps[|outer|];
        assert st'.maps == outer + [top'];
        assert top'.Keys == top.Keys + DirectNames([item]) by {
          if item.Declaration? { assert [item][0].name == item.name; }
        }
        ItemsAccept(items[1..], outer, top', st');
      }
    }
  }

  /** Null-free and accepted. */
  predicate Accepted(f: Function) { ItemsAll(f.body, NullFree) && CheckFunction(f).Some? }

  /** The analyzer accepts a null-free function exactly when it is well scoped. */
  lemma AcceptsIffScoped(f: Function)
    requires ItemsAll(f.body, NullFree)
    ensures CheckFunction(f).Some? <==> ScopedFunction(f)
  {
    var global: ScopeMap := map[];
    assert [] + [global] == [global];
    BlockAccepts(f.body, ScopeState([global], 0));
    assert VisibleNames([global]) == {};
  }
}
