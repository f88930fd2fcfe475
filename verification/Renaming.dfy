/** Unique names. */
module Renaming {
  // The unique names never clash, and a renamed expression means what the original means.

  import opened Options
  import opened Words
  import opened Ast
  import opened Names
  import C = CSemantics
  import opened Semantic

  // ----- unique names -----

  /** Every name in the stack carries a counter below the current one, and no two carry the same. */
  ghost predicate UniqueStack(maps: ScopeMaps, counter: nat) {
    && (forall k, x :: 0 <= k < |maps| && x in maps[k] ==> NumberOf(maps[k][x]) < counter)
    && (forall j, k, x, y :: 0 <= j < |maps| && 0 <= k < |maps| && x in maps[j] && y in maps[k] ==>
          NumberOf(maps[j][x]) == NumberOf(maps[k][y]) ==> j == k && x == y)
  }

  lemma UniqueNumber(x: string, n: nat)
    ensures NumberOf(UniqueName(x, n)) == n
  {
    var p := x + ".";
    assert p[|p| - 1] == '.';
    NumberOfNumbered(p, n);
  }

  lemma DeclareUnique(st: ScopeState, x: string)
    requires UniqueStack(st.maps, st.counter) && st.maps != [] && x !in st.maps[|st.maps| - 1]
    ensures UniqueStack(Declare(st, x).maps, st.counter + 1)
  {
    UniqueNumber(x, st.counter);
    NewBindingUnique(st.maps, st.counter, x, UniqueName(x, st.counter));
  }

  lemma NewBindingUnique(maps: ScopeMaps, counter: nat, x: string, u: string)
    requires UniqueStack(maps, counter) && maps != [] && x !in maps[|maps| - 1] && NumberOf(u) == counter
    ensures UniqueStack(maps[|maps| - 1 := Bind(maps[|maps| - 1], x, u)], counter + 1)
  {
    var n := |maps| - 1;
    var new' := maps[n := Bind(maps[n], x, u)];
    forall k, y | 0 <= k < |new'| && y in new'[k]
      ensures if k == n && y == x then new'[k][y] == u else y in maps[k] && new'[k][y] == maps[k][y] {}
    forall j, k, y, z | 0 <= j < |new'| && 0 <= k < |new'| && y in new'[j] && z in new'[k]
      ensures NumberOf(new'[j][y]) == NumberOf(new'[k][z]) ==> j == k && y == z
    {
      if j == n && y == x {
      } else if k == n && z == x {
      } else {
        assert y in maps[j] && z in maps[k];
      }
    }
  }

  lemma {:induction false} StmtUnique(s: Stmt, st: ScopeState)
    requires CheckStmt(s, st).Some? && UniqueStack(st.maps, st.counter)
    ensures UniqueStack(CheckStmt(s, st).value.maps, CheckStmt(s, st).value.counter)
  {
    StmtRestores(s, st);
  }

  lemma {:induction false} ItemUnique(item: BlockItem, st: ScopeState)
    requires CheckItem(item, st).Some? && st.maps != [] && UniqueStack(st.maps, st.counter)
    ensures UniqueStack(CheckItem(item, st).value.maps, CheckItem(item, st).value.counter)
  {
    match item {
      case Declaration(x, _) => DeclareUnique(st, x);
      case Statement(s) => StmtUnique(s, st);
    }
  }

  /** A scope stack in which some expression of the function body is looked up. */
  ghost predicate StmtReaches(s: Stmt, st: ScopeState, at: ScopeState)
    decreases s, 1
  {
    match s
    case Return(_) => at == st
    case If(_, a, b) =>
      || at == st
      || StmtReaches(a, st, at)
      || (b.Some? && CheckStmt(a, st).Some? && StmtReaches(b.value, CheckStmt(a, st).value, at))
    case Expression(_) => at == st
    case Compound(items) => ItemsReach(items, ScopeState(st.maps + [map[]], st.counter), at)
    case Empty => false
  }

  ghost predicate ItemReaches(item: BlockItem, st: ScopeState, at: ScopeState)
    decreases item, 2
  {
    match item
    case Declaration(x, _) => st.maps != [] && x !in st.maps[|st.maps| - 1] && at == Declare(st, x)
    case Statement(s) => StmtReaches(s, st, at)
  }

  ghost predicate ItemsReach(items: seq<BlockItem>, st: ScopeState, at: ScopeState)
    decreases items, 0
  {
    items != [] &&
      (ItemReaches(items[0], st, at) ||
       (CheckItem(items[0], st).Some? && ItemsReach(items[1..], CheckItem(items[0], st).value, at)))
  }

  lemma {:induction false} StmtReachesUnique(s: Stmt, st: ScopeState, at: ScopeState)
    requires UniqueStack(st.maps, st.counter) && StmtReaches(s, st, at)
    ensures UniqueStack(at.maps, at.counter)
    decreases s, 1
  {
    match s {
      case If(_, a, b) =>
        if StmtReaches(a, st, at) {
          StmtReachesUnique(a, st, at);
        } else if at != st {
          StmtUnique(a, st);
          StmtReachesUnique(b.value, CheckStmt(a, st).value, at);
        }
      case Compound(items) => ItemsReachUnique(items, ScopeState(st.maps + [map[]], st.counter), at);
      case _ =>
    }
  }

  lemma {:induction false} ItemReachesUnique(item: BlockItem, st: ScopeState, at: ScopeState)
    requires UniqueStack(st.maps, st.counter) && ItemReaches(item, st, at)
    ensures UniqueStack(at.maps, at.counter)
    decreases item, 2
  {
    match item {
      case Declaration(x, _) => DeclareUnique(st, x);
      case Statement(s) => StmtReachesUnique(s, st, at);
    }
  }

  lemma {:induction false} ItemsReachUnique(items: seq<BlockItem>, st: ScopeState, at: ScopeState)
    requires st.maps != [] && UniqueStack(st.maps, st.counter) && ItemsReach(items, st, at)
    ensures UniqueStack(at.maps, at.counter)
    decreases items, 0
  {
    if ItemReaches(items[0], st, at) {
      ItemReachesUnique(items[0], st, at);
    } else {
      ItemUnique(items[0], st);
      ItemGrows(items[0], st);
      ItemsReachUnique(items[1..], CheckItem(items[0], st).value, at);
    }
  }

  /** In every scope stack the analysis of a function reaches, the unique names are pairwise distinct. */
  lemma ReachableNamesDistinct(f: Function, at: ScopeState, j: nat, k: nat, x: string, y: string)
    requires ItemsReach(f.body, ScopeState([map[], map[]], 0), at)
    requires j < |at.maps| && k < |at.maps| && x in at.maps[j] && y in at.maps[k]
    ensures at.maps[j][x] == at.maps[k][y] <==> j == k && x == y
  {
    ItemsReachUnique(f.body, ScopeState([map[], map[]], 0), at);
  }

  // ----- renamed expressions -----

  /** The flat store holds, under its unique name, what each scope holds for each name. */
  ghost predicate Mirrors(maps: ScopeMaps, sc: C.Scopes, flat: C.Scope) {
    && |maps| == |sc|
    && forall k, x :: 0 <= k < |maps| ==>
         (x in maps[k] <==> x in sc[k]) && (x in maps[k] ==> maps[k][x] in flat && flat[maps[k][x]] == sc[k][x])
  }

  /** Both lookups find the innermost binding. */
  lemma {:induction false} InnermostBinding(maps: ScopeMaps, sc: C.Scopes, x: string, v: Word) returns (k: nat)
    requires |maps| == |sc| && forall j, y :: 0 <= j < |maps| ==> (y in maps[j] <==> y in sc[j])
    requires Lookup(maps, x).Some?
    ensures k < |maps| && x in maps[k] && x in sc[k]
    ensures Lookup(maps, x) == Some(maps[k][x]) && C.Lookup(sc, x) == sc[k][x]
    ensures C.Update(sc, x, v) == sc[k := C.Put(sc[k], x, Some(v))]
  {
    var n := |maps| - 1;
    if x in maps[n] {
      k := n;
    } else {
      var m, s := maps[..n], sc[..n];
      assert forall j :: 0 <= j < n ==> m[j] == maps[j] && s[j] == sc[j];
      k := InnermostBinding(m, s, x, v);
      assert s[k := C.Put(s[k], x, Some(v))] + [sc[n]] == sc[k := C.Put(sc[k], x, Some(v))];
    }
  }

  lemma {:induction false} LookupIndex(maps: ScopeMaps, x: string) returns (k: nat)
    requires Lookup(maps, x).Some?
    ensures k < |maps| && x in maps[k] && Lookup(maps, x) == Some(maps[k][x])
  {
    var n := |maps| - 1;
    if x in maps[n] { k := n; } else { k := LookupIndex(maps[..n], x); }
  }

  /** Different names resolve to different unique names. */
  lemma LookupInjective(maps: ScopeMaps, counter: nat, x: string, y: string)
    requires UniqueStack(maps, counter) && Lookup(maps, x).Some? && Lookup(maps, y).Some?
    ensures Lookup(maps, x) == Lookup(maps, y) ==> x == y
  {
    var j := LookupIndex(maps, x);
    var k := LookupIndex(maps, y);
  }

  lemma UpdateMirrors(maps: ScopeMaps, counter: nat, sc: C.Scopes, flat: C.Scope, k: nat, x: string, v: Word)
    requires UniqueStack(maps, counter) && Mirrors(maps, sc, flat) && k < |maps| && x in maps[k]
    ensures Mirrors(maps, sc[k := C.Put(sc[k], x, Some(v))], C.Put(flat, maps[k][x], Some(v)))
  {
    var sc', flat' := sc[k := C.Put(sc[k], x, Some(v))], C.Put(flat, maps[k][x], Some(v));
    forall j, y | 0 <= j < |maps| && y in maps[j] ensures maps[j][y] in flat' && flat'[maps[j][y]] == sc'[j][y] {
      if maps[j][y] == maps[k][x] { assert j == k && y == x; }
    }
  }

  /** The same variables have been stored into. */
  ghost predicate SameWrites(maps: ScopeMaps, w: set<string>, w': set<string>) {
    forall x :: Lookup(maps, x).Some? ==> (x in w <==> Lookup(maps, x).value in w')
  }

  /** What a resolved expression does to the flat store, against the original on the scopes. */
  ghost predicate SameMeaning(maps: ScopeMaps, r: C.Value, q: C.Value) {
    match r
    case Trap => q.Trap?
    case Wild => q.Wild?
    case Done(v, sc, w) => q.Done? && q.v == v && |q.sc| == 1 && Mirrors(maps, sc, q.sc[0]) && SameWrites(maps, w, q.writes)
  }

  lemma FlatLookup(flat: C.Scope, u: string, v: Word)
    requires u in flat
    ensures C.Lookup([flat], u) == flat[u] && C.Update([flat], u, v) == [C.Put(flat, u, Some(v))]
  {}

  /** The store a resolved expression leaves. */
  function FlatAfter(q: C.Value): C.Scope { if q.Done? && |q.sc| == 1 then q.sc[0] else map[] }

  lemma FlatAfterIs(q: C.Value)
    requires q.Done? && |q.sc| == 1
    ensures q.sc == [FlatAfter(q)]
  {}

  /** Same value, same traps, same updates, assignments included. */
  lemma {:induction false} RenamingCorrect(e: Expr, maps: ScopeMaps, counter: nat, sc: C.Scopes, flat: C.Scope)
    requires UniqueStack(maps, counter) && Mirrors(maps, sc, flat) && ResolveExpr(e, maps).Some?
    ensures SameMeaning(maps, C.Eval(e, sc), C.Eval(ResolveExpr(e, maps).value, [flat]))
    decreases e, 1
  {
    match e {
      case Constant(_) =>
      case Var(x) =>
        var k := InnermostBinding(maps, sc, x, 0);
        FlatLookup(flat, maps[k][x], 0);
      case Unary(_, a) => RenamingCorrect(a, maps, counter, sc, flat);
      case Binary(op, _, _) =>
        if op == And || op == Or {
          RenamingLogical(e, maps, counter, sc, flat);
        } else {
          RenamingStrict(e, maps, counter, sc, flat);
        }
      case Assignment(_, _) => RenamingAssignment(e, maps, counter, sc, flat);
      case Conditional(_, _, _) => RenamingConditional(e, maps, counter, sc, flat);
    }
  }

  lemma {:induction false} RenamingAssignment(e: Expr, maps: ScopeMaps, counter: nat, sc: C.Scopes, flat: C.Scope)
    requires e.Assignment? && UniqueStack(maps, counter) && Mirrors(maps, sc, flat) && ResolveExpr(e, maps).Some?
    ensures SameMeaning(maps, C.Eval(e, sc), C.Eval(ResolveExpr(e, maps).value, [flat]))
    decreases e, 0
  {
    var x, b := e.target.name, e.source;
    RenamingCorrect(b, maps, counter, sc, flat);
    var r, q := C.Eval(b, sc), C.Eval(ResolveExpr(b, maps).value, [flat]);
    if r.Done? {
      var flat' := FlatAfter(q);
      FlatAfterIs(q);
      var k := InnermostBinding(maps, r.sc, x, r.v);
      FlatLookup(flat', maps[k][x], r.v);
      UpdateMirrors(maps, counter, r.sc, flat', k, x, r.v);
      forall y | Lookup(maps, y).Some?
        ensures y in r.writes + {x} <==> Lookup(maps, y).value in q.writes + {maps[k][x]}
      {
        LookupInjective(maps, counter, x, y);
      }
      assert C.Eval(e, sc) == C.Done(r.v, C.Update(r.sc, x, r.v), r.writes + {x});
    }
  }

  lemma {:induction false} RenamingLogical(e: Expr, maps: ScopeMaps, counter: nat, sc: C.Scopes, flat: C.Scope)
    requires e.Binary? && (e.binop == And || e.binop == Or)
    requires UniqueStack(maps, counter) && Mirrors(maps, sc, flat) && ResolveExpr(e, maps).Some?
    ensures SameMeaning(maps, C.EvalLogical(e, sc), C.EvalLogical(ResolveExpr(e, maps).value, [flat]))
    decreases e, 0
  {
    RenamingCorrect(e.left, maps, counter, sc, flat);
    var r, q := C.Eval(e.left, sc), C.Eval(ResolveExpr(e.left, maps).value, [flat]);
    if r.Done? {
      FlatAfterIs(q);
      RenamingCorrect(e.right, maps, counter, r.sc, FlatAfter(q));
    }
  }

  lemma ResultVarRenamed(e: Expr, maps: ScopeMaps)
    requires ResolveExpr(e, maps).Some?
    ensures var v := C.ResultVar(e);
      && (v.Some? ==> Lookup(maps, v.value).Some?)
      && C.ResultVar(ResolveExpr(e, maps).value) == if v.Some? then Lookup(maps, v.value) else None
  {}

  lemma {:induction false} RenamingStrict(e: Expr, maps: ScopeMaps, counter: nat, sc: C.Scopes, flat: C.Scope)
    requires e.Binary? && UniqueStack(maps, counter) && Mirrors(maps, sc, flat) && ResolveExpr(e, maps).Some?
    ensures SameMeaning(maps, C.EvalStrict(e, sc), C.EvalStrict(ResolveExpr(e, maps).value, [flat]))
    decreases e, 0
  {
    RenamingCorrect(e.left, maps, counter, sc, flat);
    ResultVarRenamed(e.left, maps);
    var r, q := C.Eval(e.left, sc), C.Eval(ResolveExpr(e.left, maps).value, [flat]);
    if r.Done? {
      FlatAfterIs(q);
      RenamingCorrect(e.right, maps, counter, r.sc, FlatAfter(q));
    }
  }

  lemma {:induction false} RenamingConditional(e: Expr, maps: ScopeMaps, counter: nat, sc: C.Scopes, flat: C.Scope)
    requires e.Conditional? && UniqueStack(maps, counter) && Mirrors(maps, sc, flat) && ResolveExpr(e, maps).Some?
    ensures SameMeaning(maps, C.Eval(e, sc), C.Eval(ResolveExpr(e, maps).value, [flat]))
    decreases e, 0
  {
    RenamingCorrect(e.cond, maps, counter, sc, flat);
    var r, q := C.Eval(e.cond, sc), C.Eval(ResolveExpr(e.cond, maps).value, [flat]);
    if r.Done? {
      FlatAfterIs(q);
      if r.v != 0 {
        RenamingCorrect(e.yes, maps, counter, r.sc, FlatAfter(q));
      } else {
        RenamingCorrect(e.no, maps, counter, r.sc, FlatAfter(q));
      }
    }
  }
}
