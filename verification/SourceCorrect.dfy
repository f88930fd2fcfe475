/** Flat and scoped agree. */
module SourceCorrect {
  // When the flat, late-reading meaning that the generator implements is the C11
  // meaning: for every null-free, well-scoped function in which no declaration hides
  // a visible name, whenever C11 defines its behaviour.

  import opened Options
  import opened Words
  import opened Ast
  import opened Flow
  import opened Scoping
  import opened CSemantics
  import opened FlatSemantics
  import T = Tacky

  // ----- scopes against one flat store -----

  /** The flat store holds what has been stored in every scope. */
  ghost predicate Agrees(sc: Scopes, vars: Vars) {
    forall k, x :: 0 <= k < |sc| && x in sc[k] && sc[k][x].Some? ==> T.GetVar(vars, x) == sc[k][x].value
  }

  /** No name is in two scopes. */
  ghost predicate Separated(sc: Scopes) {
    forall j, k, x :: 0 <= j < k < |sc| && x in sc[j] ==> x !in sc[k]
  }

  ghost predicate SameKeys(sc: Scopes, sc': Scopes) {
    |sc'| == |sc| && forall k :: 0 <= k < |sc| ==> sc'[k].Keys == sc[k].Keys
  }

  /** `vis` is what the scopes declare. */
  ghost predicate Shows(vis: set<string>, sc: Scopes) { forall x :: x in vis <==> Visible(sc, x) }

  ghost predicate Unchanged(vars: Vars, vars': Vars, but: set<string>) {
    forall x :: x !in but ==> T.GetVar(vars', x) == T.GetVar(vars, x)
  }

  lemma {:induction false} LookupIs(sc: Scopes, vars: Vars, x: string)
    requires Agrees(sc, vars)
    ensures Lookup(sc, x).Some? ==> T.GetVar(vars, x) == Lookup(sc, x).value
  {
    if sc != [] && x !in sc[|sc| - 1] {
      LookupIs(sc[..|sc| - 1], vars, x);
    }
  }

  lemma {:induction false} UpdateIs(sc: Scopes, x: string, v: Word) returns (k: nat)
    requires Visible(sc, x)
    ensures k < |sc| && x in sc[k] && Update(sc, x, v) == sc[k := Put(sc[k], x, Some(v))]
  {
    var n := |sc| - 1;
    if x in sc[n] {
      k := n;
    } else {
      var j :| 0 <= j < |sc| && x in sc[j];
      assert x in sc[..n][j];
      k := UpdateIs(sc[..n], x, v);
      assert sc[..n][k := Put(sc[k], x, Some(v))] + [sc[n]] == sc[k := Put(sc[k], x, Some(v))];
    }
  }

  lemma UpdateAgrees(sc: Scopes, vars: Vars, x: string, v: Word)
    requires Agrees(sc, vars) && Separated(sc) && Visible(sc, x)
    ensures Agrees(Update(sc, x, v), vars[x := v]) && SameKeys(sc, Update(sc, x, v))
  {
    var i := UpdateIs(sc, x, v);
    var sc': Scopes := Update(sc, x, v);
    forall k: int, y: string | 0 <= k < |sc'| && y in sc'[k] && sc'[k][y].Some?
      ensures T.GetVar(vars[x := v], y) == sc'[k][y].value
    {
      if k == i {
        assert sc'[k] == Put(sc[k], x, Some(v));
        if y == x {
          assert sc'[k][y] == Some(v);
        } else {
          assert y in sc[k] && sc[k][y] == sc'[k][y];
          assert T.GetVar(vars, y) == sc[k][y].value;
        }
      } else {
        assert y in sc[k] && sc'[k] == sc[k];
        assert x in sc[i] && (i < k || k < i);
        assert y != x && T.GetVar(vars, y) == sc[k][y].value;
      }
    }
  }

  lemma VisibleBack(sc: Scopes, sc': Scopes, x: string)
    requires SameKeys(sc, sc')
    ensures Visible(sc', x) <==> Visible(sc, x)
  {
    forall k | 0 <= k < |sc| ensures x in sc[k] <==> x in sc'[k] {
      assert x in sc[k].Keys <==> x in sc'[k].Keys;
    }
  }

  lemma SameKeysKeep(sc: Scopes, sc': Scopes, vis: set<string>)
    requires SameKeys(sc, sc') && Separated(sc) && Shows(vis, sc)
    ensures Separated(sc') && Shows(vis, sc')
  {
    forall x ensures Visible(sc', x) <==> Visible(sc, x) { VisibleBack(sc, sc', x); }
  }

  // ----- expressions -----

  ghost predicate Ready(sc: Scopes, vars: Vars, vis: set<string>) {
    Agrees(sc, vars) && Separated(sc) && Shows(vis, sc)
  }

  ghost predicate Plain(e: Expr, vis: set<string>) { NullFree(e) && UsesVisible(e, vis) }

  /** Where the value is defined: same value and updates; only stored-into variables change; a reference is to
      the result variable.  Where the evaluation traps: the same trap. */
  ghost predicate SameResult(e: Expr, sc: Scopes, vars: Vars, r: Value, q: Late) {
    match r
    case Wild => true
    case Trap => q.LTrap?
    case Done(v, sc', writes) =>
      && q.LDone? && Read(q.o, q.st) == v
      && SameKeys(sc, sc') && Agrees(sc', q.st)
      && Unchanged(vars, q.st, writes)
      && (q.o.At? ==> ResultVar(e) == Some(q.o.name))
  }

  lemma {:induction false} EvalMatches(e: Expr, sc: Scopes, vars: Vars, vis: set<string>)
    requires Ready(sc, vars, vis) && Plain(e, vis)
    ensures SameResult(e, sc, vars, Eval(e, sc), EvalLate(e, vars))
    decreases e, 1
  {
    match e {
      case Constant(_) =>
      case Var(x) => LookupIs(sc, vars, x);
      case Unary(_, a) => EvalMatches(a, sc, vars, vis);
      case Binary(op, _, _) =>
        if op == And || op == Or {
          LogicalMatches(e, sc, vars, vis);
        } else {
          StrictMatches(e, sc, vars, vis);
        }
      case Assignment(l, a) =>
        EvalMatches(a, sc, vars, vis);
        var r := Eval(a, sc);
        if r.Done? {
          SameKeysKeep(sc, r.sc, vis);
          assert NamesAll(l, In(vis)) && In(vis)(l.name);
          UpdateAgrees(r.sc, EvalLate(a, vars).st, l.name, r.v);
        }
      case Conditional(_, _, _) => ConditionalMatches(e, sc, vars, vis);
    }
  }

  lemma {:induction false} StrictMatches(e: Expr, sc: Scopes, vars: Vars, vis: set<string>)
    requires Ready(sc, vars, vis) && Plain(e, vis) && e.Binary? && e.binop != And && e.binop != Or
    ensures SameResult(e, sc, vars, EvalStrict(e, sc), LateStrict(e, vars))
    decreases e, 0
  {
    EvalMatches(e.left, sc, vars, vis);
    var p, p' := Eval(e.left, sc), EvalLate(e.left, vars);
    if p.Done? {
      SameKeysKeep(sc, p.sc, vis);
      EvalMatches(e.right, p.sc, p'.st, vis);
      var q, q' := Eval(e.right, p.sc), EvalLate(e.right, p'.st);
      if q.Done? && !(ResultVar(e.left).Some? && ResultVar(e.left).value in q.writes) {
        assert Read(p'.o, q'.st) == p.v;
      }
    }
  }

  lemma {:induction false} LogicalMatches(e: Expr, sc: Scopes, vars: Vars, vis: set<string>)
    requires Ready(sc, vars, vis) && Plain(e, vis) && e.Binary? && (e.binop == And || e.binop == Or)
    ensures SameResult(e, sc, vars, EvalLogical(e, sc), LateLogical(e, vars))
    decreases e, 0
  {
    EvalMatches(e.left, sc, vars, vis);
    var p, p' := Eval(e.left, sc), EvalLate(e.left, vars);
    if p.Done? {
      SameKeysKeep(sc, p.sc, vis);
      EvalMatches(e.right, p.sc, p'.st, vis);
    }
  }

  lemma {:induction false} ConditionalMatches(e: Expr, sc: Scopes, vars: Vars, vis: set<string>)
    requires Ready(sc, vars, vis) && Plain(e, vis) && e.Conditional?
    ensures SameResult(e, sc, vars, Eval(e, sc), EvalLate(e, vars))
    decreases e, 0
  {
    EvalMatches(e.cond, sc, vars, vis);
    var p, p' := Eval(e.cond, sc), EvalLate(e.cond, vars);
    if p.Done? {
      SameKeysKeep(sc, p.sc, vis);
      EvalMatches(e.yes, p.sc, p'.st, vis);
      EvalMatches(e.no, p.sc, p'.st, vis);
    }
  }

  /** An expression in a statement: afterwards the scopes and the store are ready again. */
  lemma EvalReady(e: Expr, sc: Scopes, vars: Vars, vis: set<string>)
    requires Ready(sc, vars, vis) && Plain(e, vis)
    ensures SameResult(e, sc, vars, Eval(e, sc), EvalLate(e, vars))
    ensures Eval(e, sc).Done? ==> Ready(Eval(e, sc).sc, EvalLate(e, vars).st, vis)
  {
    EvalMatches(e, sc, vars, vis);
    if Eval(e, sc).Done? { SameKeysKeep(sc, Eval(e, sc).sc, vis); }
  }

  // ----- statements -----

  ghost predicate SameEffect(sc: Scopes, vis: set<string>, r: Effect, q: LEffect) {
    match r
    case Astray => true
    case Abort => q.LAbort?
    case Exit(v) => q == LExit(v)
    case Fall(sc') => q.LFall? && SameKeys(sc, sc') && Ready(sc', q.st, vis)
  }

  /** The innermost scope has gained the given names; nothing else about the keys has changed. */
  ghost predicate Grown(sc: Scopes, sc': Scopes, names: set<string>) {
    && sc != [] && |sc'| == |sc|
    && (forall k :: 0 <= k < |sc| - 1 ==> sc'[k].Keys == sc[k].Keys)
    && sc'[|sc| - 1].Keys == sc[|sc| - 1].Keys + names
  }

  ghost predicate ItemEffect(sc: Scopes, vis: set<string>, names: set<string>, r: Effect, q: LEffect) {
    match r
    case Astray => true
    case Abort => q.LAbort?
    case Exit(v) => q == LExit(v)
    case Fall(sc') => q.LFall? && Grown(sc, sc', names) && Ready(sc', q.st, vis + names)
  }

  lemma GrownVisible(sc: Scopes, sc': Scopes, names: set<string>, x: string)
    requires Grown(sc, sc', names)
    ensures Visible(sc', x) <==> Visible(sc, x) || x in names
  {
    var n := |sc| - 1;
    forall k | 0 <= k < n ensures x in sc[k] <==> x in sc'[k] {
      assert x in sc[k].Keys <==> x in sc'[k].Keys;
    }
    assert x in sc'[n].Keys <==> x in sc[n].Keys || x in names;
    if x in names { assert x in sc'[n]; }
  }

  lemma DeclareReady(sc: Scopes, vars: Vars, vis: set<string>, x: string)
    requires sc != [] && Ready(sc, vars, vis) && x !in vis
    ensures Ready(Declare(sc, x), vars, vis + {x}) && Grown(sc, Declare(sc, x), {x})
  {
    var n, sc1: Scopes := |sc| - 1, Declare(sc, x);
    assert !Visible(sc, x);
    forall k: int, y: string | 0 <= k < |sc1| && y in sc1[k] && sc1[k][y].Some?
      ensures T.GetVar(vars, y) == sc1[k][y].value
    {
      if k == n && y == x {
      } else {
        assert y in sc[k] && sc1[k][y] == sc[k][y];
      }
    }
    forall j, k, y | 0 <= j < k < |sc1| && y in sc1[j] ensures y !in sc1[k] {
      assert y in sc[j];
      assert y !in sc[k] && y != x;
    }
    assert Grown(sc, sc1, {x});
    forall y ensures y in vis + {x} <==> Visible(sc1, y) { GrownVisible(sc, sc1, {x}, y); }
  }

  lemma GrownKeys(sc: Scopes, sc1: Scopes, sc2: Scopes, a: set<string>)
    requires Grown(sc, sc1, a) && SameKeys(sc1, sc2)
    ensures Grown(sc, sc2, a)
  {}

  lemma DeclarationMatches(x: string, init: Expr, sc: Scopes, vars: Vars, vis: set<string>)
    requires sc != [] && Ready(sc, vars, vis) && x !in vis
    requires init == NullExpr || Plain(init, vis + {x})
    ensures ItemEffect(sc, vis, {x}, ExecItem(Declaration(x, init), sc), LateItem(Declaration(x, init), vars))
  {
    var sc1 := Declare(sc, x);
    DeclareReady(sc, vars, vis, x);
    if init != NullExpr {
      EvalReady(init, sc1, vars, vis + {x});
      var r, q := Eval(init, sc1), EvalLate(init, vars);
      if r.Done? {
        assert x in vis + {x};
        UpdateAgrees(r.sc, q.st, x, r.v);
        SameKeysKeep(r.sc, Update(r.sc, x, r.v), vis + {x});
        GrownKeys(sc, sc1, r.sc, {x});
        GrownKeys(sc, r.sc, Update(r.sc, x, r.v), {x});
      }
    }
  }

  lemma {:induction false} StmtMatches(s: Stmt, sc: Scopes, vars: Vars, vis: set<string>)
    requires Ready(sc, vars, vis) && StmtAll(s, NullFree) && ScopedStmt(s, vis) && ShadowFreeStmt(s, vis)
    ensures SameEffect(sc, vis, ExecStmt(s, sc), LateStmt(s, vars))
    decreases s, 1
  {
    match s {
      case Return(e) => EvalReady(e, sc, vars, vis);
      case If(_, _, _) => IfMatches(s, sc, vars, vis);
      case Expression(e) => EvalReady(e, sc, vars, vis);
      case Compound(items) => BlockMatches(items, sc, vars, vis);
      case Empty =>
    }
  }

  lemma {:induction false} IfMatches(s: Stmt, sc: Scopes, vars: Vars, vis: set<string>)
    requires s.If? && Ready(sc, vars, vis) && StmtAll(s, NullFree) && ScopedStmt(s, vis) && ShadowFreeStmt(s, vis)
    ensures SameEffect(sc, vis, ExecStmt(s, sc), LateStmt(s, vars))
    decreases s, 0
  {
    EvalReady(s.test, sc, vars, vis);
    var r, q := Eval(s.test, sc), EvalLate(s.test, vars);
    if r.Done? {
      if r.v != 0 {
        StmtMatches(s.thn, r.sc, q.st, vis);
      } else if s.els.Some? {
        StmtMatches(s.els.value, r.sc, q.st, vis);
      }
    }
  }

  lemma PushReady(sc: Scopes, vars: Vars, vis: set<string>)
    requires Ready(sc, vars, vis)
    ensures Ready(sc + [map[]], vars, vis)
  {
    var sc1: Scopes := sc + [map[]];
    forall x ensures Visible(sc1, x) <==> Visible(sc, x) {
      if Visible(sc, x) {
        var k :| 0 <= k < |sc| && x in sc[k];
        assert x in sc1[k];
      }
    }
  }

  lemma PopReady(sc: Scopes, sc': Scopes, vars: Vars, vis: set<string>, names: set<string>)
    requires Grown(sc + [map[]], sc', names) && Ready(sc', vars, vis + names) && Separated(sc) && Shows(vis, sc)
    ensures SameKeys(sc, sc'[..|sc|]) && Ready(sc'[..|sc|], vars, vis)
  {
    var sc1: Scopes, sc2 := sc + [map[]], sc'[..|sc|];
    forall k | 0 <= k < |sc| ensures sc2[k].Keys == sc[k].Keys {
      assert sc2[k] == sc'[k] && sc1[k] == sc[k];
    }
    SameKeysKeep(sc, sc2, vis);
  }

  /** A block: its own scope is pushed, and dropped when the block is left. */
  lemma {:induction false} BlockMatches(items: seq<BlockItem>, sc: Scopes, vars: Vars, vis: set<string>)
    requires Ready(sc, vars, vis) && ItemsAll(items, NullFree) && ScopedBlock(items, vis) && ShadowFree(items, vis)
    ensures SameEffect(sc, vis, ExecStmt(Compound(items), sc), LateStmt(Compound(items), vars))
    decreases items, 3
  {
    PushReady(sc, vars, vis);
    ScopedBlockIs(items, vis);
    assert vis + {} == vis;
    ItemsMatch(items, sc + [map[]], vars, vis, {});
    var r := ExecItems(items, sc + [map[]]);
    if r.Fall? { PopReady(sc, r.sc, LateItems(items, vars).st, vis, DirectNames(items)); }
  }

  lemma {:induction false} ItemMatches(item: BlockItem, sc: Scopes, vars: Vars, vis: set<string>)
    requires sc != [] && Ready(sc, vars, vis) && ItemAll(item, NullFree)
    requires ScopedItem(item, vis + DirectNames([item])) && ShadowFreeItem(item, vis)
    ensures ItemEffect(sc, vis, DirectNames([item]), ExecItem(item, sc), LateItem(item, vars))
    decreases item, 2
  {
    match item {
      case Declaration(x, init) =>
        assert DirectNames([item]) == {x} by { assert [item][0].name == x; }
        DeclarationMatches(x, init, sc, vars, vis);
      case Statement(s) =>
        assert DirectNames([item]) == {};
        assert vis + {} == vis;
        StmtMatches(s, sc, vars, vis);
        assert sc[|sc| - 1].Keys + {} == sc[|sc| - 1].Keys;
    }
  }

  lemma {:induction false} ItemsMatch(items: seq<BlockItem>, sc: Scopes, vars: Vars, outer: set<string>, local: set<string>)
    requires sc != [] && Ready(sc, vars, outer + local) && ItemsAll(items, NullFree)
    requires ScopedRest(items, outer, local) && ShadowFree(items, outer + local)
    ensures ItemEffect(sc, outer + local, DirectNames(items), ExecItems(items, sc), LateItems(items, vars))
    decreases items, 0
  {
    if items == [] {
      assert sc[|sc| - 1].Keys + {} == sc[|sc| - 1].Keys;
      assert outer + local + {} == outer + local;
    } else {
      var item, rest := items[0], items[1..];
      var a := DirectNames([item]);
      assert items[..1] == [item];
      assert outer + local + a == outer + (local + a);
      ItemMatches(item, sc, vars, outer + local);
      var r, q := ExecItem(item, sc), LateItem(item, vars);
      if r.Fall? {
        ItemsMatch(rest, r.sc, q.st, outer, local + a);
        FirstAndRest(items);
        EffectTwice(sc, r.sc, outer, local, a, DirectNames(rest), ExecItems(rest, r.sc), LateItems(rest, q.st));
      }
    }
  }

  lemma FirstAndRest(items: seq<BlockItem>)
    requires items != []
    ensures DirectNames(items) == DirectNames([items[0]]) + DirectNames(items[1..])
  {
    var rest := items[1..];
    DirectNamesSplit(items, |rest|);
    assert items[..1] == [items[0]] && items[..|rest| + 1] == items && rest[..|rest|] == rest;
  }

  lemma EffectTwice(sc: Scopes, sc1: Scopes, outer: set<string>, local: set<string>, a: set<string>, b: set<string>,
                    r: Effect, q: LEffect)
    requires Grown(sc, sc1, a) && ItemEffect(sc1, outer + (local + a), b, r, q)
    ensures ItemEffect(sc, outer + local, a + b, r, q)
  {
    assert outer + (local + a) + b == outer + local + (a + b);
    if r.Fall? { GrownTwice(sc, sc1, r.sc, a, b); }
  }

  lemma GrownTwice(sc: Scopes, sc1: Scopes, sc2: Scopes, a: set<string>, b: set<string>)
    requires Grown(sc, sc1, a) && Grown(sc1, sc2, b)
    ensures Grown(sc, sc2, a + b)
  {
    var n := |sc| - 1;
    assert sc[n].Keys + a + b == sc[n].Keys + (a + b);
  }

  /** The outcome a defined behaviour asks of an execution. */
  function Expected(b: Behaviour): Outcome
    requires !b.Undefined?
  {
    if b.Exits? then Returned(b.v) else Fault
  }

  /** Whenever C11 defines what the function does, the flat late-reading meaning is that, from any store. */
  lemma FlatIsC(f: Function, vars: Vars)
    requires ItemsAll(f.body, NullFree) && ScopedFunction(f) && ShadowFree(f.body, {})
    requires !RunFunction(f).Undefined?
    ensures LateFunction(f, vars) == Expected(RunFunction(f))
  {
    var global: Scope := map[];
    var sc := [global];
    forall x ensures !Visible(sc, x) {}
    assert sc + [global] == [global, global];
    BlockMatches(f.body, sc, vars, {});
  }

  // ----- when the order of evaluation is safe -----

  /** An evaluation stores only into variables the expression assigns. */
  lemma {:induction false} WritesAssigned(e: Expr, sc: Scopes)
    ensures Eval(e, sc).Done? ==> Eval(e, sc).writes <= Assigned(e)
    decreases e
  {
    match e {
      case Unary(_, a) => WritesAssigned(a, sc);
      case Binary(_, a, b) =>
        WritesAssigned(a, sc);
        if Eval(a, sc).Done? { WritesAssigned(b, Eval(a, sc).sc); }
      case Assignment(_, a) => WritesAssigned(a, sc);
      case Conditional(c, a, b) =>
        WritesAssigned(c, sc);
        if Eval(c, sc).Done? {
          WritesAssigned(a, Eval(c, sc).sc);
          WritesAssigned(b, Eval(c, sc).sc);
        }
      case _ =>
    }
  }

  /** A strict operator whose right operand does not assign the left operand's variable is never undefined for
      the order of its operands: it goes wrong only if an operand does. */
  lemma StrictDefined(e: Expr, sc: Scopes)
    requires e.Binary? && (ResultVar(e.left).None? || ResultVar(e.left).value !in Assigned(e.right))
    ensures EvalStrict(e, sc).Wild? <==>
      Eval(e.left, sc).Wild? || (Eval(e.left, sc).Done? && Eval(e.right, Eval(e.left, sc).sc).Wild?)
  {
    if Eval(e.left, sc).Done? { WritesAssigned(e.right, Eval(e.left, sc).sc); }
  }

  /** Evaluating e in the flat store changes only variables e assigns. */
  lemma {:induction false} LateKeeps(e: Expr, vars: Vars, x: string)
    requires TargetsAreVars(e) && x !in Assigned(e)
    ensures EvalLate(e, vars).LDone? ==> T.GetVar(EvalLate(e, vars).st, x) == T.GetVar(vars, x)
  {
    match e {
      case Unary(_, a) => LateKeeps(a, vars, x);
      case Binary(_, a, b) =>
        LateKeeps(a, vars, x);
        if EvalLate(a, vars).LDone? { LateKeeps(b, EvalLate(a, vars).st, x); }
      case Assignment(_, a) => LateKeeps(a, vars, x);
      case Conditional(c, a, b) =>
        LateKeeps(c, vars, x);
        if EvalLate(c, vars).LDone? {
          LateKeeps(a, EvalLate(c, vars).st, x);
          LateKeeps(b, EvalLate(c, vars).st, x);
        }
      case _ =>
    }
  }

  /** What `x op b` is when x is read first. */
  function ReadFirst(op: BinaryOpType, x: string, b: Expr, vars: Vars): Late {
    var q := EvalLate(b, vars);
    if q.LTrap? then LTrap
    else
      var w := ApplyBinary(op, T.GetVar(vars, x), Read(q.o, q.st));
      if w.None? then LTrap else LDone(Known(w.value), q.st)
  }

  /** Reading x late, as the generated code does, is reading it first, for every strict operator and every store. */
  ghost predicate InOrder(x: string, b: Expr) {
    forall op, vars :: op != And && op != Or ==> LateStrict(Binary(op, Var(x), b), vars) == ReadFirst(op, x, b, vars)
  }

  /** The late read is harmless for all right operands that assign the same variables exactly when x is not one of
      them. */
  lemma OrderExactly(x: string, b: Expr)
    requires TargetsAreVars(b)
    ensures x !in Assigned(b) <==> forall c :: TargetsAreVars(c) && Assigned(c) == Assigned(b) ==> InOrder(x, c)
  {
    if x !in Assigned(b) {
      forall c | TargetsAreVars(c) && Assigned(c) == Assigned(b) ensures InOrder(x, c) { UnassignedInOrder(x, c); }
    } else {
      AssignedOutOfOrder(x, b);
    }
  }

  lemma UnassignedInOrder(x: string, b: Expr)
    requires TargetsAreVars(b) && x !in Assigned(b)
    ensures InOrder(x, b)
  {
    forall op, vars | op != And && op != Or
      ensures LateStrict(Binary(op, Var(x), b), vars) == ReadFirst(op, x, b, vars)
    {
      LateKeeps(b, vars, x);
    }
  }

  /** x + ((x = 1) ? 0 : b) from x = 0 is 0 when x is read first, and 1 when it is read late. */
  lemma AssignedOutOfOrder(x: string, b: Expr)
    requires TargetsAreVars(b) && x in Assigned(b)
    ensures var c := Conditional(Assignment(Var(x), Constant(1)), Constant(0), b);
      TargetsAreVars(c) && Assigned(c) == Assigned(b) && !InOrder(x, c)
  {
    var set1 := Assignment(Var(x), Constant(1));
    var c := Conditional(set1, Constant(0), b);
    assert Assigned(set1) == {x};
    assert Assigned(c) == Assigned(b);
    var zero: Vars := map[x := 0];
    SetsOne(x, zero);
    assert EvalLate(c, zero) == LDone(Known(0), zero[x := 1]);
    SetOutOfOrder(x, c, zero);
  }

  lemma SetsOne(x: string, vars: Vars)
    ensures EvalLate(Assignment(Var(x), Constant(1)), vars) == LDone(At(x), vars[x := 1])
  {}

  lemma SetOutOfOrder(x: string, c: Expr, vars: Vars)
    requires T.GetVar(vars, x) == 0 && EvalLate(c, vars) == LDone(Known(0), vars[x := 1])
    ensures !InOrder(x, c)
  {
    assert ApplyBinary(Add, 1, 0) == Some(1) && ApplyBinary(Add, 0, 0) == Some(0);
    assert EvalLate(Var(x), vars) == LDone(At(x), vars);
    assert LateStrict(Binary(Add, Var(x), c), vars) == LDone(Known(1), vars[x := 1]);
    assert ReadFirst(Add, x, c, vars) == LDone(Known(0), vars[x := 1]);
  }

  // ----- declaring a constant -----

  lemma PutTwice(m: Scope, x: string, v: Option<Word>, w: Option<Word>)
    ensures Put(Put(m, x, v), x, w) == Put(m, x, w)
  {}

  lemma UpdateDeclared(sc: Scopes, x: string, c: Word)
    requires sc != []
    ensures Update(Declare(sc, x), x, c) == sc[|sc| - 1 := Put(sc[|sc| - 1], x, Some(c))]
  {
    PutTwice(sc[|sc| - 1], x, None, Some(c));
  }

  lemma DeclareConstant(x: string, c: Word, sc: Scopes)
    requires sc != []
    ensures ExecItem(Declaration(x, Constant(c)), sc) == Fall(sc[|sc| - 1 := Put(sc[|sc| - 1], x, Some(c))])
  {
    var sc1: Scopes := Declare(sc, x);
    assert Eval(Constant(c), sc1) == Done(c, sc1, {});
    UpdateDeclared(sc, x, c);
  }
}
