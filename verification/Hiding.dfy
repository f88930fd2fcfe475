/** What a hidden name costs. */
module Hiding {
  // Where no declaration hides a name the compiled meaning is the C11 meaning, whatever
  // the statements are.  Where one does, some program with the same blocks and the same
  // declared names is compiled to something else: every declaration stores 1, the hiding
  // one and those after it in its block store 2, and the name is returned after the block.

  import opened Options
  import opened Words
  import opened Ast
  import opened Flow
  import opened Scoping
  import opened CSemantics
  import opened FlatSemantics
  import opened SourceCorrect
  import Analysis = Semantic
  import T = Tacky

  /** The blocks of a function and the names they declare, in source order. */
  datatype Outline = End | Binds(name: string, rest: Outline) | Nested(inner: Outline, rest: Outline)

  function OutlineStmt(s: Stmt, rest: Outline): Outline
    decreases s, 1
  {
    match s
    case If(_, a, b) => OutlineStmt(a, if b.Some? then OutlineStmt(b.value, rest) else rest)
    case Compound(items) => Nested(OutlineItems(items), rest)
    case _ => rest
  }

  function OutlineItem(item: BlockItem, rest: Outline): Outline
    decreases item, 2
  {
    match item
    case Declaration(x, _) => Binds(x, rest)
    case Statement(s) => OutlineStmt(s, rest)
  }

  function OutlineItems(items: seq<BlockItem>): Outline
    decreases items, 0
  {
    if items == [] then End else OutlineItem(items[0], OutlineItems(items[1..]))
  }

  /** The same blocks declare the same names in the same order. */
  predicate SameScopes(f: Function, g: Function) { OutlineItems(f.body) == OutlineItems(g.body) }

  // ----- what the outline decides -----

  /** No name is bound where it is visible. */
  predicate Free(o: Outline, vis: set<string>) {
    match o
    case End => true
    case Binds(x, rest) => x !in vis && Free(rest, vis + {x})
    case Nested(inner, rest) => Free(inner, vis) && Free(rest, vis)
  }

  lemma {:induction false} StmtFree(s: Stmt, rest: Outline, vis: set<string>)
    ensures Free(OutlineStmt(s, rest), vis) <==> ShadowFreeStmt(s, vis) && Free(rest, vis)
    decreases s, 1
  {
    match s {
      case If(_, a, b) =>
        StmtFree(a, if b.Some? then OutlineStmt(b.value, rest) else rest, vis);
        if b.Some? { StmtFree(b.value, rest, vis); }
      case Compound(items) => ItemsFree(items, vis);
      case _ =>
    }
  }

  lemma {:induction false} ItemFree(item: BlockItem, rest: Outline, vis: set<string>)
    ensures Free(OutlineItem(item, rest), vis) <==>
      ShadowFreeItem(item, vis) && Free(rest, if item.Declaration? then vis + {item.name} else vis)
    decreases item, 2
  {
    if item.Statement? { StmtFree(item.s, rest, vis); }
  }

  /** Whether anything is hidden depends on the outline only. */
  lemma {:induction false} ItemsFree(items: seq<BlockItem>, vis: set<string>)
    ensures Free(OutlineItems(items), vis) <==> ShadowFree(items, vis)
    decreases items, 0
  {
    if items != [] {
      FirstDeclaration(items);
      ItemsFree(items[1..], vis + DirectNames(items[..1]));
      ItemFree(items[0], OutlineItems(items[1..]), vis);
      assert items[0].Statement? ==> vis + DirectNames(items[..1]) == vis;
    }
  }

  /** No block binds a name twice. */
  predicate Once(o: Outline, local: set<string>) {
    match o
    case End => true
    case Binds(x, rest) => x !in local && Once(rest, local + {x})
    case Nested(inner, rest) => Once(inner, {}) && Once(rest, local)
  }

  lemma {:induction false} StmtOnce(s: Stmt, rest: Outline, vis: set<string>, local: set<string>)
    requires ScopedStmt(s, vis) && Once(rest, local)
    ensures Once(OutlineStmt(s, rest), local)
    decreases s, 1
  {
    match s {
      case If(_, a, b) =>
        if b.Some? { StmtOnce(b.value, rest, vis, local); }
        StmtOnce(a, if b.Some? then OutlineStmt(b.value, rest) else rest, vis, local);
      case Compound(items) =>
        ScopedBlockIs(items, vis);
        ItemsOnce(items, vis, {});
      case _ =>
    }
  }

  lemma {:induction false} ItemOnce(item: BlockItem, rest: Outline, vis: set<string>, local: set<string>)
    requires ScopedItem(item, vis) && (item.Declaration? ==> item.name !in local)
    requires Once(rest, if item.Declaration? then local + {item.name} else local)
    ensures Once(OutlineItem(item, rest), local)
    decreases item, 2
  {
    if item.Statement? { StmtOnce(item.s, rest, vis, local); }
  }

  /** An accepted block binds no name twice. */
  lemma {:induction false} ItemsOnce(items: seq<BlockItem>, outer: set<string>, local: set<string>)
    requires ScopedRest(items, outer, local)
    ensures Once(OutlineItems(items), local)
    decreases items, 0
  {
    if items != [] {
      var now := local + DirectNames(items[..1]);
      FirstDeclaration(items);
      ItemsOnce(items[1..], outer, now);
      assert now == if items[0].Declaration? then local + {items[0].name} else local;
      ItemOnce(items[0], OutlineItems(items[1..]), outer + now, local);
    }
  }

  // ----- a program for every outline -----

  /** Every declaration stores c. */
  function Plainly(o: Outline, c: Word): seq<BlockItem> {
    match o
    case End => []
    case Binds(x, rest) => [Declaration(x, Constant(c))] + Plainly(rest, c)
    case Nested(inner, rest) => [Statement(Compound(Plainly(inner, c)))] + Plainly(rest, c)
  }

  /** The name the first hiding declaration binds, when that stands in this block and not in one inside it. */
  function HiddenHere(o: Outline, vis: set<string>): Option<string>
    requires !Free(o, vis)
  {
    match o
    case Binds(x, rest) => if x in vis then Some(x) else HiddenHere(rest, vis + {x})
    case Nested(inner, rest) => if Free(inner, vis) then HiddenHere(rest, vis) else None
  }

  /** The return after the block of the hiding declaration. */
  function Asking(hidden: Option<string>): seq<BlockItem> {
    if hidden.Some? then [Statement(Return(Var(hidden.value)))] else []
  }

  function Witness(o: Outline, vis: set<string>): seq<BlockItem>
    requires !Free(o, vis)
  {
    match o
    case Binds(x, rest) =>
      if x in vis then Plainly(o, 2) else [Declaration(x, Constant(1))] + Witness(rest, vis + {x})
    case Nested(inner, rest) =>
      if Free(inner, vis) then [Statement(Compound(Plainly(inner, 1)))] + Witness(rest, vis)
      else [Statement(Compound(Witness(inner, vis)))] + (Asking(HiddenHere(inner, vis)) + Plainly(rest, 1))
  }

  // ----- it has the outline -----

  lemma OneMoreOutline(item: BlockItem, rest: seq<BlockItem>)
    ensures OutlineItems([item] + rest) == OutlineItem(item, OutlineItems(rest))
  {
    assert ([item] + rest)[1..] == rest;
  }

  lemma OneBlockOutline(items: seq<BlockItem>, rest: seq<BlockItem>)
    ensures OutlineItems([Statement(Compound(items))] + rest) == Nested(OutlineItems(items), OutlineItems(rest))
  {
    OneMoreOutline(Statement(Compound(items)), rest);
  }

  lemma {:induction false} PlainlyOutline(o: Outline, c: Word)
    ensures OutlineItems(Plainly(o, c)) == o
  {
    match o {
      case End =>
      case Binds(x, rest) =>
        PlainlyOutline(rest, c);
        OneMoreOutline(Declaration(x, Constant(c)), Plainly(rest, c));
      case Nested(inner, rest) =>
        PlainlyOutline(inner, c);
        PlainlyOutline(rest, c);
        OneBlockOutline(Plainly(inner, c), Plainly(rest, c));
    }
  }

  lemma AskingOutline(hidden: Option<string>, items: seq<BlockItem>)
    ensures OutlineItems(Asking(hidden) + items) == OutlineItems(items)
  {
    if hidden.Some? {
      OneMoreOutline(Statement(Return(Var(hidden.value))), items);
    } else {
      assert Asking(hidden) + items == items;
    }
  }

  lemma {:induction false} WitnessOutline(o: Outline, vis: set<string>)
    requires !Free(o, vis)
    ensures OutlineItems(Witness(o, vis)) == o
  {
    match o {
      case Binds(x, rest) =>
        if x in vis {
          PlainlyOutline(o, 2);
        } else {
          WitnessOutline(rest, vis + {x});
          OneMoreOutline(Declaration(x, Constant(1)), Witness(rest, vis + {x}));
        }
      case Nested(inner, rest) =>
        if Free(inner, vis) {
          PlainlyOutline(inner, 1);
          WitnessOutline(rest, vis);
          OneBlockOutline(Plainly(inner, 1), Witness(rest, vis));
        } else {
          WitnessOutline(inner, vis);
          PlainlyOutline(rest, 1);
          AskingOutline(HiddenHere(inner, vis), Plainly(rest, 1));
          OneBlockOutline(Witness(inner, vis), Asking(HiddenHere(inner, vis)) + Plainly(rest, 1));
        }
    }
  }

  // ----- it is accepted -----

  lemma {:induction false} HiddenIsOuter(o: Outline, outer: set<string>, local: set<string>)
    requires Once(o, local) && !Free(o, outer + local) && HiddenHere(o, outer + local).Some?
    ensures HiddenHere(o, outer + local).value in outer
  {
    match o {
      case Binds(x, rest) =>
        if x !in outer + local {
          assert outer + local + {x} == outer + (local + {x});
          HiddenIsOuter(rest, outer, local + {x});
        }
      case Nested(inner, rest) => HiddenIsOuter(rest, outer, local);
    }
  }

  lemma OneMore(item: BlockItem, rest: seq<BlockItem>, outer: set<string>, local: set<string>)
    requires item.Declaration? ==> item.name !in local && item.init.Constant?
    requires item.Statement? ==> ScopedStmt(item.s, outer + local)
    requires ScopedRest(rest, outer, if item.Declaration? then local + {item.name} else local)
    ensures ScopedRest([item] + rest, outer, local)
  {
    var items := [item] + rest;
    assert items[1..] == rest;
    FirstDeclaration(items);
    assert local + DirectNames(items[..1]) == if item.Declaration? then local + {item.name} else local;
  }

  lemma OneBlock(items: seq<BlockItem>, rest: seq<BlockItem>, outer: set<string>, local: set<string>)
    requires ScopedRest(items, outer + local, {}) && ScopedRest(rest, outer, local)
    ensures ScopedRest([Statement(Compound(items))] + rest, outer, local)
  {
    ScopedBlockIs(items, outer + local);
    OneMore(Statement(Compound(items)), rest, outer, local);
  }

  lemma {:induction false} PlainlyScoped(o: Outline, c: Word, outer: set<string>, local: set<string>)
    requires Once(o, local)
    ensures ScopedRest(Plainly(o, c), outer, local)
    decreases o, 0
  {
    match o {
      case End =>
      case Binds(x, rest) =>
        PlainlyScoped(rest, c, outer, local + {x});
        OneMore(Declaration(x, Constant(c)), Plainly(rest, c), outer, local);
      case Nested(inner, rest) =>
        PlainlyScoped(inner, c, outer + local, {});
        PlainlyScoped(rest, c, outer, local);
        OneBlock(Plainly(inner, c), Plainly(rest, c), outer, local);
    }
  }

  lemma AskingScoped(hidden: Option<string>, rest: seq<BlockItem>, outer: set<string>, local: set<string>)
    requires ScopedRest(rest, outer, local) && (hidden.Some? ==> hidden.value in outer + local)
    ensures ScopedRest(Asking(hidden) + rest, outer, local)
  {
    if hidden.Some? {
      assert In(outer + local)(hidden.value);
      OneMore(Statement(Return(Var(hidden.value))), rest, outer, local);
    } else {
      assert Asking(hidden) + rest == rest;
    }
  }

  lemma {:induction false} WitnessScoped(o: Outline, outer: set<string>, local: set<string>)
    requires Once(o, local) && !Free(o, outer + local)
    ensures ScopedRest(Witness(o, outer + local), outer, local)
    decreases o, 0
  {
    var vis := outer + local;
    match o {
      case Binds(x, rest) =>
        if x in vis {
          PlainlyScoped(o, 2, outer, local);
        } else {
          assert vis + {x} == outer + (local + {x});
          WitnessScoped(rest, outer, local + {x});
          OneMore(Declaration(x, Constant(1)), Witness(rest, vis + {x}), outer, local);
        }
      case Nested(inner, rest) =>
        if Free(inner, vis) {
          PlainlyScoped(inner, 1, vis, {});
          WitnessScoped(rest, outer, local);
          OneBlock(Plainly(inner, 1), Witness(rest, vis), outer, local);
        } else {
          assert vis + {} == vis;
          WitnessScoped(inner, vis, {});
          if HiddenHere(inner, vis).Some? { HiddenIsOuter(inner, vis, {}); }
          PlainlyScoped(rest, 1, outer, local);
          AskingScoped(HiddenHere(inner, vis), Plainly(rest, 1), outer, local);
          OneBlock(Witness(inner, vis), Asking(HiddenHere(inner, vis)) + Plainly(rest, 1), outer, local);
        }
    }
  }

  // ----- null-free, and with no other names -----

  /** Every name bound satisfies p. */
  predicate BindsOnly(o: Outline, p: string -> bool) {
    match o
    case End => true
    case Binds(x, rest) => p(x) && BindsOnly(rest, p)
    case Nested(inner, rest) => BindsOnly(inner, p) && BindsOnly(rest, p)
  }

  lemma {:induction false} StmtBinds(s: Stmt, rest: Outline, p: string -> bool)
    requires StmtNames(s, p) && BindsOnly(rest, p)
    ensures BindsOnly(OutlineStmt(s, rest), p)
    decreases s, 1
  {
    match s {
      case If(_, a, b) =>
        if b.Some? { StmtBinds(b.value, rest, p); }
        StmtBinds(a, if b.Some? then OutlineStmt(b.value, rest) else rest, p);
      case Compound(items) => ItemsBind(items, p);
      case _ =>
    }
  }

  lemma {:induction false} ItemBinds(item: BlockItem, rest: Outline, p: string -> bool)
    requires ItemNames(item, p) && BindsOnly(rest, p)
    ensures BindsOnly(OutlineItem(item, rest), p)
    decreases item, 2
  {
    if item.Statement? { StmtBinds(item.s, rest, p); }
  }

  lemma {:induction false} ItemsBind(items: seq<BlockItem>, p: string -> bool)
    requires ItemsNames(items, p)
    ensures BindsOnly(OutlineItems(items), p)
    decreases items, 0
  {
    if items != [] {
      ItemsBind(items[1..], p);
      ItemBinds(items[0], OutlineItems(items[1..]), p);
    }
  }

  /** Only declarations with a constant, blocks of them, and returns of a variable. */
  predicate SimpleItem(item: BlockItem, p: string -> bool)
    decreases item, 2
  {
    match item
    case Declaration(x, init) => p(x) && init.Constant? && init.value >= 0
    case Statement(Return(e)) => e.Var? && p(e.name)
    case Statement(Compound(items)) => Simple(items, p)
    case _ => false
  }

  predicate Simple(items: seq<BlockItem>, p: string -> bool)
    decreases items, 0
  {
    items != [] ==> SimpleItem(items[0], p) && Simple(items[1..], p)
  }

  lemma {:induction false} SimpleItemClean(item: BlockItem, p: string -> bool)
    requires SimpleItem(item, p)
    ensures ItemAll(item, NullFree) && ItemNames(item, p)
    decreases item, 2
  {
    match item {
      case Statement(Compound(items)) => SimpleClean(items, p);
      case _ =>
    }
  }

  lemma {:induction false} SimpleClean(items: seq<BlockItem>, p: string -> bool)
    requires Simple(items, p)
    ensures ItemsAll(items, NullFree) && ItemsNames(items, p)
    decreases items, 0
  {
    if items != [] {
      SimpleItemClean(items[0], p);
      SimpleClean(items[1..], p);
    }
  }

  lemma OneMoreSimple(item: BlockItem, rest: seq<BlockItem>, p: string -> bool)
    requires SimpleItem(item, p) && Simple(rest, p)
    ensures Simple([item] + rest, p)
  {
    assert ([item] + rest)[1..] == rest;
  }

  lemma {:induction false} PlainlySimple(o: Outline, c: Word, p: string -> bool)
    requires BindsOnly(o, p) && c >= 0
    ensures Simple(Plainly(o, c), p)
  {
    match o {
      case End =>
      case Binds(x, rest) =>
        PlainlySimple(rest, c, p);
        OneMoreSimple(Declaration(x, Constant(c)), Plainly(rest, c), p);
      case Nested(inner, rest) =>
        PlainlySimple(inner, c, p);
        PlainlySimple(rest, c, p);
        OneMoreSimple(Statement(Compound(Plainly(inner, c))), Plainly(rest, c), p);
    }
  }

  lemma AskingSimple(hidden: Option<string>, rest: seq<BlockItem>, p: string -> bool)
    requires Simple(rest, p) && (hidden.Some? ==> p(hidden.value))
    ensures Simple(Asking(hidden) + rest, p)
  {
    if hidden.Some? {
      OneMoreSimple(Statement(Return(Var(hidden.value))), rest, p);
    } else {
      assert Asking(hidden) + rest == rest;
    }
  }

  lemma {:induction false} HiddenBinds(o: Outline, vis: set<string>, p: string -> bool)
    requires BindsOnly(o, p) && !Free(o, vis) && HiddenHere(o, vis).Some?
    ensures p(HiddenHere(o, vis).value)
  {
    match o {
      case Binds(x, rest) => if x !in vis { HiddenBinds(rest, vis + {x}, p); }
      case Nested(inner, rest) => HiddenBinds(rest, vis, p);
    }
  }

  lemma {:induction false} WitnessSimple(o: Outline, vis: set<string>, p: string -> bool)
    requires BindsOnly(o, p) && !Free(o, vis)
    ensures Simple(Witness(o, vis), p)
  {
    match o {
      case Binds(x, rest) =>
        if x in vis {
          PlainlySimple(o, 2, p);
        } else {
          WitnessSimple(rest, vis + {x}, p);
          OneMoreSimple(Declaration(x, Constant(1)), Witness(rest, vis + {x}), p);
        }
      case Nested(inner, rest) =>
        if Free(inner, vis) {
          PlainlySimple(inner, 1, p);
          WitnessSimple(rest, vis, p);
          OneMoreSimple(Statement(Compound(Plainly(inner, 1))), Witness(rest, vis), p);
        } else {
          var hidden := HiddenHere(inner, vis);
          WitnessSimple(inner, vis, p);
          PlainlySimple(rest, 1, p);
          if hidden.Some? { HiddenBinds(inner, vis, p); }
          AskingSimple(hidden, Plainly(rest, 1), p);
          OneMoreSimple(Statement(Compound(Witness(inner, vis))), Asking(hidden) + Plainly(rest, 1), p);
        }
    }
  }

  // ----- what it does in C11 -----

  /** The visible names hold 1. */
  ghost predicate Ones(sc: Scopes, vis: set<string>) { forall x :: x in vis ==> Lookup(sc, x) == Some(1) }

  /** Only the innermost scope has changed. */
  ghost predicate FallsWithin(r: Effect, sc: Scopes) {
    sc != [] && r.Fall? && |r.sc| == |sc| && r.sc[..|sc| - 1] == sc[..|sc| - 1]
  }

  lemma FirstFalls(item: BlockItem, rest: seq<BlockItem>, sc: Scopes)
    requires sc != [] && ExecItem(item, sc).Fall?
    ensures ExecItems([item] + rest, sc) == ExecItems(rest, ExecItem(item, sc).sc)
  {
    assert ([item] + rest)[1..] == rest;
  }

  /** A block that changes only its own scope changes nothing. */
  lemma BlockFalls(items: seq<BlockItem>, sc: Scopes)
    requires sc != [] && FallsWithin(ExecItems(items, sc + [map[]]), sc + [map[]])
    ensures ExecItem(Statement(Compound(items)), sc) == Fall(sc)
  {
    var sc1: Scopes := sc + [map[]];
    assert sc1[..|sc|] == sc;
  }

  lemma {:induction false} PlainlyInC(o: Outline, c: Word, sc: Scopes)
    requires sc != []
    ensures FallsWithin(ExecItems(Plainly(o, c), sc), sc)
  {
    match o {
      case End =>
      case Binds(x, rest) =>
        DeclareConstant(x, c, sc);
        FirstFalls(Declaration(x, Constant(c)), Plainly(rest, c), sc);
        PlainlyInC(rest, c, ExecItem(Declaration(x, Constant(c)), sc).sc);
      case Nested(inner, rest) =>
        PlainlyInC(inner, c, sc + [map[]]);
        BlockFalls(Plainly(inner, c), sc);
        FirstFalls(Statement(Compound(Plainly(inner, c))), Plainly(rest, c), sc);
        PlainlyInC(rest, c, sc);
    }
  }

  lemma DeclaredOnes(sc: Scopes, vis: set<string>, x: string)
    requires sc != [] && Ones(sc, vis)
    ensures var n := |sc| - 1; Ones(sc[n := Put(sc[n], x, Some(1))], vis + {x})
  {
    var n := |sc| - 1;
    var sc1: Scopes := sc[n := Put(sc[n], x, Some(1))];
    assert sc1[..n] == sc[..n];
  }

  lemma PushedOnes(sc: Scopes, vis: set<string>)
    requires Ones(sc, vis)
    ensures Ones(sc + [map[]], vis)
  {
    var sc1: Scopes := sc + [map[]];
    assert sc1[..|sc|] == sc;
  }

  /** After the block the name is the outer one again. */
  lemma AskedInC(x: string, rest: seq<BlockItem>, sc: Scopes)
    requires sc != [] && Lookup(sc, x) == Some(1)
    ensures ExecItems(Asking(Some(x)) + rest, sc) == Exit(1)
  {
    assert ExecItem(Asking(Some(x))[0], sc) == Exit(1);
  }

  lemma {:induction false} WitnessInC(o: Outline, outer: set<string>, local: set<string>, sc: Scopes)
    requires Once(o, local) && !Free(o, outer + local) && sc != [] && Ones(sc, outer + local)
    ensures var r := ExecItems(Witness(o, outer + local), sc);
      if HiddenHere(o, outer + local).Some? then FallsWithin(r, sc) else r == Exit(1)
    decreases o, 0
  {
    var vis := outer + local;
    match o {
      case Binds(x, rest) =>
        if x in vis {
          PlainlyInC(o, 2, sc);
        } else {
          assert vis + {x} == outer + (local + {x});
          DeclareConstant(x, 1, sc);
          DeclaredOnes(sc, vis, x);
          FirstFalls(Declaration(x, Constant(1)), Witness(rest, vis + {x}), sc);
          WitnessInC(rest, outer, local + {x}, ExecItem(Declaration(x, Constant(1)), sc).sc);
        }
      case Nested(inner, rest) =>
        if Free(inner, vis) {
          PlainlyInC(inner, 1, sc + [map[]]);
          BlockFalls(Plainly(inner, 1), sc);
          FirstFalls(Statement(Compound(Plainly(inner, 1))), Witness(rest, vis), sc);
          WitnessInC(rest, outer, local, sc);
        } else {
          NestedInC(inner, rest, vis, sc);
        }
    }
  }

  lemma {:induction false} NestedInC(inner: Outline, rest: Outline, vis: set<string>, sc: Scopes)
    requires Once(inner, {}) && !Free(inner, vis) && sc != [] && Ones(sc, vis)
    ensures ExecItems(Witness(Nested(inner, rest), vis), sc) == Exit(1)
    decreases inner, 1
  {
    var hidden, block := HiddenHere(inner, vis), Statement(Compound(Witness(inner, vis)));
    assert vis + {} == vis;
    PushedOnes(sc, vis);
    WitnessInC(inner, vis, {}, sc + [map[]]);
    if hidden.Some? {
      HiddenIsOuter(inner, vis, {});
      BlockFalls(Witness(inner, vis), sc);
      FirstFalls(block, Asking(hidden) + Plainly(rest, 1), sc);
      AskedInC(hidden.value, Plainly(rest, 1), sc);
    } else {
      assert ExecItem(block, sc) == Exit(1);
    }
  }

  // ----- what it does in one flat store -----

  lemma FirstFallsLate(item: BlockItem, rest: seq<BlockItem>, vars: Vars)
    requires LateItem(item, vars).LFall?
    ensures LateItems([item] + rest, vars) == LateItems(rest, LateItem(item, vars).st)
  {
    assert ([item] + rest)[1..] == rest;
  }

  lemma {:induction false} PlainlyLate(o: Outline, c: Word, vars: Vars)
    ensures var r := LateItems(Plainly(o, c), vars);
      r.LFall? && forall x :: T.GetVar(vars, x) == c ==> T.GetVar(r.st, x) == c
  {
    match o {
      case End =>
      case Binds(x, rest) =>
        FirstFallsLate(Declaration(x, Constant(c)), Plainly(rest, c), vars);
        PlainlyLate(rest, c, vars[x := c]);
      case Nested(inner, rest) =>
        PlainlyLate(inner, c, vars);
        var block := Statement(Compound(Plainly(inner, c)));
        FirstFallsLate(block, Plainly(rest, c), vars);
        PlainlyLate(rest, c, LateItem(block, vars).st);
    }
  }

  /** The flat store keeps what the inner block has stored. */
  lemma AskedLate(x: string, rest: seq<BlockItem>, vars: Vars)
    requires T.GetVar(vars, x) == 2
    ensures LateItems(Asking(Some(x)) + rest, vars) == LExit(2)
  {
    assert LateItem(Asking(Some(x))[0], vars) == LExit(2);
  }

  lemma {:induction false} WitnessLate(o: Outline, vis: set<string>, vars: Vars)
    requires !Free(o, vis)
    ensures var r := LateItems(Witness(o, vis), vars);
      if HiddenHere(o, vis).Some? then r.LFall? && T.GetVar(r.st, HiddenHere(o, vis).value) == 2 else r == LExit(2)
    decreases o, 0
  {
    match o {
      case Binds(x, rest) =>
        if x in vis {
          FirstFallsLate(Declaration(x, Constant(2)), Plainly(rest, 2), vars);
          PlainlyLate(rest, 2, vars[x := 2]);
        } else {
          FirstFallsLate(Declaration(x, Constant(1)), Witness(rest, vis + {x}), vars);
          WitnessLate(rest, vis + {x}, vars[x := 1]);
        }
      case Nested(inner, rest) =>
        if Free(inner, vis) {
          var block := Statement(Compound(Plainly(inner, 1)));
          PlainlyLate(inner, 1, vars);
          FirstFallsLate(block, Witness(rest, vis), vars);
          WitnessLate(rest, vis, LateItem(block, vars).st);
        } else {
          NestedLate(inner, rest, vis, vars);
        }
    }
  }

  lemma {:induction false} NestedLate(inner: Outline, rest: Outline, vis: set<string>, vars: Vars)
    requires !Free(inner, vis)
    ensures LateItems(Witness(Nested(inner, rest), vis), vars) == LExit(2)
    decreases inner, 1
  {
    var hidden, block := HiddenHere(inner, vis), Statement(Compound(Witness(inner, vis)));
    WitnessLate(inner, vis, vars);
    if hidden.Some? {
      FirstFallsLate(block, Asking(hidden) + Plainly(rest, 1), vars);
      AskedLate(hidden.value, Plainly(rest, 1), LateItem(block, vars).st);
    } else {
      assert LateItem(block, vars) == LExit(2);
    }
  }

  // ----- the exact condition -----

  function WitnessFor(f: Function): Function
    requires !ShadowFree(f.body, {})
  {
    ItemsFree(f.body, {});
    Function(f.name, Witness(OutlineItems(f.body), {}))
  }

  /** A hidden name leaves room for a program with the same scopes that returns 1 in C11 and 2 in one flat store. */
  lemma WitnessDiffers(f: Function)
    requires Analysis.Accepted(f) && !ShadowFree(f.body, {})
    ensures var g := WitnessFor(f);
      && SameScopes(f, g) && Analysis.Accepted(g) && RunFunction(g) == Exits(1)
      && forall vars :: LateFunction(g, vars) == Returned(2)
  {
    var o, g := OutlineItems(f.body), WitnessFor(f);
    ItemsFree(f.body, {});
    Analysis.AcceptsIffScoped(f);
    ScopedBlockIs(f.body, {});
    ItemsOnce(f.body, {}, {});
    WitnessOutline(o, {});
    WitnessAccepted(f, g, o);
    WitnessRuns(o);
    forall vars ensures LateFunction(g, vars) == Returned(2) { WitnessReturns(o, g, vars); }
  }

  lemma TopHidesNothing(o: Outline)
    requires Once(o, {}) && !Free(o, {})
    ensures HiddenHere(o, {}).None?
  {
    var none: set<string> := {};
    assert none + none == none;
    if HiddenHere(o, {}).Some? { HiddenIsOuter(o, {}, {}); }
  }

  lemma WitnessAccepted(f: Function, g: Function, o: Outline)
    requires Once(o, {}) && !Free(o, {}) && g.body == Witness(o, {})
    ensures Analysis.Accepted(g)
  {
    var all := (x: string) => true;
    EveryName(o, all);
    WitnessSimple(o, {}, all);
    SimpleClean(g.body, all);
    var none: set<string> := {};
    assert none + none == none;
    WitnessScoped(o, {}, {});
    ScopedBlockIs(g.body, {});
    Analysis.AcceptsIffScoped(g);
  }

  lemma {:induction false} EveryName(o: Outline, p: string -> bool)
    requires forall x :: p(x)
    ensures BindsOnly(o, p)
  {
    if o.Binds? { EveryName(o.rest, p); }
    if o.Nested? { EveryName(o.inner, p); EveryName(o.rest, p); }
  }

  lemma WitnessRuns(o: Outline)
    requires Once(o, {}) && !Free(o, {})
    ensures ExecItems(Witness(o, {}), [map[], map[]]) == Exit(1)
  {
    var none: set<string> := {};
    assert none + none == none;
    TopHidesNothing(o);
    WitnessInC(o, {}, {}, [map[], map[]]);
  }

  lemma WitnessReturns(o: Outline, g: Function, vars: Vars)
    requires Once(o, {}) && !Free(o, {}) && g.body == Witness(o, {})
    ensures LateFunction(g, vars) == Returned(2)
  {
    TopHidesNothing(o);
    WitnessLate(o, {}, vars);
  }

  /** The names of the witness are names of the function. */
  lemma WitnessNames(f: Function, p: string -> bool)
    requires ItemsNames(f.body, p) && !ShadowFree(f.body, {})
    ensures Simple(WitnessFor(f).body, p) && ItemsNames(WitnessFor(f).body, p)
  {
    ItemsFree(f.body, {});
    ItemsBind(f.body, p);
    WitnessSimple(OutlineItems(f.body), {}, p);
    SimpleClean(WitnessFor(f).body, p);
  }

  /** One flat store gives every defined behaviour. */
  ghost predicate FlatSuffices(f: Function) {
    !RunFunction(f).Undefined? ==> forall vars :: LateFunction(f, vars) == Expected(RunFunction(f))
  }

  /** One flat store is enough for all programs with these scopes exactly when nothing is hidden. */
  lemma FlatExactly(f: Function)
    requires Analysis.Accepted(f)
    ensures ShadowFree(f.body, {}) <==> forall g :: SameScopes(f, g) && Analysis.Accepted(g) ==> FlatSuffices(g)
  {
    if ShadowFree(f.body, {}) {
      forall g | SameScopes(f, g) && Analysis.Accepted(g) ensures FlatSuffices(g) {
        ItemsFree(f.body, {});
        ItemsFree(g.body, {});
        Analysis.AcceptsIffScoped(g);
        if !RunFunction(g).Undefined? {
          forall vars ensures LateFunction(g, vars) == Expected(RunFunction(g)) { FlatIsC(g, vars); }
        }
      }
    } else {
      WitnessDiffers(f);
      var g, vars: Vars := WitnessFor(f), map[];
      assert LateFunction(g, vars) != Expected(RunFunction(g));
    }
  }
}
