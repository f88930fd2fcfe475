/** When a function body is well scoped, said without a scope stack (C11 6.2.1 p4 and p7, 6.7 p3, 6.5.16 p2). */
module Scoping {
  import opened Ast

  function In(vis: set<string>): string -> bool { x => x in vis }

  /** Every use is visible and every assignment target is a variable. */
  ghost predicate UsesVisible(e: Expr, vis: set<string>) {
    NamesAll(e, In(vis)) && TargetsAreVars(e)
  }

  /** The names the items themselves declare, not the blocks inside them. */
  function DirectNames(items: seq<BlockItem>): set<string> {
    set k | 0 <= k < |items| && items[k].Declaration? :: items[k].name
  }

  ghost predicate NoRedeclaration(items: seq<BlockItem>) {
    forall j, k :: 0 <= j < k < |items| && items[j].Declaration? && items[k].Declaration? ==>
      items[j].name != items[k].name
  }

  ghost predicate ScopedStmt(s: Stmt, vis: set<string>)
    decreases s, 1
  {
    match s
    case Return(e) => UsesVisible(e, vis)
    case If(c, a, b) => UsesVisible(c, vis) && ScopedStmt(a, vis) && (b.Some? ==> ScopedStmt(b.value, vis))
    case Expression(e) => UsesVisible(e, vis)
    case Compound(items) => ScopedBlock(items, vis)
    case Empty => true
  }

  ghost predicate ScopedItem(item: BlockItem, vis: set<string>)
    decreases item, 2
  {
    match item
    case Declaration(_, init) => init == NullExpr || UsesVisible(init, vis)
    case Statement(s) => ScopedStmt(s, vis)
  }

  /** Item k sees the names of the enclosing blocks and what items 0 to k declare: earlier items and itself. */
  ghost predicate ScopedBlock(items: seq<BlockItem>, outer: set<string>)
    decreases items, 0
  {
    && NoRedeclaration(items)
    && forall k :: 0 <= k < |items| ==> ScopedItem(items[k], outer + DirectNames(items[..k + 1]))
  }

  ghost predicate ScopedFunction(f: Function) { ScopedBlock(f.body, {}) }

  // ----- no shadowing -----

  /** No declaration hides a name that is visible where it stands. */
  predicate ShadowFreeStmt(s: Stmt, vis: set<string>)
    decreases s, 1
  {
    match s
    case If(_, a, b) => ShadowFreeStmt(a, vis) && (b.Some? ==> ShadowFreeStmt(b.value, vis))
    case Compound(items) => ShadowFree(items, vis)
    case _ => true
  }

  predicate ShadowFreeItem(item: BlockItem, vis: set<string>)
    decreases item, 2
  {
    match item
    case Declaration(x, _) => x !in vis
    case Statement(s) => ShadowFreeStmt(s, vis)
  }

  predicate ShadowFree(items: seq<BlockItem>, vis: set<string>)
    decreases items, 0
  {
    items != [] ==> ShadowFreeItem(items[0], vis) && ShadowFree(items[1..], vis + DirectNames(items[..1]))
  }

  // ----- item by item -----

  /** The same judgement for the rest of a block that has already declared `local`. */
  ghost predicate ScopedRest(items: seq<BlockItem>, outer: set<string>, local: set<string>) {
    items != [] ==>
      && (items[0].Declaration? ==> items[0].name !in local)
      && var now := local + DirectNames(items[..1]);
         ScopedItem(items[0], outer + now) && ScopedRest(items[1..], outer, now)
  }

  lemma DirectNamesSplit(items: seq<BlockItem>, k: nat)
    requires k < |items|
    ensures DirectNames(items[..k + 1]) == DirectNames(items[..1]) + DirectNames(items[1..][..k])
  {
    var a, b, c := items[..k + 1], items[..1], items[1..][..k];
    forall x | x in DirectNames(a) ensures x in DirectNames(b) + DirectNames(c) {
      var j :| 0 <= j < |a| && a[j].Declaration? && a[j].name == x;
      if j == 0 { assert b[0] == a[0]; } else { assert c[j - 1] == a[j]; }
    }
    forall x | x in DirectNames(b) + DirectNames(c) ensures x in DirectNames(a) {
      if x in DirectNames(b) {
        assert a[0] == b[0];
      } else {
        var j :| 0 <= j < |c| && c[j].Declaration? && c[j].name == x;
        assert a[j + 1] == c[j];
      }
    }
  }

  /** Reading a block item by item gives the judgement over all its items at once. */
  lemma {:induction false} ScopedRestIs(items: seq<BlockItem>, outer: set<string>, local: set<string>)
    ensures ScopedRest(items, outer, local) <==>
      && NoRedeclaration(items)
      && DirectNames(items) !! local
      && forall k :: 0 <= k < |items| ==> ScopedItem(items[k], outer + local + DirectNames(items[..k + 1]))
  {
    if items != [] {
      var rest, now := items[1..], local + DirectNames(items[..1]);
      ScopedRestIs(rest, outer, now);
      DirectNamesSplit(items, |rest|);
      assert items[..|rest| + 1] == items && rest[..|rest|] == rest;
      assert outer + now == outer + local + DirectNames(items[..1]);
      forall k | 0 <= k < |rest|
        ensures ScopedItem(items[k + 1], outer + local + DirectNames(items[..k + 2])) <==>
                ScopedItem(rest[k], outer + now + DirectNames(rest[..k + 1]))
      {
        DirectNamesSplit(items, k + 1);
        assert outer + local + DirectNames(items[..k + 2]) == outer + now + DirectNames(rest[..k + 1]);
      }
      FirstDeclaration(items);
    }
  }

  lemma FirstDeclaration(items: seq<BlockItem>)
    requires items != []
    ensures DirectNames(items[..1]) == if items[0].Declaration? then {items[0].name} else {}
    ensures NoRedeclaration(items) <==> NoRedeclaration(items[1..]) && DirectNames(items[..1]) !! DirectNames(items[1..])
  {
    var rest := items[1..];
    assert items[..1] == [items[0]];
    if items[0].Declaration? {
      assert items[..1][0].name == items[0].name;
      if DirectNames(items[..1]) !! DirectNames(rest) {
        forall k | 0 < k < |items| && items[k].Declaration? ensures items[k].name != items[0].name {
          assert rest[k - 1] == items[k];
          assert items[k].name in DirectNames(rest);
        }
      }
    }
    if NoRedeclaration(items) {
      forall x | x in DirectNames(rest) ensures x !in DirectNames(items[..1]) {
        var k :| 0 <= k < |rest| && rest[k].Declaration? && rest[k].name == x;
        assert items[k + 1] == rest[k];
      }
      forall j, k | 0 <= j < k < |rest| && rest[j].Declaration? && rest[k].Declaration?
        ensures rest[j].name != rest[k].name
      {
        assert items[j + 1] == rest[j] && items[k + 1] == rest[k];
      }
    }
    if NoRedeclaration(rest) && DirectNames(items[..1]) !! DirectNames(rest) {
      forall j, k | 0 <= j < k < |items| && items[j].Declaration? && items[k].Declaration?
        ensures items[j].name != items[k].name
      {
        if j > 0 { assert items[j] == rest[j - 1] && items[k] == rest[k - 1]; }
      }
    }
  }

  lemma ScopedBlockIs(items: seq<BlockItem>, outer: set<string>)
    ensures ScopedBlock(items, outer) <==> ScopedRest(items, outer, {})
  {
    ScopedRestIs(items, outer, {});
    assert outer + {} == outer;
  }

  // ----- pairwise distinct names -----

  lemma DistinctSplit(a: seq<string>, b: seq<string>)
    requires Distinct(a + b)
    ensures Distinct(a) && Distinct(b) && forall x :: x in a ==> x !in b
  {
    var ab := a + b;
    forall j, k | 0 <= j < k < |a| ensures a[j] != a[k] { assert ab[j] != ab[k]; }
    forall j, k | 0 <= j < k < |b| ensures b[j] != b[k] { assert ab[|a| + j] != ab[|a| + k]; }
    forall j, k | 0 <= j < |a| && 0 <= k < |b| ensures a[j] != b[k] { assert ab[j] != ab[|a| + k]; }
  }

  lemma {:induction false} DistinctStmt(s: Stmt, vis: set<string>)
    requires Distinct(DeclaredStmt(s)) && forall x :: x in DeclaredStmt(s) ==> x !in vis
    ensures ShadowFreeStmt(s, vis)
    decreases s, 1
  {
    match s {
      case If(_, a, b) =>
        var d := if b.Some? then DeclaredStmt(b.value) else [];
        DistinctSplit(DeclaredStmt(a), d);
        DistinctStmt(a, vis);
        if b.Some? { DistinctStmt(b.value, vis); }
      case Compound(items) => DistinctItems(items, vis);
      case _ =>
    }
  }

  lemma {:induction false} DistinctItem(item: BlockItem, vis: set<string>)
    requires Distinct(DeclaredItem(item)) && forall x :: x in DeclaredItem(item) ==> x !in vis
    ensures ShadowFreeItem(item, vis)
    decreases item, 2
  {
    if item.Statement? { DistinctStmt(item.s, vis); }
  }

  /** Where all declared names are pairwise distinct, nothing is hidden. */
  lemma {:induction false} DistinctItems(items: seq<BlockItem>, vis: set<string>)
    requires Distinct(DeclaredItems(items)) && forall x :: x in DeclaredItems(items) ==> x !in vis
    ensures ShadowFree(items, vis)
    decreases items, 0
  {
    if items != [] {
      var item, rest := items[0], items[1..];
      DistinctSplit(DeclaredItem(item), DeclaredItems(rest));
      assert items[..1] == [item];
      DistinctItem(item, vis);
      forall x | x in DeclaredItems(rest) ensures x !in vis + DirectNames(items[..1]) {}
      DistinctItems(rest, vis + DirectNames(items[..1]));
    }
  }
}
