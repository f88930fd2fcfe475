/** When one flat name space is enough. */
module Shadowing {
  // A source name stands for one variable at every
  // point of a function exactly when no declaration hides a visible name.

  import opened Ast
  import opened Scoping
  import opened Semantic
  import opened Renaming

  /** No name is bound in two open blocks, so the name alone tells which variable is meant. */
  ghost predicate OneEach(maps: ScopeMaps) {
    forall j, k, x :: 0 <= j < k < |maps| && x in maps[j] ==> x !in maps[k]
  }

  lemma VisibleIs(maps: ScopeMaps, x: string)
    ensures x in VisibleNames(maps) <==> exists k :: 0 <= k < |maps| && x in maps[k]
  {}

  /** A declaration the analyzer accepts binds a name a second time exactly when the name was visible. */
  lemma DeclareOnce(st: ScopeState, x: string)
    requires st.maps != [] && x !in st.maps[|st.maps| - 1] && OneEach(st.maps)
    ensures OneEach(Declare(st, x).maps) <==> x !in VisibleNames(st.maps)
    ensures VisibleNames(Declare(st, x).maps) == VisibleNames(st.maps) + {x}
  {
    var n, maps := |st.maps| - 1, st.maps;
    var new' := Declare(st, x).maps;
    assert forall k :: 0 <= k < n ==> new'[k] == maps[k];
    assert new'[n].Keys == maps[n].Keys + {x};
    if x in VisibleNames(maps) {
      var k :| 0 <= k < |maps| && x in maps[k];
      assert x in new'[k] && x in new'[n];
    }
    forall y ensures y in VisibleNames(new') <==> y in VisibleNames(maps) || y == x {
      VisibleIs(maps, y);
      VisibleIs(new', y);
      if y in VisibleNames(maps) {
        var k :| 0 <= k < |maps| && y in maps[k];
        assert y in new'[k].Keys;
      }
      if y == x { assert x in new'[n]; }
    }
  }

  lemma PushOnce(maps: ScopeMaps)
    requires OneEach(maps)
    ensures OneEach(maps + [map[]]) && VisibleNames(maps + [map[]]) == VisibleNames(maps)
  {
    var empty: ScopeMap := map[];
    assert empty.Keys == {};
    VisiblePush(maps, empty);
  }

  lemma {:induction false} StmtShares(s: Stmt, st: ScopeState)
    requires CheckStmt(s, st).Some? && OneEach(st.maps)
    ensures ShadowFreeStmt(s, VisibleNames(st.maps)) <==> forall at :: StmtReaches(s, st, at) ==> OneEach(at.maps)
    decreases s, 1
  {
    match s {
      case Return(_) =>
      case If(_, a, b) =>
        var st1 := CheckStmt(a, st).value;
        StmtRestores(a, st);
        StmtShares(a, st);
        if b.Some? { StmtShares(b.value, st1); }
        IfShares(s, st);
      case Expression(_) =>
      case Compound(items) =>
        PushOnce(st.maps);
        ItemsShare(items, ScopeState(st.maps + [map[]], st.counter));
      case Empty =>
    }
  }

  /** What an `if` reaches is what its condition and its branches reach. */
  lemma {:induction false} IfShares(s: Stmt, st: ScopeState)
    requires s.If? && CheckStmt(s.thn, st).Some? && OneEach(st.maps)
    ensures (forall at :: StmtReaches(s, st, at) ==> OneEach(at.maps)) <==>
      && (forall at :: StmtReaches(s.thn, st, at) ==> OneEach(at.maps))
      && (s.els.Some? ==> forall at :: StmtReaches(s.els.value, CheckStmt(s.thn, st).value, at) ==> OneEach(at.maps))
  {
    if forall at :: StmtReaches(s, st, at) ==> OneEach(at.maps) {
      forall at | StmtReaches(s.thn, st, at) ensures OneEach(at.maps) { assert StmtReaches(s, st, at); }
      if s.els.Some? {
        forall at | StmtReaches(s.els.value, CheckStmt(s.thn, st).value, at) ensures OneEach(at.maps) {
          assert StmtReaches(s, st, at);
        }
      }
    }
  }

  lemma {:induction false} ItemsShare(items: seq<BlockItem>, st: ScopeState)
    requires CheckItems(items, st).Some? && st.maps != [] && OneEach(st.maps)
    ensures ShadowFree(items, VisibleNames(st.maps)) <==> forall at :: ItemsReach(items, st, at) ==> OneEach(at.maps)
    decreases items, 0
  {
    if items != [] {
      var item, vis := items[0], VisibleNames(st.maps);
      var st1 := CheckItem(item, st).value;
      assert items[..1] == [item];
      ItemGrows(item, st);
      ItemShares(item, st);
      FirstShares(items, st);
      if OneEach(st1.maps) { ItemsShare(items[1..], st1); }
    }
  }

  lemma {:induction false} ItemShares(item: BlockItem, st: ScopeState)
    requires CheckItem(item, st).Some? && st.maps != [] && OneEach(st.maps)
    ensures ShadowFreeItem(item, VisibleNames(st.maps)) <==> forall at :: ItemReaches(item, st, at) ==> OneEach(at.maps)
    ensures ShadowFreeItem(item, VisibleNames(st.maps)) ==> OneEach(CheckItem(item, st).value.maps)
    ensures VisibleNames(CheckItem(item, st).value.maps) == VisibleNames(st.maps) + DirectNames([item])
    decreases item, 2
  {
    ItemGrows(item, st);
    match item {
      case Declaration(x, _) =>
        assert DirectNames([item]) == {x} by { assert [item][0].name == x; }
        DeclareOnce(st, x);
        assert ItemReaches(item, st, Declare(st, x));
      case Statement(s) =>
        assert DirectNames([item]) == {};
        StmtShares(s, st);
    }
  }

  lemma {:induction false} FirstShares(items: seq<BlockItem>, st: ScopeState)
    requires items != [] && CheckItem(items[0], st).Some?
    ensures (forall at :: ItemsReach(items, st, at) ==> OneEach(at.maps)) <==>
      && (forall at :: ItemReaches(items[0], st, at) ==> OneEach(at.maps))
      && (forall at :: ItemsReach(items[1..], CheckItem(items[0], st).value, at) ==> OneEach(at.maps))
  {
    if forall at :: ItemsReach(items, st, at) ==> OneEach(at.maps) {
      forall at | ItemReaches(items[0], st, at) ensures OneEach(at.maps) { assert ItemsReach(items, st, at); }
      forall at | ItemsReach(items[1..], CheckItem(items[0], st).value, at) ensures OneEach(at.maps) {
        assert ItemsReach(items, st, at);
      }
    }
  }

  /** In an accepted function every name means one variable, wherever it is looked up, exactly when nothing is hidden. */
  lemma OneNameOneVariable(f: Function)
    requires CheckFunction(f).Some?
    ensures ShadowFree(f.body, {}) <==>
            forall at :: ItemsReach(f.body, ScopeState([map[], map[]], 0), at) ==> OneEach(at.maps)
  {
    var empty: ScopeMap := map[];
    assert [] + [empty] == [empty] && [empty] + [empty] == [empty, empty];
    assert VisibleNames([empty, empty]) == {};
    ItemsShare(f.body, ScopeState([empty, empty], 0));
  }
}
