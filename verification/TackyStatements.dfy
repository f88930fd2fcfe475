/** Statements in TACKY. */
module TackyStatements {
  // The list generated for a function runs to the same outcome as the tree.

  import opened Ast
  import opened Names
  import opened Flow
  import opened FlatSemantics
  import opened TackyGen
  import opened TackyCorrect
  import T = Tacky

  lemma {:induction false} SuffixSkipsStmt(s: Stmt, t: nat, l: nat, k: Code, name: LabelName)
    requires !(l <= name.number < l + LabelsOfStmt(s))
    ensures Suffix(T.M, EmitStmt(s, t, l, k), name) == Suffix(T.M, k, name)
    decreases s, 1
  {
    match s {
      case Return(e) => SuffixSkipsEmit(e, t, l, Cons(T.Return(ValOf(e, t)), k), name);
      case If(_, _, _) => SuffixSkipsIf(s, t, l, k, name);
      case Expression(e) => SuffixSkipsEmit(e, t, l, k, name);
      case Compound(items) => SuffixSkipsItems(items, t, l, k, name);
      case Empty =>
    }
  }

  lemma {:induction false} SuffixSkipsIf(s: Stmt, t: nat, l: nat, k: Code, name: LabelName)
    requires s.If? && !(l <= name.number < l + LabelsOfStmt(s))
    ensures Suffix(T.M, EmitIf(s, t, l, k), name) == Suffix(T.M, k, name)
    decreases s, 0, 1
  {
    var u, n := t + TempsOf(s.test), l + LabelsOf(s.test);
    var exit := if s.els.Some? then LabelName(IfElse, n + 1) else LabelName(IfEnd, n);
    SuffixSkipsEmit(s.test, t, l, Cons(T.JumpIfZero(ValOf(s.test, t), exit), EmitBranches(s, u, n, k)), name);
    SuffixSkipsBranches(s, u, n, k, name);
  }

  lemma {:induction false} SuffixSkipsBranches(s: Stmt, u: nat, n: nat, k: Code, name: LabelName)
    requires s.If?
    requires !(n <= name.number < n + 1 + LabelsOfStmt(s.thn) + if s.els.Some? then 1 + LabelsOfStmt(s.els.value) else 0)
    ensures Suffix(T.M, EmitBranches(s, u, n, k), name) == Suffix(T.M, k, name)
    decreases s, 0, 0
  {
    var end := Cons(T.Label(LabelName(IfEnd, n)), k);
    if s.els.Some? {
      var v, m := u + TempsOfStmt(s.thn), n + 2 + LabelsOfStmt(s.thn);
      var k2 := EmitStmt(s.els.value, v, m, end);
      var k1 := Cons(T.Jump(LabelName(IfEnd, n)), Cons(T.Label(LabelName(IfElse, n + 1)), k2));
      SuffixSkipsStmt(s.thn, u, n + 2, k1, name);
      SuffixSkipsStmt(s.els.value, v, m, end, name);
      assert Suffix(T.M, k1, name) == Suffix(T.M, k2, name);
    } else {
      SuffixSkipsStmt(s.thn, u, n + 1, end, name);
    }
  }

  lemma {:induction false} SuffixSkipsItem(item: BlockItem, t: nat, l: nat, k: Code, name: LabelName)
    requires !(l <= name.number < l + LabelsOfItem(item))
    ensures Suffix(T.M, EmitItem(item, t, l, k), name) == Suffix(T.M, k, name)
    decreases item, 2
  {
    match item {
      case Declaration(x, init) =>
        if init != NullExpr { SuffixSkipsEmit(init, t, l, Cons(T.Copy(ValOf(init, t), Ident(x)), k), name); }
      case Statement(s) => SuffixSkipsStmt(s, t, l, k, name);
    }
  }

  lemma {:induction false} SuffixSkipsItems(items: seq<BlockItem>, t: nat, l: nat, k: Code, name: LabelName)
    requires !(l <= name.number < l + LabelsOfItems(items))
    ensures Suffix(T.M, EmitItems(items, t, l, k), name) == Suffix(T.M, k, name)
    decreases items, 0
  {
    if items != [] {
      var u, m := t + TempsOfItem(items[0]), l + LabelsOfItem(items[0]);
      SuffixSkipsItem(items[0], t, l, EmitItems(items[1..], u, m, k), name);
      SuffixSkipsItems(items[1..], u, m, k, name);
    }
  }

  /** From st, `code` does what the effect r asks for; if it falls through, it is in front of k in st'. */
  ghost predicate Performs(r: LEffect, code: Code, k: Code, st: T.Store, st': T.Store) {
    match r
    case LAbort => Exec(T.M, code, st) == Fault
    case LExit(v) => Exec(T.M, code, st) == Returned(v)
    case LFall(vars) => Exec(T.M, code, st) == Exec(T.M, k, st') && st'.vars == vars
  }

  lemma {:induction false} StmtRuns(s: Stmt, t: nat, l: nat, k: Code, st: T.Store) returns (st': T.Store)
    requires StmtAll(s, Good)
    ensures Performs(LateStmt(s, st.vars), EmitStmt(s, t, l, k), k, st, st')
    decreases s, 1
  {
    st' := st;
    match s {
      case Return(e) =>
        st' := ExprRuns(e, t, l, Cons(T.Return(ValOf(e, t)), k), st);
        var r := EvalLate(e, st.vars);
        if r.LDone? { HoldsReads(ValOf(e, t), r.o, r.st, st', t + TempsOf(e)); }
      case If(_, _, _) => st' := IfRuns(s, t, l, k, st);
      case Expression(e) => st' := ExprRuns(e, t, l, k, st);
      case Compound(items) => st' := ItemsRun(items, t, l, k, st);
      case Empty =>
    }
  }

  lemma {:induction false} IfRuns(s: Stmt, t: nat, l: nat, k: Code, st: T.Store) returns (st': T.Store)
    requires s.If? && StmtAll(s, Good)
    ensures Performs(LateStmt(s, st.vars), EmitIf(s, t, l, k), k, st, st')
    decreases s, 0, 1
  {
    var c := s.test;
    var u, n := t + TempsOf(c), l + LabelsOf(c);
    var end, other := LabelName(IfEnd, n), LabelName(IfElse, n + 1);
    var exit := if s.els.Some? then other else end;
    var k0 := EmitBranches(s, u, n, k);
    assert EmitIf(s, t, l, k) == Emit(c, t, l, Cons(T.JumpIfZero(ValOf(c, t), exit), k0));
    st' := ExprRuns(c, t, l, Cons(T.JumpIfZero(ValOf(c, t), exit), k0), st);
    var r := EvalLate(c, st.vars);
    if r.LDone? {
      HoldsReads(ValOf(c, t), r.o, r.st, st', u);
      if Read(r.o, r.st) != 0 {
        st' := ThenRuns(s, u, n, k, st');
      } else if s.els.Some? {
        st' := ElseRuns(s, u, n, k, st');
      } else {
        SuffixSkipsStmt(s.thn, u, n + 1, Cons(T.Label(end), k), end);
        assert Suffix(T.M, k0, end) == Cons(T.Label(end), k);
        assert Exec(T.M, Cons(T.Label(end), k), st') == Exec(T.M, k, st');
      }
    }
  }

  lemma {:induction false} ThenRuns(s: Stmt, u: nat, n: nat, k: Code, st: T.Store) returns (st': T.Store)
    requires s.If? && StmtAll(s, Good)
    ensures Performs(LateStmt(s.thn, st.vars), EmitBranches(s, u, n, k), k, st, st')
    decreases s, 0, 0
  {
    var name := LabelName(IfEnd, n);
    var end := Cons(T.Label(name), k);
    if s.els.Some? {
      var v, m := u + TempsOfStmt(s.thn), n + 2 + LabelsOfStmt(s.thn);
      var k2 := EmitStmt(s.els.value, v, m, end);
      var k1 := Cons(T.Label(LabelName(IfElse, n + 1)), k2);
      st' := StmtRuns(s.thn, u, n + 2, Cons(T.Jump(name), k1), st);
      SuffixSkipsStmt(s.els.value, v, m, end, name);
      assert Suffix(T.M, k1, name) == Suffix(T.M, k2, name) == end;
      assert Exec(T.M, Cons(T.Jump(name), k1), st') == Exec(T.M, end, st') == Exec(T.M, k, st');
    } else {
      st' := StmtRuns(s.thn, u, n + 1, end, st);
      assert Exec(T.M, end, st') == Exec(T.M, k, st');
    }
  }

  lemma {:induction false} ElseRuns(s: Stmt, u: nat, n: nat, k: Code, st: T.Store) returns (st': T.Store)
    requires s.If? && s.els.Some? && StmtAll(s, Good)
    ensures Performs(LateStmt(s.els.value, st.vars),
                     Suffix(T.M, EmitBranches(s, u, n, k), LabelName(IfElse, n + 1)), k, st, st')
    decreases s, 0, 0
  {
    var other := LabelName(IfElse, n + 1);
    var end := Cons(T.Label(LabelName(IfEnd, n)), k);
    var v, m := u + TempsOfStmt(s.thn), n + 2 + LabelsOfStmt(s.thn);
    var k2 := EmitStmt(s.els.value, v, m, end);
    var k1 := Cons(T.Jump(LabelName(IfEnd, n)), Cons(T.Label(other), k2));
    SuffixSkipsStmt(s.thn, u, n + 2, k1, other);
    assert Suffix(T.M, k1, other) == Cons(T.Label(other), k2);
    st' := StmtRuns(s.els.value, v, m, end, st);
    assert Exec(T.M, Cons(T.Label(other), k2), st) == Exec(T.M, k2, st);
    assert Exec(T.M, end, st') == Exec(T.M, k, st');
  }

  lemma {:induction false} ItemRuns(item: BlockItem, t: nat, l: nat, k: Code, st: T.Store) returns (st': T.Store)
    requires ItemAll(item, Good)
    ensures Performs(LateItem(item, st.vars), EmitItem(item, t, l, k), k, st, st')
    decreases item, 2
  {
    match item {
      case Declaration(x, init) =>
        st' := st;
        if init != NullExpr {
          st' := ExprRuns(init, t, l, Cons(T.Copy(ValOf(init, t), Ident(x)), k), st);
          var r := EvalLate(init, st.vars);
          if r.LDone? {
            HoldsReads(ValOf(init, t), r.o, r.st, st', t + TempsOf(init));
            st' := T.Put(st', Ident(x), Read(r.o, r.st));
          }
        }
      case Statement(s) => st' := StmtRuns(s, t, l, k, st);
    }
  }

  lemma {:induction false} ItemsRun(items: seq<BlockItem>, t: nat, l: nat, k: Code, st: T.Store) returns (st': T.Store)
    requires ItemsAll(items, Good)
    ensures Performs(LateItems(items, st.vars), EmitItems(items, t, l, k), k, st, st')
    decreases items, 0
  {
    st' := st;
    if items != [] {
      var u, m := t + TempsOfItem(items[0]), l + LabelsOfItem(items[0]);
      var k1 := EmitItems(items[1..], u, m, k);
      st' := ItemRuns(items[0], t, l, k1, st);
      if LateItem(items[0], st.vars).LFall? {
        st' := ItemsRun(items[1..], u, m, k, st');
      }
    }
  }

  /** TACKY generation preserves meaning: from any initial store the list has the outcome of the tree. */
  lemma FunctionRuns(f: Function, st: T.Store)
    requires ItemsAll(f.body, Good)
    ensures Exec(T.M, EmitFunction(f), st) == LateFunction(f, st.vars)
  {
    var end := Cons(T.Return(T.Constant(0)), Nil);
    var st' := ItemsRun(f.body, 0, 0, end, st);
    assert Exec(T.M, end, st') == Returned(0);
  }
}
