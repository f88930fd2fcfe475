/** Parser and grammar. */
module ParserCorrect {
  // Precedence climbing decides the stratified grammar: a null-free tree is the result of
  // `parse_expr(m)` exactly when it is a derivation at level m of the tokens consumed and
  // no operator of level m or more follows.

  import opened Options
  import opened Ast
  import opened Flow
  import opened Grammar
  import opened Parsing
  import K = Tokens

  /** An operator after the tree binds to its last operand when it is at this level or above. */
  function LastLevel(t: Tree): int {
    match t
    case TBinary(op, _, _) => Level(op) + 1
    case TAssign(_, _) => ASSIGNMENT_LEVEL
    case TCond(_, _, _) => CONDITIONAL_LEVEL
    case _ => PRIMARY
  }

  function NextLevel(ts: Input): int { Precedence(Kind(ts)) }

  /** The input is the tokens of a derivation and then `rest`, which does not go on with the last operand. */
  ghost predicate Derives(t: Tree, ts: Input, rest: Input) {
    Stratified(t) && ts == Emit(t, rest) && NextLevel(rest) < LastLevel(t)
  }

  // ----- soundness -----

  lemma {:induction false} FactorSound(ts: Input)
    ensures var r := Factor(ts); r.Ok? && NoNull(r.value) ==> Derives(r.value, ts, r.rest) && Top(r.value) == PRIMARY
    decreases Size(ts), 0
  {
    if ts.Cons? && ts.head.Symbol? {
      var k := ts.head.kind;
      if UnaryOf(k).Some? {
        FactorSound(ts.tail);
        UnaryTokenOf(k, UnaryOf(k).value);
      } else if k == K.OpenParenthesis {
        ClimbSound(ts.tail, 0);
      }
    }
  }

  lemma {:induction false} ClimbSound(ts: Input, m: nat)
    requires m < PRIMARY
    ensures var r := Climb(ts, m);
      r.Ok? && NoNull(r.value) ==> Derives(r.value, ts, r.rest) && Top(r.value) >= m && NextLevel(r.rest) < m
    decreases Size(ts), 2
  {
    FactorSound(ts);
    var l := Factor(ts);
    if l.Ok? && !l.value.TNull? { LoopSound(ts, l.rest, m, l.value); }
  }

  lemma {:induction false} LoopSound(start: Input, ts: Input, m: nat, left: Tree)
    requires !left.TNull? && m < PRIMARY
    requires NoNull(left) ==> Derives(left, start, ts) && Top(left) >= m
    ensures var r := Loop(ts, m, left);
      r.Ok? && NoNull(r.value) ==> Derives(r.value, start, r.rest) && Top(r.value) >= m && NextLevel(r.rest) < m
    decreases Size(ts), 1
  {
    if NextLevel(ts) >= m {
      StepSound(start, ts, left);
      var r := Step(ts, left);
      if r.Ok? { LoopSound(start, r.rest, m, r.value); }
    }
  }

  lemma BinaryJoin(op: BinaryOpType, l: Tree, r: Tree, start: Input, ts: Input, rest: Input)
    requires Derives(l, start, Cons(Symbol(BinaryToken(op)), ts)) && Derives(r, ts, rest)
    requires Top(r) > Level(op) && NextLevel(rest) <= Level(op)
    ensures Derives(TBinary(op, l, r), start, rest)
  {}

  lemma AssignJoin(l: Tree, r: Tree, start: Input, ts: Input, rest: Input)
    requires Derives(l, start, Cons(Symbol(K.Assign), ts)) && Derives(r, ts, rest) && NextLevel(rest) < ASSIGNMENT_LEVEL
    ensures Derives(TAssign(l, r), start, rest)
  {}

  lemma ConditionalJoin(c: Tree, a: Tree, b: Tree, start: Input, ts: Input, rest: Input)
    requires Derives(c, start, Cons(Symbol(K.QuestionMark), ts)) && ts == Emit(a, Cons(Symbol(K.Colon), Emit(b, rest)))
    requires Stratified(a) && Fits(b, CONDITIONAL_LEVEL) && NextLevel(rest) < CONDITIONAL_LEVEL
    ensures Derives(TCond(c, a, b), start, rest)
  {}

  /** A null-free result is a derivation with its top operator at this level. */
  ghost predicate SoundStep(r: Parsed<Tree>, start: Input, level: int) {
    r.Ok? && NoNull(r.value) ==> Derives(r.value, start, r.rest) && Top(r.value) == level
  }

  lemma {:induction false} StepSound(start: Input, ts: Input, left: Tree)
    requires !left.TNull? && NextLevel(ts) >= 0
    requires NoNull(left) ==> Derives(left, start, ts)
    ensures SoundStep(Step(ts, left), start, NextLevel(ts))
    decreases Size(ts), 0
  {
    var k := Kind(ts);
    if k == K.Assign {
      AssignSound(start, ts, left);
    } else if k == K.QuestionMark {
      QuestionSound(start, ts, left);
    } else if OperatorOf(k).Some? {
      BinarySound(start, ts, left, OperatorOf(k).value);
    }
  }

  lemma {:induction false} AssignSound(start: Input, ts: Input, left: Tree)
    requires !left.TNull? && Kind(ts) == K.Assign && (NoNull(left) ==> Derives(left, start, ts))
    ensures SoundStep(Step(ts, left), start, ASSIGNMENT_LEVEL)
    decreases Size(ts), 0, 0
  {
    var r := Climb(ts.tail, ASSIGNMENT_LEVEL);
    ClimbSound(ts.tail, ASSIGNMENT_LEVEL);
    if r.Ok? && NoNull(r.value) && NoNull(left) { AssignJoin(left, r.value, start, ts.tail, r.rest); }
  }

  lemma {:induction false} QuestionSound(start: Input, ts: Input, left: Tree)
    requires !left.TNull? && Kind(ts) == K.QuestionMark && (NoNull(left) ==> Derives(left, start, ts))
    ensures SoundStep(Step(ts, left), start, CONDITIONAL_LEVEL)
    decreases Size(ts), 0, 0
  {
    BranchesSound(ts.tail);
    QuestionJoin(start, ts, left, Branches(ts.tail));
  }

  lemma {:induction false} QuestionJoin(start: Input, ts: Input, left: Tree, b: Parsed<(Tree, Tree)>)
    requires !left.TNull? && Kind(ts) == K.QuestionMark && (NoNull(left) ==> Derives(left, start, ts))
    requires b == Branches(ts.tail) && SoundBranches(b, ts.tail)
    ensures SoundStep(Step(ts, left), start, CONDITIONAL_LEVEL)
  {
    if b.Ok? && NoNull(left) && NoNull(b.value.0) && NoNull(b.value.1) {
      ConditionalJoin(left, b.value.0, b.value.1, start, ts.tail, b.rest);
    }
  }

  lemma {:induction false} BinarySound(start: Input, ts: Input, left: Tree, op: BinaryOpType)
    requires !left.TNull? && OperatorOf(Kind(ts)) == Some(op) && (NoNull(left) ==> Derives(left, start, ts))
    ensures Precedence(Kind(ts)) == Level(op) && SoundStep(Step(ts, left), start, Level(op))
    decreases Size(ts), 0, 0
  {
    OperatorToken(Kind(ts), op);
    var r := Climb(ts.tail, Level(op) + 1);
    ClimbSound(ts.tail, Level(op) + 1);
    if r.Ok? && NoNull(r.value) && NoNull(left) { BinaryJoin(op, left, r.value, start, ts.tail, r.rest); }
  }

  ghost predicate SoundBranches(r: Parsed<(Tree, Tree)>, ts: Input) {
    r.Ok? && NoNull(r.value.0) && NoNull(r.value.1) ==>
      && Stratified(r.value.0) && Fits(r.value.1, CONDITIONAL_LEVEL) && NextLevel(r.rest) < CONDITIONAL_LEVEL
      && ts == Emit(r.value.0, Cons(Symbol(K.Colon), Emit(r.value.1, r.rest)))
  }

  lemma {:induction false} BranchesSound(ts: Input)
    ensures SoundBranches(Branches(ts), ts)
    decreases Size(ts), 3
  {
    ClimbSound(ts, 0);
    var a := Expect(Climb(ts, 0), K.Colon);
    if a.Ok? { ClimbSound(a.rest, CONDITIONAL_LEVEL); }
  }

  // ----- completeness -----

  lemma {:induction false} FactorComplete(t: Tree, rest: Input)
    requires Stratified(t) && Top(t) == PRIMARY
    ensures Factor(Emit(t, rest)) == Ok(t, rest)
    decreases t, 1
  {
    match t {
      case TUnary(op, a) =>
        UnaryTokenOf(UnaryToken(op), op);
        FactorComplete(a, rest);
      case TParen(a) => ClimbComplete(a, Cons(Symbol(K.CloseParenthesis), rest), 0);
      case _ =>
    }
  }

  /** Reading a derivation brings the loop to the end of it. */
  lemma {:induction false} ReachesLoop(t: Tree, rest: Input, m: nat)
    requires Stratified(t) && Top(t) >= m && NextLevel(rest) < LastLevel(t)
    ensures Climb(Emit(t, rest), m) == Loop(rest, m, t)
    decreases t, 2
  {
    if t.TBinary? {
      BinaryReaches(t.binop, t.left, t.right, rest, m);
    } else if t.TAssign? {
      AssignReaches(t.left, t.right, rest, m);
    } else if t.TCond? {
      ConditionalReaches(t.cond, t.yes, t.no, rest, m);
    } else {
      FactorComplete(t, rest);
    }
  }

  lemma {:induction false} BinaryReaches(op: BinaryOpType, l: Tree, r: Tree, rest: Input, m: nat)
    requires Stratified(TBinary(op, l, r)) && Level(op) >= m && NextLevel(rest) <= Level(op)
    ensures Climb(Emit(TBinary(op, l, r), rest), m) == Loop(rest, m, TBinary(op, l, r))
    decreases TBinary(op, l, r), 0
  {
    var ts := Emit(r, rest);
    BinaryParts(op, l, r, ts, rest);
    ReachesLoop(l, Cons(Symbol(BinaryToken(op)), ts), m);
    ClimbComplete(r, rest, Level(op) + 1);
    BinaryRound(op, l, r, ts, rest, m);
  }

  lemma {:induction false} BinaryParts(op: BinaryOpType, l: Tree, r: Tree, ts: Input, rest: Input)
    requires Stratified(TBinary(op, l, r)) && ts == Emit(r, rest)
    ensures Fits(l, Level(op)) && Fits(r, Level(op) + 1) && !l.TNull? && !r.TNull?
    ensures NextLevel(Cons(Symbol(BinaryToken(op)), ts)) == Level(op) < LastLevel(l)
    ensures Emit(TBinary(op, l, r), rest) == Emit(l, Cons(Symbol(BinaryToken(op)), ts))
  {}

  lemma {:induction false} BinaryRound(op: BinaryOpType, l: Tree, r: Tree, ts: Input, rest: Input, m: nat)
    requires !l.TNull? && !r.TNull? && Level(op) >= m && Climb(ts, Level(op) + 1) == Ok(r, rest)
    ensures Loop(Cons(Symbol(BinaryToken(op)), ts), m, l) == Loop(rest, m, TBinary(op, l, r))
  {
    var more := Cons(Symbol(BinaryToken(op)), ts);
    OperatorToken(BinaryToken(op), op);
    assert Step(more, l) == Ok(TBinary(op, l, r), rest);
  }

  lemma {:induction false} AssignReaches(l: Tree, r: Tree, rest: Input, m: nat)
    requires Stratified(TAssign(l, r)) && ASSIGNMENT_LEVEL >= m && NextLevel(rest) < ASSIGNMENT_LEVEL
    ensures Climb(Emit(TAssign(l, r), rest), m) == Loop(rest, m, TAssign(l, r))
    decreases TAssign(l, r), 0
  {
    var more := Cons(Symbol(K.Assign), Emit(r, rest));
    ReachesLoop(l, more, m);
    ClimbComplete(r, rest, ASSIGNMENT_LEVEL);
    assert Step(more, l) == Ok(TAssign(l, r), rest);
  }

  lemma {:induction false} ConditionalReaches(c: Tree, a: Tree, b: Tree, rest: Input, m: nat)
    requires Stratified(TCond(c, a, b)) && CONDITIONAL_LEVEL >= m && NextLevel(rest) < CONDITIONAL_LEVEL
    ensures Climb(Emit(TCond(c, a, b), rest), m) == Loop(rest, m, TCond(c, a, b))
    decreases TCond(c, a, b), 0
  {
    var more := Cons(Symbol(K.Colon), Emit(b, rest));
    ReachesLoop(c, Cons(Symbol(K.QuestionMark), Emit(a, more)), m);
    ClimbComplete(a, more, 0);
    ClimbComplete(b, rest, CONDITIONAL_LEVEL);
    assert Branches(Emit(a, more)) == Ok((a, b), rest);
    ConditionalRound(c, a, b, Emit(a, more), rest, m);
  }

  lemma {:induction false} ConditionalRound(c: Tree, a: Tree, b: Tree, ts: Input, rest: Input, m: nat)
    requires !c.TNull? && CONDITIONAL_LEVEL >= m && Branches(ts) == Ok((a, b), rest)
    ensures Loop(Cons(Symbol(K.QuestionMark), ts), m, c) == Loop(rest, m, TCond(c, a, b))
  {
    assert Step(Cons(Symbol(K.QuestionMark), ts), c) == Ok(TCond(c, a, b), rest);
  }

  lemma {:induction false} ClimbComplete(t: Tree, rest: Input, m: nat)
    requires Fits(t, m) && NextLevel(rest) < m
    ensures Climb(Emit(t, rest), m) == Ok(t, rest)
    decreases t, 3
  {
    ReachesLoop(t, rest, m);
  }

  // ----- the parser and the grammar -----

  /** parse_expr(m) returns a null-free tree exactly when the tokens are a derivation at level m, as long as possible. */
  lemma ParsesExactly(ts: Input, m: nat, t: Tree, rest: Input)
    requires m < PRIMARY
    ensures Climb(ts, m) == Ok(t, rest) && NullFree(Erase(t)) <==>
            Fits(t, m) && ts == Emit(t, rest) && NextLevel(rest) < m
  {
    NullFreeErase(t);
    ClimbSound(ts, m);
    if Fits(t, m) && ts == Emit(t, rest) && NextLevel(rest) < m {
      StratifiedNoNull(t);
      ClimbComplete(t, rest, m);
    }
  }

  /** The grammar is unambiguous. */
  lemma Unambiguous(m: nat, t: Tree, r: Input, u: Tree, s: Input)
    requires Fits(t, m) && NextLevel(r) < m && Fits(u, m) && NextLevel(s) < m && Emit(t, r) == Emit(u, s)
    ensures t == u && r == s
  {
    ClimbComplete(t, r, m);
    ClimbComplete(u, s, m);
  }
}
