/** Running labelled code. */
module Flow {
  // Execution of labelled instruction lists, for any instruction set.
  //
  // A machine says what one instruction does to the state (`step`), which label an
  // instruction places (`labelOf`) and which label it may jump to (`targetOf`).  The
  // same definitions serve the TACKY lists, the assembly IR and the printed
  // assembly, so a translation between two of them is related by one simulation
  // theorem.

  import opened Options
  import opened Names

  datatype Outcome = Returned(value: int) | Fault | Stuck | OutOfSteps

  datatype Control<S> = Next(s: S) | Goto(dest: LabelName, s: S) | Halt(out: Outcome)

  datatype Machine<!I, !S> = Machine(
    step: (I, S) -> Control<S>,
    labelOf: I -> Option<LabelName>,
    targetOf: I -> Option<LabelName>)

  // ----- running a whole list by program counter -----

  /** Where `name` is placed for the first time; |code| when it is not placed. */
  function IndexOf<I, S>(m: Machine<I, S>, code: seq<I>, name: LabelName): (n: nat)
    ensures n <= |code|
  {
    if code == [] || m.labelOf(code[0]) == Some(name) then 0 else 1 + IndexOf(m, code[1..], name)
  }

  /** At most `fuel` steps from position `pc`; a jump may go anywhere in the list. */
  function Run<I, S>(m: Machine<I, S>, code: seq<I>, pc: nat, s: S, fuel: nat): Outcome
    decreases fuel
  {
    if pc >= |code| then Stuck
    else if fuel == 0 then OutOfSteps
    else
      match m.step(code[pc], s)
      case Next(s') => Run(m, code, pc + 1, s', fuel - 1)
      case Halt(out) => out
      case Goto(name, s') => Run(m, code, IndexOf(m, code, name), s', fuel - 1)
  }

  // ----- running the rest of a list: every jump goes forward -----

  datatype List<T> = Nil | Cons(head: T, tail: List<T>)

  function FromSeq<T>(s: seq<T>): List<T> {
    if s == [] then Nil else Cons(s[0], FromSeq(s[1..]))
  }

  function ToSeq<T>(l: List<T>): seq<T> {
    match l
    case Nil => []
    case Cons(x, rest) => [x] + ToSeq(rest)
  }

  lemma {:induction false} FromToSeq<T>(l: List<T>)
    ensures FromSeq(ToSeq(l)) == l
  {
    if l.Cons? {
      assert ToSeq(l)[1..] == ToSeq(l.tail);
      FromToSeq(l.tail);
    }
  }

  /** The part of the list that starts at the first placement of `name`. */
  function Suffix<I, S>(m: Machine<I, S>, code: List<I>, name: LabelName): (rest: List<I>)
    ensures rest == code || rest < code
  {
    match code
    case Nil => Nil
    case Cons(i, rest) => if m.labelOf(i) == Some(name) then code else Suffix(m, rest, name)
  }

  function Exec<I, S>(m: Machine<I, S>, code: List<I>, s: S): Outcome {
    match code
    case Nil => Stuck
    case Cons(i, rest) =>
      var c := m.step(i, s);
      if c.Next? then Exec(m, rest, c.s)
      else if c.Goto? then Exec(m, Suffix(m, rest, c.dest), c.s)
      else c.out
  }

  // ----- well-formed control flow -----

  /** A step only ever jumps to the declared target. */
  ghost predicate Honest<I(!new), S(!new)>(m: Machine<I, S>) {
    forall i: I, s: S :: m.step(i, s).Goto? ==> m.targetOf(i) == Some(m.step(i, s).dest)
  }

  predicate Places<I, S>(m: Machine<I, S>, code: List<I>, name: LabelName) {
    code.Cons? && (m.labelOf(code.head) == Some(name) || Places(m, code.tail, name))
  }

  /** No label is placed twice and every jump goes to a label placed strictly later. */
  predicate Forward<I, S>(m: Machine<I, S>, code: List<I>) {
    code.Cons? ==>
      && Forward(m, code.tail)
      && (m.labelOf(code.head).Some? ==> !Places(m, code.tail, m.labelOf(code.head).value))
      && (m.targetOf(code.head).Some? ==> Places(m, code.tail, m.targetOf(code.head).value))
  }

  /** The two readings of a jump: forward in the rest of the list, or by position in the whole list. */
  lemma {:induction false} JumpAgrees<I, S>(m: Machine<I, S>, code: seq<I>, from: nat, name: LabelName)
    requires from <= |code| && Places(m, FromSeq(code[from..]), name)
    requires forall j :: 0 <= j < from ==> m.labelOf(code[j]) != Some(name)
    ensures from <= IndexOf(m, code, name) < |code|
    ensures Suffix(m, FromSeq(code[from..]), name) == FromSeq(code[IndexOf(m, code, name)..])
    decreases |code| - from
  {
    assert code[from..][1..] == code[from + 1..];
    if m.labelOf(code[from]) == Some(name) {
      IndexOfIs(m, code, name, from);
    } else {
      JumpAgrees(m, code, from + 1, name);
    }
  }

  lemma {:induction false} IndexOfIs<I, S>(m: Machine<I, S>, code: seq<I>, name: LabelName, k: nat)
    requires k < |code| && m.labelOf(code[k]) == Some(name)
    requires forall j :: 0 <= j < k ==> m.labelOf(code[j]) != Some(name)
    ensures IndexOf(m, code, name) == k
  {
    if k > 0 {
      assert m.labelOf(code[0]) != Some(name);
      IndexOfIs(m, code[1..], name, k - 1);
    }
  }

  /** In a well-formed list a label placed after position `from` is placed nowhere before it. */
  lemma {:induction false} LabelsBefore<I, S>(m: Machine<I, S>, code: seq<I>, from: nat, name: LabelName)
    requires Forward(m, FromSeq(code)) && from <= |code| && Places(m, FromSeq(code[from..]), name)
    ensures Places(m, FromSeq(code), name)
    ensures forall j :: 0 <= j < from ==> m.labelOf(code[j]) != Some(name)
    decreases from
  {
    if from == 0 {
      assert code[0..] == code;
    } else {
      assert code[1..][from - 1..] == code[from..];
      LabelsBefore(m, code[1..], from - 1, name);
      forall j | 0 <= j < from ensures m.labelOf(code[j]) != Some(name) {
        if j > 0 { assert code[1..][j - 1] == code[j]; }
      }
    }
  }

  lemma {:induction false} ForwardAt<I, S>(m: Machine<I, S>, code: seq<I>, pc: nat)
    requires Forward(m, FromSeq(code)) && pc <= |code|
    ensures Forward(m, FromSeq(code[pc..]))
  {
    if pc == 0 {
      assert code[0..] == code;
    } else {
      assert code[1..][pc - 1..] == code[pc..];
      ForwardAt(m, code[1..], pc - 1);
    }
  }

  /** A well-formed list halts: as many steps as instructions left are enough, and every jump is a forward one. */
  lemma {:induction false} RunIsExec<I(!new), S(!new)>(m: Machine<I, S>, code: seq<I>, pc: nat, s: S, fuel: nat)
    requires Honest(m) && Forward(m, FromSeq(code)) && pc <= |code| <= pc + fuel
    ensures Run(m, code, pc, s, fuel) == Exec(m, FromSeq(code[pc..]), s)
    decreases fuel
  {
    if pc < |code| {
      var c := m.step(code[pc], s);
      assert code[pc..][1..] == code[pc + 1..];
      if c.Next? {
        RunIsExec(m, code, pc + 1, c.s, fuel - 1);
      } else if c.Goto? {
        ForwardAt(m, code, pc);
        LabelsBefore(m, code, pc + 1, c.dest);
        JumpAgrees(m, code, pc + 1, c.dest);
        RunIsExec(m, code, IndexOf(m, code, c.dest), c.s, fuel - 1);
      }
    }
  }

  // ----- translating one instruction into a sequence -----

  function Prepend<I>(b: seq<I>, rest: List<I>): List<I> {
    if b == [] then rest else Cons(b[0], Prepend(b[1..], rest))
  }

  function Flatten<I, J>(tr: I -> seq<J>, code: List<I>): List<J> {
    match code
    case Nil => Nil
    case Cons(i, rest) => Prepend(tr(i), Flatten(tr, rest))
  }

  /** One pass through a short sequence: its first jump or halt ends it. */
  function Block<I, S>(m: Machine<I, S>, b: seq<I>, s: S): Control<S> {
    if b == [] then Next(s)
    else
      var c := m.step(b[0], s);
      if c.Next? then Block(m, b[1..], c.s) else c
  }

  /** `tr(i)` places exactly the label of `i`, as a single instruction, and jumps only where `i` does. */
  ghost predicate KeepsLabels<I, S, J, T>(m: Machine<I, S>, n: Machine<J, T>, tr: I -> seq<J>, i: I) {
    if m.labelOf(i).Some? then
      m.targetOf(i) == None && |tr(i)| == 1 && n.labelOf(tr(i)[0]) == m.labelOf(i) && n.targetOf(tr(i)[0]) == None
    else
      forall k :: 0 <= k < |tr(i)| ==>
        n.labelOf(tr(i)[k]) == None && (n.targetOf(tr(i)[k]).Some? ==> n.targetOf(tr(i)[k]) == m.targetOf(i))
  }

  /** Running `tr(i)` does to the related state what one step of `i` does. */
  ghost predicate Matches<I, S, J, T>(m: Machine<I, S>, n: Machine<J, T>, tr: I -> seq<J>, rel: (S, T) -> bool,
                                      i: I, s: S, t: T) {
    match (m.step(i, s), Block(n, tr(i), t))
    case (Next(s'), Next(t')) => rel(s', t')
    case (Goto(x, s'), Goto(y, t')) => x == y && rel(s', t')
    case (Halt(o), Halt(p)) => o == p
    case _ => false
  }

  predicate All<I>(code: List<I>, p: I -> bool) {
    code.Cons? ==> p(code.head) && All(code.tail, p)
  }

  lemma {:induction false} SuffixAll<I, S>(m: Machine<I, S>, code: List<I>, name: LabelName, p: I -> bool)
    requires All(code, p)
    ensures All(Suffix(m, code, name), p)
  {
    if code.Cons? && m.labelOf(code.head) != Some(name) {
      SuffixAll(m, code.tail, name, p);
    }
  }

  lemma {:induction false} SuffixSkips<I, S>(m: Machine<I, S>, b: seq<I>, rest: List<I>, name: LabelName)
    requires forall k :: 0 <= k < |b| ==> m.labelOf(b[k]) != Some(name)
    ensures Suffix(m, Prepend(b, rest), name) == Suffix(m, rest, name)
  {
    if b != [] {
      assert m.labelOf(b[0]) != Some(name);
      SuffixSkips(m, b[1..], rest, name);
    }
  }

  lemma {:induction false} ExecBlock<I, S>(m: Machine<I, S>, b: seq<I>, rest: List<I>, s: S)
    requires |b| <= 1 || forall k :: 0 <= k < |b| ==> m.labelOf(b[k]) == None
    ensures var c := Block(m, b, s);
      Exec(m, Prepend(b, rest), s) ==
      if c.Next? then Exec(m, rest, c.s) else if c.Goto? then Exec(m, Suffix(m, rest, c.dest), c.s) else c.out
  {
    if b != [] {
      var c := m.step(b[0], s);
      if c.Next? {
        ExecBlock(m, b[1..], rest, c.s);
      } else if c.Goto? {
        SuffixSkips(m, b[1..], rest, c.dest);
      }
    }
  }

  /** The instructions satisfying p keep their labels under tr. */
  ghost predicate LabelsKept<I(!new), S, J, T>(m: Machine<I, S>, n: Machine<J, T>, tr: I -> seq<J>, p: I -> bool) {
    forall i :: p(i) ==> KeepsLabels(m, n, tr, i)
  }

  lemma {:induction false} SuffixFlatten<I(!new), S, J, T>(m: Machine<I, S>, n: Machine<J, T>, tr: I -> seq<J>,
                                                           p: I -> bool, code: List<I>, name: LabelName)
    requires LabelsKept(m, n, tr, p) && All(code, p)
    ensures Suffix(n, Flatten(tr, code), name) == Flatten(tr, Suffix(m, code, name))
  {
    if code.Cons? {
      var i := code.head;
      assert KeepsLabels(m, n, tr, i);
      if m.labelOf(i) != Some(name) {
        SuffixFlatten(m, n, tr, p, code.tail, name);
        SuffixSkips(n, tr(i), Flatten(tr, code.tail), name);
      }
    }
  }

  /** If every instruction is matched by its translation, the translated list has the same outcome. */
  lemma {:induction false} Simulation<I(!new), S(!new), J(!new), T(!new)>(
      m: Machine<I, S>, n: Machine<J, T>, tr: I -> seq<J>, rel: (S, T) -> bool, p: I -> bool, code: List<I>, s: S, t: T)
    requires LabelsKept(m, n, tr, p) && All(code, p)
    requires forall i, s', t' :: p(i) && rel(s', t') ==> Matches(m, n, tr, rel, i, s', t')
    requires rel(s, t)
    ensures Exec(n, Flatten(tr, code), t) == Exec(m, code, s)
    decreases code
  {
    if code.Cons? {
      var i, rest := code.head, code.tail;
      assert KeepsLabels(m, n, tr, i) && Matches(m, n, tr, rel, i, s, t);
      ExecBlock(n, tr(i), Flatten(tr, rest), t);
      var c := m.step(i, s);
      if c.Next? {
        Simulation(m, n, tr, rel, p, rest, c.s, Block(n, tr(i), t).s);
      } else if c.Goto? {
        SuffixFlatten(m, n, tr, p, rest, c.dest);
        SuffixAll(m, rest, c.dest, p);
        Simulation(m, n, tr, rel, p, Suffix(m, rest, c.dest), c.s, Block(n, tr(i), t).s);
      }
    }
  }

  lemma {:induction false} PlacesPrepend<I, S>(m: Machine<I, S>, b: seq<I>, rest: List<I>, name: LabelName)
    ensures Places(m, Prepend(b, rest), name) <==>
            (exists k :: 0 <= k < |b| && m.labelOf(b[k]) == Some(name)) || Places(m, rest, name)
  {
    if b != [] {
      PlacesPrepend(m, b[1..], rest, name);
      assert forall k :: 0 < k < |b| ==> b[1..][k - 1] == b[k];
    }
  }

  lemma {:induction false} PlacesFlatten<I(!new), S, J, T>(m: Machine<I, S>, n: Machine<J, T>, tr: I -> seq<J>,
                                                           p: I -> bool, code: List<I>, name: LabelName)
    requires LabelsKept(m, n, tr, p) && All(code, p)
    ensures Places(n, Flatten(tr, code), name) <==> Places(m, code, name)
  {
    if code.Cons? {
      assert KeepsLabels(m, n, tr, code.head);
      PlacesFlatten(m, n, tr, p, code.tail, name);
      PlacesPrepend(n, tr(code.head), Flatten(tr, code.tail), name);
    }
  }

  lemma {:induction false} ForwardPrepend<I, S>(m: Machine<I, S>, b: seq<I>, rest: List<I>)
    requires Forward(m, rest)
    requires |b| <= 1 || forall k :: 0 <= k < |b| ==> m.labelOf(b[k]) == None
    requires forall k :: 0 <= k < |b| && m.labelOf(b[k]).Some? ==> !Places(m, rest, m.labelOf(b[k]).value)
    requires forall k :: 0 <= k < |b| && m.targetOf(b[k]).Some? ==> Places(m, rest, m.targetOf(b[k]).value)
    ensures Forward(m, Prepend(b, rest))
  {
    if b != [] {
      ForwardPrepend(m, b[1..], rest);
      if m.targetOf(b[0]).Some? { PlacesPrepend(m, b[1..], rest, m.targetOf(b[0]).value); }
    }
  }

  /** Well-formed control flow survives the translation. */
  lemma {:induction false} ForwardFlatten<I(!new), S, J, T>(m: Machine<I, S>, n: Machine<J, T>, tr: I -> seq<J>,
                                                            p: I -> bool, code: List<I>)
    requires LabelsKept(m, n, tr, p) && All(code, p) && Forward(m, code)
    ensures Forward(n, Flatten(tr, code))
  {
    if code.Cons? {
      var i, rest := code.head, Flatten(tr, code.tail);
      assert KeepsLabels(m, n, tr, i);
      ForwardFlatten(m, n, tr, p, code.tail);
      if m.labelOf(i).Some? { PlacesFlatten(m, n, tr, p, code.tail, m.labelOf(i).value); }
      if m.targetOf(i).Some? { PlacesFlatten(m, n, tr, p, code.tail, m.targetOf(i).value); }
      ForwardPrepend(n, tr(i), rest);
    }
  }
}
