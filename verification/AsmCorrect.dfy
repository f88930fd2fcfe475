/** The back end, step by step. */
module AsmCorrect {
  // The back end keeps meaning, in three steps: selection (TACKY variables become
  // pseudo-registers), slot allocation (pseudo-registers become stack words) and
  // printing (every line can be encoded, through scratch registers where needed).

  import opened Options
  import opened Words
  import opened Names
  import opened Flow
  import opened Asm
  import opened CodeGen
  import T = Tacky
  import TackyControl

  // ----- words and bit patterns -----

  lemma WrapBits(x: int)
    ensures ToBits(Wrap(x)) == Mod32(x)
  {}

  lemma ToBitsShift(a: Word) returns (k: int)
    ensures ToBits(a) == a + k * 0x1_0000_0000
  {
    k := if a < 0 then 1 else 0;
  }

  lemma ArithBits(op: T.BinOp, a: Word, b: Word)
    requires op == T.ADD || op == T.SUBTRACT || op == T.MULTIPLY
    ensures T.BinaryResult(op, a, b).Some?
    ensures Arith(ConvertBinary(op), ToBits(b), ToBits(a)) == ToBits(T.BinaryResult(op, a, b).value)
  {
    var i := ToBitsShift(a);
    var j := ToBitsShift(b);
    match op
    case ADD =>
      ModUnique(ToBits(a) + ToBits(b), a + b, i + j);
      WrapBits(a + b);
    case SUBTRACT =>
      ModUnique(ToBits(a) - ToBits(b), a - b, i - j);
      WrapBits(a - b);
    case MULTIPLY => MulBits(a, b);
  }

  lemma UnaryBits(op: T.UnOp, a: Word)
    ensures op == T.COMPLEMENT ==> 0xffff_ffff - ToBits(a) == ToBits(T.UnaryResult(op, a))
    ensures op == T.NEGATION ==> Mod32(0 - ToBits(a)) == ToBits(T.UnaryResult(op, a))
  {
    var i := ToBitsShift(a);
    ModUnique(0 - ToBits(a), 0 - a, -i);
    WrapBits(0 - a);
  }

  /** `cdq` extends the sign of %eax, so the 64-bit dividend is the signed value of %eax. */
  lemma SignExtended(s: State)
    requires s.dx == if Negative(s.ax) then 0xffff_ffff else 0
    ensures Dividend(s) == Signed(s.ax)
  {}

  // ----- selection -----

  ghost predicate Agree(st: T.Store, s: State) {
    forall x: Name :: Plain(x) ==> GetCell(s.cells, Spell(x)) == ToBits(T.Get(st, x))
  }

  lemma AgreeReads(v: T.Val, st: T.Store, s: State)
    requires Agree(st, s) && T.PlainVal(v)
    ensures Read(ConvertVal(v), s) == ToBits(T.ValueOf(v, st))
  {}

  lemma AgreePut(st: T.Store, s: State, x: Name, w: Word, s': State)
    requires Agree(st, s) && Plain(x) && s'.cells == s.cells[Spell(x) := ToBits(w)]
    ensures Agree(T.Put(st, x, w), s')
  {
    forall y: Name | Plain(y) ensures GetCell(s'.cells, Spell(y)) == ToBits(T.Get(T.Put(st, x, w), y)) {
      assert GetCell(s.cells, Spell(y)) == ToBits(T.Get(st, y));
      if Spell(x) == Spell(y) { SpellInjective(x, y); }
    }
  }

  function Then(c: Control<State>, i: Instr): Control<State> { if c.Next? then Step(i, c.s) else c }

  lemma Blocks(a: Instr, b: Instr, c: Instr, d: Instr, s: State)
    ensures Block(M, [a], s) == Step(a, s)
    ensures Block(M, [a, b], s) == Then(Step(a, s), b)
    ensures Block(M, [a, b, c], s) == Then(Then(Step(a, s), b), c)
    ensures Block(M, [a, b, c, d], s) == Then(Then(Then(Step(a, s), b), c), d)
  {
    BlockCons(a, [], s);
    BlockCons(a, [b], s);
    BlockCons(a, [b, c], s);
    BlockCons(a, [b, c, d], s);
    var r := Step(a, s);
    if r.Next? {
      BlockCons(b, [], r.s);
      BlockCons(b, [c], r.s);
      BlockCons(b, [c, d], r.s);
      var q := Step(b, r.s);
      if q.Next? {
        BlockCons(c, [], q.s);
        BlockCons(c, [d], q.s);
        if Step(c, q.s).Next? { BlockCons(d, [], Step(c, q.s).s); }
      }
    }
  }

  lemma BlockCons(i: Instr, b: seq<Instr>, s: State)
    ensures Block(M, [i] + b, s) == if Step(i, s).Next? then Block(M, b, Step(i, s).s) else Step(i, s)
  {
    assert ([i] + b)[1..] == b;
  }

  /** The destination is not the second source, and no two names are spelled alike. */
  predicate Clear(i: T.Instr) { TackyControl.Separate(i) && T.PlainInstr(i) }

  ghost predicate Selected(i: T.Instr, st: T.Store, s: State) { Matches(T.M, M, Select, Agree, i, st, s) }

  /** A comparison, a zeroing move and set<cc> leave exactly 0 or 1. */
  lemma CompareAndSet(cc: CondCode, src: Operand, dst: Operand, x: Name, a: Word, b: Word, st: T.Store, s: State)
    requires Agree(st, s) && Plain(x) && Read(dst, s) == ToBits(a) && Read(src, s) == ToBits(b)
    ensures var c := Block(M, [Cmp(src, dst), Mov(Imm(0), ConvertName(x)), SetCC(cc, ConvertName(x))], s);
      c.Next? && Agree(T.Put(st, x, Truth(Relation(cc, a, b))), c.s)
  {
    Blocks(Cmp(src, dst), Mov(Imm(0), ConvertName(x)), SetCC(cc, ConvertName(x)), Ret, s);
    FlagsCompare(cc, ToBits(a), ToBits(b));
    var c := Block(M, [Cmp(src, dst), Mov(Imm(0), ConvertName(x)), SetCC(cc, ConvertName(x))], s);
    var w := Truth(Relation(cc, a, b));
    assert c.s.cells == s.cells[Spell(x) := 0][Spell(x) := ToBits(w)] == s.cells[Spell(x) := ToBits(w)];
    AgreePut(st, s, x, w, c.s);
  }

  lemma SelectedNot(i: T.Instr, st: T.Store, s: State)
    requires i.Unary? && i.unop == T.NOT && Clear(i) && Agree(st, s)
    ensures Selected(i, st, s)
  {
    AgreeReads(i.src, st, s);
    CompareAndSet(E, Imm(0), ConvertVal(i.src), i.dst, T.ValueOf(i.src, st), 0, st, s);
  }

  lemma SelectedUnary(i: T.Instr, st: T.Store, s: State)
    requires i.Unary? && i.unop != T.NOT && Clear(i) && Agree(st, s)
    ensures Selected(i, st, s)
  {
    var a, d, x := T.ValueOf(i.src, st), ConvertName(i.dst), Spell(i.dst);
    AgreeReads(i.src, st, s);
    Blocks(Mov(ConvertVal(i.src), d), Asm.Unary(ConvertUnary(i.unop), d), Ret, Ret, s);
    UnaryBits(i.unop, a);
    var c := Block(M, Select(i), s);
    var w := T.UnaryResult(i.unop, a);
    assert c.s.cells == s.cells[x := ToBits(a)][x := ToBits(w)] == s.cells[x := ToBits(w)];
    AgreePut(st, s, i.dst, w, c.s);
  }

  /** `idivl` leaves quotient and remainder, or faults exactly when there is no quotient. */
  lemma DividesOrFaults(o: Operand, a: Word, b: Word, s: State)
    requires Dividend(s) == a && Read(o, s) == ToBits(b)
    ensures Step(Idiv(o), s) ==
      if Divides(a, b)
      then Next(s.(ax := ToBits(Wrap(Quotient(a, b))), dx := ToBits(Wrap(Remainder(a, b))), flags := None))
      else Halt(Fault)
  {
    if b != 0 {
      QuotientFits(a, b);
      WrapBits(Quotient(a, b));
      WrapBits(Remainder(a, b));
    }
  }

  lemma SelectedDivision(i: T.Instr, st: T.Store, s: State)
    requires i.Binary? && (i.binop == T.DIVIDE || i.binop == T.REMAINDER) && Clear(i) && Agree(st, s)
    ensures Selected(i, st, s)
  {
    var a, b := T.ValueOf(i.src1, st), T.ValueOf(i.src2, st);
    AgreeReads(i.src1, st, s);
    AgreeReads(i.src2, st, s);
    var res := Register(if i.binop == T.DIVIDE then AX else DX);
    Blocks(Mov(ConvertVal(i.src1), Register(AX)), Cdq, Idiv(ConvertVal(i.src2)), Mov(res, ConvertName(i.dst)), s);
    var s2 := s.(ax := ToBits(a), dx := if Negative(ToBits(a)) then 0xffff_ffff else 0);
    SignExtended(s2);
    AgreeReads(i.src2, st, s2);
    DividesOrFaults(ConvertVal(i.src2), a, b, s2);
    if Divides(a, b) {
      var w := if i.binop == T.DIVIDE then Wrap(Quotient(a, b)) else Wrap(Remainder(a, b));
      AgreePut(st, s, i.dst, w, Block(M, Select(i), s).s);
    }
  }

  lemma SelectedRelational(i: T.Instr, st: T.Store, s: State)
    requires i.Binary? && IsRelational(i.binop) && Clear(i) && Agree(st, s)
    ensures Selected(i, st, s)
  {
    AgreeReads(i.src1, st, s);
    AgreeReads(i.src2, st, s);
    CompareAndSet(ConvertToConditionCode(i.binop), ConvertVal(i.src2), ConvertVal(i.src1), i.dst,
                  T.ValueOf(i.src1, st), T.ValueOf(i.src2, st), st, s);
  }

  /** The first move overwrites the destination, so the second source must be another variable. */
  lemma SelectedArithmetic(i: T.Instr, st: T.Store, s: State)
    requires i.Binary? && (i.binop == T.ADD || i.binop == T.SUBTRACT || i.binop == T.MULTIPLY)
    requires Clear(i) && Agree(st, s)
    ensures Selected(i, st, s)
  {
    var a, b := T.ValueOf(i.src1, st), T.ValueOf(i.src2, st);
    AgreeReads(i.src1, st, s);
    AgreeReads(i.src2, st, s);
    var d, o, x := ConvertName(i.dst), ConvertVal(i.src2), Spell(i.dst);
    Blocks(Mov(ConvertVal(i.src1), d), Asm.Binary(ConvertBinary(i.binop), o, d), Ret, Ret, s);
    var s1 := Write(d, ToBits(a), s);
    if i.src2.Var? && Spell(i.src2.name) == x { SpellInjective(i.src2.name, i.dst); }
    assert Read(o, s1) == ToBits(b) && Read(d, s1) == ToBits(a);
    ArithBits(i.binop, a, b);
    var c := Block(M, Select(i), s);
    var w := T.BinaryResult(i.binop, a, b).value;
    assert c.s.cells == s.cells[x := ToBits(a)][x := ToBits(w)] == s.cells[x := ToBits(w)];
    AgreePut(st, s, i.dst, w, c.s);
  }

  /** The number an arithmetic instruction is to compute. */
  function Sum(op: T.BinOp, a: Word, b: Word): int
    requires op == T.ADD || op == T.SUBTRACT || op == T.MULTIPLY
  {
    if op == T.ADD then a + b else if op == T.SUBTRACT then a - b else a * b
  }

  /** The selected `addl`, `subl` or `imull` leaves the mathematical result in the destination if it is an int, and
      otherwise what is left of it modulo 2 to the 32. */
  lemma SelectedExact(i: T.Instr, st: T.Store, s: State) returns (k: int)
    requires i.Binary? && (i.binop == T.ADD || i.binop == T.SUBTRACT || i.binop == T.MULTIPLY)
    requires Clear(i) && Agree(st, s)
    ensures var c, m := Block(M, Select(i), s), Sum(i.binop, T.ValueOf(i.src1, st), T.ValueOf(i.src2, st));
      && c.Next?
      && Signed(GetCell(c.s.cells, Spell(i.dst))) == m + k * 0x1_0000_0000
      && (-0x8000_0000 <= m < 0x8000_0000 ==> Signed(GetCell(c.s.cells, Spell(i.dst))) == m)
  {
    var m := Sum(i.binop, T.ValueOf(i.src1, st), T.ValueOf(i.src2, st));
    SelectedArithmetic(i, st, s);
    k := WrapIs(m);
    var c := Block(M, Select(i), s);
    assert T.Step(i, st) == Next(T.Put(st, i.dst, Wrap(m)));
    assert GetCell(c.s.cells, Spell(i.dst)) == ToBits(Wrap(m));
  }

  lemma SelectedJump(i: T.Instr, st: T.Store, s: State)
    requires (i.JumpIfZero? || i.JumpIfNotZero?) && Clear(i) && Agree(st, s)
    ensures Selected(i, st, s)
  {
    var cc := if i.JumpIfZero? then E else NE;
    AgreeReads(i.cond, st, s);
    Blocks(Cmp(Imm(0), ConvertVal(i.cond)), JmpCC(cc, i.goal), Ret, Ret, s);
    FlagsCompare(cc, ToBits(T.ValueOf(i.cond, st)), 0);
  }

  /** Each TACKY step is matched by its instruction sequence. */
  lemma SelectionMatches(i: T.Instr, st: T.Store, s: State)
    requires Clear(i) && Agree(st, s)
    ensures Selected(i, st, s)
  {
    match i {
      case Return(v) =>
        AgreeReads(v, st, s);
        Blocks(Mov(ConvertVal(v), Register(AX)), Ret, Ret, Ret, s);
      case Unary(op, _, _) => if op == T.NOT { SelectedNot(i, st, s); } else { SelectedUnary(i, st, s); }
      case Binary(op, _, _, _) =>
        if op == T.DIVIDE || op == T.REMAINDER {
          SelectedDivision(i, st, s);
        } else if IsRelational(op) {
          SelectedRelational(i, st, s);
        } else {
          SelectedArithmetic(i, st, s);
        }
      case Copy(src, dst) =>
        AgreeReads(src, st, s);
        Blocks(Mov(ConvertVal(src), ConvertName(dst)), Ret, Ret, Ret, s);
        AgreePut(st, s, dst, T.ValueOf(src, st), Block(M, Select(i), s).s);
      case Jump(goal) => Blocks(Jmp(goal), Ret, Ret, Ret, s);
      case JumpIfZero(_, _) => SelectedJump(i, st, s);
      case JumpIfNotZero(_, _) => SelectedJump(i, st, s);
      case Label(name) => Blocks(Asm.Label(name), Ret, Ret, Ret, s);
    }
  }

  lemma SelectKeepsLabels()
    ensures LabelsKept(T.M, M, Select, Clear)
  {
    forall i: T.Instr | Clear(i) ensures KeepsLabels(T.M, M, Select, i) {}
  }

  /** Selection: the pseudo-register code has the outcome of the TACKY list. */
  lemma SelectionCorrect(code: List<T.Instr>, st: T.Store, s: State)
    requires All(code, Clear) && Agree(st, s)
    ensures Exec(M, Flatten(Select, code), s) == Exec(T.M, code, st)
  {
    SelectKeepsLabels();
    forall i, st', s' | Clear(i) && Agree(st', s') ensures Matches(T.M, M, Select, Agree, i, st', s') {
      SelectionMatches(i, st', s');
    }
    Simulation(T.M, M, Select, Agree, Clear, code, st, s);
  }

  // ----- slot allocation -----

  /** Same registers and flags, and every variable's value in its slot. */
  ghost predicate InSlots(slots: Slots, s: State, t: State) {
    && s.ax == t.ax && s.dx == t.dx && s.r10 == t.r10 && s.r11 == t.r11 && s.flags == t.flags
    && forall x :: x in slots ==> GetCell(s.cells, x) == GetSlot(t.frame, slots[x])
  }

  /** IR straight from selection: no slot yet, no write to an immediate, no scratch register. */
  predicate Fetched(o: Operand) { o.Imm? || o.Pseudo? || o == Register(AX) || o == Register(DX) }

  predicate Target(o: Operand) { Fetched(o) && !o.Imm? }

  predicate FromSelection(i: Instr) {
    match i
    case Mov(src, dst) => Fetched(src) && Target(dst)
    case Unary(_, o) => Target(o)
    case Binary(_, o1, o2) => Fetched(o1) && Target(o2)
    case Cmp(o1, o2) => Fetched(o1) && Fetched(o2)
    case SetCC(_, o) => Target(o)
    case Idiv(o) => o.Imm? || o.Pseudo?
    case _ => true
  }

  ghost predicate Known(slots: Slots, o: Operand) { o.Pseudo? ==> o.name in slots }

  lemma PlaceReads(slots: Slots, o: Operand, s: State, t: State)
    requires InSlots(slots, s, t) && Fetched(o) && Known(slots, o)
    ensures Read(Place(o, slots), t) == Read(o, s)
  {}

  lemma PlaceWrites(slots: Slots, o: Operand, v: Bits, s: State, t: State)
    requires Injective(slots) && InSlots(slots, s, t) && Target(o) && Known(slots, o)
    ensures InSlots(slots, Write(o, v, s), Write(Place(o, slots), v, t))
  {
    var s', t' := Write(o, v, s), Write(Place(o, slots), v, t);
    if o.Pseudo? {
      forall x | x in slots ensures GetCell(s'.cells, x) == GetSlot(t'.frame, slots[x]) {
        assert GetCell(s.cells, x) == GetSlot(t.frame, slots[x]);
      }
    }
  }

  ghost predicate RenamedStep(slots: Slots, i: Instr, s: State, t: State) {
    match (Step(i, s), Step(Rename(i, slots), t))
    case (Next(s'), Next(t')) => InSlots(slots, s', t')
    case (Goto(x, s'), Goto(y, t')) => x == y && InSlots(slots, s', t')
    case (Halt(o), Halt(p)) => o == p
    case _ => false
  }

  lemma RenamedCmp(slots: Slots, o1: Operand, o2: Operand, s: State, t: State)
    requires InSlots(slots, s, t) && Fetched(o1) && Fetched(o2) && Known(slots, o1) && Known(slots, o2)
    ensures RenamedStep(slots, Cmp(o1, o2), s, t)
  {
    PlaceReads(slots, o1, s, t);
    PlaceReads(slots, o2, s, t);
  }

  lemma RenamedIdiv(slots: Slots, o: Operand, s: State, t: State)
    requires InSlots(slots, s, t) && Fetched(o) && Known(slots, o)
    ensures RenamedStep(slots, Idiv(o), s, t)
  {
    PlaceReads(slots, o, s, t);
  }

  lemma RenamedMov(slots: Slots, src: Operand, dst: Operand, s: State, t: State)
    requires Injective(slots) && InSlots(slots, s, t)
    requires Fetched(src) && Target(dst) && Known(slots, src) && Known(slots, dst)
    ensures RenamedStep(slots, Mov(src, dst), s, t)
  {
    PlaceReads(slots, src, s, t);
    PlaceWrites(slots, dst, Read(src, s), s, t);
  }

  lemma RenamedUnary(slots: Slots, op: UnaryOp, o: Operand, s: State, t: State)
    requires Injective(slots) && InSlots(slots, s, t) && Target(o) && Known(slots, o)
    ensures RenamedStep(slots, Asm.Unary(op, o), s, t)
  {
    PlaceReads(slots, o, s, t);
    var v := if op == NOT then 0xffff_ffff - Read(o, s) else Mod32(0 - Read(o, s));
    PlaceWrites(slots, o, v, s, t);
    var s', t' := Write(o, v, s), Write(Place(o, slots), v, t);
    assert Step(Asm.Unary(op, o), s) == Next(if op == NOT then s' else s'.(flags := None));
    assert Step(Rename(Asm.Unary(op, o), slots), t) == Next(if op == NOT then t' else t'.(flags := None));
  }

  lemma RenamedBinary(slots: Slots, op: BinaryOp, o1: Operand, o2: Operand, s: State, t: State)
    requires Injective(slots) && InSlots(slots, s, t) && Fetched(o1) && Target(o2) && Known(slots, o1) && Known(slots, o2)
    ensures RenamedStep(slots, Asm.Binary(op, o1, o2), s, t)
  {
    PlaceReads(slots, o1, s, t);
    PlaceReads(slots, o2, s, t);
    PlaceWrites(slots, o2, Arith(op, Read(o1, s), Read(o2, s)), s, t);
  }

  lemma RenamedSetCC(slots: Slots, cc: CondCode, o: Operand, s: State, t: State)
    requires Injective(slots) && InSlots(slots, s, t) && Target(o) && Known(slots, o)
    ensures RenamedStep(slots, SetCC(cc, o), s, t)
  {
    PlaceReads(slots, o, s, t);
    if s.flags.Some? { PlaceWrites(slots, o, SetLowByte(Read(o, s), Holds(cc, s.flags.value)), s, t); }
  }

  /** Replacing pseudo-registers by their slots leaves every step unchanged. */
  lemma AllocationMatches(slots: Slots, i: Instr, s: State, t: State)
    requires Injective(slots) && InSlots(slots, s, t) && FromSelection(i) && Covers(slots, i)
    ensures RenamedStep(slots, i, s, t)
  {
    var os := Operands(i);
    forall o | o in os ensures Known(slots, o) {
      var k :| 0 <= k < |os| && os[k] == o;
    }
    match i {
      case Mov(src, dst) =>
        assert os[0] == src && os[1] == dst;
        RenamedMov(slots, src, dst, s, t);
      case Unary(op, o) =>
        assert os[0] == o;
        RenamedUnary(slots, op, o, s, t);
      case Binary(op, o1, o2) =>
        assert os[0] == o1 && os[1] == o2;
        RenamedBinary(slots, op, o1, o2, s, t);
      case SetCC(cc, o) =>
        assert os[0] == o;
        RenamedSetCC(slots, cc, o, s, t);
      case Cmp(o1, o2) =>
        assert os[0] == o1 && os[1] == o2;
        RenamedCmp(slots, o1, o2, s, t);
      case Idiv(o) =>
        assert os[0] == o;
        RenamedIdiv(slots, o, s, t);
      case _ =>
    }
  }

  // ----- printing -----

  /** %r10d and %r11d are scratch: nothing else differs. */
  ghost predicate SameButScratch(s: State, t: State) {
    t == s.(r10 := t.r10, r11 := t.r11)
  }

  predicate Settled(o: Operand) { o.Imm? || o.Stack? || o == Register(AX) || o == Register(DX) }

  predicate Landing(o: Operand) { Settled(o) && !o.Imm? }

  predicate FromAllocation(i: Instr) {
    match i
    case Mov(src, dst) => Settled(src) && Landing(dst)
    case Unary(_, o) => Landing(o)
    case Binary(_, o1, o2) => Settled(o1) && Landing(o2)
    case Cmp(o1, o2) => Settled(o1) && Settled(o2)
    case SetCC(_, o) => Landing(o)
    case Idiv(o) => o.Imm? || o.Stack?
    case _ => true
  }

  lemma HardwareBlocks(a: Instr, b: Instr, c: Instr, s: State)
    ensures Block(Hardware, [a], s) == HardwareStep(a, s)
    ensures Block(Hardware, [a, b], s) == HardwareThen(HardwareStep(a, s), b)
    ensures Block(Hardware, [a, b, c], s) == HardwareThen(HardwareThen(HardwareStep(a, s), b), c)
  {
    HardwareCons(a, [], s);
    HardwareCons(a, [b], s);
    HardwareCons(a, [b, c], s);
    var r := HardwareStep(a, s);
    if r.Next? {
      HardwareCons(b, [], r.s);
      HardwareCons(b, [c], r.s);
      if HardwareStep(b, r.s).Next? { HardwareCons(c, [], HardwareStep(b, r.s).s); }
    }
  }

  function HardwareThen(c: Control<State>, i: Instr): Control<State> { if c.Next? then HardwareStep(i, c.s) else c }

  lemma HardwareCons(i: Instr, b: seq<Instr>, s: State)
    ensures Block(Hardware, [i] + b, s) ==
            if HardwareStep(i, s).Next? then Block(Hardware, b, HardwareStep(i, s).s) else HardwareStep(i, s)
  {
    assert ([i] + b)[1..] == b;
  }

  /** The printed lines can all be encoded. */
  lemma PrintEncodable(i: Instr)
    requires FromAllocation(i)
    ensures forall k :: 0 <= k < |Print(i)| ==> Encodable(Print(i)[k])
  {}

  lemma SettledReads(o: Operand, s: State, t: State)
    requires Settled(o) && SameButScratch(s, t)
    ensures Read(o, t) == Read(o, s)
  {}

  lemma LandingWrites(o: Operand, v: Bits, s: State, t: State)
    requires Landing(o) && SameButScratch(s, t)
    ensures SameButScratch(Write(o, v, s), Write(o, v, t))
  {}

  /** One step from states that differ in the scratch registers only. */
  ghost predicate StepsAlike(i: Instr, s: State, t: State) {
    match (Step(i, s), Step(i, t))
    case (Next(s'), Next(t')) => SameButScratch(s', t')
    case (Goto(x, s'), Goto(y, t')) => x == y && SameButScratch(s', t')
    case (Halt(o), Halt(p)) => o == p
    case _ => false
  }

  lemma AlikeMov(src: Operand, dst: Operand, s: State, t: State)
    requires Settled(src) && Landing(dst) && SameButScratch(s, t)
    ensures StepsAlike(Mov(src, dst), s, t)
  {
    SettledReads(src, s, t);
    LandingWrites(dst, Read(src, s), s, t);
  }

  lemma AlikeUnary(op: UnaryOp, o: Operand, s: State, t: State)
    requires Landing(o) && SameButScratch(s, t)
    ensures StepsAlike(Asm.Unary(op, o), s, t)
  {
    SettledReads(o, s, t);
    LandingWrites(o, if op == NOT then 0xffff_ffff - Read(o, s) else Mod32(0 - Read(o, s)), s, t);
  }

  lemma AlikeBinary(op: BinaryOp, o1: Operand, o2: Operand, s: State, t: State)
    requires Settled(o1) && Landing(o2) && SameButScratch(s, t)
    ensures StepsAlike(Asm.Binary(op, o1, o2), s, t)
  {
    SettledReads(o1, s, t);
    SettledReads(o2, s, t);
    LandingWrites(o2, Arith(op, Read(o1, s), Read(o2, s)), s, t);
  }

  lemma AlikeSetCC(cc: CondCode, o: Operand, s: State, t: State)
    requires Landing(o) && SameButScratch(s, t)
    ensures StepsAlike(SetCC(cc, o), s, t)
  {
    SettledReads(o, s, t);
    if s.flags.Some? { LandingWrites(o, SetLowByte(Read(o, s), Asm.Holds(cc, s.flags.value)), s, t); }
  }

  lemma AlikeCmp(o1: Operand, o2: Operand, s: State, t: State)
    requires Settled(o1) && Settled(o2) && SameButScratch(s, t)
    ensures StepsAlike(Cmp(o1, o2), s, t)
  {
    SettledReads(o1, s, t);
    SettledReads(o2, s, t);
  }

  lemma AlikeIdiv(o: Operand, s: State, t: State)
    requires Settled(o) && SameButScratch(s, t)
    ensures StepsAlike(Idiv(o), s, t)
  {
    SettledReads(o, s, t);
  }

  lemma Alike(i: Instr, s: State, t: State)
    requires FromAllocation(i) && SameButScratch(s, t)
    ensures StepsAlike(i, s, t)
  {
    match i {
      case Mov(src, dst) => AlikeMov(src, dst, s, t);
      case Unary(op, o) => AlikeUnary(op, o, s, t);
      case Binary(op, o1, o2) => AlikeBinary(op, o1, o2, s, t);
      case Cmp(o1, o2) => AlikeCmp(o1, o2, s, t);
      case SetCC(cc, o) => AlikeSetCC(cc, o, s, t);
      case Idiv(o) => AlikeIdiv(o, s, t);
      case _ =>
    }
  }

  /** An instruction printed as it is. */
  lemma PrintedAlone(i: Instr, s: State, t: State)
    requires FromAllocation(i) && SameButScratch(s, t) && Print(i) == [i]
    ensures Matches(M, Hardware, Print, SameButScratch, i, s, t)
  {
    Alike(i, s, t);
    PrintedAsIs(i, t);
  }

  lemma PrintedAsIs(i: Instr, t: State)
    requires FromAllocation(i) && Print(i) == [i]
    ensures Block(Hardware, Print(i), t) == Step(i, t)
  {
    HardwareCons(i, [], t);
    assert [i] + [] == [i];
    PrintEncodable(i);
    assert Encodable(Print(i)[0]);
  }

  lemma PrintedInTwo(i: Instr, s: State, t: State)
    requires FromAllocation(i) && SameButScratch(s, t) && |Print(i)| == 2
    ensures Matches(M, Hardware, Print, SameButScratch, i, s, t)
  {
    var p := Print(i);
    HardwareBlocks(p[0], p[1], Ret, t);
    assert p == [p[0], p[1]];
  }

  lemma PrintedMultiply(i: Instr, s: State, t: State)
    requires FromAllocation(i) && SameButScratch(s, t) && |Print(i)| == 3
    ensures Matches(M, Hardware, Print, SameButScratch, i, s, t)
  {
    HardwareBlocks(Mov(i.op2, Register(R11)), Asm.Binary(MULT, i.op1, Register(R11)), Mov(Register(R11), i.op2), t);
  }

  /** The printed lines do what the instruction does, and only the scratch registers tell the difference. */
  lemma PrintMatches(i: Instr, s: State, t: State)
    requires FromAllocation(i) && SameButScratch(s, t)
    ensures Matches(M, Hardware, Print, SameButScratch, i, s, t)
  {
    if |Print(i)| == 1 {
      PrintedAlone(i, s, t);
    } else if |Print(i)| == 2 {
      PrintedInTwo(i, s, t);
    } else {
      PrintedMultiply(i, s, t);
    }
  }

  lemma PrintKeepsLabels()
    ensures LabelsKept(M, Hardware, Print, FromAllocation)
  {
    forall i | FromAllocation(i) ensures KeepsLabels(M, Hardware, Print, i) {}
  }

  /** Printing: the printed lines have the outcome of the unrestricted IR. */
  lemma PrintCorrect(code: List<Instr>, s: State)
    requires All(code, FromAllocation)
    ensures Exec(Hardware, Flatten(Print, code), s) == Exec(M, code, s)
  {
    PrintKeepsLabels();
    forall i, s', t' | FromAllocation(i) && SameButScratch(s', t')
      ensures Matches(M, Hardware, Print, SameButScratch, i, s', t')
    {
      PrintMatches(i, s', t');
    }
    Simulation(M, Hardware, Print, SameButScratch, FromAllocation, code, s, s);
  }
}
