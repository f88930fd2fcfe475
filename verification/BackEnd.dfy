/** The back end as a whole. */
module BackEnd {
  // From a TACKY list to the lines that are printed for it.

  import opened Words
  import opened Names
  import opened Flow
  import opened Asm
  import opened CodeGen
  import opened AsmCorrect
  import T = Tacky

  lemma {:induction false} AllFromSeq<I>(code: seq<I>, p: I -> bool)
    requires forall k :: 0 <= k < |code| ==> p(code[k])
    ensures All(FromSeq(code), p)
  {
    if code != [] { AllFromSeq(code[1..], p); }
  }

  lemma {:induction false} AllPrepend<I>(b: seq<I>, rest: List<I>, p: I -> bool)
    requires All(rest, p) && forall k :: 0 <= k < |b| ==> p(b[k])
    ensures All(Prepend(b, rest), p)
  {
    if b != [] { AllPrepend(b[1..], rest, p); }
  }

  lemma {:induction false} AllFlatten<I(!new), J>(tr: I -> seq<J>, code: List<I>, p: I -> bool, q: J -> bool)
    requires All(code, p) && forall i: I, k: nat :: p(i) && k < |tr(i)| ==> q(tr(i)[k])
    ensures All(Flatten(tr, code), q)
  {
    if code.Cons? {
      AllFlatten(tr, code.tail, p, q);
      AllPrepend(tr(code.head), Flatten(tr, code.tail), q);
    }
  }

  lemma {:induction false} AllAt<I>(code: seq<I>, p: I -> bool, k: nat)
    requires All(FromSeq(code), p) && k < |code|
    ensures p(code[k])
  {
    if k > 0 { AllAt(code[1..], p, k - 1); }
  }

  // ----- slot allocation over a whole list -----

  function InSlot(slots: Slots): Instr -> seq<Instr> { i => [Rename(i, slots)] }

  ghost function SlotRel(slots: Slots): (State, State) -> bool { (s, t) => InSlots(slots, s, t) }

  ghost function Placed(slots: Slots): Instr -> bool { i => FromSelection(i) && Covers(slots, i) }

  lemma {:induction false} RenameAllFlatten(code: seq<Instr>, slots: Slots)
    ensures FromSeq(RenameAll(code, slots)) == Flatten(InSlot(slots), FromSeq(code))
  {
    if code != [] {
      RenameAllFlatten(code[1..], slots);
      assert RenameAll(code, slots)[1..] == RenameAll(code[1..], slots);
      var r := Flatten(InSlot(slots), FromSeq(code[1..]));
      assert Prepend([Rename(code[0], slots)], r) == Cons(Rename(code[0], slots), Prepend([], r)) by {
        assert [Rename(code[0], slots)][1..] == [];
      }
    }
  }

  lemma RenameKeepsLabels(slots: Slots)
    ensures LabelsKept(M, M, InSlot(slots), Placed(slots))
  {
    forall i | Placed(slots)(i) ensures KeepsLabels(M, M, InSlot(slots), i) {}
  }

  lemma RenameMatches(slots: Slots, i: Instr, s: State, t: State)
    requires Injective(slots) && InSlots(slots, s, t) && FromSelection(i) && Covers(slots, i)
    ensures Matches(M, M, InSlot(slots), SlotRel(slots), i, s, t)
  {
    AllocationMatches(slots, i, s, t);
    Blocks(Rename(i, slots), Ret, Ret, Ret, t);
  }

  lemma AllocationCorrect(code: seq<Instr>, slots: Slots, s: State, t: State)
    requires Injective(slots) && InSlots(slots, s, t)
    requires forall k :: 0 <= k < |code| ==> FromSelection(code[k]) && Covers(slots, code[k])
    ensures Exec(M, FromSeq(RenameAll(code, slots)), t) == Exec(M, FromSeq(code), s)
  {
    RenameAllFlatten(code, slots);
    RenameKeepsLabels(slots);
    forall i, s', t' | Placed(slots)(i) && SlotRel(slots)(s', t')
      ensures Matches(M, M, InSlot(slots), SlotRel(slots), i, s', t')
    {
      RenameMatches(slots, i, s', t');
    }
    AllFromSeq(code, Placed(slots));
    Simulation(M, M, InSlot(slots), SlotRel(slots), Placed(slots), FromSeq(code), s, t);
  }

  // ----- shapes between the steps -----

  lemma SelectShape(i: T.Instr)
    ensures forall k :: 0 <= k < |Select(i)| ==> FromSelection(Select(i)[k])
  {}

  lemma RenameShape(i: Instr, slots: Slots)
    requires FromSelection(i) && Covers(slots, i)
    ensures FromAllocation(Rename(i, slots))
  {
    var os := Operands(i);
    forall k | 0 <= k < |os| ensures os[k].Pseudo? ==> os[k].name in slots {}
    match i
    case Mov(src, dst) => assert os[0] == src && os[1] == dst;
    case Unary(_, o) => assert os[0] == o;
    case Binary(_, o1, o2) => assert os[0] == o1 && os[1] == o2;
    case Cmp(o1, o2) => assert os[0] == o1 && os[1] == o2;
    case SetCC(_, o) => assert os[0] == o;
    case Idiv(o) => assert os[0] == o;
    case _ =>
  }

  lemma SelectedShape(code: seq<T.Instr>, k: nat)
    requires k < |Concat(Select, code)|
    ensures FromSelection(Concat(Select, code)[k])
  {
    ConcatFlatten(Select, code);
    AllFromSeq(code, i => true);
    forall i: T.Instr, j: nat | j < |Select(i)| ensures FromSelection(Select(i)[j]) { SelectShape(i); }
    AllFlatten(Select, FromSeq(code), i => true, FromSelection);
    AllAt(Concat(Select, code), FromSelection, k);
  }

  // ----- the frame as a store -----

  function SlotsOf(code: seq<T.Instr>): Slots { AllocAll(Concat(Select, code), Alloc(0, map[])).slots }

  predicate SpellsTemp(text: string) { text == Spell(Temp(NumberOf(text))) }

  /** What the variables hold when the run starts: whatever is in their slots. */
  function StoreOf(slots: Slots, t: State): T.Store {
    T.Store(
      map x: string | x in slots && !HasDot(x) :: Signed(GetSlot(t.frame, slots[x])),
      map x: string | x in slots && SpellsTemp(x) :: NumberOf(x) := Signed(GetSlot(t.frame, slots[x])))
  }

  function CellsOf(slots: Slots, t: State): State {
    t.(cells := map x | x in slots :: GetSlot(t.frame, slots[x]))
  }

  lemma StoreAgrees(slots: Slots, t: State)
    ensures Agree(StoreOf(slots, t), CellsOf(slots, t)) && InSlots(slots, CellsOf(slots, t), t)
  {
    var st, s := StoreOf(slots, t), CellsOf(slots, t);
    forall x: Name | Plain(x) ensures GetCell(s.cells, Spell(x)) == ToBits(T.Get(st, x)) {
      match x
      case Ident(text) =>
      case Temp(n) =>
        TempSpelling(n);
        assert SpellsTemp(Spell(x)) && NumberOf(Spell(x)) == n;
        assert n in st.temps <==> Spell(x) in slots;
    }
  }

  // ----- the whole back end -----

  lemma HardwareHonest()
    ensures Honest(Hardware)
  {}

  lemma AllocationIsPacked(code: seq<T.Instr>)
    ensures Packed(AllocAll(Concat(Select, code), Alloc(0, map[])))
  {
    assert Packed(Alloc(0, map[]));
    AllocPacked(Concat(Select, code), Alloc(0, map[]));
  }

  /** The generated vector holds no pseudo-register and only operands the printer can handle. */
  lemma GeneratedShape(code: seq<T.Instr>)
    ensures All(FromSeq(Generate(code)), FromAllocation)
  {
    var ir, slots := Concat(Select, code), SlotsOf(code);
    AllocCovers(ir, Alloc(0, map[]));
    forall k | 0 <= k < |ir| ensures FromAllocation(Generate(code)[k]) {
      SelectedShape(code, k);
      RenameShape(ir[k], slots);
    }
    AllFromSeq(Generate(code), FromAllocation);
  }

  lemma PrintedForward(code: seq<T.Instr>)
    requires Forward(T.M, FromSeq(code)) && All(FromSeq(code), Clear)
    ensures Forward(Hardware, FromSeq(Printed(Generate(code))))
  {
    var ir, slots := Concat(Select, code), SlotsOf(code);
    SelectKeepsLabels();
    ForwardFlatten(T.M, M, Select, Clear, FromSeq(code));
    ConcatFlatten(Select, code);
    AllocCovers(ir, Alloc(0, map[]));
    forall k | 0 <= k < |ir| ensures Placed(slots)(ir[k]) { SelectedShape(code, k); }
    AllFromSeq(ir, Placed(slots));
    RenameKeepsLabels(slots);
    ForwardFlatten(M, M, InSlot(slots), Placed(slots), FromSeq(ir));
    RenameAllFlatten(ir, slots);
    GeneratedShape(code);
    PrintKeepsLabels();
    ForwardFlatten(M, Hardware, Print, FromAllocation, FromSeq(Generate(code)));
    ConcatFlatten(Print, Generate(code));
  }

  lemma PrintedExec(code: seq<T.Instr>, t: State)
    requires All(FromSeq(code), Clear)
    ensures Exec(Hardware, FromSeq(Printed(Generate(code))), t) == Exec(T.M, FromSeq(code), StoreOf(SlotsOf(code), t))
  {
    var ir, slots := Concat(Select, code), SlotsOf(code);
    var st, s := StoreOf(slots, t), CellsOf(slots, t);
    StoreAgrees(slots, t);
    SelectionCorrect(FromSeq(code), st, s);
    ConcatFlatten(Select, code);
    AllocationIsPacked(code);
    AllocCovers(ir, Alloc(0, map[]));
    forall k | 0 <= k < |ir| ensures FromSelection(ir[k]) { SelectedShape(code, k); }
    AllocationCorrect(ir, slots, s, t);
    GeneratedShape(code);
    PrintCorrect(FromSeq(Generate(code)), t);
    ConcatFlatten(Print, Generate(code));
  }

  /** From any machine state, running the printed lines by program counter gives the outcome of the TACKY list
      started with the contents of the frame, within as many steps as there are lines. */
  lemma BackEndCorrect(code: seq<T.Instr>, t: State, fuel: nat)
    requires Forward(T.M, FromSeq(code)) && All(FromSeq(code), Clear)
    requires fuel >= |Printed(Generate(code))|
    ensures Run(Hardware, Printed(Generate(code)), 0, t, fuel) == Exec(T.M, FromSeq(code), StoreOf(SlotsOf(code), t))
  {
    var lines := Printed(Generate(code));
    HardwareHonest();
    PrintedForward(code);
    assert lines[0..] == lines;
    RunIsExec(Hardware, lines, 0, t, fuel);
    PrintedExec(code, t);
  }
}
