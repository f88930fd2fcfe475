/** Code selection, slot allocation and printing. */
module CodeGen {
  // The functions say what one
  // instruction becomes; the class `CodeGenerator` is the visitor with its growing
  // instruction vector and the in-place allocation loop.

  import opened Names
  import opened Flow
  import opened Asm
  import T = Tacky

  // ----- selection -----

  function ConvertVal(v: T.Val): Operand {
    match v
    case Constant(c) => Imm(c)
    case Var(x) => ConvertName(x)
  }

  /** A pseudo-register is known by the spelling of its name only. */
  function ConvertName(x: Name): Operand { Pseudo(Spell(x)) }

  predicate IsRelational(op: T.BinOp) {
    match op
    case EQUAL => true
    case NOT_EQUAL => true
    case LESS_THAN => true
    case LESS_OR_EQUAL => true
    case GREATER_THAN => true
    case GREATER_OR_EQUAL => true
    case _ => false
  }

  function ConvertToConditionCode(op: T.BinOp): CondCode
    requires IsRelational(op)
  {
    match op
    case EQUAL => E
    case NOT_EQUAL => NE
    case LESS_THAN => L
    case LESS_OR_EQUAL => LE
    case GREATER_THAN => G
    case GREATER_OR_EQUAL => GE
  }

  function ConvertUnary(op: T.UnOp): UnaryOp
    requires op != T.NOT
  {
    if op == T.COMPLEMENT then NOT else NEG
  }

  function ConvertBinary(op: T.BinOp): BinaryOp
    requires op == T.ADD || op == T.SUBTRACT || op == T.MULTIPLY
  {
    match op
    case ADD => Asm.ADD
    case MULTIPLY => Asm.MULT
    case SUBTRACT => Asm.SUB
  }

  function Select(i: T.Instr): seq<Instr> {
    match i
    case Return(v) => [Mov(ConvertVal(v), Register(AX)), Ret]
    case Unary(op, src, dst) =>
      if op == T.NOT then
        [Cmp(Imm(0), ConvertVal(src)), Mov(Imm(0), ConvertName(dst)), SetCC(E, ConvertName(dst))]
      else
        [Mov(ConvertVal(src), ConvertName(dst)), Asm.Unary(ConvertUnary(op), ConvertName(dst))]
    case Binary(op, src1, src2, dst) =>
      if op == T.DIVIDE || op == T.REMAINDER then
        [Mov(ConvertVal(src1), Register(AX)), Cdq, Idiv(ConvertVal(src2)),
         Mov(Register(if op == T.DIVIDE then AX else DX), ConvertName(dst))]
      else if IsRelational(op) then
        [Cmp(ConvertVal(src2), ConvertVal(src1)), Mov(Imm(0), ConvertName(dst)),
         SetCC(ConvertToConditionCode(op), ConvertName(dst))]
      else
        [Mov(ConvertVal(src1), ConvertName(dst)), Asm.Binary(ConvertBinary(op), ConvertVal(src2), ConvertName(dst))]
    case Copy(src, dst) => [Mov(ConvertVal(src), ConvertName(dst))]
    case Jump(goal) => [Jmp(goal)]
    case JumpIfZero(c, goal) => [Cmp(Imm(0), ConvertVal(c)), JmpCC(E, goal)]
    case JumpIfNotZero(c, goal) => [Cmp(Imm(0), ConvertVal(c)), JmpCC(NE, goal)]
    case Label(name) => [Asm.Label(name)]
  }

  // ----- slot allocation -----

  type Slots = map<string, int>

  /** The offset counter and the map filled on first use. */
  datatype Alloc = Alloc(offset: int, slots: Slots)

  function Touch(o: Operand, a: Alloc): Alloc {
    if o.Pseudo? && o.name !in a.slots then Alloc(a.offset - 4, a.slots[o.name := a.offset - 4]) else a
  }

  function Place(o: Operand, slots: Slots): Operand {
    if o.Pseudo? && o.name in slots then Stack(slots[o.name]) else o
  }

  /** The operands an instruction hands to the allocator, in the order it does. */
  function Operands(i: Instr): seq<Operand> {
    match i
    case Mov(src, dst) => [src, dst]
    case Unary(_, o) => [o]
    case Binary(_, o1, o2) => [o1, o2]
    case Cmp(o1, o2) => [o1, o2]
    case SetCC(_, o) => [o]
    case Idiv(o) => [o]
    case _ => []
  }

  function TouchAll(os: seq<Operand>, a: Alloc): Alloc {
    if os == [] then a else TouchAll(os[1..], Touch(os[0], a))
  }

  function Rename(i: Instr, slots: Slots): Instr {
    match i
    case Mov(src, dst) => Mov(Place(src, slots), Place(dst, slots))
    case Unary(op, o) => Asm.Unary(op, Place(o, slots))
    case Binary(op, o1, o2) => Asm.Binary(op, Place(o1, slots), Place(o2, slots))
    case Cmp(o1, o2) => Cmp(Place(o1, slots), Place(o2, slots))
    case SetCC(cc, o) => SetCC(cc, Place(o, slots))
    case Idiv(o) => Idiv(Place(o, slots))
    case _ => i
  }

  /** The allocation state after the whole list. */
  function AllocAll(code: seq<Instr>, a: Alloc): Alloc {
    if code == [] then a else AllocAll(code[1..], TouchAll(Operands(code[0]), a))
  }

  /** One of the first n slots below the frame pointer. */
  predicate IsSlot(v: int, n: nat) { -4 * n <= v <= -4 && v % 4 == 0 }

  ghost predicate Injective(slots: Slots) {
    forall x, y :: x in slots && y in slots && slots[x] == slots[y] ==> x == y
  }

  /** n variables own the slots -4, ..., -4n, one each, and -4n is the current offset. */
  ghost predicate Packed(a: Alloc) {
    && Injective(a.slots) && a.offset == -4 * |a.slots|
    && forall v :: v in a.slots.Values <==> IsSlot(v, |a.slots|)
  }

  /** Later slots keep earlier ones. */
  ghost predicate Extends(a: Slots, b: Slots) { forall x :: x in a ==> x in b && b[x] == a[x] }

  ghost predicate Covers(slots: Slots, i: Instr) {
    forall k :: 0 <= k < |Operands(i)| && Operands(i)[k].Pseudo? ==> Operands(i)[k].name in slots
  }

  lemma {:induction false} TouchPacked(o: Operand, a: Alloc)
    requires Packed(a)
    ensures Packed(Touch(o, a))
  {
    if o.Pseudo? && o.name !in a.slots { NewSlotPacked(a.slots, o.name, |a.slots|, a.offset - 4); }
  }

  lemma NewSlotPacked(m: Slots, x: string, n: nat, v: int)
    requires Injective(m) && x !in m && |m| == n && v == -4 * n - 4
    requires forall w :: w in m.Values <==> IsSlot(w, n)
    ensures Packed(Alloc(v, m[x := v]))
  {
    NewSlotInjective(m, x, v);
    ValuesOfNew(m, x, v);
    var m' := m[x := v];
    forall w ensures w in m'.Values <==> IsSlot(w, |m'|) { IsSlotNext(w, n); }
  }

  lemma IsSlotNext(w: int, n: nat)
    ensures IsSlot(w, n + 1) <==> IsSlot(w, n) || w == -4 * n - 4
  {}

  lemma NewSlotInjective(m: Slots, x: string, v: int)
    requires Injective(m) && x !in m && v !in m.Values
    ensures Injective(m[x := v])
  {
    forall y | y in m ensures m[y] != v { assert m[y] in m.Values; }
  }

  lemma ValuesOfNew(m: Slots, x: string, v: int)
    requires x !in m
    ensures m[x := v].Values == m.Values + {v} && |m[x := v]| == |m| + 1
  {
    var n := m[x := v];
    forall w | w in m.Values + {v} ensures w in n.Values {
      if w == v {
        assert n[x] == v;
      } else {
        var y :| y in m && m[y] == w;
        assert n[y] == w;
      }
    }
    assert n.Keys == m.Keys + {x};
  }

  lemma {:induction false} TouchAllPacked(os: seq<Operand>, a: Alloc)
    requires Packed(a)
    ensures Packed(TouchAll(os, a))
  {
    if os != [] {
      TouchPacked(os[0], a);
      TouchAllPacked(os[1..], Touch(os[0], a));
    }
  }

  lemma {:induction false} TouchAllCovers(os: seq<Operand>, a: Alloc)
    ensures Extends(a.slots, TouchAll(os, a).slots)
    ensures forall k :: 0 <= k < |os| && os[k].Pseudo? ==> os[k].name in TouchAll(os, a).slots
  {
    if os != [] {
      TouchAllCovers(os[1..], Touch(os[0], a));
      assert forall k :: 0 < k < |os| ==> os[k] == os[1..][k - 1];
    }
  }

  /** Over the whole loop the map stays injective onto -4, ..., -4n. */
  lemma {:induction false} AllocPacked(code: seq<Instr>, a: Alloc)
    requires Packed(a)
    ensures Packed(AllocAll(code, a))
  {
    if code != [] {
      TouchAllPacked(Operands(code[0]), a);
      AllocPacked(code[1..], TouchAll(Operands(code[0]), a));
    }
  }

  /** A variable keeps the slot it was given, and every variable of the list has one. */
  lemma {:induction false} AllocCovers(code: seq<Instr>, a: Alloc)
    ensures Extends(a.slots, AllocAll(code, a).slots)
    ensures forall k :: 0 <= k < |code| ==> Covers(AllocAll(code, a).slots, code[k])
  {
    if code != [] {
      var b := TouchAll(Operands(code[0]), a);
      TouchAllCovers(Operands(code[0]), a);
      AllocCovers(code[1..], b);
      var c := AllocAll(code, a).slots;
      forall k | 0 <= k < |code| ensures Covers(c, code[k]) {
        if k > 0 { assert code[k] == code[1..][k - 1]; }
      }
    }
  }

  function RenameAll(code: seq<Instr>, slots: Slots): seq<Instr> {
    seq(|code|, k requires 0 <= k < |code| => Rename(code[k], slots))
  }

  /** Replacing with the map of the moment or with the final map is the same. */
  lemma RenameStable(i: Instr, a: Slots, b: Slots)
    requires Covers(a, i) && Extends(a, b)
    ensures Rename(i, a) == Rename(i, b)
  {
    assert forall k :: 0 <= k < |Operands(i)| ==> Place(Operands(i)[k], a) == Place(Operands(i)[k], b);
    match i
    case Mov(src, dst) => assert Operands(i)[0] == src && Operands(i)[1] == dst;
    case Unary(_, o) => assert Operands(i)[0] == o;
    case Binary(_, o1, o2) => assert Operands(i)[0] == o1 && Operands(i)[1] == o2;
    case Cmp(o1, o2) => assert Operands(i)[0] == o1 && Operands(i)[1] == o2;
    case SetCC(_, o) => assert Operands(i)[0] == o;
    case Idiv(o) => assert Operands(i)[0] == o;
    case _ =>
  }

  // ----- printing -----

  /** What `code_gen` prints for an instruction: illegal operand pairs go through %r10d or %r11d. */
  function Print(i: Instr): seq<Instr> {
    match i
    case Mov(src, dst) =>
      if src.Stack? && dst.Stack? then [Mov(src, Register(R10)), Mov(Register(R10), dst)] else [i]
    case Binary(op, o1, o2) =>
      if op == MULT && o2.Stack? then
        [Mov(o2, Register(R11)), Asm.Binary(MULT, o1, Register(R11)), Mov(Register(R11), o2)]
      else if (op == ADD || op == SUB) && o1.Stack? && o2.Stack? then
        [Mov(o1, Register(R10)), Asm.Binary(op, Register(R10), o2)]
      else [i]
    case Cmp(o1, o2) =>
      if o1.Stack? && o2.Stack? then [Mov(o1, Register(R10)), Cmp(Register(R10), o2)]
      else if o2.Imm? then [Mov(o2, Register(R11)), Cmp(o1, Register(R11))]
      else [i]
    case Idiv(o) => if o.Imm? then [Mov(o, Register(R10)), Idiv(Register(R10))] else [i]
    case _ => [i]
  }

  // ----- whole lists -----

  function Concat<I, J>(tr: I -> seq<J>, code: seq<I>): seq<J> {
    if code == [] then [] else tr(code[0]) + Concat(tr, code[1..])
  }

  lemma {:induction false} PrependSeq<I>(b: seq<I>, c: seq<I>)
    ensures Prepend(b, FromSeq(c)) == FromSeq(b + c)
  {
    if b == [] {
      assert b + c == c;
    } else {
      PrependSeq(b[1..], c);
      assert (b + c)[1..] == b[1..] + c;
    }
  }

  lemma {:induction false} ConcatFlatten<I, J>(tr: I -> seq<J>, code: seq<I>)
    ensures FromSeq(Concat(tr, code)) == Flatten(tr, FromSeq(code))
  {
    if code != [] {
      ConcatFlatten(tr, code[1..]);
      PrependSeq(tr(code[0]), Concat(tr, code[1..]));
    }
  }

  lemma {:induction false} ConcatTake<I, J>(tr: I -> seq<J>, code: seq<I>, k: nat)
    requires k < |code|
    ensures Concat(tr, code[..k + 1]) == Concat(tr, code[..k]) + tr(code[k])
  {
    if k == 0 {
      assert code[..1][1..] == [];
      assert Concat(tr, code[..1]) == tr(code[0]) + [];
    } else {
      var c := code[1..];
      ConcatTake(tr, c, k - 1);
      assert code[..k + 1][1..] == c[..k] && code[..k][1..] == c[..k - 1];
      assert tr(code[0]) + (Concat(tr, c[..k - 1]) + tr(code[k])) == tr(code[0]) + Concat(tr, c[..k - 1]) + tr(code[k]);
    }
  }

  /** The finished instruction vector of a function: selected, then with every pseudo-register in its slot. */
  function Generate(code: seq<T.Instr>): seq<Instr> {
    var ir := Concat(Select, code);
    RenameAll(ir, AllocAll(ir, Alloc(0, map[])).slots)
  }

  /** The instruction lines printed for a function body. */
  function Printed(code: seq<Instr>): seq<Instr> { Concat(Print, code) }

  // ----- the code generator -----

  class CodeGenerator {
    var asmInstructions: seq<Instr>

    constructor ()
      ensures asmInstructions == []
    {
      asmInstructions := [];
    }

    method PushBack(i: Instr)
      modifies this
      ensures asmInstructions == old(asmInstructions) + [i]
    {
      asmInstructions := asmInstructions + [i];
    }

    method Visit(i: T.Instr)
      modifies this
      ensures asmInstructions == old(asmInstructions) + Select(i)
    {
      match i {
        case Return(v) =>
          PushBack(Mov(ConvertVal(v), Register(AX)));
          PushBack(Ret);
        case Unary(op, src, dst) =>
          if op == T.NOT {
            PushBack(Cmp(Imm(0), ConvertVal(src)));
            PushBack(Mov(Imm(0), ConvertName(dst)));
            PushBack(SetCC(E, ConvertName(dst)));
          } else {
            PushBack(Mov(ConvertVal(src), ConvertName(dst)));
            PushBack(Asm.Unary(ConvertUnary(op), ConvertName(dst)));
          }
        case Binary(op, src1, src2, dst) => VisitBinary(op, src1, src2, dst);
        case Copy(src, dst) => PushBack(Mov(ConvertVal(src), ConvertName(dst)));
        case Jump(goal) => PushBack(Jmp(goal));
        case JumpIfZero(c, goal) =>
          PushBack(Cmp(Imm(0), ConvertVal(c)));
          PushBack(JmpCC(E, goal));
        case JumpIfNotZero(c, goal) =>
          PushBack(Cmp(Imm(0), ConvertVal(c)));
          PushBack(JmpCC(NE, goal));
        case Label(name) => PushBack(Asm.Label(name));
      }
    }

    method VisitBinary(op: T.BinOp, src1: T.Val, src2: T.Val, dst: Name)
      modifies this
      ensures asmInstructions == old(asmInstructions) + Select(T.Binary(op, src1, src2, dst))
    {
      if op == T.DIVIDE || op == T.REMAINDER {
        PushBack(Mov(ConvertVal(src1), Register(AX)));
        PushBack(Cdq);
        PushBack(Idiv(ConvertVal(src2)));
        var reg := if op == T.DIVIDE then AX else DX;
        PushBack(Mov(Register(reg), ConvertName(dst)));
      } else if IsRelational(op) {
        PushBack(Cmp(ConvertVal(src2), ConvertVal(src1)));
        PushBack(Mov(Imm(0), ConvertName(dst)));
        PushBack(SetCC(ConvertToConditionCode(op), ConvertName(dst)));
      } else {
        PushBack(Mov(ConvertVal(src1), ConvertName(dst)));
        PushBack(Asm.Binary(ConvertBinary(op), ConvertVal(src2), ConvertName(dst)));
      }
    }

    /** `replace_pseudo`: a new slot on first use, and the operand in its slot. */
    static method ReplacePseudo(o: Operand, offset: int, slots: Slots) returns (o': Operand, offset': int, slots': Slots)
      ensures Alloc(offset', slots') == Touch(o, Alloc(offset, slots))
      ensures o' == Place(o, slots')
    {
      o', offset', slots' := o, offset, slots;
      if o.Pseudo? {
        if o.name !in slots {
          offset' := offset - 4;
          slots' := slots[o.name := offset'];
        }
        o' := Stack(slots'[o.name]);
      }
    }

    /** `allocate_pseudo` of every instruction: its operands are replaced in order. */
    static method AllocatePseudo(i: Instr, offset: int, slots: Slots) returns (i': Instr, offset': int, slots': Slots)
      ensures Alloc(offset', slots') == TouchAll(Operands(i), Alloc(offset, slots))
      ensures i' == Rename(i, slots')
    {
      i', offset', slots' := i, offset, slots;
      var o1, o2;
      match i {
        case Mov(src, dst) =>
          o1, o2, offset', slots' := ReplaceTwo(src, dst, offset, slots);
          i' := Mov(o1, o2);
        case Unary(op, o) =>
          o1, offset', slots' := ReplacePseudo(o, offset, slots);
          i' := Asm.Unary(op, o1);
        case Binary(op, op1, op2) =>
          o1, o2, offset', slots' := ReplaceTwo(op1, op2, offset, slots);
          i' := Asm.Binary(op, o1, o2);
        case Cmp(op1, op2) =>
          o1, o2, offset', slots' := ReplaceTwo(op1, op2, offset, slots);
          i' := Cmp(o1, o2);
        case SetCC(cc, o) =>
          o1, offset', slots' := ReplacePseudo(o, offset, slots);
          i' := SetCC(cc, o1);
        case Idiv(o) =>
          o1, offset', slots' := ReplacePseudo(o, offset, slots);
          i' := Idiv(o1);
        case _ =>
      }
    }

    static method ReplaceTwo(p: Operand, q: Operand, offset: int, slots: Slots)
      returns (p': Operand, q': Operand, offset': int, slots': Slots)
      ensures Alloc(offset', slots') == TouchAll([p, q], Alloc(offset, slots))
      ensures p' == Place(p, slots') && q' == Place(q, slots')
    {
      p', offset', slots' := ReplacePseudo(p, offset, slots);
      q', offset', slots' := ReplacePseudo(q, offset', slots');
      assert [p, q][1..] == [q] && [q][1..] == [];
      assert TouchAll([q], Touch(p, Alloc(offset, slots))) == Touch(q, Touch(p, Alloc(offset, slots)));
    }

    /** `generate_function`: select everything, then replace operands instruction by instruction. */
    method GenerateFunction(code: seq<T.Instr>) returns (result: seq<Instr>)
      modifies this
      ensures result == Generate(code)
      ensures asmInstructions == []
    {
      SelectAll(code);
      AllocateSlots();
      result := asmInstructions;
      asmInstructions := [];
    }

    method SelectAll(code: seq<T.Instr>)
      modifies this
      ensures asmInstructions == Concat(Select, code)
    {
      asmInstructions := [];
      var k := 0;
      while k < |code|
        invariant 0 <= k <= |code|
        invariant asmInstructions == Concat(Select, code[..k])
      {
        ConcatTake(Select, code, k);
        Visit(code[k]);
        k := k + 1;
      }
      assert code[..k] == code;
    }

    /** The allocation loop updates the vector in place. */
    method AllocateSlots()
      modifies this
      ensures asmInstructions == RenameAll(old(asmInstructions), AllocAll(old(asmInstructions), Alloc(0, map[])).slots)
    {
      var curOffset: int, offsetMap: Slots := 0, map[];
      ghost var ir := asmInstructions;
      ghost var last := AllocAll(ir, Alloc(0, map[])).slots;
      var k := 0;
      while k < |asmInstructions|
        invariant 0 <= k <= |asmInstructions| == |ir|
        invariant AllocAll(ir, Alloc(0, map[])) == AllocAll(ir[k..], Alloc(curOffset, offsetMap))
        invariant forall j :: 0 <= j < k ==> asmInstructions[j] == Rename(ir[j], last)
        invariant forall j :: k <= j < |ir| ==> asmInstructions[j] == ir[j]
      {
        ghost var before := Alloc(curOffset, offsetMap);
        assert ir[k..][1..] == ir[k + 1..] && ir[k..][0] == ir[k];
        TouchAllCovers(Operands(ir[k]), before);
        var i';
        i', curOffset, offsetMap := AllocatePseudo(asmInstructions[k], curOffset, offsetMap);
        AllocCovers(ir[k + 1..], Alloc(curOffset, offsetMap));
        RenameStable(ir[k], offsetMap, last);
        asmInstructions := asmInstructions[k := i'];
        k := k + 1;
      }
    }
  }

  /** `IRFunction::code_gen`: the lines of the body, appended one instruction after the other. */
  method PrintFunction(code: seq<Instr>) returns (out: seq<Instr>)
    ensures out == Printed(code)
  {
    out := [];
    var k := 0;
    while k < |code|
      invariant 0 <= k <= |code|
      invariant out == Concat(Print, code[..k])
    {
      ConcatTake(Print, code, k);
      out := out + Print(code[k]);
      k := k + 1;
    }
    assert code[..k] == code;
  }
}
