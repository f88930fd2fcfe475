/** Jumps by the text of a label. */
module Spelled {
  // An assembler knows a label by its text only.  Labels with different structure are
  // spelled differently, so running by text is running by structure.

  import opened Names
  import opened Flow

  /** Where a label of this text is placed for the first time; |code| when it is not placed. */
  function IndexOfText<I, S>(m: Machine<I, S>, code: seq<I>, text: string): (n: nat)
    ensures n <= |code|
  {
    if code == [] then 0
    else
      var name := m.labelOf(code[0]);
      if name.Some? && SpellLabel(name.value) == text then 0 else 1 + IndexOfText(m, code[1..], text)
  }

  /** `Run`, with every jump to the text of its label. */
  function RunText<I, S>(m: Machine<I, S>, code: seq<I>, pc: nat, s: S, fuel: nat): Outcome
    decreases fuel
  {
    if pc >= |code| then Stuck
    else if fuel == 0 then OutOfSteps
    else
      match m.step(code[pc], s)
      case Next(s') => RunText(m, code, pc + 1, s', fuel - 1)
      case Halt(out) => out
      case Goto(name, s') => RunText(m, code, IndexOfText(m, code, SpellLabel(name)), s', fuel - 1)
  }

  lemma {:induction false} IndexOfTextIs<I, S>(m: Machine<I, S>, code: seq<I>, name: LabelName)
    ensures IndexOfText(m, code, SpellLabel(name)) == IndexOf(m, code, name)
  {
    if code != [] {
      var other := m.labelOf(code[0]);
      if other.Some? && SpellLabel(other.value) == SpellLabel(name) { SpellLabelInjective(other.value, name); }
      IndexOfTextIs(m, code[1..], name);
    }
  }

  /** Running by the text of labels is running by the labels. */
  lemma {:induction false} RunTextIsRun<I, S>(m: Machine<I, S>, code: seq<I>, pc: nat, s: S, fuel: nat)
    ensures RunText(m, code, pc, s, fuel) == Run(m, code, pc, s, fuel)
    decreases fuel
  {
    if pc < |code| && fuel > 0 {
      var c := m.step(code[pc], s);
      if c.Next? {
        RunTextIsRun(m, code, pc + 1, c.s, fuel - 1);
      } else if c.Goto? {
        IndexOfTextIs(m, code, c.dest);
        RunTextIsRun(m, code, IndexOf(m, code, c.dest), c.s, fuel - 1);
      }
    }
  }
}
