/** An instruction the AArch64 relocator accepts and does not preserve. */
module A64Examples {
  import opened Bytes
  import opened Runs
  import opened BitField
  import opened A64Machine
  import opened ArmReloc
  import opened A64Reloc
  import opened ArmShape
  import opened A64Decode
  import opened A64Simulation

  /** The load put in the place of a literal load into register 31 goes through the stack pointer. */
  lemma ThroughStackPointer<E>(m: Machine<E>, base: Address, code: seq<Byte>, p: nat, width: Width, cpu: Cpu<E>)
    requires m.Holds(base, code) && p + 4 <= |code| && m.decode(WordAt(code, p)) == LoadOffset(width, 31, 31, 0)
    ensures m.Step(State(base + p, cpu))
         == if m.LoadValue(width, cpu, cpu.sp).Some? then Some(State(base + p + 4, cpu)) else None
  {
    StepAt(m, base, code, p, cpu);
    assert WrappingAdd(cpu.Base(31), 0) == cpu.sp;
  }

  /** A step that goes on when `original` holds, and two that do when `copy` does. */
  lemma PairMatchesExact<E>(step: State<E> -> Option<State<E>>, pc: Address, base: Address, item: Item, delta: nat,
                            cpu: Cpu<E>, original: bool, copy: bool)
    requires item.Load? && pc + item.at + 4 < 0x1_0000_0000_0000_0000
    requires base + item.at + 8 + delta < 0x1_0000_0000_0000_0000
    requires step(State(pc + item.at, cpu)) == if original then Some(State(pc + item.at + 4, cpu)) else None
    requires step(State(base + item.at + delta, cpu)) == Some(State(base + item.at + delta + 4, cpu))
    requires step(State(base + item.at + delta + 4, cpu))
          == if copy then Some(State(base + item.at + 8 + delta, cpu)) else None
    ensures MatchedIn(step, pc, base, item, delta, cpu) <==> original == copy
  {
    RunTwo(step, State(base + item.at + delta, cpu), State(base + item.at + delta + 4, cpu));
  }

  /** A literal load that discards what it loads is matched by the new code exactly when the literal and what the stack
      pointer names are both mapped, or neither is. */
  lemma DiscardedLoadExact<E>(m: Machine<E>, t: seq<Byte>, pc: Address, code: seq<Byte>, base: Address,
                              item: Item, delta: nat, pool: nat, insn: Insn, cpu: Cpu<E>)
    requires m.Holds(pc, t) && m.Holds(base, code) && item.Load? && item.reg == 31
    requires Placed(Loading(m.decode, code, pool), code, t, item, delta) && insn == m.decode(WordAt(t, item.at))
    requires Describes(m.decode, item, insn, pc + item.at, pc)
    ensures MatchedIn(m.Step, pc, base, item, delta, cpu)
            <==> m.LoadValue(insn.width, cpu, item.target).Some? == m.LoadValue(insn.width, cpu, cpu.sp).Some?
  {
    var p := item.at + delta;
    ThroughWord(code, t, item, delta);
    DiscardedSteps(m, t, pc, code, base, item, p, insn, pool, cpu);
    PairMatchesExact(m.Step, pc, base, item, delta, cpu, m.LoadValue(insn.width, cpu, item.target).Some?,
                     m.LoadValue(insn.width, cpu, cpu.sp).Some?);
  }

  /** The load of an address and the load through the stack pointer, at offset `p` of the new code, for such a load in
      the template. */
  lemma DiscardedSteps<E>(m: Machine<E>, t: seq<Byte>, pc: Address, code: seq<Byte>, base: Address, item: Item, p: nat,
                          insn: Insn, pool: nat, cpu: Cpu<E>)
    requires m.Holds(pc, t) && m.Holds(base, code) && item.at + 4 <= |t| && p + 8 <= |code| && item.Load?
    requires insn == m.decode(WordAt(t, item.at)) && insn.LoadLiteral? && insn.rt == item.reg == 31
    requires WrappingAdd(pc + item.at, insn.offset) == item.target
    requires LoadsTarget(m.decode, code, p, 31, item.target, pool)
    requires m.decode(WordAt(code, p + 4)) == LoadOffset(insn.width, 31, 31, 0)
    ensures m.Step(State(pc + item.at, cpu))
         == if m.LoadValue(insn.width, cpu, item.target).Some? then Some(State(pc + item.at + 4, cpu)) else None
    ensures m.Step(State(base + p, cpu)) == Some(State(base + p + 4, cpu))
    ensures m.Step(State(base + p + 4, cpu))
         == if m.LoadValue(insn.width, cpu, cpu.sp).Some? then Some(State(base + p + 8, cpu)) else None
  {
    TemplateLoadSteps(m, t, pc, item, cpu, insn);
    LoadsTargetSteps(m, base, code, p, cpu, 31, item.target, pool);
    ThroughStackPointer(m, base, code, p + 4, insn.width, cpu);
  }

  /** LDR XZR of the load's own address. */
  const DISCARDED_LOAD: Word := 0x5800_001F

  lemma DiscardedFields(w: Word)
    requires w == DISCARDED_LOAD
    ensures Decode(w) == LoadLiteral(Word64, 31, 0)
  {
    FarPowers();
    DiscardedDigits(w);
    FieldValue(Field(0, 5), w, 1, 0x20, 31);
    FieldValue(Field(5, 24), w, 0x20, 0x8_0000, 0);
    FieldValue(Field(24, 30), w, 0x100_0000, 0x40, 24);
    FieldValue(Field(30, 32), w, 0x4000_0000, 4, 1);
    DiscardedDecodes(w);
  }

  lemma DiscardedDecodes(w: Word)
    requires Field(0, 5).Get(w) == 31 && Field(5, 24).Get(w) == 0
    requires Field(24, 30).Get(w) == 24 && Field(30, 32).Get(w) == 1
    ensures Decode(w) == LoadLiteral(Word64, 31, 0)
  {
  }

  lemma DiscardedDigits(w: nat)
    requires w == 0x5800_001F
    ensures w / 1 % 0x20 == 31 && w / 0x20 % 0x8_0000 == 0
    ensures w / 0x100_0000 % 0x40 == 24 && w / 0x4000_0000 % 4 == 1
  {
  }

  lemma DiscardedLoadSteps<E>(m: Machine<E>, t: seq<Byte>, pc: Address, item: Item, cpu: Cpu<E>)
    requires m.Holds(pc, t) && item.Load? && item.at + 8 <= |t| && item.reg == 31 && item.target == pc + item.at
    requires m.decode(WordAt(t, item.at)) == LoadLiteral(Word64, 31, 0)
    ensures m.LoadValue(Word64, cpu, item.target).Some?
    ensures m.Step(State(pc + item.at, cpu)) == Some(State(pc + item.at + 4, cpu))
  {
    ReadHolds(m, pc, t, cpu, item.at, 8);
    TemplateLoadSteps(m, t, pc, item, cpu, m.decode(WordAt(t, item.at)));
  }

  /** The scan takes a load of its own address into register 31 for a load to rewrite. */
  lemma DiscardedLoadVisited<E>(m: Machine<E>, recognise: Recogniser, w: Word, pc: Address, len: nat, magic: nat,
                                o: nat) returns (item: Item)
    requires Recognises(m, recognise) && m.decode(w) == LoadLiteral(Word64, 31, 0)
    requires o + 4 <= len && pc + len < 0x1_0000_0000_0000_0000 && o != magic
    ensures Decide(recognise(w, pc + o), false, pc, len, magic, o) == Visited(item)
    ensures item.Load? && item.at == o && item.reg == 31 && item.target == pc + o
    ensures Describes(m.decode, item, m.decode(w), pc + o, pc)
  {
    var d := recognise(w, pc + o);
    assert AgreesOn(m.decode, d, m.decode(w), pc + o);
    item := Load(o, 31, pc + o, d.through.value);
  }

  lemma DiscardedFaults<E>(m: Machine<E>, recognise: Recogniser, w: Word, t: seq<Byte>, pc: Address, magic: nat, o: nat,
                           code: seq<Byte>, base: Address, delta: nat, pool: nat, cpu: Cpu<E>) returns (item: Item)
    requires Recognises(m, recognise) && m.decode(w) == LoadLiteral(Word64, 31, 0)
    requires m.Holds(pc, t) && m.Holds(base, code) && o + 8 <= |t| && WordAt(t, o) == w && o != magic
    ensures Decide(recognise(w, pc + o), false, pc, |t|, magic, o) == Visited(item)
    ensures item.Load? && item.at == o && m.Step(State(pc + o, cpu)) == Some(State(pc + o + 4, cpu))
    ensures Placed(Loading(m.decode, code, pool), code, t, item, delta) ==>
              (MatchedIn(m.Step, pc, base, item, delta, cpu) <==> m.LoadValue(Word64, cpu, cpu.sp).Some?)
  {
    item := DiscardedLoadVisited(m, recognise, w, pc, |t|, magic, o);
    DiscardedLoadSteps(m, t, pc, item, cpu);
    if Placed(Loading(m.decode, code, pool), code, t, item, delta) {
      DiscardedLoadExact(m, t, pc, code, base, item, delta, pool, m.decode(w), cpu);
    }
  }

  lemma DiscardedDecoded<E>(m: Machine<E>, w: Word)
    requires m.IsA64() && w == DISCARDED_LOAD
    ensures m.decode(w) == LoadLiteral(Word64, 31, 0)
  {
    DiscardedFields(w);
    assert m.decode(w) == Decode(w);
  }

  /** Wherever a template has the word, it is accepted, the original does not fault there, and the new code faults
      exactly where the stack pointer does not name eight mapped bytes. */
  lemma DiscardedLoadFaults<E>(m: Machine<E>, t: seq<Byte>, pc: Address, magic: nat, o: nat, code: seq<Byte>,
                               base: Address, delta: nat, pool: nat, cpu: Cpu<E>) returns (item: Item)
    requires m.IsA64() && m.Holds(pc, t) && m.Holds(base, code)
    requires o + 8 <= |t| && WordAt(t, o) == DISCARDED_LOAD && o != magic
    ensures Decide(A64Recogniser()(DISCARDED_LOAD, pc + o), false, pc, |t|, magic, o) == Visited(item)
    ensures item.Load? && item.at == o && m.Step(State(pc + o, cpu)) == Some(State(pc + o + 4, cpu))
    ensures Placed(Loading(m.decode, code, pool), code, t, item, delta) ==>
              (MatchedIn(m.Step, pc, base, item, delta, cpu) <==> m.LoadValue(Word64, cpu, cpu.sp).Some?)
  {
    A64RecogniserAgrees(m);
    DiscardedDecoded(m, DISCARDED_LOAD);
    item := DiscardedFaults(m, A64Recogniser(), DISCARDED_LOAD, t, pc, magic, o, code, base, delta, pool, cpu);
  }
}
