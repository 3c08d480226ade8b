/** The relocated prologue does what the original prologue does, wherever it is placed. */
module A64Simulation {
  import opened Bytes
  import opened Runs
  import opened A64Machine
  import opened ArmReloc
  import opened A64Reloc
  import opened ArmLayout
  import opened ArmShape
  import opened A64Decode

  // ---------- what the scan knows about an instruction ----------

  /** `item` describes the instruction `insn` at address `a` of a template mapped at `pc`. */
  predicate Describes(decode: Word -> Insn, item: Item, insn: Insn, a: Address, pc: Address) {
    match item
    case Kept(_) => insn.LoadOffset? || insn.Other?
    case Followed(_, to) => insn.Jump? && WrappingAdd(a, insn.offset) == pc + to
    case Load(_, reg, target, word) =>
      && insn.LoadLiteral? && insn.rt == reg && WrappingAdd(a, insn.offset) == target
      && decode(word) == LoadOffset(insn.width, reg, reg, 0)
    case AddressOf(_, reg, target) =>
      insn.PcRelative? && insn.rd == reg && PcRelativeTarget(insn.page, insn.imm, a) == target
  }

  predicate Leaves(insn: Insn) { insn.JumpRegister? || insn.OtherBranch? }

  /** The disassembler says that the instruction is a jump, a call, a return or a relative branch, if it is a branch
      other than B. */
  predicate BranchReported(decode: Word -> Insn, cs: Disassembler, w: Word) {
    Leaves(decode(w)) && cs(w).Some? ==> IsBranchGroup(cs(w).value)
  }

  /** CS_GRP_JUMP, CS_GRP_CALL, CS_GRP_RET and CS_GRP_BRANCH_RELATIVE. */
  predicate IsBranchGroup(groups: seq<nat>) { 1 in groups || 2 in groups || 3 in groups || 7 in groups }

  lemma BranchRefused(groups: seq<nat>)
    requires IsBranchGroup(groups)
    ensures HasUnsupportedInsnGroup(groups)
  {
    UnsupportedExact(groups);
  }

  /** The disassembler reports every branch among the instructions visited. */
  ghost predicate ReportsBranches(decode: Word -> Insn, cs: Disassembler, t: seq<Byte>, items: seq<Item>) {
    forall i | 0 <= i < |items| && items[i].at + 4 <= |t| :: BranchReported(decode, cs, WordAt(t, items[i].at))
  }

  /** A forward branch from an aligned offset leads to an aligned offset. */
  lemma FollowedAligned(pc: Address, o: nat, offset: int)
    requires o % 4 == 0 && offset % 4 == 0
    ensures WrappingAdd(pc + o, offset) >= pc ==> (WrappingAdd(pc + o, offset) - pc) % 4 == 0
  {
    var x := pc + o + offset;
    var q := x / 0x1_0000_0000_0000_0000;
    assert WrappingAdd(pc + o, offset) - pc == 4 * (o / 4 + offset / 4 - 0x4000_0000_0000_0000 * q);
  }

  /** `Agrees`, on a given machine. */
  predicate AgreesOn(decode: Word -> Insn, d: Decoded, insn: Insn, a: Address) {
    match d
    case AnLdr(reg, target, through) =>
      && insn.LoadLiteral? && insn.rt == reg < 32 && WrappingAdd(a, insn.offset) == target
      && through.Some? && decode(through.value) == LoadOffset(insn.width, reg, reg, 0)
    case AnAdr(reg, target) => insn.PcRelative? && insn.rd == reg < 32
    case ABranch(target) => insn.Jump? && WrappingAdd(a, insn.offset) == target && insn.offset % 4 == 0
    case Another => insn.LoadOffset? || Leaves(insn) || insn.Other?
  }

  /** The target recorded for an ADR or ADRP at address `a` is the value the instruction has there. */
  predicate RightTarget(item: Item, insn: Insn, a: Address) {
    item.AddressOf? && insn.PcRelative? ==> PcRelativeTarget(insn.page, insn.imm, a) == item.target
  }

  /** The decoders understand every word, but for the sign of some ADRs. */
  ghost predicate Recognises<E>(m: Machine<E>, recognise: Recogniser) {
    forall w: Word, a: Address :: AgreesOn(m.decode, recognise(w, a), m.decode(w), a)
  }

  lemma A64RecogniserAgrees<E>(m: Machine<E>)
    requires m.IsA64()
    ensures Recognises(m, A64Recogniser())
  {
    forall w: Word, a: Address
      ensures AgreesOn(m.decode, A64Recogniser()(w, a), m.decode(w), a)
    {
      RecogniseAgrees(w, a);
      JumpAligned(w);
      RecogniseAgreesOn(m, Recognise(w, a), w, a);
    }
  }

  lemma RecogniseAgreesOn<E>(m: Machine<E>, d: Decoded, w: Word, a: Address)
    requires m.IsA64() && Agrees(d, Decode(w), w, a) && (Decode(w).Jump? ==> Decode(w).offset % 4 == 0)
    ensures AgreesOn(m.decode, d, m.decode(w), a)
  {
    assert m.decode(w) == Decode(w);
    if d.AnLdr? && d.through.Some? {
      assert m.decode(d.through.value) == Decode(d.through.value);
    }
  }

  /** What the scan decides about a word is what the word means, when the target of an ADR is right. */
  lemma DecideDescribes(decode: Word -> Insn, d: Decoded, insn: Insn, unsupported: bool,
                        pc: Address, len: nat, magic: nat, o: nat)
    requires pc + len < 0x1_0000_0000_0000_0000 && o + 4 <= len
    requires AgreesOn(decode, d, insn, pc + o) && (Leaves(insn) ==> unsupported)
    ensures var visit := Decide(d, unsupported, pc, len, magic, o);
            && (visit.Visited? ==>
                  && (visit.item.Rewritten() ==> visit.item.reg < 32)
                  && (RightTarget(visit.item, insn, pc + o) ==> Describes(decode, visit.item, insn, pc + o, pc)))
            && (visit.Reached? ==> insn.LoadLiteral? && WrappingAdd(pc + o, insn.offset) == pc + magic)
  {
  }

  lemma DecideAligned(decode: Word -> Insn, d: Decoded, insn: Insn, unsupported: bool,
                      pc: Address, len: nat, magic: nat, o: nat)
    requires pc + len < 0x1_0000_0000_0000_0000 && o + 4 <= len && o % 4 == 0
    requires AgreesOn(decode, d, insn, pc + o)
    ensures var visit := Decide(d, unsupported, pc, len, magic, o);
            visit.Visited? ==> visit.item.Next() % 4 == 0
  {
    if d.ABranch? {
      FollowedAligned(pc, o, insn.offset);
    }
  }

  // ---------- one instruction ----------

  /** The outcome of `r`, continued at address `a`. */
  function Moved<E>(r: Option<State<E>>, a: Address): Option<State<E>> {
    match r
    case None => None
    case Some(s) => Some(State(a, s.cpu))
  }

  /** How many steps of the new code match one step of the template. */
  function Steps(item: Item): nat { if item.Load? then 2 else 1 }

  /** At offset `p`, `code` loads the literal `target`, found at offset `q` in the pool, into `reg`. */
  predicate LoadsFrom(decode: Word -> Insn, code: seq<Byte>, p: nat, reg: nat, target: Address, pool: nat, q: nat) {
    && p + 4 <= |code| && pool <= q && q + 8 <= |code| && code[q..q + 8] == Le8(target)
    && decode(WordAt(code, p)) == LoadLiteral(Word64, reg, q - p)
  }

  ghost predicate LoadsTarget(decode: Word -> Insn, code: seq<Byte>, p: nat, reg: nat, target: Address, pool: nat) {
    exists q :: LoadsFrom(decode, code, p, reg, target, pool, q)
  }

  /** The placeholders that load their targets from the pool. */
  ghost function Loading(decode: Word -> Insn, code: seq<Byte>, pool: nat): Fixup -> bool {
    (f: Fixup) => LoadsTarget(decode, code, f.at, f.reg, f.target, pool)
  }

  /** The instruction does the same at every address. */
  ghost predicate Movable<E(!new)>(m: Machine<E>, w: Word) {
    forall p: Address, q: Address, cpu: Cpu<E> :: m.exec(w, p, cpu) == m.exec(w, q, cpu)
  }

  lemma StepAt<E>(m: Machine<E>, base: Address, code: seq<Byte>, p: nat, cpu: Cpu<E>)
    requires m.Holds(base, code) && p + 4 <= |code|
    ensures m.Step(State(base + p, cpu)) == m.Execute(m.decode(WordAt(code, p)), WordAt(code, p), State(base + p, cpu))
    ensures WrappingAdd(base + p, 4) == base + p + 4
  {
    FetchHolds(m, base, code, p);
  }

  lemma LiteralAt<E>(m: Machine<E>, base: Address, code: seq<Byte>, p: nat, q: nat, cpu: Cpu<E>, target: Address)
    requires m.Holds(base, code) && p <= |code| && q + 8 <= |code| && code[q..q + 8] == Le8(target)
    ensures WrappingAdd(base + p, q - p) == base + q && m.LoadValue(Word64, cpu, base + q) == Some(target)
  {
    ReadHolds(m, base, code, cpu, q, 8);
    Le8RoundTrip(target);
  }

  /** The effect of a literal load of `target` at offset `p` of the new code. */
  lemma LoadsTargetSteps<E>(m: Machine<E>, base: Address, code: seq<Byte>, p: nat, cpu: Cpu<E>, reg: nat,
                            target: Address, pool: nat)
    requires m.Holds(base, code) && LoadsTarget(m.decode, code, p, reg, target, pool)
    ensures p + 4 <= |code|
    ensures m.Step(State(base + p, cpu)) == Some(State(base + p + 4, cpu.SetX(reg, target)))
  {
    var q :| LoadsFrom(m.decode, code, p, reg, target, pool, q);
    StepAt(m, base, code, p, cpu);
    LiteralAt(m, base, code, p, q, cpu, target);
  }

  // ---------- each kind of instruction ----------

  /** An instruction that is kept has the same effect in both places. */
  lemma ExecuteKept<E(!new)>(m: Machine<E>, insn: Insn, w: Word, a: Address, a': Address, next: Address, next': Address,
                             cpu: Cpu<E>)
    requires (insn.LoadOffset? || insn.Other?) && Movable(m, w)
    requires next == WrappingAdd(a, 4) && next' == WrappingAdd(a', 4)
    ensures m.Execute(insn, w, State(a', cpu)) == Moved(m.Execute(insn, w, State(a, cpu)), next')
    ensures m.Execute(insn, w, State(a, cpu)).Some? ==> m.Execute(insn, w, State(a, cpu)).value.pc == next
  {
    assert m.exec(w, a, cpu) == m.exec(w, a', cpu);
  }

  lemma KeptSimulates<E(!new)>(m: Machine<E>, t: seq<Byte>, pc: Address, code: seq<Byte>, base: Address,
                         item: Item, delta: nat, pool: nat, cpu: Cpu<E>)
    requires m.Holds(pc, t) && m.Holds(base, code) && item.Kept?
    requires Placed(Loading(m.decode, code, pool), code, t, item, delta)
    requires Describes(m.decode, item, m.decode(WordAt(t, item.at)), pc + item.at, pc)
    requires Movable(m, WordAt(t, item.at))
    ensures m.Step(State(base + item.at + delta, cpu))
         == Moved(m.Step(State(pc + item.at, cpu)), base + item.at + 4 + delta)
    ensures m.Step(State(pc + item.at, cpu)).Some? ==> m.Step(State(pc + item.at, cpu)).value.pc == pc + item.at + 4
  {
    var w := WordAt(t, item.at);
    assert WordAt(code, item.at + delta) == w;
    KeptSteps(m, t, pc, code, base, item.at, item.at + delta, w, m.decode(w), cpu);
  }

  /** An instruction of the template, and the same word at offset `q` of the new code. */
  lemma KeptSteps<E(!new)>(m: Machine<E>, t: seq<Byte>, pc: Address, code: seq<Byte>, base: Address, p: nat, q: nat,
                           w: Word, insn: Insn, cpu: Cpu<E>)
    requires m.Holds(pc, t) && m.Holds(base, code) && p + 4 <= |t| && q + 4 <= |code|
    requires WordAt(t, p) == WordAt(code, q) == w && insn == m.decode(w)
    requires (insn.LoadOffset? || insn.Other?) && Movable(m, w)
    ensures m.Step(State(base + q, cpu)) == Moved(m.Step(State(pc + p, cpu)), base + q + 4)
    ensures m.Step(State(pc + p, cpu)).Some? ==> m.Step(State(pc + p, cpu)).value.pc == pc + p + 4
  {
    var a, a' := pc + p, base + q;
    StepAt(m, pc, t, p, cpu);
    StepAt(m, base, code, q, cpu);
    ExecuteKept(m, insn, w, a, a', a + 4, a' + 4, cpu);
  }

  lemma FollowedSimulates<E>(m: Machine<E>, t: seq<Byte>, pc: Address, code: seq<Byte>, base: Address,
                             item: Item, delta: nat, pool: nat, cpu: Cpu<E>)
    requires m.Holds(pc, t) && m.Holds(base, code) && item.Followed?
    requires Placed(Loading(m.decode, code, pool), code, t, item, delta)
    requires Describes(m.decode, item, m.decode(WordAt(t, item.at)), pc + item.at, pc)
    requires item.to <= |t| && item.to + delta <= |code|
    ensures m.Step(State(base + item.at + delta, cpu)) == Some(State(base + item.to + delta, cpu))
    ensures m.Step(State(pc + item.at, cpu)) == Some(State(pc + item.to, cpu))
  {
    var insn := m.decode(WordAt(t, item.at));
    assert WordAt(code, item.at + delta) == WordAt(t, item.at);
    SameJump(pc, base, item.at, item.to, insn.offset, delta);
    JumpSteps(m, pc, t, item.at, insn.offset, pc + item.to, cpu);
    JumpSteps(m, base, code, item.at + delta, insn.offset, base + item.to + delta, cpu);
  }

  lemma JumpSteps<E>(m: Machine<E>, base: Address, code: seq<Byte>, p: nat, offset: int, to: Address, cpu: Cpu<E>)
    requires m.Holds(base, code) && p + 4 <= |code| && m.decode(WordAt(code, p)) == Jump(offset)
    requires WrappingAdd(base + p, offset) == to
    ensures m.Step(State(base + p, cpu)) == Some(State(to, cpu))
  {
    StepAt(m, base, code, p, cpu);
  }

  /** A branch whose source and target move by the same amount still leads from one to the other. */
  lemma SameJump(pc: Address, base: Address, at: nat, to: nat, offset: int, delta: nat)
    requires WrappingAdd(pc + at, offset) == pc + to && base + to + delta < 0x1_0000_0000_0000_0000
    ensures WrappingAdd(base + at + delta, offset) == base + to + delta
  {
    var x := pc + at + offset;
    var k := x / 0x1_0000_0000_0000_0000;
    assert base + at + delta + offset == base + to + delta + 0x1_0000_0000_0000_0000 * k;
  }

  lemma AddressSimulates<E>(m: Machine<E>, t: seq<Byte>, pc: Address, code: seq<Byte>, base: Address,
                            item: Item, delta: nat, pool: nat, cpu: Cpu<E>)
    requires m.Holds(pc, t) && m.Holds(base, code) && item.AddressOf?
    requires Placed(Loading(m.decode, code, pool), code, t, item, delta)
    requires Describes(m.decode, item, m.decode(WordAt(t, item.at)), pc + item.at, pc)
    ensures m.Step(State(pc + item.at, cpu)) == Some(State(pc + item.at + 4, cpu.SetX(item.reg, item.target)))
    ensures m.Step(State(base + item.at + delta, cpu))
         == Some(State(base + item.at + 4 + delta, cpu.SetX(item.reg, item.target)))
  {
    AddressStep(m, t, pc, item, m.decode(WordAt(t, item.at)), cpu);
    LoadsTargetSteps(m, base, code, item.at + delta, cpu, item.reg, item.target, pool);
  }

  /** ADR or ADRP in the template. */
  lemma AddressStep<E>(m: Machine<E>, t: seq<Byte>, pc: Address, item: Item, insn: Insn, cpu: Cpu<E>)
    requires m.Holds(pc, t) && item.at + 4 <= |t| && item.AddressOf? && insn == m.decode(WordAt(t, item.at))
    requires insn.PcRelative? && insn.rd == item.reg
    requires PcRelativeTarget(insn.page, insn.imm, pc + item.at) == item.target
    ensures m.Step(State(pc + item.at, cpu)) == Some(State(pc + item.at + 4, cpu.SetX(item.reg, item.target)))
  {
    StepAt(m, pc, t, item.at, cpu);
  }

  /** The second half of a rewritten load: through the register that now holds the address. */
  lemma ThroughSteps<E>(m: Machine<E>, base: Address, code: seq<Byte>, p: nat, width: Width, reg: nat, cpu: Cpu<E>,
                        target: Address)
    requires m.Holds(base, code) && p + 4 <= |code| && reg < 31
    requires m.decode(WordAt(code, p)) == LoadOffset(width, reg, reg, 0)
    ensures m.Step(State(base + p, cpu.SetX(reg, target)))
         == match m.LoadValue(width, cpu, target)
            case None => None
            case Some(v) => Some(State(base + p + 4, cpu.SetX(reg, v)))
  {
    var loaded := cpu.SetX(reg, target);
    StepAt(m, base, code, p, loaded);
    SameLoad(m, width, cpu, loaded, target);
    SetTwice(cpu, reg, target);
  }

  /** Setting a register to an address makes it the base, and setting it again forgets the address. */
  lemma SetTwice<E>(cpu: Cpu<E>, reg: nat, target: Address)
    requires reg < 31
    ensures WrappingAdd(cpu.SetX(reg, target).Base(reg), 0) == target
    ensures forall v: Address :: cpu.SetX(reg, target).SetX(reg, v) == cpu.SetX(reg, v)
  {
  }

  /** A literal load in the template. */
  lemma TemplateLoadSteps<E>(m: Machine<E>, t: seq<Byte>, pc: Address, item: Item, cpu: Cpu<E>, insn: Insn)
    requires m.Holds(pc, t) && item.at + 4 <= |t| && item.Load? && insn == m.decode(WordAt(t, item.at))
    requires insn.LoadLiteral? && insn.rt == item.reg && WrappingAdd(pc + item.at, insn.offset) == item.target
    ensures m.Step(State(pc + item.at, cpu))
         == match m.LoadValue(insn.width, cpu, item.target)
            case None => None
            case Some(v) => Some(State(pc + item.at + 4, cpu.SetX(item.reg, v)))
  {
    StepAt(m, pc, t, item.at, cpu);
  }

  /** The load of an address and the load through it, at offset `p` of the new code, for a literal load in the
      template. */
  lemma LoadSteps<E>(m: Machine<E>, t: seq<Byte>, pc: Address, code: seq<Byte>, base: Address, item: Item, p: nat,
                     insn: Insn, pool: nat, cpu: Cpu<E>, first: State<E>, between: State<E>, end: Address)
    requires m.Holds(pc, t) && m.Holds(base, code) && item.at + 4 <= |t| && p + 8 <= |code| && item.Load?
    requires insn == m.decode(WordAt(t, item.at)) && insn.LoadLiteral? && insn.rt == item.reg < 31
    requires WrappingAdd(pc + item.at, insn.offset) == item.target
    requires LoadsTarget(m.decode, code, p, item.reg, item.target, pool)
    requires m.decode(WordAt(code, p + 4)) == LoadOffset(insn.width, item.reg, item.reg, 0)
    requires first == State(base + p, cpu) && between == State(base + p + 4, cpu.SetX(item.reg, item.target))
    requires end == base + p + 8
    ensures m.Step(first) == Some(between)
    ensures m.Step(between) == Moved(m.Step(State(pc + item.at, cpu)), end)
    ensures m.Step(State(pc + item.at, cpu)).Some? ==> m.Step(State(pc + item.at, cpu)).value.pc == pc + item.at + 4
  {
    TemplateLoadSteps(m, t, pc, item, cpu, insn);
    LoadsTargetSteps(m, base, code, p, cpu, item.reg, item.target, pool);
    ThroughSteps(m, base, code, p + 4, insn.width, item.reg, cpu, item.target);
  }

  lemma LoadSimulates<E>(m: Machine<E>, t: seq<Byte>, pc: Address, code: seq<Byte>, base: Address,
                         item: Item, delta: nat, pool: nat, cpu: Cpu<E>)
    requires m.Holds(pc, t) && m.Holds(base, code) && item.Load?
    requires Placed(Loading(m.decode, code, pool), code, t, item, delta)
    requires Describes(m.decode, item, m.decode(WordAt(t, item.at)), pc + item.at, pc) && item.reg < 31
    ensures m.Step(State(base + item.at + delta, cpu))
         == Some(State(base + item.at + delta + 4, cpu.SetX(item.reg, item.target)))
    ensures m.Step(State(base + item.at + delta + 4, cpu.SetX(item.reg, item.target)))
         == Moved(m.Step(State(pc + item.at, cpu)), base + item.at + 4 + delta + 4)
    ensures m.Step(State(pc + item.at, cpu)).Some? ==> m.Step(State(pc + item.at, cpu)).value.pc == pc + item.at + 4
  {
    var p, insn := item.at + delta, m.decode(WordAt(t, item.at));
    ThroughWord(code, t, item, delta);
    var first, between := State(base + p, cpu), State(base + p + 4, cpu.SetX(item.reg, item.target));
    LoadSteps(m, t, pc, code, base, item, p, insn, pool, cpu, first, between, base + p + 8);
  }

  /** Loads see memory, not registers. */
  lemma SameLoad<E>(m: Machine<E>, width: Width, cpu: Cpu<E>, other: Cpu<E>, a: Address)
    requires cpu.ram == other.ram
    ensures m.LoadValue(width, cpu, a) == m.LoadValue(width, other, a)
  {
    SameRead(m, cpu, other, a, 4);
    SameRead(m, cpu, other, a, 8);
  }

  lemma SameRead<E>(m: Machine<E>, cpu: Cpu<E>, other: Cpu<E>, a: Address, n: nat)
    requires cpu.ram == other.ram
    ensures m.Read(cpu, a, n) == m.Read(other, a, n)
  {
    if m.Read(cpu, a, n).Some? {
      assert m.Read(cpu, a, n).value == m.Read(other, a, n).value;
    }
  }

  // ---------- whole prologues ----------

  /** One step of the template from `item` in state `cpu`, and the steps of the new code that match it. */
  ghost predicate MatchedIn<E>(step: State<E> -> Option<State<E>>, pc: Address, base: Address, item: Item, delta: nat,
                               cpu: Cpu<E>)
    requires pc + item.at < 0x1_0000_0000_0000_0000 && pc + item.Next() < 0x1_0000_0000_0000_0000
    requires base + item.at + delta < 0x1_0000_0000_0000_0000
    requires base + item.Next() + After(item, delta) < 0x1_0000_0000_0000_0000
  {
    var s := step(State(pc + item.at, cpu));
    && (s.Some? ==> s.value.pc == pc + item.Next())
    && Run(step, Steps(item), State(base + item.at + delta, cpu)) == Moved(s, base + item.Next() + After(item, delta))
  }

  ghost predicate Matched<E(!new)>(step: State<E> -> Option<State<E>>, pc: Address, base: Address, item: Item,
                                   delta: nat)
    requires pc + item.at < 0x1_0000_0000_0000_0000 && pc + item.Next() < 0x1_0000_0000_0000_0000
    requires base + item.at + delta < 0x1_0000_0000_0000_0000
    requires base + item.Next() + After(item, delta) < 0x1_0000_0000_0000_0000
  {
    forall cpu: Cpu<E> :: MatchedIn(step, pc, base, item, delta, cpu)
  }

  ghost predicate AllMatched<E(!new)>(step: State<E> -> Option<State<E>>, pc: Address, base: Address,
                                      items: seq<Item>, delta: nat, o: nat, asmAt: nat)
    requires Chain(items, o, asmAt) && pc + asmAt < 0x1_0000_0000_0000_0000
    requires base + asmAt + delta + 4 * Loads(items) < 0x1_0000_0000_0000_0000
    decreases items
  {
    items == [] ||
    (ChainBound(items[1..], items[0].Next(), asmAt);
     && Matched(step, pc, base, items[0], delta)
     && AllMatched(step, pc, base, items[1..], After(items[0], delta), items[0].Next(), asmAt))
  }

  /** The steps of the new code for a whole path. */
  lemma {:induction false} RunsMatch<E(!new)>(step: State<E> -> Option<State<E>>, pc: Address, base: Address,
                                              items: seq<Item>, delta: nat, o: nat, asmAt: nat, cpu: Cpu<E>)
    requires Chain(items, o, asmAt) && pc + asmAt < 0x1_0000_0000_0000_0000
    requires base + asmAt + delta + 4 * Loads(items) < 0x1_0000_0000_0000_0000
    requires AllMatched(step, pc, base, items, delta, o, asmAt)
    ensures o <= asmAt
    ensures var s := Run(step, |items|, State(pc + o, cpu));
            && (s.Some? ==> s.value.pc == pc + asmAt)
            && Run(step, |items| + Loads(items), State(base + o + delta, cpu))
            == Moved(s, base + asmAt + delta + 4 * Loads(items))
    decreases items
  {
    ChainBound(items, o, asmAt);
    if items == [] {
    } else {
      var item, rest := items[0], items[1..];
      ChainBound(rest, item.Next(), asmAt);
      var d := After(item, delta);
      var s := step(State(pc + o, cpu));
      var start := State(base + o + delta, cpu);
      assert MatchedIn(step, pc, base, item, delta, cpu);
      assert Run(step, Steps(item), start) == Moved(s, base + item.Next() + d);
      if s.Some? {
        RunsMatch(step, pc, base, rest, d, item.Next(), asmAt, s.value.cpu);
        RunCompose(step, Steps(item), |rest| + Loads(rest), start);
      } else {
        RunFaults(step, Steps(item), |rest| + Loads(rest), start);
      }
    }
  }

  /** What the relocator does not check about an instruction at address `a` that it keeps or rewrites: an instruction
      kept does the same everywhere, a literal load is not into register 31, and an ADR has the target computed. */
  ghost predicate Supported<E(!new)>(m: Machine<E>, w: Word, item: Item, a: Address) {
    match item
    case Kept(_) => Movable(m, w)
    case Followed(_, _) => true
    case Load(_, reg, _, _) => reg != 31
    case AddressOf(_, _, _) => RightTarget(item, m.decode(w), a)
  }

  lemma OneStepMatches<E>(step: State<E> -> Option<State<E>>, pc: Address, base: Address, item: Item, delta: nat,
                          cpu: Cpu<E>)
    requires !item.Load?
    requires pc + item.at < 0x1_0000_0000_0000_0000 && pc + item.Next() < 0x1_0000_0000_0000_0000
    requires base + item.Next() + delta < 0x1_0000_0000_0000_0000 && item.at < item.Next()
    requires var s := step(State(pc + item.at, cpu));
             && (s.Some? ==> s.value.pc == pc + item.Next())
             && step(State(base + item.at + delta, cpu)) == Moved(s, base + item.Next() + delta)
    ensures MatchedIn(step, pc, base, item, delta, cpu)
  {
    RunOne(step, State(base + item.at + delta, cpu));
  }

  lemma TwoStepsMatch<E>(step: State<E> -> Option<State<E>>, pc: Address, base: Address, item: Item, delta: nat,
                         cpu: Cpu<E>, between: State<E>)
    requires item.Load? && pc + item.at + 4 < 0x1_0000_0000_0000_0000
    requires base + item.at + 8 + delta < 0x1_0000_0000_0000_0000
    requires var s := step(State(pc + item.at, cpu));
             && (s.Some? ==> s.value.pc == pc + item.at + 4)
             && step(State(base + item.at + delta, cpu)) == Some(between)
             && step(between) == Moved(s, base + item.at + 8 + delta)
    ensures MatchedIn(step, pc, base, item, delta, cpu)
  {
    RunTwo(step, State(base + item.at + delta, cpu), between);
  }

  lemma ItemMatches<E(!new)>(m: Machine<E>, t: seq<Byte>, pc: Address, code: seq<Byte>, base: Address,
                             item: Item, delta: nat, pool: nat, cpu: Cpu<E>)
    requires m.Holds(pc, t) && m.Holds(base, code) && Placed(Loading(m.decode, code, pool), code, t, item, delta)
    requires Describes(m.decode, item, m.decode(WordAt(t, item.at)), pc + item.at, pc)
    requires Supported(m, WordAt(t, item.at), item, pc + item.at) && (item.Rewritten() ==> item.reg < 32)
    requires item.at < item.Next() <= |t| && item.Next() + After(item, delta) <= |code|
    ensures MatchedIn(m.Step, pc, base, item, delta, cpu)
  {
    match item
    case Kept(_) =>
      KeptSimulates(m, t, pc, code, base, item, delta, pool, cpu);
      OneStepMatches(m.Step, pc, base, item, delta, cpu);
    case Followed(_, _) =>
      FollowedSimulates(m, t, pc, code, base, item, delta, pool, cpu);
      OneStepMatches(m.Step, pc, base, item, delta, cpu);
    case AddressOf(_, _, _) =>
      AddressSimulates(m, t, pc, code, base, item, delta, pool, cpu);
      OneStepMatches(m.Step, pc, base, item, delta, cpu);
    case Load(_, _, _, _) =>
      LoadSimulates(m, t, pc, code, base, item, delta, pool, cpu);
      TwoStepsMatch(m.Step, pc, base, item, delta, cpu,
                    State(base + item.at + delta + 4, cpu.SetX(item.reg, item.target)));
  }
}
