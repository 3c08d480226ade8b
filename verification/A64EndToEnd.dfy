/** From entering an allocated AArch64 thunk to the template's code after the thunk asm block. */
module A64EndToEnd {
  import opened Bytes
  import opened Runs
  import opened SafeJit
  import opened Placement
  import opened A64Machine
  import opened ArmReloc
  import opened ArmLayout
  import opened ArmShape
  import opened A64Simulation
  import opened A64Correct

  /** The thunk asm block: load the closure register and the jump register from the magic, then jump. */
  predicate AsmBlock(decode: Word -> Insn, code: seq<Byte>, a: nat, magic: nat, cl: nat, jmp: nat) {
    && a + 12 <= magic && magic + 16 <= |code| && cl < 31 && jmp < 31 && cl != jmp
    && decode(WordAt(code, a)) == LoadLiteral(Word64, cl, magic - a)
    && decode(WordAt(code, a + 4)) == LoadLiteral(Word64, jmp, magic + 4 - a)
    && decode(WordAt(code, a + 8)) == JumpRegister(jmp)
  }

  /** At `pc`, the machine sets a register and continues at `next`. */
  ghost predicate Sets<E(!new)>(step: State<E> -> Option<State<E>>, pc: Address, next: Address, rt: nat, v: Address) {
    forall cpu: Cpu<E> :: step(State(pc, cpu)) == Some(State(next, cpu.SetX(rt, v)))
  }

  /** At `pc`, the machine continues at the address in a register. */
  ghost predicate GoesTo<E(!new)>(step: State<E> -> Option<State<E>>, pc: Address, rn: nat) {
    forall cpu: Cpu<E> :: step(State(pc, cpu)) == Some(State(cpu.X(rn), cpu))
  }

  lemma PointerLoadSets<E(!new)>(m: Machine<E>, base: Address, code: seq<Byte>, p: nat, q: nat, rt: nat, v: Address,
                                 pc: Address, next: Address)
    requires m.Holds(base, code) && p + 4 <= |code| && q + 8 <= |code| && code[q..q + 8] == Le8(v)
    requires m.decode(WordAt(code, p)) == LoadLiteral(Word64, rt, q - p) && pc == base + p && next == pc + 4
    ensures Sets(m.Step, pc, next, rt, v)
  {
    forall cpu: Cpu<E>
      ensures m.Step(State(pc, cpu)) == Some(State(next, cpu.SetX(rt, v)))
    {
      StepAt(m, base, code, p, cpu);
      LiteralAt(m, base, code, p, q, cpu, v);
    }
  }

  lemma BranchGoes<E(!new)>(m: Machine<E>, base: Address, code: seq<Byte>, p: nat, rn: nat, pc: Address)
    requires m.Holds(base, code) && p + 4 <= |code| && m.decode(WordAt(code, p)) == JumpRegister(rn) && pc == base + p
    ensures GoesTo(m.Step, pc, rn)
  {
    forall cpu: Cpu<E>
      ensures m.Step(State(pc, cpu)) == Some(State(cpu.X(rn), cpu))
    {
      StepAt(m, base, code, p, cpu);
    }
  }

  /** From address `mid`, three steps set the closure register and jump to `back`. */
  ghost predicate Jumps<E(!new)>(step: State<E> -> Option<State<E>>, mid: Address, cl: nat, jmp: nat,
                                 closure: Address, back: Address)
  {
    forall cpu: Cpu<E> :: Run(step, 3, State(mid, cpu)) == Some(State(back, cpu.SetX(cl, closure).SetX(jmp, back)))
  }

  lemma ThreeSteps<E(!new)>(step: State<E> -> Option<State<E>>, mid: Address, pc1: Address, pc2: Address,
                            cl: nat, jmp: nat, closure: Address, back: Address)
    requires Sets(step, mid, pc1, cl, closure) && Sets(step, pc1, pc2, jmp, back) && GoesTo(step, pc2, jmp) && jmp < 31
    ensures Jumps(step, mid, cl, jmp, closure, back)
  {
    forall cpu: Cpu<E>
      ensures Run(step, 3, State(mid, cpu)) == Some(State(back, cpu.SetX(cl, closure).SetX(jmp, back)))
    {
      var c1 := cpu.SetX(cl, closure);
      var c2 := c1.SetX(jmp, back);
      RunOne(step, State(mid, cpu));
      RunTwo(step, State(pc1, c1), State(pc2, c2));
      RunThen(step, 1, 2, State(mid, cpu), State(pc1, c1), Some(State(back, c2)));
    }
  }

  /** The patched asm block jumps to the address patched in, with the closure register set. */
  lemma AsmBlockJumps<E(!new)>(m: Machine<E>, base: Address, code: seq<Byte>, a: nat, slot: nat, cl: nat, jmp: nat,
                               closure: Address, back: Address, mid: Address)
    requires m.Holds(base, code) && AsmBlock(m.decode, code, a, slot, cl, jmp) && mid == base + a
    requires code[slot..slot + 8] == Le8(closure) && code[slot + 8..slot + 16] == Le8(back)
    ensures Jumps(m.Step, mid, cl, jmp, closure, back)
  {
    var pc1, pc2 := mid + 4, mid + 8;
    PointerLoadSets(m, base, code, a, slot, cl, closure, mid, pc1);
    PointerLoadSets(m, base, code, a + 4, slot + 8, jmp, back, pc1, pc2);
    BranchGoes(m, base, code, a + 8, jmp, pc2);
    ThreeSteps(m.Step, mid, pc1, pc2, cl, jmp, closure, back);
  }

  // ---------- patching keeps the prologue ----------

  lemma LoadingKept(decode: Word -> Insn, patched: seq<Byte>, code: seq<Byte>, pool: nat, magic: nat)
    requires SameOutside(patched, code, magic, 16) && magic + 16 <= pool
    ensures LoadsKept(Loading(decode, code, pool), Loading(decode, patched, pool), magic)
  {
    forall f: Fixup | f.at + 4 <= magic && LoadsTarget(decode, code, f.at, f.reg, f.target, pool)
      ensures LoadsTarget(decode, patched, f.at, f.reg, f.target, pool)
    {
      var q :| LoadsFrom(decode, code, f.at, f.reg, f.target, pool, q);
      WindowKept(patched, code, magic, 16, f.at, 4);
      WindowKept(patched, code, magic, 16, q, 8);
      assert LoadsFrom(decode, patched, f.at, f.reg, f.target, pool, q);
    }
  }

  lemma AsmBlockKept(decode: Word -> Insn, t: seq<Byte>, code: seq<Byte>, patched: seq<Byte>,
                     a: nat, k: nat, magic: nat, cl: nat, jmp: nat, at: nat, slot: nat)
    requires AsmBlock(decode, t, a, magic, cl, jmp) && magic + 16 == |t| && at == a + k && slot == magic + k
    requires |t| + k <= |code| && code[at..|t| + k] == t[a..]
    requires SameOutside(patched, code, slot, 16)
    ensures AsmBlock(decode, patched, at, slot, cl, jmp)
  {
    TailWord(t, code, patched, a, k, magic, 16, a);
    TailWord(t, code, patched, a, k, magic, 16, a + 4);
    TailWord(t, code, patched, a, k, magic, 16, a + 8);
    assert a + k + 4 == a + 4 + k && a + k + 8 == a + 8 + k;
  }

  // ---------- the theorem ----------

  /** Where the original prologue leaves the machine, continued at the template's code after the asm block with the
      closure register set. */
  function Entered<E>(original: Option<State<E>>, cl: nat, jmp: nat, closure: Address, back: Address)
    : Option<State<E>>
  {
    match original
    case None => None
    case Some(s) => Some(State(back, s.cpu.SetX(cl, closure).SetX(jmp, back)))
  }

  /** Entered at `base` and run for `n` steps, the thunk leaves the machine as the original prologue of `plan` does at
      `pc`, except that it continues at `back` with the closure register set and the jump register overwritten. */
  ghost predicate EntersFrom<E>(step: State<E> -> Option<State<E>>, pc: Address, plan: Plan, base: Address, n: nat,
                                cl: nat, jmp: nat, closure: Address, back: Address, cpu: Cpu<E>)
  {
    Run(step, n, State(base, cpu)) == Entered(Run(step, |plan.items|, State(pc, cpu)), cl, jmp, closure, back)
  }

  ghost predicate EntersClosure<E(!new)>(step: State<E> -> Option<State<E>>, pc: Address, plan: Plan, base: Address,
                                         n: nat, cl: nat, jmp: nat, closure: Address, back: Address)
  {
    forall cpu: Cpu<E> :: EntersFrom(step, pc, plan, base, n, cl, jmp, closure, back, cpu)
  }

  lemma SimulatesThenJumps<E(!new)>(step: State<E> -> Option<State<E>>, pc: Address, plan: Plan, base: Address, n: nat,
                                    mid: Address, cl: nat, jmp: nat, closure: Address, back: Address, cpu: Cpu<E>)
    requires SimulatesFrom(step, pc, plan, base, n, mid, cpu)
    requires Jumps(step, mid, cl, jmp, closure, back)
    ensures EntersFrom(step, pc, plan, base, n + 3, cl, jmp, closure, back, cpu)
  {
    var original := Run(step, |plan.items|, State(pc, cpu));
    if original.Some? {
      RunCompose(step, n, 3, State(base, cpu));
      assert Run(step, 3, State(mid, original.value.cpu)).Some?;
    } else {
      RunFaults(step, n, 3, State(base, cpu));
    }
  }

  lemma SimulatesThenJumpsAll<E(!new)>(step: State<E> -> Option<State<E>>, pc: Address, plan: Plan, base: Address,
                                       n: nat, mid: Address, cl: nat, jmp: nat, closure: Address, back: Address,
                                       n': nat)
    requires Simulates(step, pc, plan, base, n, mid) && Jumps(step, mid, cl, jmp, closure, back) && n' == n + 3
    ensures EntersClosure(step, pc, plan, base, n', cl, jmp, closure, back)
  {
    forall cpu: Cpu<E>
      ensures EntersFrom(step, pc, plan, base, n', cl, jmp, closure, back, cpu)
    {
      SimulatesThenJumps(step, pc, plan, base, n, mid, cl, jmp, closure, back, cpu);
    }
  }

  /** A relocator's thunk has room for both pointer slots. */
  lemma RelocatedHasRoom(encode: LoadEncoder, visit: Visitor, t: seq<Byte>, magic: nat)
    requires Advances(visit, |t|) && magic + 16 == |t| && Relocated(visit, 8, encode, t, magic).Ok?
    ensures HasRoom(A64, Relocated(visit, 8, encode, t, magic).value)
  {
    RelocatedSize(8, encode, visit, t, magic);
  }

  lemma A64PatchReadsBack(thunk: RelocThunk, closure: Address, back: Address, code: seq<Byte>, slot: nat)
    requires HasRoom(A64, thunk) && code == Patched(A64, thunk, closure, back) && slot == thunk.magicOffset
    ensures slot + 16 <= |code| && SameOutside(code, thunk.thunk, slot, 16)
    ensures code[slot..slot + 8] == Le8(closure) && code[slot + 8..slot + 16] == Le8(back)
  {
    PatchedReadsBack(A64, thunk, closure, back, slot, slot + 8);
  }

  /** The patched prologue still simulates the original. */
  lemma PatchedSimulates<E(!new)>(m: Machine<E>, t: seq<Byte>, pc: Address, plan: Plan, thunk: seq<Byte>,
                                  code: seq<Byte>, base: Address, k: nat, pool: nat, slot: nat, n: nat, mid: Address)
    requires LaidOut(m.decode, t, plan, thunk, k, pool) && SameOutside(code, thunk, slot, 16)
    requires plan.asmAt + k <= slot && slot + 16 == pool
    requires Chain(plan.items, 0, plan.asmAt) && Path(plan.items, 0, |t|)
    requires n == |plan.items| + Loads(plan.items) && mid == base + plan.asmAt + k
    requires forall i | 0 <= i < |plan.items| :: Understood(m, t, pc, plan.items[i])
    requires m.Holds(pc, t) && m.Holds(base, code)
    ensures Simulates(m.Step, pc, plan, base, n, mid)
  {
    LoadingKept(m.decode, code, thunk, pool, slot);
    AllPlacedKept(Loading(m.decode, thunk, pool), Loading(m.decode, code, pool), code, thunk, t, plan.items, 0, 0,
                  plan.asmAt, slot, 16);
    PlacedSimulates(m, t, pc, plan, code, base, k, pool, n, mid);
  }

  /** The patched asm block loads what was patched in, and jumps. */
  lemma PatchedJumps<E(!new)>(m: Machine<E>, t: seq<Byte>, magic: nat, plan: Plan, thunk: seq<Byte>, code: seq<Byte>,
                              base: Address, k: nat, pool: nat, slot: nat, mid: Address,
                              cl: nat, jmp: nat, closure: Address, back: Address)
    requires LaidOut(m.decode, t, plan, thunk, k, pool) && SameOutside(code, thunk, slot, 16)
    requires |t| == magic + 16 && slot == magic + k && mid == base + plan.asmAt + k
    requires AsmBlock(m.decode, t, plan.asmAt, magic, cl, jmp) && m.Holds(base, code)
    requires code[slot..slot + 8] == Le8(closure) && code[slot + 8..slot + 16] == Le8(back)
    ensures Jumps(m.Step, mid, cl, jmp, closure, back)
  {
    var at := plan.asmAt + k;
    AsmBlockKept(m.decode, t, thunk, code, plan.asmAt, k, magic, cl, jmp, at, slot);
    AsmBlockJumps(m, base, code, at, slot, cl, jmp, closure, back, mid);
  }

  /** `thunk` is what relocating the template `t` makes of it by way of `plan`. */
  ghost predicate RelocatedBy(decode: Word -> Insn, visit: Visitor, encode: LoadEncoder, t: seq<Byte>, magic: nat,
                              plan: Plan, thunk: RelocThunk)
  {
    && Advances(visit, |t|) && Sound(plan, |t|, 32) && Reaches(decode, encode)
    && |t| == magic + 16 && |t| % 4 == 0
    && Scan(visit, |t|, 0) == Ok(plan) && Relocated(visit, 8, encode, t, magic) == Ok(thunk)
    && |thunk.thunk| <= 0x10_0000
  }

  /**
   End to end, for any decoders and encoder that understand the architecture: enter the allocated
   thunk, and the machine reaches the template's code after the asm block, in the state the original
   prologue leaves, with the closure pointer in the closure register.
   */
  lemma ThunkEntersClosure<E(!new)>(m: Machine<E>, visit: Visitor, encode: LoadEncoder, t: seq<Byte>, pc: Address,
                                    magic: nat, plan: Plan, thunk: RelocThunk, code: seq<Byte>, base: Address,
                                    k: nat, n: nat, cl: nat, jmp: nat, closure: Address, back: Address, n': nat)
    requires RelocatedBy(m.decode, visit, encode, t, magic, plan, thunk)
    requires forall i | 0 <= i < |plan.items| :: Understood(m, t, pc, plan.items[i])
    requires AsmBlock(m.decode, t, plan.asmAt, magic, cl, jmp)
    requires HasRoom(A64, thunk) && code == Patched(A64, thunk, closure, back)
    requires m.Holds(pc, t) && m.Holds(base, code)
    requires k == 4 * Loads(plan.items) && n == |plan.items| + Loads(plan.items) && n' == n + 3
    ensures EntersClosure(m.Step, pc, plan, base, n', cl, jmp, closure, back)
  {
    var pool, slot := |t| + k, magic + k;
    RelocatedLaidOut(m.decode, encode, visit, t, magic, plan, k, pool, thunk);
    A64PatchReadsBack(thunk, closure, back, code, slot);
    PatchedEntersClosure(m, t, pc, magic, plan, thunk.thunk, code, base, k, pool, slot, n, cl, jmp, closure, back, n');
  }

  lemma PatchedEntersClosure<E(!new)>(m: Machine<E>, t: seq<Byte>, pc: Address, magic: nat, plan: Plan,
                                      thunk: seq<Byte>, code: seq<Byte>, base: Address, k: nat, pool: nat, slot: nat,
                                      n: nat, cl: nat, jmp: nat, closure: Address, back: Address, n': nat)
    requires LaidOut(m.decode, t, plan, thunk, k, pool) && SameOutside(code, thunk, slot, 16)
    requires |t| == magic + 16 && slot == magic + k && n' == n + 3
    requires Chain(plan.items, 0, plan.asmAt) && Path(plan.items, 0, |t|)
    requires n == |plan.items| + Loads(plan.items)
    requires forall i | 0 <= i < |plan.items| :: Understood(m, t, pc, plan.items[i])
    requires AsmBlock(m.decode, t, plan.asmAt, magic, cl, jmp) && m.Holds(pc, t) && m.Holds(base, code)
    requires code[slot..slot + 8] == Le8(closure) && code[slot + 8..slot + 16] == Le8(back)
    ensures EntersClosure(m.Step, pc, plan, base, n', cl, jmp, closure, back)
  {
    var mid := base + plan.asmAt + k;
    PatchedSimulates(m, t, pc, plan, thunk, code, base, k, pool, slot, n, mid);
    PatchedJumps(m, t, magic, plan, thunk, code, base, k, pool, slot, mid, cl, jmp, closure, back);
    SimulatesThenJumpsAll(m.Step, pc, plan, base, n, mid, cl, jmp, closure, back, n');
  }
}
