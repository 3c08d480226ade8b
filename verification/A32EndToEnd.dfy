/** From entering an allocated A32 thunk to the template's code after the thunk asm block. */
module A32EndToEnd {
  import opened Bytes
  import opened Runs
  import opened SafeJit
  import opened Placement
  import opened ArmReloc
  import opened ArmLayout
  import opened ArmShape
  import opened A32Machine
  import opened A32Simulation
  import opened A32Correct
  import opened A32Pool

  // ---------- the thunk asm block ----------

  /** Load the closure register and the jump register from the magic, then jump. */
  predicate AsmBlock(decode: Word -> Insn, code: seq<Byte>, a: nat, magic: nat, cl: nat, jmp: nat) {
    && a + 12 <= magic && magic + 8 <= |code| && cl < 15 && jmp < 15 && cl != jmp
    && decode(WordAt(code, a)) == LoadImmediate(LdrWord, cl, 15, magic - a - 8)
    && decode(WordAt(code, a + 4)) == LoadImmediate(LdrWord, jmp, 15, magic + 4 - (a + 4) - 8)
    && decode(WordAt(code, a + 8)) == JumpRegister(jmp)
  }

  /** At `pc`, the machine sets a register and continues at `next`. */
  ghost predicate Sets<E(!new)>(step: State<E> -> Option<State<E>>, pc: Word, next: Word, rt: nat, v: Word) {
    forall cpu: Cpu<E> :: step(State(pc, cpu)) == Some(State(next, cpu.Set(rt, v)))
  }

  /** At `pc`, the machine continues at the address `to` when a register holds it. */
  ghost predicate GoesTo<E(!new)>(step: State<E> -> Option<State<E>>, pc: Word, rn: nat, to: Word) {
    forall cpu: Cpu<E> :: step(State(pc, cpu.Set(rn, to))) == Some(State(to, cpu.Set(rn, to)))
  }

  lemma PointerLoadSets<E(!new)>(m: Machine<E>, base: Word, code: seq<Byte>, p: nat, q: nat, rt: nat, v: Word,
                                 pc: Word, next: Word)
    requires m.Holds(base, code) && p % 4 == 0 && p + 4 <= q && q + 4 <= |code| && code[q..q + 4] == Le(v, 4)
    requires m.decode(WordAt(code, p)) == LoadImmediate(LdrWord, rt, 15, q - p - 8) && pc == base + p && next == pc + 4
    ensures Sets(m.Step, pc, next, rt, v)
  {
    assert LoadsFrom(m.decode, code, p, rt, v, q, q);
    forall cpu: Cpu<E>
      ensures m.Step(State(pc, cpu)) == Some(State(next, cpu.Set(rt, v)))
    {
      LiteralStep(m, base, code, p, rt, v, q, pc, next, cpu);
    }
  }

  lemma BranchGoes<E(!new)>(m: Machine<E>, base: Word, code: seq<Byte>, p: nat, rn: nat, to: Word, pc: Word)
    requires m.Holds(base, code) && p + 4 <= |code| && m.decode(WordAt(code, p)) == JumpRegister(rn) && rn < 15
    requires pc == base + p && to % 4 == 0
    ensures GoesTo(m.Step, pc, rn, to)
  {
    forall cpu: Cpu<E>
      ensures m.Step(State(pc, cpu.Set(rn, to))) == Some(State(to, cpu.Set(rn, to)))
    {
      StepAt(m, base, code, p, cpu.Set(rn, to));
    }
  }

  /** From address `mid`, three steps set the closure register and jump to `back`. */
  ghost predicate Jumps<E(!new)>(step: State<E> -> Option<State<E>>, mid: Word, cl: nat, jmp: nat, closure: Word,
                                 back: Word) {
    forall cpu: Cpu<E> :: Run(step, 3, State(mid, cpu)) == Some(State(back, cpu.Set(cl, closure).Set(jmp, back)))
  }

  lemma ThreeSteps<E(!new)>(step: State<E> -> Option<State<E>>, mid: Word, pc1: Word, pc2: Word,
                            cl: nat, jmp: nat, closure: Word, back: Word)
    requires Sets(step, mid, pc1, cl, closure) && Sets(step, pc1, pc2, jmp, back) && GoesTo(step, pc2, jmp, back)
    ensures Jumps(step, mid, cl, jmp, closure, back)
  {
    forall cpu: Cpu<E>
      ensures Run(step, 3, State(mid, cpu)) == Some(State(back, cpu.Set(cl, closure).Set(jmp, back)))
    {
      var c1 := cpu.Set(cl, closure);
      var c2 := c1.Set(jmp, back);
      RunOne(step, State(mid, cpu));
      RunTwo(step, State(pc1, c1), State(pc2, c2));
      RunThen(step, 1, 2, State(mid, cpu), State(pc1, c1), Some(State(back, c2)));
    }
  }

  /** The patched asm block jumps to the address patched in, with the closure register set. */
  lemma AsmBlockJumps<E(!new)>(m: Machine<E>, base: Word, code: seq<Byte>, a: nat, slot: nat, cl: nat, jmp: nat,
                               closure: Word, back: Word, mid: Word)
    requires m.Holds(base, code) && AsmBlock(m.decode, code, a, slot, cl, jmp) && mid == base + a && a % 4 == 0
    requires code[slot..slot + 4] == Le(closure, 4) && code[slot + 4..slot + 8] == Le(back, 4) && back % 4 == 0
    ensures Jumps(m.Step, mid, cl, jmp, closure, back)
  {
    var pc1, pc2, second, slot', third := mid + 4, mid + 8, a + 4, slot + 4, a + 8;
    PointerLoadSets(m, base, code, a, slot, cl, closure, mid, pc1);
    PointerLoadSets(m, base, code, second, slot', jmp, back, pc1, pc2);
    BranchGoes(m, base, code, third, jmp, back, pc2);
    ThreeSteps(m.Step, mid, pc1, pc2, cl, jmp, closure, back);
  }

  // ---------- patching keeps the prologue ----------

  lemma LoadingKept(decode: Word -> Insn, patched: seq<Byte>, code: seq<Byte>, pool: nat, magic: nat)
    requires SameOutside(patched, code, magic, 8) && magic + 8 <= pool
    ensures LoadsKept(Loading(decode, code, pool), Loading(decode, patched, pool), magic)
  {
    forall f: Fixup | f.at + 4 <= magic && LoadsTarget(decode, code, f.at, f.reg, f.target, pool)
      ensures LoadsTarget(decode, patched, f.at, f.reg, f.target, pool)
    {
      var q :| LoadsFrom(decode, code, f.at, f.reg, f.target, pool, q);
      WindowKept(patched, code, magic, 8, f.at, 4);
      WindowKept(patched, code, magic, 8, q, 4);
      assert LoadsFrom(decode, patched, f.at, f.reg, f.target, pool, q);
    }
  }

  lemma AsmBlockKept(decode: Word -> Insn, t: seq<Byte>, code: seq<Byte>, patched: seq<Byte>,
                     a: nat, k: nat, magic: nat, cl: nat, jmp: nat, at: nat, slot: nat, pool: nat)
    requires AsmBlock(decode, t, a, magic, cl, jmp) && magic + 8 == |t| && at == a + k && slot == magic + k
    requires pool == |t| + k <= |code| && code[at..pool] == t[a..]
    requires SameOutside(patched, code, slot, 8)
    ensures AsmBlock(decode, patched, at, slot, cl, jmp)
  {
    TailWord(t, code, patched, a, k, magic, 8, a);
    TailWord(t, code, patched, a, k, magic, 8, a + 4);
    TailWord(t, code, patched, a, k, magic, 8, a + 8);
    assert a + k + 4 == a + 4 + k && a + k + 8 == a + 8 + k;
  }

  lemma AlignedSum(a: nat, k: nat, n: nat, at: nat)
    requires a % 4 == 0 && k == 4 * n && at == a + k
    ensures at % 4 == 0
  {
  }

  // ---------- the prologue ----------

  /** Code laid out as the relocator does it, placed anywhere, has the outcome of the original. */
  lemma PlacedSimulates<E(!new)>(m: Machine<E>, t: seq<Byte>, pc: Word, plan: Plan, code: seq<Byte>, base: Word,
                                 pool: nat, end: Word, n: nat, mid: Word)
    requires Sound(plan, |t|, 15) && |t| + 4 * Loads(plan.items) <= |code|
    requires AllPlaced(Loading(m.decode, code, pool), code, t, plan.items, 0)
    requires forall i | 0 <= i < |plan.items| :: Understood(m, t, pc, plan.items[i])
    requires m.Holds(pc, t) && m.Holds(base, code)
    requires end == pc + plan.asmAt && n == Total(Steps, plan.items) && mid == base + plan.asmAt + 4 * Loads(plan.items)
    ensures Simulates(m.Step, pc, plan.items, end, base, n, mid)
  {
    ItemsSame(m, t, pc, code, base, plan.items, 0, 0, plan.asmAt, pool);
    SameSimulates(m.Step, pc, base, plan.items, plan.asmAt, 4 * Loads(plan.items));
  }

  /** The patched prologue still simulates the original. */
  lemma PatchedSimulates<E(!new)>(m: Machine<E>, t: seq<Byte>, pc: Word, plan: Plan, thunk: seq<Byte>, code: seq<Byte>,
                                  base: Word, k: nat, pool: nat, slot: nat, end: Word, n: nat, mid: Word)
    requires LaidOut(m.decode, t, plan, thunk, k, pool) && SameOutside(code, thunk, slot, 8)
    requires plan.asmAt + k <= slot && slot + 8 == pool && Sound(plan, |t|, 15)
    requires forall i | 0 <= i < |plan.items| :: Understood(m, t, pc, plan.items[i])
    requires m.Holds(pc, t) && m.Holds(base, code)
    requires end == pc + plan.asmAt && n == Total(Steps, plan.items) && mid == base + plan.asmAt + k
    ensures Simulates(m.Step, pc, plan.items, end, base, n, mid)
  {
    LoadingKept(m.decode, code, thunk, pool, slot);
    AllPlacedKept(Loading(m.decode, thunk, pool), Loading(m.decode, code, pool), code, thunk, t, plan.items, 0, 0,
                  plan.asmAt, slot, 8);
    PlacedSimulates(m, t, pc, plan, code, base, pool, end, n, mid);
  }

  /** The patched asm block loads what was patched in, and jumps. */
  lemma PatchedJumps<E(!new)>(m: Machine<E>, t: seq<Byte>, magic: nat, plan: Plan, thunk: seq<Byte>, code: seq<Byte>,
                              base: Word, k: nat, pool: nat, slot: nat, mid: Word,
                              cl: nat, jmp: nat, closure: Word, back: Word)
    requires LaidOut(m.decode, t, plan, thunk, k, pool) && SameOutside(code, thunk, slot, 8)
    requires |t| == magic + 8 && slot == magic + k && mid == base + plan.asmAt + k && plan.asmAt % 4 == 0
    requires back % 4 == 0
    requires AsmBlock(m.decode, t, plan.asmAt, magic, cl, jmp) && m.Holds(base, code)
    requires code[slot..slot + 4] == Le(closure, 4) && code[slot + 4..slot + 8] == Le(back, 4)
    ensures Jumps(m.Step, mid, cl, jmp, closure, back)
  {
    var at := plan.asmAt + k;
    AlignedSum(plan.asmAt, k, Loads(plan.items), at);
    AsmBlockKept(m.decode, t, thunk, code, plan.asmAt, k, magic, cl, jmp, at, slot, pool);
    AsmBlockJumps(m, base, code, at, slot, cl, jmp, closure, back, mid);
  }

  // ---------- entering the thunk ----------

  /** Where the original prologue leaves the machine, continued at the template's code after the asm block with the
      closure register set. */
  function Entered<E>(original: Option<State<E>>, cl: nat, jmp: nat, closure: Word, back: Word): Option<State<E>> {
    match original
    case None => None
    case Some(s) => Some(State(back, s.cpu.Set(cl, closure).Set(jmp, back)))
  }

  /** Entered at `base` and run for `n` steps, the thunk leaves the machine as the original prologue of `items` does at
      `pc`, except that it continues at `back` with the closure register set and the jump register overwritten. */
  ghost predicate EntersFrom<E>(step: State<E> -> Option<State<E>>, pc: Word, items: seq<Item>, base: Word, n: nat,
                                cl: nat, jmp: nat, closure: Word, back: Word, cpu: Cpu<E>)
  {
    Run(step, n, State(base, cpu)) == Entered(Run(step, |items|, State(pc, cpu)), cl, jmp, closure, back)
  }

  ghost predicate EntersClosure<E(!new)>(step: State<E> -> Option<State<E>>, pc: Word, items: seq<Item>, base: Word,
                                         n: nat, cl: nat, jmp: nat, closure: Word, back: Word)
  {
    forall cpu: Cpu<E> :: EntersFrom(step, pc, items, base, n, cl, jmp, closure, back, cpu)
  }

  lemma SimulatesThenJumps<E(!new)>(step: State<E> -> Option<State<E>>, pc: Word, items: seq<Item>, end: Word,
                                    base: Word, n: nat, mid: Word, cl: nat, jmp: nat, closure: Word, back: Word,
                                    cpu: Cpu<E>)
    requires SimulatesFrom(step, pc, items, end, base, n, mid, cpu) && Jumps(step, mid, cl, jmp, closure, back)
    ensures EntersFrom(step, pc, items, base, n + 3, cl, jmp, closure, back, cpu)
  {
    var original := Run(step, |items|, State(pc, cpu));
    if original.Some? {
      RunCompose(step, n, 3, State(base, cpu));
      assert Run(step, 3, State(mid, original.value.cpu)).Some?;
    } else {
      RunFaults(step, n, 3, State(base, cpu));
    }
  }

  lemma SimulatesThenJumpsAll<E(!new)>(step: State<E> -> Option<State<E>>, pc: Word, items: seq<Item>, end: Word,
                                       base: Word, n: nat, mid: Word, cl: nat, jmp: nat, closure: Word, back: Word,
                                       n': nat)
    requires Simulates(step, pc, items, end, base, n, mid) && Jumps(step, mid, cl, jmp, closure, back) && n' == n + 3
    ensures EntersClosure(step, pc, items, base, n', cl, jmp, closure, back)
  {
    forall cpu: Cpu<E>
      ensures EntersFrom(step, pc, items, base, n', cl, jmp, closure, back, cpu)
    {
      SimulatesThenJumps(step, pc, items, end, base, n, mid, cl, jmp, closure, back, cpu);
    }
  }

  lemma PatchedEntersClosure<E(!new)>(m: Machine<E>, t: seq<Byte>, pc: Word, magic: nat, plan: Plan, thunk: seq<Byte>,
                                      code: seq<Byte>, base: Word, k: nat, pool: nat, slot: nat,
                                      cl: nat, jmp: nat, closure: Word, back: Word, n: nat)
    requires LaidOut(m.decode, t, plan, thunk, k, pool) && SameOutside(code, thunk, slot, 8)
    requires |t| == magic + 8 && slot == magic + k && n == Total(Steps, plan.items) + 3
    requires Sound(plan, |t|, 15) && plan.asmAt % 4 == 0 && back % 4 == 0
    requires forall i | 0 <= i < |plan.items| :: Understood(m, t, pc, plan.items[i])
    requires AsmBlock(m.decode, t, plan.asmAt, magic, cl, jmp) && m.Holds(pc, t) && m.Holds(base, code)
    requires code[slot..slot + 4] == Le(closure, 4) && code[slot + 4..slot + 8] == Le(back, 4)
    ensures EntersClosure(m.Step, pc, plan.items, base, n, cl, jmp, closure, back)
  {
    var end, mid, steps := pc + plan.asmAt, base + plan.asmAt + k, Total(Steps, plan.items);
    PatchedSimulates(m, t, pc, plan, thunk, code, base, k, pool, slot, end, steps, mid);
    PatchedJumps(m, t, magic, plan, thunk, code, base, k, pool, slot, mid, cl, jmp, closure, back);
    SimulatesThenJumpsAll(m.Step, pc, plan.items, end, base, steps, mid, cl, jmp, closure, back, n);
  }

  lemma PatchReadsBack(thunk: RelocThunk, closure: Word, back: Word, code: seq<Byte>, slot: nat)
    requires HasRoom(ARM, thunk) && code == Patched(ARM, thunk, closure, back) && slot == thunk.magicOffset
    ensures slot + 8 <= |code| && SameOutside(code, thunk.thunk, slot, 8)
    ensures code[slot..slot + 4] == Le(closure, 4) && code[slot + 4..slot + 8] == Le(back, 4)
  {
    PatchedReadsBack(ARM, thunk, closure, back, slot, slot + 4);
  }

  /** A relocator's thunk has room for both pointer slots. */
  lemma RelocatedHasRoom(encode: LoadEncoder, visit: Visitor, t: seq<Byte>, magic: nat)
    requires Advances(visit, |t|) && magic + 8 == |t| && Relocated(visit, 4, encode, t, magic).Ok?
    ensures HasRoom(ARM, Relocated(visit, 4, encode, t, magic).value)
  {
    RelocatedSize(4, encode, visit, t, magic);
  }
}
