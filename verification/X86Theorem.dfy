/** The main results about the 32-bit x86 relocator. */
module X86Theorem {
  import opened Bytes
  import opened Runs
  import opened SafeJit
  import opened Placement
  import opened X86Machine
  import opened X86Reloc
  import opened X86Correct
  import opened X86Effects
  import opened X86Simulation

  /** FF /4 with a register operand. */
  function JmpR32(r: Reg32): seq<Byte> { [0xFF, 0xE0 + r] }

  /** The thunk asm block: the closure pointer and the return address are immediates. */
  function AsmBytes(cl: Reg32, closure: Word, jmp: Reg32, back: Word): (s: seq<Byte>)
    ensures |s| == 12
  {
    [0xB8 + cl] + Le4(closure) + [0xB8 + jmp] + Le4(back) + JmpR32(jmp)
  }

  ghost predicate JmpDecodes(decode: Decoder) {
    forall r: Reg32 :: decode(JmpR32(r)) == Some(Insn(2, JumpReg(r)))
  }

  /** The decoder is the machine's, and knows the instructions the thunk is made of. */
  ghost predicate Trusted<E(!new)>(m: Machine<E>, job: Job) {
    m.decode == job.decode && Local(job.decode) && MovDecodes(job.decode) && JmpDecodes(job.decode)
  }

  // ---------- the thunk asm block ----------

  lemma DecodesAt(decode: Decoder, bytes: seq<Byte>, placed: seq<Byte>, p: nat, insn: Insn)
    requires Local(decode) && p + |bytes| <= |placed| && placed[p..p + |bytes|] == bytes
    requires decode(bytes) == Some(insn) && insn.len == |bytes|
    ensures decode(placed[p..]) == Some(insn)
  {
    assert LocalAt(decode, bytes, placed[p..]);
    assert bytes[..insn.len] == bytes && placed[p..][..|bytes|] == placed[p..p + |bytes|];
  }

  /** From address `pc`, three steps set the closure register and the jump register, and jump. */
  ghost predicate Jumps<E(!new)>(step: State<E> -> Option<State<E>>, pc: Word, cl: Reg32, closure: Word, jmp: Reg32,
                                 back: Word) {
    forall b: Cpu<E> :: Run(step, 3, State(pc, b)) == Some(State(back, b.Set(cl, closure).Set(jmp, back)))
  }

  ghost predicate Sets<E(!new)>(step: State<E> -> Option<State<E>>, pc: Word, next: Word, r: Reg32, v: Word) {
    forall b: Cpu<E> :: step(State(pc, b)) == Some(State(next, b.Set(r, v)))
  }

  ghost predicate GoesTo<E(!new)>(step: State<E> -> Option<State<E>>, pc: Word, r: Reg32) {
    forall b: Cpu<E> :: step(State(pc, b)) == Some(State(b.reg[r], b))
  }

  lemma ThreeSteps<E(!new)>(step: State<E> -> Option<State<E>>, pc: Word, pc1: Word, pc2: Word,
                            cl: Reg32, closure: Word, jmp: Reg32, back: Word)
    requires Sets(step, pc, pc1, cl, closure) && Sets(step, pc1, pc2, jmp, back) && GoesTo(step, pc2, jmp)
    ensures Jumps(step, pc, cl, closure, jmp, back)
  {
    forall b: Cpu<E>
      ensures Run(step, 3, State(pc, b)) == Some(State(back, b.Set(cl, closure).Set(jmp, back)))
    {
      var b1 := b.Set(cl, closure);
      var b2 := b1.Set(jmp, back);
      RunTwo(step, State(pc1, b1), State(pc2, b2));
      RunOne(step, State(pc, b));
      RunThen(step, 1, 2, State(pc, b), State(pc1, b1), Some(State(back, b2)));
    }
  }

  lemma MovSets<E(!new)>(m: Machine<E>, placed: seq<Byte>, base: Word, at: nat, pc: Word, next: Word, r: Reg32, v: Word)
    requires Local(m.decode) && MovDecodes(m.decode) && m.Holds(base, placed) && pc == base + at && next == pc + 5
    requires at + 5 <= |placed| && MovBytes(placed[at..at + 5], r, v)
    ensures Sets(m.Step, pc, next, r, v)
  {
    var insn := Insn(5, MovImm(r, v));
    assert MovDecodesAt(m.decode, placed[at..at + 5], r, v);
    DecodesAt(m.decode, placed[at..at + 5], placed, at, insn);
    forall b: Cpu<E>
      ensures m.Step(State(pc, b)) == Some(State(next, b.Set(r, v)))
    {
      StepAt(m, base, placed, at, insn, b);
    }
  }

  lemma JmpGoes<E(!new)>(m: Machine<E>, placed: seq<Byte>, base: Word, at: nat, pc: Word, r: Reg32)
    requires Local(m.decode) && JmpDecodes(m.decode) && m.Holds(base, placed) && pc == base + at
    requires at + 2 <= |placed| && placed[at..at + 2] == JmpR32(r)
    ensures GoesTo(m.Step, pc, r)
  {
    DecodesAt(m.decode, JmpR32(r), placed, at, Insn(2, JumpReg(r)));
    forall b: Cpu<E>
      ensures m.Step(State(pc, b)) == Some(State(b.reg[r], b))
    {
      StepAt(m, base, placed, at, Insn(2, JumpReg(r)), b);
    }
  }

  lemma AsmParts(asm: seq<Byte>, cl: Reg32, closure: Word, jmp: Reg32, back: Word)
    requires asm == AsmBytes(cl, closure, jmp, back)
    ensures MovBytes(asm[0..5], cl, closure) && MovBytes(asm[5..10], jmp, back) && asm[10..12] == JmpR32(jmp)
  {
    AsmSlices(0xB8 + cl, Le4(closure), 0xB8 + jmp, Le4(back), JmpR32(jmp), asm);
    Le4RoundTrip(closure);
    Le4RoundTrip(back);
  }

  lemma AsmSlices(a: Byte, x: seq<Byte>, b: Byte, y: seq<Byte>, z: seq<Byte>, asm: seq<Byte>)
    requires |x| == |y| == 4 && |z| == 2 && asm == [a] + x + [b] + y + z
    ensures |asm| == 12 && asm[0..5][0] == a && asm[0..5][1..5] == x
    ensures asm[5..10][0] == b && asm[5..10][1..5] == y && asm[10..12] == z
  {
    assert asm == ([a] + x) + ([b] + y) + z;
    assert asm[0..5] == [a] + x && asm[5..10] == [b] + y;
  }

  lemma AsmJumps<E(!new)>(m: Machine<E>, placed: seq<Byte>, base: Word, at: nat, pc: Word,
                          cl: Reg32, closure: Word, jmp: Reg32, back: Word)
    requires Local(m.decode) && MovDecodes(m.decode) && JmpDecodes(m.decode) && m.Holds(base, placed)
    requires at + 12 <= |placed| && placed[at..at + 12] == AsmBytes(cl, closure, jmp, back) && pc == base + at
    ensures Jumps(m.Step, pc, cl, closure, jmp, back)
  {
    var asm, pc1, pc2 := placed[at..at + 12], pc + 5, pc + 10;
    AsmParts(asm, cl, closure, jmp, back);
    SliceSlice(placed, at, at + 12, 0, 5);
    SliceSlice(placed, at, at + 12, 5, 10);
    SliceSlice(placed, at, at + 12, 10, 12);
    MovSets(m, placed, base, at, pc, pc1, cl, closure);
    MovSets(m, placed, base, at + 5, pc1, pc2, jmp, back);
    JmpGoes(m, placed, base, at + 10, pc2, jmp);
    ThreeSteps(m.Step, pc, pc1, pc2, cl, closure, jmp, back);
  }

  // ---------- the thunk ----------

  /** The template ends with the asm block, some padding, and the magic. */
  ghost predicate AsmBlock(job: Job, p: Prologue, cl: Reg32, jmp: Reg32) {
    && 16 <= job.magic && p.asmAt == job.magic - 16 && job.magic + 16 == |job.t|
    && exists x: Word, y: Word :: job.t[p.asmAt..p.asmAt + 12] == AsmBytes(cl, x, jmp, y)
  }

  /** The block starts sixteen bytes before the magic. */
  lemma AsmAtMagic(job: Job, look: Looks, p: Prologue)
    requires LooksAt(look, job) && Scan(look, |job.t|, 0) == Ok(p) && 16 <= job.magic
    ensures p.asmAt == job.magic - 16 && AllDecode(job, p.items) && Path(p.items, 0, p.asmAt)
  {
    ScanDecodes(job, look, 0);
    ScanPath(look, |job.t|, 0);
    assert SameLook(look, job, p.asmAt);
    NoWrap(job.magic, THUNK_CODE_OFFSET);
  }

  /** Patched, the block holds both pointers; the code before it is the new code. */
  lemma PatchedShape(job: Job, p: Prologue, code: seq<Byte>, thunk: RelocThunk, align: nat, placed: seq<Byte>,
                     cl: Reg32, closure: Word, jmp: Reg32, back: Word)
    requires AsmBlock(job, p, cl, jmp) && thunk.thunk == code + job.t[p.asmAt..] && thunk.magicOffset == |code| + 16
    requires align > 0 && HasRoom(X86(align), thunk) && placed == Patched(X86(align), thunk, closure, back)
    ensures code <= placed && |code| + 12 <= |placed|
    ensures placed[|code|..|code| + 12] == AsmBytes(cl, closure, jmp, back)
  {
    var n := |code|;
    X86PatchReadsBack(thunk, align, closure, back, placed, n);
    var x: Word, y: Word :| job.t[p.asmAt..p.asmAt + 12] == AsmBytes(cl, x, jmp, y);
    assert code == thunk.thunk[..n] == placed[..n];
    var was, now := thunk.thunk[n..n + 12], placed[n..n + 12];
    assert was == job.t[p.asmAt..p.asmAt + 12];
    SliceSlice(placed, n, n + 12, 1, 5);
    SliceSlice(placed, n, n + 12, 6, 10);
    forall k | 0 <= k < 12 && !(1 <= k < 5) && !(6 <= k < 10)
      ensures now[k] == was[k]
    {
      assert now[k] == placed[n + k] == thunk.thunk[n + k] == was[k];
    }
    AsmPatched(was, now, cl, x, jmp, y, closure, back);
  }

  lemma X86PatchReadsBack(thunk: RelocThunk, align: nat, closure: Word, back: Word, placed: seq<Byte>, n: nat)
    requires align > 0 && HasRoom(X86(align), thunk) && thunk.magicOffset == n + 16
    requires placed == Patched(X86(align), thunk, closure, back)
    ensures |placed| == |thunk.thunk| && n + 10 <= |placed|
    ensures placed[n + 1..n + 5] == Le4(closure) && placed[n + 6..n + 10] == Le4(back)
    ensures forall k | 0 <= k < |placed| && !(n + 1 <= k < n + 5) && !(n + 6 <= k < n + 10) ::
              placed[k] == thunk.thunk[k]
  {
    PatchedReadsBack(X86(align), thunk, closure, back, n + 1, n + 6);
  }

  lemma AsmPatched(was: seq<Byte>, now: seq<Byte>, cl: Reg32, x: Word, jmp: Reg32, y: Word, closure: Word, back: Word)
    requires was == AsmBytes(cl, x, jmp, y) && |now| == 12 && now[1..5] == Le4(closure) && now[6..10] == Le4(back)
    requires now[0] == was[0] && now[5] == was[5] && now[10] == was[10] && now[11] == was[11]
    ensures now == AsmBytes(cl, closure, jmp, back)
  {
    assert now == [now[0]] + now[1..5] + [now[5]] + now[6..10] + [now[10], now[11]];
  }

  function Entered<E>(r: Option<Cpu<E>>, cl: Reg32, closure: Word, jmp: Reg32, back: Word): Option<Cpu<E>> {
    match r
    case None => None
    case Some(b) => Some(b.Set(cl, closure).Set(jmp, back))
  }

  /** Run from state `a`, the original is at the asm block with the effects of its prologue, and the thunk at `back`
      with the effects of the new one, and the closure register set. */
  ghost predicate BothRun<E(!new)>(step: State<E> -> Option<State<E>>, m: Machine<E>, ip: Word, items: seq<Item>,
                                   end: Word, base: Word, cl: Reg32, closure: Word, jmp: Reg32, back: Word, a: Cpu<E>)
  {
    && Run(step, Total(OldSteps, items), State(ip, a)) == Continue(end, Effects(m, items, a))
    && Run(step, |items| + 3, State(base, a))
      == Continue(back, Entered(NewEffects(m, items, a), cl, closure, jmp, back))
  }

  lemma ThenJumps<E(!new)>(step: State<E> -> Option<State<E>>, k: nat, s': State<E>, r: Option<Cpu<E>>, end': Word,
                           cl: Reg32, closure: Word, jmp: Reg32, back: Word)
    requires Run(step, k, s') == Continue(end', r) && Jumps(step, end', cl, closure, jmp, back)
    ensures Run(step, k + 3, s') == Continue(back, Entered(r, cl, closure, jmp, back))
  {
    match r
    case None => RunFaults(step, k, 3, s');
    case Some(b) => RunThen(step, k, 3, s', State(end', b), Some(State(back, b.Set(cl, closure).Set(jmp, back))));
  }

  lemma CodeRuns<E(!new)>(m: Machine<E>, job: Job, p: Prologue, code: seq<Byte>, placed: seq<Byte>, base: Word,
                          end: Word, cl: Reg32, closure: Word, jmp: Reg32, back: Word, a: Cpu<E>)
    requires Trusted(m, job) && m.Holds(job.ip, job.t) && m.Holds(base, placed) && AllDecode(job, p.items)
    requires Path(p.items, 0, p.asmAt) && p.asmAt <= |job.t| && code == Code(job.t, p.items, 0, p.asmAt) <= placed
    requires |code| + 12 <= |placed| && placed[|code|..|code| + 12] == AsmBytes(cl, closure, jmp, back)
    requires end == job.ip + p.asmAt
    ensures BothRun(m.Step, m, job.ip, p.items, end, base, cl, closure, jmp, back, a)
  {
    var end' := base + |code|;
    assert placed[0..] == placed;
    ItemsRun(m, job, p.items, 0, p.asmAt, placed, base, 0, base);
    OldRunIs(m.Step, m, job, p.items, 0, p.asmAt, base, job.ip, end, a);
    NewRunIs(m.Step, m, job, p.items, 0, p.asmAt, base, end', a);
    AsmJumps(m, placed, base, |code|, end', cl, closure, jmp, back);
    ThenJumps(m.Step, |p.items|, State(base, a), NewEffects(m, p.items, a), end', cl, closure, jmp, back);
  }

  // ---------- the theorems ----------

  /** `thunk` is what relocating the template at `ip` by way of `p` makes of it. */
  ghost predicate RelocatedBy<E(!new)>(m: Machine<E>, job: Job, p: Prologue, thunk: RelocThunk, cl: Reg32, jmp: Reg32) {
    && job.Valid() && Scan(Looker(job), |job.t|, 0) == Ok(p) && Relocated(job) == Ok(thunk)
    && AsmBlock(job, p, cl, jmp) && Trusted(m, job) && m.Holds(job.ip, job.t)
  }

  /** `New` has placed the thunk at `base`, where it is mapped. */
  ghost predicate PlacedThunk<E(!new)>(m: Machine<E>, thunk: RelocThunk, align: nat, block: seq<Byte>, rx: Address,
                                       base: Word, closure: Word, back: Word)
  {
    && align > 0 && HasRoom(X86(align), thunk) && rx <= base
    && PlacedAt(X86(align), block, thunk, rx, base - rx, closure, back)
    && m.Holds(base, block[base - rx..base - rx + |thunk.thunk|])
  }

  /** What the placed thunk consists of. */
  lemma ThunkCode<E(!new)>(m: Machine<E>, job: Job, p: Prologue, thunk: RelocThunk, align: nat, placed: seq<Byte>,
                           cl: Reg32, closure: Word, jmp: Reg32, back: Word) returns (code: seq<Byte>)
    requires RelocatedBy(m, job, p, thunk, cl, jmp)
    requires align > 0 && HasRoom(X86(align), thunk) && placed == Patched(X86(align), thunk, closure, back)
    ensures Path(p.items, 0, p.asmAt) && p.asmAt <= |job.t| && code == Code(job.t, p.items, 0, p.asmAt) <= placed
    ensures |code| + 12 <= |placed| && placed[|code|..|code| + 12] == AsmBytes(cl, closure, jmp, back)
    ensures AllDecode(job, p.items)
  {
    LookerLooks(job);
    AsmAtMagic(job, Looker(job), p);
    FinishedShape(job, p);
    code := Code(job.t, p.items, 0, p.asmAt);
    PatchedShape(job, p, code, thunk, align, placed, cl, closure, jmp, back);
  }

  lemma CodeAlwaysRuns<E(!new)>(m: Machine<E>, job: Job, p: Prologue, code: seq<Byte>, placed: seq<Byte>, base: Word,
                                end: Word, cl: Reg32, closure: Word, jmp: Reg32, back: Word)
    requires Trusted(m, job) && m.Holds(job.ip, job.t) && m.Holds(base, placed) && AllDecode(job, p.items)
    requires Path(p.items, 0, p.asmAt) && p.asmAt <= |job.t| && code == Code(job.t, p.items, 0, p.asmAt) <= placed
    requires |code| + 12 <= |placed| && placed[|code|..|code| + 12] == AsmBytes(cl, closure, jmp, back)
    requires end == job.ip + p.asmAt
    ensures forall a: Cpu<E> :: BothRun(m.Step, m, job.ip, p.items, end, base, cl, closure, jmp, back, a)
  {
    forall a: Cpu<E>
      ensures BothRun(m.Step, m, job.ip, p.items, end, base, cl, closure, jmp, back, a)
    {
      CodeRuns(m, job, p, code, placed, base, end, cl, closure, jmp, back, a);
    }
  }

  lemma ThunkRuns<E(!new)>(m: Machine<E>, job: Job, p: Prologue, thunk: RelocThunk, align: nat, block: seq<Byte>,
                           rx: Address, base: Word, cl: Reg32, closure: Word, jmp: Reg32, back: Word, end: Word)
    requires RelocatedBy(m, job, p, thunk, cl, jmp) && PlacedThunk(m, thunk, align, block, rx, base, closure, back)
    requires end == job.ip + p.asmAt
    ensures forall a: Cpu<E> :: BothRun(m.Step, m, job.ip, p.items, end, base, cl, closure, jmp, back, a)
  {
    var placed := block[base - rx..base - rx + |thunk.thunk|];
    var code := ThunkCode(m, job, p, thunk, align, placed, cl, closure, jmp, back);
    CodeAlwaysRuns(m, job, p, code, placed, base, end, cl, closure, jmp, back);
  }

  /** Where the original, run from state `a`, arrives at the asm block, the thunk arrives at `back` with the closure
      register set; memory differs at most in the cells that remain of those the original's calls have written. */
  ghost predicate EntersFrom<E(!new)>(step: State<E> -> Option<State<E>>, m: Machine<E>, ip: Word, items: seq<Item>,
                                      base: Word, cl: Reg32, closure: Word, jmp: Reg32, back: Word, a: Cpu<E>)
  {
    var r, r' := Run(step, Total(OldSteps, items), State(ip, a)), Run(step, |items| + 3, State(base, a));
    r.Some? ==> r'.Some? && r'.value.pc == back
                && SameExcept(Remains(m, items, {}, a), r.value.cpu.Set(cl, closure).Set(jmp, back), r'.value.cpu)
  }

  ghost predicate EntersClosure<E(!new)>(step: State<E> -> Option<State<E>>, m: Machine<E>, ip: Word,
                                         items: seq<Item>, base: Word, cl: Reg32, closure: Word, jmp: Reg32, back: Word)
  {
    forall a: Cpu<E> | Quiet(m, items, {}, a) :: EntersFrom(step, m, ip, items, base, cl, closure, jmp, back, a)
  }

  lemma RunsEnter<E(!new)>(step: State<E> -> Option<State<E>>, m: Machine<E>, ip: Word, items: seq<Item>, end: Word,
                           base: Word, cl: Reg32, closure: Word, jmp: Reg32, back: Word, a: Cpu<E>)
    requires BothRun(step, m, ip, items, end, base, cl, closure, jmp, back, a) && Quiet(m, items, {}, a)
    ensures EntersFrom(step, m, ip, items, base, cl, closure, jmp, back, a)
  {
    if Effects(m, items, a).Some? {
      PrologueAgrees(m, items, a);
    }
  }

  /**
   End to end. The template at `ip` is relocated, and placed by `New` at `base`. From every state in which the
   original prologue reaches the asm block without depending on what its calls have left in memory, the thunk reaches
   the address patched in, with the registers and flags as the original leaves them, except that the closure and jump
   registers hold what was patched in, and with the same memory except in the cells where something of what the calls
   have left remains.
   */
  lemma X86ThunkEntersClosure<E(!new)>(m: Machine<E>, job: Job, p: Prologue, thunk: RelocThunk, align: nat,
                                       block: seq<Byte>, rx: Address, base: Word, cl: Reg32, closure: Word,
                                       jmp: Reg32, back: Word)
    requires RelocatedBy(m, job, p, thunk, cl, jmp) && PlacedThunk(m, thunk, align, block, rx, base, closure, back)
    requires back == job.ip + job.magic + 16
    ensures EntersClosure(m.Step, m, job.ip, p.items, base, cl, closure, jmp, back)
  {
    var end := job.ip + p.asmAt;
    ThunkRuns(m, job, p, thunk, align, block, rx, base, cl, closure, jmp, back, end);
    forall a: Cpu<E> | Quiet(m, p.items, {}, a)
      ensures EntersFrom(m.Step, m, job.ip, p.items, base, cl, closure, jmp, back, a)
    {
      RunsEnter(m.Step, m, job.ip, p.items, end, base, cl, closure, jmp, back, a);
    }
  }

  // ---------- memory at and above the stack pointer ----------

  /** Where the original arrives with nothing remaining at or above the stack pointer, the thunk finds the same memory
      there. */
  ghost predicate KeepsStackFrom<E(!new)>(step: State<E> -> Option<State<E>>, m: Machine<E>, ip: Word, items: seq<Item>,
                                          base: Word, a: Cpu<E>)
  {
    var r, r' := Run(step, Total(OldSteps, items), State(ip, a)), Run(step, |items| + 3, State(base, a));
    r.Some? && AllBelow(Remains(m, items, {}, a), r.value.cpu.reg[ESP]) ==>
      r'.Some? && StackSame(r.value.cpu, r'.value.cpu)
  }

  ghost predicate KeepsStack<E(!new)>(step: State<E> -> Option<State<E>>, m: Machine<E>, ip: Word, items: seq<Item>,
                                      base: Word) {
    forall a: Cpu<E> | Quiet(m, items, {}, a) :: KeepsStackFrom(step, m, ip, items, base, a)
  }

  lemma X86StackKept<E(!new)>(m: Machine<E>, job: Job, p: Prologue, thunk: RelocThunk, align: nat, block: seq<Byte>,
                              rx: Address, base: Word, cl: Reg32, closure: Word, jmp: Reg32, back: Word)
    requires RelocatedBy(m, job, p, thunk, cl, jmp) && PlacedThunk(m, thunk, align, block, rx, base, closure, back)
    ensures KeepsStack(m.Step, m, job.ip, p.items, base)
  {
    var end := job.ip + p.asmAt;
    ThunkRuns(m, job, p, thunk, align, block, rx, base, cl, closure, jmp, back, end);
    forall a: Cpu<E> | Quiet(m, p.items, {}, a)
      ensures KeepsStackFrom(m.Step, m, job.ip, p.items, base, a)
    {
      RunsKeepStack(m.Step, m, job.ip, p.items, end, base, cl, closure, jmp, back, a);
    }
  }

  lemma RunsKeepStack<E(!new)>(step: State<E> -> Option<State<E>>, m: Machine<E>, ip: Word, items: seq<Item>, end: Word,
                               base: Word, cl: Reg32, closure: Word, jmp: Reg32, back: Word, a: Cpu<E>)
    requires BothRun(step, m, ip, items, end, base, cl, closure, jmp, back, a) && Quiet(m, items, {}, a)
    ensures KeepsStackFrom(step, m, ip, items, base, a)
  {
    if Effects(m, items, a).Some? {
      StackExact(m, items, a, Effects(m, items, a).value);
    }
  }

  /** The thunk finds the same memory at and above the stack pointer exactly when nothing is seen there of what the
      calls have written; where no instruction has made something else of it, exactly when every byte pushed that is
      still there is the one it was pushed over. */
  ghost predicate StackTellsFrom<E(!new)>(step: State<E> -> Option<State<E>>, m: Machine<E>, ip: Word, items: seq<Item>,
                                          base: Word, a: Cpu<E>)
  {
    var r, r' := Run(step, Total(OldSteps, items), State(ip, a)), Run(step, |items| + 3, State(base, a));
    r.Some? ==>
      && r'.Some? && (StackSame(r.value.cpu, r'.value.cpu) <==> NothingSeen(m, items, a, r.value.cpu))
      && (Sparing(m, items, {}, a) ==>
            (StackSame(r.value.cpu, r'.value.cpu) <==> PushesUnseen(m, items, a, r.value.cpu.reg[ESP])))
  }

  ghost predicate StackTells<E(!new)>(step: State<E> -> Option<State<E>>, m: Machine<E>, ip: Word, items: seq<Item>,
                                      base: Word) {
    forall a: Cpu<E> | Quiet(m, items, {}, a) :: StackTellsFrom(step, m, ip, items, base, a)
  }

  lemma X86StackExact<E(!new)>(m: Machine<E>, job: Job, p: Prologue, thunk: RelocThunk, align: nat, block: seq<Byte>,
                               rx: Address, base: Word, cl: Reg32, closure: Word, jmp: Reg32, back: Word)
    requires RelocatedBy(m, job, p, thunk, cl, jmp) && PlacedThunk(m, thunk, align, block, rx, base, closure, back)
    ensures StackTells(m.Step, m, job.ip, p.items, base)
  {
    var end := job.ip + p.asmAt;
    ThunkRuns(m, job, p, thunk, align, block, rx, base, cl, closure, jmp, back, end);
    forall a: Cpu<E> | Quiet(m, p.items, {}, a)
      ensures StackTellsFrom(m.Step, m, job.ip, p.items, base, a)
    {
      RunsTell(m.Step, m, job.ip, p.items, end, base, cl, closure, jmp, back, a);
    }
  }

  lemma RunsTell<E(!new)>(step: State<E> -> Option<State<E>>, m: Machine<E>, ip: Word, items: seq<Item>, end: Word,
                          base: Word, cl: Reg32, closure: Word, jmp: Reg32, back: Word, a: Cpu<E>)
    requires BothRun(step, m, ip, items, end, base, cl, closure, jmp, back, a) && Quiet(m, items, {}, a)
    ensures StackTellsFrom(step, m, ip, items, base, a)
  {
    if Effects(m, items, a).Some? {
      StackExact(m, items, a, Effects(m, items, a).value);
      if Sparing(m, items, {}, a) {
        PushesExact(m, items, a, Effects(m, items, a).value);
      }
    }
  }

  // ---------- `New` and this relocator ----------

  /** The relocator as the allocator calls it. */
  ghost function X86Relocator(decode: Decoder): Relocator {
    (t: seq<Byte>, ip: Address, magic: nat) requires ip < 0x1_0000_0000 && Job(decode, t, ip, magic).Valid() =>
      Relocated(Job(decode, t, ip, magic))
  }

  lemma RelocatedHasRoom(job: Job, align: nat)
    requires job.Valid() && job.magic + 16 == |job.t| && align > 0 && Relocated(job).Ok?
    ensures HasRoom(X86(align), Relocated(job).value) && |Relocated(job).value.thunk| <= |job.t|
  {
    var p := Scan(Looker(job), |job.t|, 0).value;
    LookerLooks(job);
    ReachedAtMagic(job, Looker(job), p);
    AsmAtMagic(job, Looker(job), p);
    FinishedShape(job, p);
    SavedAtLeast(job, p.items);
  }

  /** The asm block is found only when there is room for it before the magic. */
  lemma ReachedAtMagic(job: Job, look: Looks, p: Prologue)
    requires LooksAt(look, job) && Scan(look, |job.t|, 0) == Ok(p)
    ensures 16 <= job.magic
  {
    ScanDecodes(job, look, 0);
    assert SameLook(look, job, p.asmAt);
  }

  /** The thunk, no longer than the template, fits in the address space at `rx`: `New` may be given the x86
      relocator. */
  lemma X86Placeable(decode: Decoder, align: nat, mem: seq<Byte>, ptr: Word, rx: Address)
    requires align > 0 && ptr + |mem| < 0x1_0000_0000 && rx + |mem| + align <= 0x1_0000_0000_0000_0000
    requires forall off: nat | off + 16 <= |mem| && FirstMagic(X86(align), mem, ptr, off) ::
               Job(decode, TemplateAt(X86(align), mem, off), ptr, off).Valid()
    ensures Placeable(X86(align), X86Relocator(decode), mem, ptr, rx)
  {
    var c, relocate := X86(align), X86Relocator(decode);
    forall off: nat | off + c.returnOffset <= |mem| && FirstMagic(c, mem, ptr, off)
      ensures relocate.requires(TemplateAt(c, mem, off), ptr, off)
      ensures match relocate(TemplateAt(c, mem, off), ptr, off)
              case Err(_) => true
              case Ok(thunk) => HasRoom(c, thunk) && rx + |thunk.thunk| + c.align <= 0x1_0000_0000_0000_0000
    {
      var job := Job(decode, TemplateAt(c, mem, off), ptr, off);
      assert job.Valid();
      if Relocated(job).Ok? {
        RelocatedHasRoom(job, align);
      }
    }
  }
}
