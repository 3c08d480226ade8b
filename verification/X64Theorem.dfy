/** The main results about the x86-64 relocator. */
module X64Theorem {
  import opened Bytes
  import opened Runs
  import opened SafeJit
  import opened Placement
  import opened X64Machine
  import opened X64Reloc
  import opened X64Liveness
  import opened X64Correct

  // ---------- branches ----------

  lemma {:induction false} MaxJccBounds(job: Job, entries: seq<Entry>, i: nat)
    requires i < |entries| && entries[i].insn.flow.Jcc?
    ensures job.JccOffset(entries[i]) <= job.MaxJcc(entries)
    decreases |entries|
  {
    var rest := entries[..|entries| - 1];
    if i < |rest| {
      MaxJccBounds(job, rest, i);
    }
  }

  /** In a prologue that is accepted, every conditional branch leads to an offset of the prologue or to the asm
      block. */
  lemma BranchesInside(job: Job, p: Prologue, i: nat)
    requires job.Valid() && job.Relocated().Ok? && Scan(job.Looker(), |job.t|, 0) == Ok(p)
    requires i < |p.entries| && p.entries[i].insn.flow.Jcc?
    ensures job.JccOffset(p.entries[i]) <= p.asmAt
  {
    var all := p.entries + [Entry(p.asm, p.asmAt)];
    assert all[i] == p.entries[i];
    MaxJccBounds(job, all, i);
  }

  // ---------- the thunk ----------

  lemma {:induction false} NoneNeeded(entries: seq<Entry>, i: nat)
    requires NumReloc(entries) == 0 && i < |entries|
    ensures !entries[i].NeedsReloc()
    decreases |entries|
  {
    if i < |entries| - 1 {
      NoneNeeded(entries[..|entries| - 1], i);
    }
  }

  /** Without instructions to rewrite, the new code is the old code. */
  lemma {:induction false} KeptCode(job: Job, p: Prologue, rs: seq<Option<Gpr>>, i: nat)
    requires job.Scanned(p, 0) && |rs| == |p.entries| && i <= |rs| && NumReloc(p.entries) == 0
    ensures p.Off(i) <= p.asmAt && job.Code(p.entries, rs, i) == Some(job.t[p.Off(i)..p.asmAt])
    decreases |rs| - i
  {
    if i == |rs| {
      assert job.t[p.asmAt..p.asmAt] == [];
    } else {
      NoneNeeded(p.entries, i);
      assert job.ScannedAt(p, i);
      KeptCode(job, p, rs, i + 1);
      assert job.t[p.Off(i)..p.Off(i + 1)] + job.t[p.Off(i + 1)..p.asmAt] == job.t[p.Off(i)..p.asmAt];
    }
  }

  lemma KeptServed(p: Prologue, rs: seq<Option<Gpr>>)
    requires p.asm.op0 < 16 && rs == p.Choices() && NumReloc(p.entries) == 0
    ensures p.Served(rs)
  {
    forall i | 0 <= i < |p.entries|
      ensures p.ServedAt(rs, i)
    {
      NoneNeeded(p.entries, i);
    }
  }

  /** `thunk` is what is made of prologue `p` with the registers `rs`. */
  predicate MadeOf(job: Job, p: Prologue, rs: seq<Option<Gpr>>, thunk: RelocThunk)
    requires p.asmAt <= |job.t| && |p.entries| == |rs|
  {
    if NumReloc(p.entries) == 0 then thunk == RelocThunk(job.t, job.magic) && p.Served(rs)
    else job.Rewritten(p, rs) == Ok(thunk)
  }

  lemma Accepted(job: Job, p: Prologue, rs: seq<Option<Gpr>>, thunk: RelocThunk)
    requires job.Valid() && job.Relocated() == Ok(thunk) && Scan(job.Looker(), |job.t|, 0) == Ok(p)
    requires p.asm.op0 < 16 && rs == p.Choices()
    ensures job.Scanned(p, 0) && MadeOf(job, p, rs, thunk)
  {
    ScanScanned(job, job.Looker(), 0);
    if NumReloc(p.entries) == 0 {
      KeptServed(p, rs);
    }
  }

  /** The thunk is the new code followed by the template from the asm block on, whether or not anything was rewritten;
      its magic has moved by the bytes inserted. */
  lemma ThunkCode(job: Job, p: Prologue, rs: seq<Option<Gpr>>, thunk: RelocThunk) returns (code: seq<Byte>)
    requires job.Scanned(p, 0) && |p.entries| == |rs| && MadeOf(job, p, rs, thunk)
    requires p.asmAt <= job.magic < 0x1_0000_0000_0000_0000
    ensures p.Served(rs) && job.Code(p.entries, rs, 0) == Some(code)
    ensures thunk.thunk == code + job.t[p.asmAt..]
    ensures thunk.magicOffset == WrappingAdd(job.magic, |code| - p.asmAt)
  {
    if NumReloc(p.entries) == 0 {
      KeptCode(job, p, rs, 0);
      code := job.t[..p.asmAt];
    } else {
      code := job.Code(p.entries, rs, 0).value;
      assert thunk == job.Finished(code, p.asmAt);
    }
  }

  lemma ThunkShape(job: Job, p: Prologue, rs: seq<Option<Gpr>>, thunk: RelocThunk) returns (code: seq<Byte>)
    requires job.Scanned(p, 0) && |p.entries| == |rs| && MadeOf(job, p, rs, thunk)
    requires p.asmAt <= job.magic && job.magic + 16 == |job.t| && |thunk.thunk| < 0x1_0000_0000_0000_0000
    requires |job.t| < 0x1_0000_0000_0000_0000
    ensures p.Served(rs) && job.Code(p.entries, rs, 0) == Some(code)
    ensures thunk.thunk == code + job.t[p.asmAt..] && thunk.magicOffset == |code| + job.magic - p.asmAt
    ensures HasRoom(X86_64, thunk)
  {
    code := ThunkCode(job, p, rs, thunk);
  }

  /** Patching fills both slots and leaves the rest of the thunk. */
  lemma PatchedShape(job: Job, p: Prologue, thunk: RelocThunk, code: seq<Byte>, placed: seq<Byte>, closure: Address,
                     back: Address)
    requires p.asmAt <= job.magic && job.magic + 16 == |job.t|
    requires thunk.thunk == code + job.t[p.asmAt..] && thunk.magicOffset == |code| + job.magic - p.asmAt
    requires HasRoom(X86_64, thunk) && placed == Patched(X86_64, thunk, closure, back)
    ensures code <= placed && AsmPlaced(job, p, placed, |code|, closure, back)
  {
    var slot := thunk.magicOffset;
    PatchedReadsBack(X86_64, thunk, closure, back, slot, slot + 8);
    forall k | 0 <= k < slot
      ensures placed[k] == thunk.thunk[k]
    {
    }
    CodeThenAsm(code, job.t, p.asmAt, job.magic, thunk.thunk, placed, slot);
  }

  lemma CodeThenAsm(code: seq<Byte>, t: seq<Byte>, asmAt: nat, magic: nat, thunk: seq<Byte>, placed: seq<Byte>,
                    slot: nat)
    requires asmAt <= magic <= |t| && thunk == code + t[asmAt..] && slot == |code| + magic - asmAt <= |placed|
    requires forall k | 0 <= k < slot :: placed[k] == thunk[k]
    ensures code <= placed && placed[|code|..slot] == t[asmAt..magic]
  {
    forall k | 0 <= k < magic - asmAt
      ensures placed[|code|..slot][k] == t[asmAt..magic][k]
    {
      assert placed[|code|..slot][k] == placed[|code| + k] == thunk[|code| + k] == t[asmAt..][k];
    }
    forall k | 0 <= k < |code|
      ensures placed[k] == code[k]
    {
      assert placed[k] == thunk[k];
    }
  }

  /** The registers reported are right for every instruction of the prologue. */
  ghost predicate AllRespect<E(!new)>(m: Machine<E>, p: Prologue) {
    forall i | 0 <= i < |p.entries| :: Respects(m, p.entries[i].insn)
  }

  lemma ChoicesRunnable<E(!new)>(m: Machine<E>, x: Image)
    requires x.Valid() && x.p.Served(x.rs) && Trusted(m, x.job, x.p)
    requires m.Holds(x.job.ip, x.job.t) && m.Holds(x.base, x.placed)
    ensures Runnable(m, x)
  {
    forall i | 0 <= i < |x.p.entries|
      ensures x.p.entries[i].NeedsReloc() <==> x.rs[i].Some?
    {
      assert x.p.ServedAt(x.rs, i);
    }
  }

  lemma ChoicesSound<E(!new)>(m: Machine<E>, x: Image)
    requires Runnable(m, x) && x.p.asm.op0 < 16 && x.rs == x.p.Choices() && AllRespect(m, x.p)
    ensures Sound(m, x)
  {
    forall i | 0 <= i < |x.p.entries|
      ensures SoundAt(m, x, i)
    {
      if x.rs[i].Some? {
        ChosenDead(x.p, i);
      }
    }
  }

  /** Where within `n` steps the prologue at `ip` arrives at the asm block, the thunk at `base` arrives at `back` within
      `k` steps, in the same state with the closure register set; where the original faults, so does the thunk. */
  predicate Enters<E(==)>(step: State<E> -> Option<State<E>>, ip: Address, p: Prologue, n: nat, base: Address, k: nat,
                          a: Cpu<E>, closure: Address, back: Address)
    requires p.asm.op0 < 16 && ip + p.asmAt < 0x1_0000_0000_0000_0000
  {
    match Upto(step, ip + p.asmAt, n, State(ip, a))
    case Arrived(s) => Run(step, k, State(base, a)) == Some(State(back, s.cpu.Set(p.asm.op0, closure)))
    case Faulted => Run(step, k, State(base, a)).None?
    case Running(_) => true
  }

  /** What the prologue does at `ip` and the code of `x` at `base`, then the asm block. */
  lemma ImageEnters<E(!new)>(m: Machine<E>, x: Image, jmp: Insn, closure: Address, back: Address, a: Cpu<E>, n: nat)
    returns (k: nat)
    requires Sound(m, x) && Straight(x.p) && AsmBlock(x.job, x.p, jmp)
    requires AsmPlaced(x.job, x.p, x.placed, |x.code|, closure, back)
    ensures Enters(m.Step, x.job.ip, x.p, n, x.base, k, a, closure, back)
  {
    var pc := x.base + |x.code|;
    AsmBlockJumps(m, x, jmp, closure, back, pc);
    PrologueSimulation(m, x);
    k := SimulationEnters(m.Step, x, pc, closure, back, n, a);
  }

  lemma SimulationEnters<E(!new)>(step: State<E> -> Option<State<E>>, x: Image, pc: Address, closure: Address,
                                  back: Address, n: nat, a: Cpu<E>) returns (k: nat)
    requires x.Valid() && x.p.asm.op0 < 16 && Simulation(step, x)
    requires pc == x.base + |x.code| && Jumps(step, pc, x.p.asm.op0, closure, back)
    ensures Enters(step, x.job.ip, x.p, n, x.base, k, a, closure, back)
  {
    var s, s' := State(x.job.ip, a), State(x.base, a);
    k := RunSimulates(step, x, 0, n, s, s');
    match Upto(step, x.job.ip + x.p.asmAt, n, s) {
      case Arrived(o) =>
        ThenAsm(step, x, pc, closure, back, k, s', o, Run(step, k, s').value);
        k := k + 2;
      case _ =>
    }
  }

  /** From address `pc`, two steps set the closure register and jump to `back`. */
  ghost predicate Jumps<E(!new)>(step: State<E> -> Option<State<E>>, pc: Address, cl: Gpr, closure: Address,
                                 back: Address) {
    forall b: Cpu<E> :: Run(step, 2, State(pc, b)) == Some(State(back, b.Set(cl, closure)))
  }

  lemma AsmBlockJumps<E(!new)>(m: Machine<E>, x: Image, jmp: Insn, closure: Address, back: Address, pc: Address)
    requires Runnable(m, x) && AsmBlock(x.job, x.p, jmp) && AsmPlaced(x.job, x.p, x.placed, |x.code|, closure, back)
    requires pc == x.base + |x.code|
    ensures Jumps(m.Step, pc, x.p.asm.op0, closure, back)
  {
    forall b: Cpu<E>
      ensures Run(m.Step, 2, State(pc, b)) == Some(State(back, b.Set(x.p.asm.op0, closure)))
    {
      AsmRuns(m, x.job, x.p, jmp, x.placed, x.base, |x.code|, closure, back, b);
    }
  }

  lemma ThenAsm<E(!new)>(step: State<E> -> Option<State<E>>, x: Image, pc: Address, closure: Address, back: Address,
                         k: nat, s': State<E>, o: State<E>, o': State<E>)
    requires x.Valid() && x.p.asm.op0 < 16
    requires Jumps(step, pc, x.p.asm.op0, closure, back) && pc == x.base + |x.code|
    requires Run(step, k, s') == Some(o') && Related(x, |x.p.entries|, o, o')
    ensures Run(step, k + 2, s') == Some(State(back, o.cpu.Set(x.p.asm.op0, closure)))
  {
    AtAsmBlock(x);
    SameClosure(x.p, o.cpu, o'.cpu, closure);
    assert o' == State(pc, o'.cpu);
    RunThen(step, k, 2, s', o', Some(State(back, o'.cpu.Set(x.p.asm.op0, closure))));
  }

  lemma AtAsmBlock(x: Image)
    requires x.Valid()
    ensures x.At(|x.p.entries|) == |x.code|
  {
    CodeSuffix(x.job, x.p.entries, x.rs, |x.p.entries|, x.code);
  }

  /** Only the closure register may differ at the asm block, and it is overwritten there. */
  lemma SameClosure<E>(p: Prologue, a: Cpu<E>, b: Cpu<E>, closure: Address)
    requires p.asm.op0 < 16 && AgreeExcept(DeadSet(p, |p.entries|), a, b)
    ensures a.Set(p.asm.op0, closure) == b.Set(p.asm.op0, closure)
  {
    forall r: Gpr | r != p.asm.op0
      ensures a.gpr[r] == b.gpr[r]
    {
      DeadAtEnd(p, r);
    }
    assert a.Set(p.asm.op0, closure).gpr == b.Set(p.asm.op0, closure).gpr;
  }

  // ---------- the theorems ----------

  /** `thunk` is what relocating the template at `ip` by way of `p` makes of it, and the registers reported
      for its instructions are right. */
  ghost predicate RelocatedBy<E(!new)>(m: Machine<E>, job: Job, p: Prologue, thunk: RelocThunk, jmp: Insn) {
    && job.Valid() && job.Relocated() == Ok(thunk) && Scan(job.Looker(), |job.t|, 0) == Ok(p)
    && Trusted(m, job, p) && AllRespect(m, p) && AsmBlock(job, p, jmp) && m.Holds(job.ip, job.t)
  }

  /** `New` has placed the thunk at `base`, where it is mapped. */
  ghost predicate PlacedThunk<E(!new)>(m: Machine<E>, thunk: RelocThunk, block: seq<Byte>, rx: Address, base: Address,
                                       closure: Address, back: Address)
  {
    && HasRoom(X86_64, thunk) && rx <= base
    && PlacedAt(X86_64, block, thunk, rx, base - rx, closure, back)
    && m.Holds(base, block[base - rx..base - rx + |thunk.thunk|])
  }

  /** What the placed thunk consists of. */
  lemma ThunkImage<E(!new)>(m: Machine<E>, job: Job, p: Prologue, thunk: RelocThunk, jmp: Insn, block: seq<Byte>,
                            rx: Address, base: Address, closure: Address, back: Address) returns (x: Image)
    requires RelocatedBy(m, job, p, thunk, jmp) && PlacedThunk(m, thunk, block, rx, base, closure, back)
    ensures x.job == job && x.p == p && x.base == base && x.rs == p.Choices() && Runnable(m, x)
    ensures AsmPlaced(job, p, x.placed, |x.code|, closure, back)
  {
    var rs, placed := p.Choices(), block[base - rx..base - rx + |thunk.thunk|];
    Accepted(job, p, rs, thunk);
    var code := ThunkShape(job, p, rs, thunk);
    PatchedShape(job, p, thunk, code, placed, closure, back);
    x := Image(job, p, rs, code, placed, base);
    ChoicesRunnable(m, x);
  }

  /**
   End to end. The template at `ip` is relocated, and placed by `New` at `base`. Whenever the original prologue
   reaches the asm block, the thunk reaches the address patched in, with memory, flags and registers as the original
   leaves them, except that the closure register holds the closure pointer. Whenever the original faults before that,
   the thunk faults.
   */
  lemma X64ThunkEntersClosure<E(!new)>(m: Machine<E>, job: Job, p: Prologue, thunk: RelocThunk, jmp: Insn,
                                       block: seq<Byte>, rx: Address, base: Address, closure: Address, back: Address,
                                       a: Cpu<E>, n: nat)
    returns (k: nat)
    requires RelocatedBy(m, job, p, thunk, jmp) && Straight(p) && PlacedThunk(m, thunk, block, rx, base, closure, back)
    ensures Enters(m.Step, job.ip, p, n, base, k, a, closure, back)
  {
    var x := ThunkImage(m, job, p, thunk, jmp, block, rx, base, closure, back);
    ChoicesSound(m, x);
    k := ImageEnters(m, x, jmp, closure, back, a, n);
  }

  // ---------- prologues without branches ----------

  ghost predicate BranchFree(p: Prologue) { forall i | 0 <= i < |p.entries| :: p.entries[i].insn.flow.Next? }

  /** A prologue without branches reaches the asm block or faults, after as many steps as it has instructions. */
  lemma {:induction false} BranchFreeEnds<E(!new)>(m: Machine<E>, job: Job, p: Prologue, i: nat, a: Cpu<E>)
    requires Local(job.decode) && m.decode == job.decode && job.Scanned(p, 0) && m.Holds(job.ip, job.t)
    requires BranchFree(p) && i <= |p.entries| && p.Off(i) <= |job.t|
    ensures !Upto(m.Step, job.ip + p.asmAt, |p.entries| - i, State(job.ip + p.Off(i), a)).Running?
    decreases |p.entries| - i
  {
    OffBelow(job, p, i);
    if i < |p.entries| {
      var r := BranchFreeStep(m, job, p, i, a);
      if r.Some? {
        BranchFreeEnds(m, job, p, i + 1, r.value.cpu);
      }
    }
  }

  lemma BranchFreeStep<E(!new)>(m: Machine<E>, job: Job, p: Prologue, i: nat, a: Cpu<E>) returns (r: Option<State<E>>)
    requires Local(job.decode) && m.decode == job.decode && job.Scanned(p, 0) && m.Holds(job.ip, job.t)
    requires i < |p.entries| && p.entries[i].insn.flow.Next? && p.Off(i) <= |job.t|
    ensures p.Off(i + 1) <= |job.t| && r == m.Step(State(job.ip + p.Off(i), a))
    ensures r.Some? ==> r.value.pc == job.ip + p.Off(i + 1)
  {
    assert job.ScannedAt(p, i);
    StepAt(m, job.ip, job.t, p.Off(i), p.entries[i].insn, a);
    r := m.Step(State(job.ip + p.Off(i), a));
  }

  lemma BranchFreeStraight(p: Prologue)
    requires BranchFree(p)
    ensures Straight(p)
  {
  }

  /** The prologue at `ip` faults or arrives at the asm block after as many steps as it has instructions, and so
      does the thunk after `k`: it faults, or arrives at `back` in the same state with the closure register set. */
  predicate Finishes<E(==)>(step: State<E> -> Option<State<E>>, ip: Address, p: Prologue, base: Address, k: nat,
                            a: Cpu<E>, closure: Address, back: Address)
    requires p.asm.op0 < 16 && ip + p.asmAt < 0x1_0000_0000_0000_0000
  {
    match Upto(step, ip + p.asmAt, |p.entries|, State(ip, a))
    case Arrived(s) => Run(step, k, State(base, a)) == Some(State(back, s.cpu.Set(p.asm.op0, closure)))
    case Faulted => Run(step, k, State(base, a)).None?
    case Running(_) => false
  }

  /** Without branches, the thunk does everything the original does, and finishes. */
  lemma X64BranchFreeFinishes<E(!new)>(m: Machine<E>, job: Job, p: Prologue, thunk: RelocThunk, jmp: Insn,
                                       block: seq<Byte>, rx: Address, base: Address, closure: Address, back: Address,
                                       a: Cpu<E>)
    returns (k: nat)
    requires RelocatedBy(m, job, p, thunk, jmp) && BranchFree(p)
    requires PlacedThunk(m, thunk, block, rx, base, closure, back)
    ensures Finishes(m.Step, job.ip, p, base, k, a, closure, back)
  {
    BranchFreeStraight(p);
    k := X64ThunkEntersClosure(m, job, p, thunk, jmp, block, rx, base, closure, back, a, |p.entries|);
    BranchFreeEnded(m, job, p, thunk, jmp, a);
    EntersFinishes(m.Step, job.ip, p, base, k, a, closure, back);
  }

  lemma BranchFreeEnded<E(!new)>(m: Machine<E>, job: Job, p: Prologue, thunk: RelocThunk, jmp: Insn, a: Cpu<E>)
    requires RelocatedBy(m, job, p, thunk, jmp) && BranchFree(p)
    ensures !Upto(m.Step, job.ip + p.asmAt, |p.entries|, State(job.ip, a)).Running?
  {
    Accepted(job, p, p.Choices(), thunk);
    BranchFreeEnds(m, job, p, 0, a);
  }

  lemma EntersFinishes<E>(step: State<E> -> Option<State<E>>, ip: Address, p: Prologue, base: Address, k: nat,
                          a: Cpu<E>, closure: Address, back: Address)
    requires p.asm.op0 < 16 && ip + p.asmAt < 0x1_0000_0000_0000_0000
    requires Enters(step, ip, p, |p.entries|, base, k, a, closure, back)
    requires !Upto(step, ip + p.asmAt, |p.entries|, State(ip, a)).Running?
    ensures Finishes(step, ip, p, base, k, a, closure, back)
  {
  }

  // ---------- `New` and this relocator ----------

  /** The relocator as the allocator calls it. */
  ghost function X64Relocator(decode: Decoder, encode: Encoder): Relocator {
    (t: seq<Byte>, ip: Address, magic: nat) requires Job(decode, encode, t, ip, magic).Valid() =>
      Job(decode, encode, t, ip, magic).Relocated()
  }

  /** The relocator may be given the template: the thunk it makes is at least as long as the two slots, and fits in the
      address space at `rx`. */
  ghost predicate ThunkFits(job: Job, rx: Address) {
    && job.Valid()
    && (job.Relocated().Ok? ==>
          && 16 <= |job.Relocated().value.thunk| && rx + |job.Relocated().value.thunk| + 8 <= 0x1_0000_0000_0000_0000)
  }

  /** The magic moves by what the thunk is longer. */
  lemma MagicMoves(job: Job, p: Prologue, rs: seq<Option<Gpr>>, thunk: RelocThunk)
    requires p.asmAt <= |job.t| && |p.entries| == |rs| && job.Rewritten(p, rs) == Ok(thunk)
    ensures thunk.magicOffset == WrappingAdd(job.magic, |thunk.thunk| - |job.t|)
  {
  }

  lemma RelocatedMagic(job: Job, thunk: RelocThunk) returns (slot: nat)
    requires job.Valid() && job.Relocated() == Ok(thunk)
    ensures slot == thunk.magicOffset == WrappingAdd(job.magic, |thunk.thunk| - |job.t|)
  {
    slot := thunk.magicOffset;
    var p := Scan(job.Looker(), |job.t|, 0).value;
    if NumReloc(p.entries) != 0 {
      MagicMoves(job, p, p.Choices(), thunk);
    }
  }

  lemma MagicInside(magic: nat, len: nat, n: nat)
    requires magic + 16 == len && 16 <= n < 0x1_0000_0000_0000_0000
    ensures WrappingAdd(magic, n - len) + 16 == n
  {
  }

  /** What `New` asks of it. */
  lemma ThunkPlaceable(job: Job, rx: Address, c: Consts)
    requires ThunkFits(job, rx) && job.magic + 16 == |job.t| && c == X86_64
    ensures match job.Relocated()
            case Err(_) => true
            case Ok(thunk) => HasRoom(c, thunk) && rx + |thunk.thunk| + c.align <= 0x1_0000_0000_0000_0000
  {
    if job.Relocated().Ok? {
      var thunk := job.Relocated().value;
      var _ := RelocatedMagic(job, thunk);
      MagicInside(job.magic, |job.t|, |thunk.thunk|);
    }
  }

  /** `New` may be given the x86-64 relocator. */
  lemma X64Placeable(decode: Decoder, encode: Encoder, mem: seq<Byte>, ptr: Address, rx: Address)
    requires ptr + |mem| < 0x1_0000_0000_0000_0000
    requires forall off: nat | off + 16 <= |mem| && FirstMagic(X86_64, mem, ptr, off) ::
               ThunkFits(Job(decode, encode, TemplateAt(X86_64, mem, off), ptr, off), rx)
    ensures Placeable(X86_64, X64Relocator(decode, encode), mem, ptr, rx)
  {
    var relocate := X64Relocator(decode, encode);
    forall off: nat | off + X86_64.returnOffset <= |mem| && FirstMagic(X86_64, mem, ptr, off)
      ensures relocate.requires(TemplateAt(X86_64, mem, off), ptr, off)
      ensures match relocate(TemplateAt(X86_64, mem, off), ptr, off)
              case Err(_) => true
              case Ok(thunk) => HasRoom(X86_64, thunk) && rx + |thunk.thunk| + X86_64.align <= 0x1_0000_0000_0000_0000
    {
      var job := Job(decode, encode, TemplateAt(X86_64, mem, off), ptr, off);
      assert ThunkFits(job, rx);
      ThunkPlaceable(job, rx, X86_64);
    }
  }
}
