/** A template the x86-64 relocator accepts and miscompiles: a branch skips the write that made a register look dead. */
module X64SkippedWrite {
  import opened Bytes
  import opened Runs
  import opened SafeJit
  import opened Placement
  import opened X64Machine
  import opened X64Reloc
  import opened X64Liveness
  import opened X64Correct
  import opened X64Theorem
  import opened X64Examples

  // ---------- the decoder and the encoder of the examples can be trusted ----------

  lemma FewLocal()
    ensures Local(FewInsns())
  {
    forall s: seq<Byte>, t: seq<Byte>
      ensures LocalAt(FewInsns(), s, t)
    {
      if DecodeFew(s).Some? && DecodeFew(s).value.len <= |s| && s[..DecodeFew(s).value.len] <= t {
        FewLocalAt(s, t, DecodeFew(s).value);
      }
    }
  }

  lemma FewLocalAt(s: seq<Byte>, t: seq<Byte>, insn: Insn)
    requires DecodeFew(s) == Some(insn) && insn.len <= |s| && s[..insn.len] <= t
    ensures DecodeFew(t) == Some(insn)
  {
    forall k | 0 <= k < insn.len
      ensures s[k] == t[k]
    {
      assert s[..insn.len][k] == t[k];
    }
    if |s| >= 10 && IsMovImm(s[0], s[1]) {
      assert s[2..10] == t[2..10];
    }
  }

  lemma FewMovs()
    ensures MovDecodes(FewInsns())
  {
    forall s: seq<Byte>, r: Gpr, a: Address
      ensures MovDecodesAt(FewInsns(), s, r, a)
    {
    }
  }

  // ---------- the template ----------

  /** A load of XMM0; JE over a MOV to RAX; MOV RCX, RAX; the asm block. */
  const SKIPPED_WRITE: seq<Byte> :=
    [0x0F, 0x28, 5, 0x79, 0, 0, 0, 0x74, 10] + [0x48, 0xB8, 1, 0, 0, 0, 0, 0, 0, 0]
    + [0x48, 0x89, 0xC1, 0x48, 0x8B, 5, 11, 0, 0, 0] + [0xFF, 0x25, 13, 0, 0, 0, 0xCC, 0xCC, 0xCC, 0xCC, 0xCC]
    + X86_MAGIC

  function SkippedWrite(): Prologue {
    Prologue([Entry(Movaps(0x79), 0), Entry(Je(10), 7), Entry(MovImm64(0, 1), 9), Entry(MOV_RCX_RAX, 19)],
             22, MovRax(11))
  }

  lemma SkippedWriteBytes(t: seq<Byte>)
    requires t == SKIPPED_WRITE
    ensures |t| == 56 && Stands(t, 0, Movaps(0x79)) && Stands(t, 7, Je(10)) && Stands(t, 19, MOV_RCX_RAX)
    ensures t[9..19] == [0x48, 0xB8, 1, 0, 0, 0, 0, 0, 0, 0]
    ensures Stands(t, 22, MovRax(11)) && Stands(t, 29, Jmp(13))
  {
  }

  lemma MovDecoded(s: seq<Byte>)
    requires |s| >= 10 && s[..10] == [0x48, 0xB8, 1, 0, 0, 0, 0, 0, 0, 0]
    ensures DecodeFew(s) == Some(MovImm64(0, 1))
  {
    assert s[0] == s[..10][0] && s[1] == s[..10][1];
    assert s[2..10] == s[..10][2..];
    One();
  }

  lemma One()
    ensures FromLe8([0x48, 0xB8, 1, 0, 0, 0, 0, 0, 0, 0][2..]) == 1
  {
    assert [0x48, 0xB8, 1, 0, 0, 0, 0, 0, 0, 0][2..] == Le8(1);
    Le8RoundTrip(1);
  }

  ghost predicate IsSkippedWrite(job: Job) {
    job == JobOf(SKIPPED_WRITE, job.ip, 40) && job.ip + 56 < 0x1_0000_0000_0000_0000
  }

  lemma SkippedWriteScanned(job: Job) returns (p: Prologue)
    requires IsSkippedWrite(job)
    ensures |job.t| == 56 && job.Valid() && p == SkippedWrite() && Scan(job.Looker(), |job.t|, 0) == Ok(p)
    ensures DecodeFew(job.t[29..]) == Some(Jmp(13))
  {
    p := SkippedWrite();
    SkippedWriteBytes(job.t);
    JobValid(job);
    SkippedWriteLooks(job);
    SkippedWriteSeen(job);
    ScanIs(job, p);
    StandsDecodes(job.t, 29, Jmp(13));
  }

  lemma SkippedWriteLooks(job: Job)
    requires job.decode == FewInsns() && job.magic == 40 && |job.t| == 56
    requires Stands(job.t, 0, Movaps(0x79)) && Stands(job.t, 7, Je(10)) && Stands(job.t, 19, MOV_RCX_RAX)
    requires job.t[9..19] == [0x48, 0xB8, 1, 0, 0, 0, 0, 0, 0, 0] && Stands(job.t, 22, MovRax(11))
    ensures job.Look(0) == Visited(Entry(Movaps(0x79), 0)) && job.Look(7) == Visited(Entry(Je(10), 7))
    ensures job.Look(9) == Visited(Entry(MovImm64(0, 1), 9)) && job.Look(19) == Visited(Entry(MOV_RCX_RAX, 19))
    ensures job.Look(22) == Reached(MovRax(11))
  {
    LookStands(job, 0, Movaps(0x79));
    LookStands(job, 7, Je(10));
    assert job.t[9..][..10] == job.t[9..19];
    MovDecoded(job.t[9..]);
    LookAt(job, 9, MovImm64(0, 1));
    LookStands(job, 19, MOV_RCX_RAX);
    LookStands(job, 22, MovRax(11));
  }

  lemma SkippedWriteSeen(job: Job)
    requires job.Valid() && |job.t| == 56
    requires job.Look(0) == Visited(Entry(Movaps(0x79), 0)) && job.Look(7) == Visited(Entry(Je(10), 7))
    requires job.Look(9) == Visited(Entry(MovImm64(0, 1), 9)) && job.Look(19) == Visited(Entry(MOV_RCX_RAX, 19))
    requires job.Look(22) == Reached(MovRax(11))
    ensures Sees(job, SkippedWrite()) && SkippedWrite().Off(0) == 0
  {
  }

  // ---------- it is accepted ----------

  /** RAX is dead before the load and after the branch, but not at the target of the branch. */
  lemma SkippedWriteDead()
    ensures var p := SkippedWrite(); Dead(p, 0, 0) && Dead(p, 2, 0) && !Dead(p, 3, 0)
  {
    var p := SkippedWrite();
    DeadStep(p, 3, 0);
    assert Exposes(p.entries[3].insn.used[0], 0);
    DeadStep(p, 2, 0);
    assert Replaces(p.entries[2].insn.used[0], 0);
    DeadStep(p, 1, 0);
    DeadStep(p, 0, 0);
  }

  /** Of four instructions only the first needs a register, and RAX will do. */
  lemma OnlyFirst(p: Prologue) returns (rs: seq<Option<Gpr>>)
    requires p.asm.op0 < 16 && |p.entries| == 4 && Dead(p, 0, 0) && p.entries[0].NeedsReloc()
    requires forall i | 1 <= i < 4 :: !p.entries[i].NeedsReloc()
    ensures rs == p.Choices() == [Some(0), None, None, None] && p.Served(rs)
  {
    TableExact(p, 0, 0);
    rs := p.Choices();
    assert p.Chosen(0) == Some(0);
  }

  lemma SkippedWriteChoices() returns (rs: seq<Option<Gpr>>)
    ensures rs == SkippedWrite().Choices() == [Some(0), None, None, None] && SkippedWrite().Served(rs)
  {
    SkippedWriteDead();
    rs := OnlyFirst(SkippedWrite());
  }

  lemma SkippedWriteCode(job: Job, rs: seq<Option<Gpr>>)
    requires IsSkippedWrite(job) && |job.t| == 56 && rs == [Some(0), None, None, None]
    ensures job.Code(SkippedWrite().entries, rs, 0).Some?
  {
    var entries := SkippedWrite().entries;
    assert job.Code(entries, rs, 4).Some?;
    assert job.Code(entries, rs, 3).Some?;
    assert job.Code(entries, rs, 2).Some?;
    assert job.Code(entries, rs, 1).Some?;
  }

  lemma SkippedWriteCounts(job: Job)
    requires IsSkippedWrite(job) && |job.t| == 56
    ensures NumReloc(SkippedWrite().entries) > 0 && job.HighestJcc(SkippedWrite()) <= 22
  {
    var e := SkippedWrite().entries;
    assert job.JccOffset(e[1]) == 19 by { WrapBack(job.ip, 19); }
    JccBelow(job, e + [Entry(SkippedWrite().asm, 22)], 22);
    if NumReloc(e) == 0 {
      NoneNeeded(e, 0);
    }
  }

  /** The branch jumps over no instruction that is rewritten, and yet the prologue is not one whose branches can be
      copied: it skips the write that makes RAX look dead. */
  lemma SkippedWriteAccepted(job: Job) returns (p: Prologue, thunk: RelocThunk)
    requires IsSkippedWrite(job)
    ensures |job.t| == 56 && job.Valid() && p == SkippedWrite() && Scan(job.Looker(), |job.t|, 0) == Ok(p)
    ensures job.Relocated() == Ok(thunk)
    ensures LeadsTo(p, 1, 3) && KeptBetween(p, 2, 3) && !Straight(p)
  {
    p := SkippedWriteScanned(job);
    var rs := SkippedWriteChoices();
    SkippedWriteCode(job, rs);
    SkippedWriteCounts(job);
    thunk := Accepts(job, p, rs);
    NotStraight(p);
  }

  lemma NotStraight(p: Prologue)
    requires p == SkippedWrite()
    ensures LeadsTo(p, 1, 3) && KeptBetween(p, 2, 3) && !Straight(p)
  {
    SkippedWriteDead();
    assert 0 in DeadSet(p, 2) && 0 !in DeadSet(p, 3);
    assert forall j: nat :: LeadsTo(p, 1, j) ==> j == 3;
    assert !StraightAt(p, 1);
  }

  // ---------- it does something else ----------

  /** A machine with these instructions: MOV RCX, RAX copies RAX, MOVAPS changes no general purpose register. */
  ghost predicate Few<E(!new)>(m: Machine<E>, xmm: (Address, E) -> E) {
    m.decode == FewInsns() && Performs(m, xmm)
  }

  ghost predicate Performs<E(!new)>(m: Machine<E>, xmm: (Address, E) -> E) {
    forall id: nat, ea: Address, a: Cpu<E> :: m.exec(id, ea, a) == FewExec(xmm, id, ea, a)
  }

  /** What matters about the prologue when it runs. */
  predicate Shaped(p: Prologue) {
    && |p.entries| == 4 && p.Off(0) == 0 && p.Off(1) == 7 && p.Off(2) == 9 && p.Off(3) == 19 && p.Off(4) == 22
    && Does(p.entries[0].insn, Other(2), Next) && p.entries[0].NeedsReloc()
    && Does(p.entries[1].insn, Other(1), Jcc(10)) && !p.entries[1].NeedsReloc() && !p.entries[2].NeedsReloc()
    && Does(p.entries[3].insn, Other(3), Next) && p.entries[3].insn.mem.Elsewhere?
  }

  predicate Does(insn: Insn, op: Op, flow: Flow) { insn.op == op && insn.flow == flow }

  function FewExec<E>(xmm: (Address, E) -> E, id: nat, ea: Address, a: Cpu<E>): Option<Cpu<E>> {
    Some(if id == 2 then Cpu(a.gpr, xmm(ea, a.rest)) else if id == 3 then a.Set(1, a.gpr[0]) else a)
  }

  lemma FewRespects<E(!new)>(m: Machine<E>, xmm: (Address, E) -> E, insn: Insn)
    requires Few(m, xmm)
    requires insn == Movaps(0x79) || insn == Je(10) || insn == MovImm64(0, 1) || insn == MOV_RCX_RAX
    ensures Respects(m, insn)
  {
    forall ea: Address, a: Cpu<E>, b: Cpu<E>, d: set<Gpr>
      ensures RespectsOn(m, insn, ea, a, b, d)
    {
      if insn == MOV_RCX_RAX {
        assert Exposes(insn.used[0], 0) && Replaces(insn.used[1], 1);
      } else if insn == MovImm64(0, 1) {
        assert Replaces(insn.used[0], 0);
      }
    }
  }

  lemma FewTrusted<E(!new)>(m: Machine<E>, xmm: (Address, E) -> E, job: Job, p: Prologue)
    requires Few(m, xmm) && IsSkippedWrite(job) && p == SkippedWrite()
    ensures Trusted(m, job, p) && AllRespect(m, p)
  {
    FewLocal();
    FewMovs();
    forall i | 0 <= i < |p.entries|
      ensures Respects(m, p.entries[i].insn)
    {
      FewRespects(m, xmm, p.entries[i].insn);
    }
    forall i, r: Gpr | 0 <= i < |p.entries| && p.entries[i].NeedsReloc()
      ensures ThroughDecodes(job, p.entries[i], r)
    {
      assert i == 0;
      if r == 0 {
        var s: seq<Byte> := [0x0F, 0x28, 0];
        assert DecodeFew(s) == Some(MOVAPS_RAX);
      }
    }
  }

  /** All the theorem asks for, but for `Straight`. */
  lemma SkippedWriteRelocated<E(!new)>(m: Machine<E>, xmm: (Address, E) -> E, job: Job)
    returns (p: Prologue, thunk: RelocThunk)
    requires Few(m, xmm) && IsSkippedWrite(job) && m.Holds(job.ip, job.t)
    ensures p == SkippedWrite() && RelocatedBy(m, job, p, thunk, Jmp(13)) && !Straight(p)
  {
    p, thunk := SkippedWriteAccepted(job);
    FewTrusted(m, xmm, job, p);
    var _ := SkippedWriteScanned(job);
  }

  lemma OriginalRun<E(!new)>(m: Machine<E>, xmm: (Address, E) -> E, x: Image, ea: Address, a: Cpu<E>)
    returns (s: State<E>)
    requires Performs(m, xmm) && Runnable(m, x) && Shaped(x.p)
    requires ea == x.job.Target(x.p.entries[0]) && m.taken(Other(1), xmm(ea, a.rest))
    ensures Run(m.Step, 3, State(x.job.ip, a)) == Some(s) && s.pc == x.job.ip + 22 && s.cpu.gpr[1] == a.gpr[0]
  {
    var ip, loaded := x.job.ip, Cpu(a.gpr, xmm(ea, a.rest));
    s := State(ip + 22, loaded.Set(1, a.gpr[0]));
    OriginalLoad(m, xmm, x, ea, a, loaded);
    OriginalBranch(m, x, loaded);
    OriginalCopy(m, xmm, x, loaded);
    RunOne(m.Step, State(ip, a));
    ThenTwo(m.Step, 1, State(ip, a), State(ip + 7, loaded), State(ip + 19, loaded), s);
  }

  lemma OriginalLoad<E(!new)>(m: Machine<E>, xmm: (Address, E) -> E, x: Image, ea: Address, a: Cpu<E>, loaded: Cpu<E>)
    requires Performs(m, xmm) && Runnable(m, x) && Shaped(x.p)
    requires ea == x.job.Target(x.p.entries[0]) && loaded == Cpu(a.gpr, xmm(ea, a.rest))
    ensures x.job.ip + 22 < 0x1_0000_0000_0000_0000 && m.Step(State(x.job.ip, a)) == Some(State(x.job.ip + 7, loaded))
  {
    OffsetsInside(x);
    assert x.job.ScannedAt(x.p, 0);
    OriginalContinues(m, x, 0, x.job.ip + 7, ea, State(x.job.ip, a));
  }

  lemma OriginalBranch<E(!new)>(m: Machine<E>, x: Image, cpu: Cpu<E>)
    requires Runnable(m, x) && Shaped(x.p) && m.taken(Other(1), cpu.rest)
    ensures x.job.ip + 22 < 0x1_0000_0000_0000_0000
    ensures m.Step(State(x.job.ip + 7, cpu)) == Some(State(x.job.ip + 19, cpu))
  {
    OffsetsInside(x);
    OriginalBranches(m, x, 1, x.job.ip + 9, x.job.ip + 19, State(x.job.ip + 7, cpu));
  }

  lemma OriginalCopy<E(!new)>(m: Machine<E>, xmm: (Address, E) -> E, x: Image, cpu: Cpu<E>)
    requires Performs(m, xmm) && Runnable(m, x) && Shaped(x.p)
    ensures x.job.ip + 22 < 0x1_0000_0000_0000_0000
    ensures m.Step(State(x.job.ip + 19, cpu)) == Some(State(x.job.ip + 22, cpu.Set(1, cpu.gpr[0])))
  {
    OffsetsInside(x);
    OriginalContinues(m, x, 3, x.job.ip + 22, 0, State(x.job.ip + 19, cpu));
  }

  lemma OffsetsInside(x: Image)
    requires x.Valid() && Shaped(x.p)
    ensures x.job.ip + 22 < 0x1_0000_0000_0000_0000
  {
    NextInside(x, 3);
  }

  lemma ThenTwo<S>(step: S -> Option<S>, n: nat, s: S, s1: S, s2: S, s3: S)
    requires Run(step, n, s) == Some(s1) && step(s1) == Some(s2) && step(s2) == Some(s3)
    ensures Run(step, n + 2, s) == Some(s3)
  {
    RunTwo(step, s1, s2);
    RunThen(step, n, 2, s, s1, Some(s3));
  }

  /** The load through RAX, which holds the address from then on. */
  lemma NewLoad<E(!new)>(m: Machine<E>, xmm: (Address, E) -> E, x: Image, ea: Address, a: Cpu<E>, b: Cpu<E>,
                         loaded: Cpu<E>)
    requires Performs(m, xmm) && Runnable(m, x) && Shaped(x.p) && x.rs[0] == Some(0)
    requires ea == x.job.Target(x.p.entries[0]) && b == a.Set(0, ea) && loaded == Cpu(b.gpr, xmm(ea, b.rest))
    ensures x.At(1) <= |x.placed| && Run(m.Step, 2, State(x.base, a)) == Some(State(x.base + x.At(1), loaded))
  {
    NextInside(x, 0);
    RewrittenContinues(m, x, 0, x.base + x.At(1), 0, ea, State(x.base, a), b);
  }

  lemma NewBranch<E(!new)>(m: Machine<E>, x: Image, cpu: Cpu<E>)
    requires Runnable(m, x) && Shaped(x.p) && m.taken(Other(1), cpu.rest)
    ensures x.At(1) <= |x.placed| && x.At(3) <= |x.placed|
    ensures m.Step(State(x.base + x.At(1), cpu)) == Some(State(x.base + x.At(3), cpu))
  {
    BranchTargets(x, 1, 3);
    NextInside(x, 0);
    NextInside(x, 1);
    KeptBranches(m, x, 1, x.base + x.At(2), x.base + x.At(3), State(x.base + x.At(1), cpu));
  }

  lemma NewCopy<E(!new)>(m: Machine<E>, xmm: (Address, E) -> E, x: Image, cpu: Cpu<E>)
    requires Performs(m, xmm) && Runnable(m, x) && Shaped(x.p)
    ensures x.At(3) <= |x.placed| && |x.code| <= |x.placed|
    ensures m.Step(State(x.base + x.At(3), cpu)) == Some(State(x.base + |x.code|, cpu.Set(1, cpu.gpr[0])))
  {
    AtAsmBlock(x);
    NextInside(x, 2);
    NextInside(x, 3);
    KeptContinues(m, x, 3, x.base + x.At(4), 0, State(x.base + x.At(3), cpu));
  }

  lemma NewRun<E(!new)>(m: Machine<E>, xmm: (Address, E) -> E, x: Image, ea: Address, a: Cpu<E>)
    returns (s: State<E>)
    requires Performs(m, xmm) && Runnable(m, x) && Shaped(x.p) && x.rs[0] == Some(0)
    requires ea == x.job.Target(x.p.entries[0]) && m.taken(Other(1), xmm(ea, a.rest))
    ensures Run(m.Step, 4, State(x.base, a)) == Some(s) && s.pc == x.base + |x.code| && s.cpu.gpr[1] == ea
  {
    var b := a.Set(0, ea);
    var loaded := Cpu(b.gpr, xmm(ea, b.rest));
    NewLoad(m, xmm, x, ea, a, b, loaded);
    NewBranch(m, x, loaded);
    NewCopy(m, xmm, x, loaded);
    s := State(x.base + |x.code|, loaded.Set(1, ea));
    ThenTwo(m.Step, 2, State(x.base, a), State(x.base + x.At(1), loaded), State(x.base + x.At(3), loaded), s);
  }

  /** What the original and the thunk do from `a`, given that the branch is taken. */
  lemma ImageMisses<E(!new)>(m: Machine<E>, xmm: (Address, E) -> E, x: Image, jmp: Insn, ea: Address, closure: Address,
                             back: Address, a: Cpu<E>) returns (s: State<E>, s': State<E>)
    requires Performs(m, xmm) && Runnable(m, x) && Shaped(x.p) && x.rs[0] == Some(0) && x.p.asm.op0 == 0
    requires AsmBlock(x.job, x.p, jmp) && AsmPlaced(x.job, x.p, x.placed, |x.code|, closure, back)
    requires ea == x.job.Target(x.p.entries[0]) && m.taken(Other(1), xmm(ea, a.rest))
    ensures Run(m.Step, 3, State(x.job.ip, a)) == Some(s) && s.pc == x.job.ip + 22 && s.cpu.gpr[1] == a.gpr[0]
    ensures Run(m.Step, 6, State(x.base, a)) == Some(s') && s'.pc == back && s'.cpu.gpr[1] == ea
  {
    s := OriginalRun(m, xmm, x, ea, a);
    var between := NewRun(m, xmm, x, ea, a);
    var pc := x.base + |x.code|;
    AsmBlockJumps(m, x, jmp, closure, back, pc);
    s' := ThenJumps(m.Step, 4, State(x.base, a), between, pc, 0, closure, back);
  }

  lemma ThenJumps<E(!new)>(step: State<E> -> Option<State<E>>, n: nat, s: State<E>, between: State<E>, pc: Address,
                           cl: Gpr, closure: Address, back: Address) returns (s': State<E>)
    requires Run(step, n, s) == Some(between) && between.pc == pc && Jumps(step, pc, cl, closure, back)
    ensures Run(step, n + 2, s) == Some(s') && s'.pc == back && s'.cpu == between.cpu.Set(cl, closure)
  {
    s' := State(back, between.cpu.Set(cl, closure));
    assert between == State(pc, between.cpu);
    RunThen(step, n, 2, s, between, Some(s'));
  }

  lemma SkippedWriteShaped(job: Job, p: Prologue, ea: Address)
    requires p == SkippedWrite() && ea == WrappingAdd(job.ip + 7, 0x79)
    ensures Shaped(p) && p.asm.op0 == 0 && p.Choices()[0] == Some(0) && p.asmAt == 22
    ensures ea == job.Target(p.entries[0])
  {
    var _ := SkippedWriteChoices();
  }

  /**
   Where the branch is taken, the original arrives at the asm block with the caller's RAX in RCX. The thunk, relocated
   and placed as usual, arrives at the code after it with an address of the template in RCX.
   */
  lemma SkippedWriteMisses<E(!new)>(m: Machine<E>, xmm: (Address, E) -> E, job: Job, p: Prologue, thunk: RelocThunk,
                                    jmp: Insn, block: seq<Byte>, rx: Address, base: Address, closure: Address,
                                    back: Address, a: Cpu<E>, ea: Address) returns (s: State<E>, s': State<E>)
    requires Performs(m, xmm) && p == SkippedWrite()
    requires RelocatedBy(m, job, p, thunk, jmp) && PlacedThunk(m, thunk, block, rx, base, closure, back)
    requires ea == WrappingAdd(job.ip + 7, 0x79) && m.taken(Other(1), xmm(ea, a.rest))
    ensures Run(m.Step, 3, State(job.ip, a)) == Some(s) && s.pc == job.ip + p.asmAt && s.cpu.gpr[1] == a.gpr[0]
    ensures Run(m.Step, 6, State(base, a)) == Some(s') && s'.pc == back && s'.cpu.gpr[1] == ea
  {
    var x := ThunkImage(m, job, p, thunk, jmp, block, rx, base, closure, back);
    SkippedWriteShaped(job, p, ea);
    s, s' := ImageMisses(m, xmm, x, jmp, ea, closure, back, a);
  }
}
