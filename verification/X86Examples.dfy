/** Prologues the x86 relocator accepts: one whose stack shows what its call has pushed, and one in which it is
    overwritten again. */
module X86Examples {
  import opened Bytes
  import opened Runs
  import opened SafeJit
  import opened Placement
  import opened X86Machine
  import opened X86Reloc
  import opened X86Correct
  import opened X86Effects
  import opened X86Simulation
  import opened X86Theorem

  // ---------- a decoder for a few instructions ----------

  /** CALL to the next instruction, POP r32, PUSH EAX, SUB ESP, 4, MOV r32, imm32 and JMP r32; the effects of PUSH and
      SUB are left to the machine. */
  function DecodeFew(s: seq<Byte>): (r: Option<Insn>)
    ensures r.Some? ==> 0 < r.value.len <= |s| && (r.value.op.Call? ==> r.value.len >= 5)
  {
    if |s| >= 5 && s[..5] == [0xE8, 0, 0, 0, 0] then Some(Insn(5, Call(0)))
    else if |s| >= 1 && 0x58 <= s[0] < 0x60 then Some(Insn(1, PopReg(s[0] - 0x58)))
    else if |s| >= 1 && s[0] == 0x50 then Some(Insn(1, Other(1)))
    else if |s| >= 3 && s[..3] == [0x83, 0xEC, 0x04] then Some(Insn(3, Other(0)))
    else if |s| >= 5 && 0xB8 <= s[0] < 0xC0 then Some(Insn(5, MovImm(s[0] - 0xB8, FromLe4(s[1..5]))))
    else if |s| >= 2 && s[0] == 0xFF && 0xE0 <= s[1] < 0xE8 then Some(Insn(2, JumpReg(s[1] - 0xE0)))
    else None
  }

  function FewInsns(): Decoder { (s: seq<Byte>) => DecodeFew(s) }

  lemma FewLocal()
    ensures Local(FewInsns())
  {
    forall s: seq<Byte>, t: seq<Byte>
      ensures LocalAt(FewInsns(), s, t)
    {
      if DecodeFew(s).Some? && s[..DecodeFew(s).value.len] <= t {
        FewLocalAt(s, t, DecodeFew(s).value);
      }
    }
  }

  lemma FewLocalAt(s: seq<Byte>, t: seq<Byte>, insn: Insn)
    requires DecodeFew(s) == Some(insn) && s[..insn.len] <= t
    ensures DecodeFew(t) == Some(insn)
  {
    var n := insn.len;
    assert s[0] == s[..n][0] == t[0];
    assert s[..n] == t[..n];
    if n == 5 {
      assert s[1..5] == s[..5][1..] && t[1..5] == t[..5][1..];
    }
    if n == 2 {
      assert s[1] == s[..2][1] == t[1];
    }
  }

  lemma FewMovs()
    ensures MovDecodes(FewInsns())
  {
    forall s: seq<Byte>, r: Reg32, v: Word
      ensures MovDecodesAt(FewInsns(), s, r, v)
    {
      if MovBytes(s, r, v) {
        MovDecoded(s, r, v);
      }
    }
  }

  lemma MovDecoded(s: seq<Byte>, r: Reg32, v: Word)
    requires MovBytes(s, r, v)
    ensures DecodeFew(s) == Some(Insn(5, MovImm(r, v)))
  {
    assert s[..5] == s && s[..3][0] == s[0];
  }

  lemma FewTrusted<E(!new)>(m: Machine<E>, job: Job)
    requires m.decode == FewInsns() == job.decode
    ensures Trusted(m, job)
  {
    FewLocal();
    FewMovs();
    forall r: Reg32
      ensures FewInsns()(JmpR32(r)) == Some(Insn(2, JumpReg(r)))
    {
      JmpDecoded(JmpR32(r), r);
    }
  }

  lemma JmpDecoded(s: seq<Byte>, r: Reg32)
    requires s == JmpR32(r)
    ensures DecodeFew(s) == Some(Insn(2, JumpReg(r)))
  {
    assert |s| == 2 && s[0] == 0xFF && s[1] == 0xE0 + r;
  }

  // ---------- a prologue that does not keep the stack ----------

  /** CALL to the next instruction, POP EAX, SUB ESP, 4. */
  const LOWERING: seq<Byte> := [0xE8, 0, 0, 0, 0, 0x58, 0x83, 0xEC, 0x04]

  /** A template with this prologue, at address `ip`. */
  function LoweringJob(ip: Word): (job: Job)
    ensures |job.t| == 41
  {
    Job(FewInsns(), LOWERING + AsmBytes(1, 0, 2, 0) + [0xCC, 0xCC, 0xCC, 0xCC] + X86_MAGIC, ip, 25)
  }

  function LoweringPair(ip: Word): CallPop { CallPop(0, 6, Wrap32(ip + 5), 0) }

  function Lowering(ip: Word): seq<Item> { [Pair(LoweringPair(ip)), Kept(6, Insn(3, Other(0)))] }

  lemma LookKept(job: Job, look: Looks, o: nat, insn: Insn) returns (v: Visit)
    requires LooksAt(look, job) && o < |job.t| && o + 16 < job.magic && insn.Continues()
    requires job.decode(job.t[o..]) == Some(insn)
    ensures look(o) == v == Visited(Kept(o, insn))
  {
    v := Visited(Kept(o, insn));
    assert SameLook(look, job, o);
    NoWrap(job.magic, THUNK_CODE_OFFSET);
  }

  lemma LookPair(job: Job, look: Looks, o: nat, reg: Reg32) returns (v: Visit)
    requires LooksAt(look, job) && o + 5 < |job.t| && o + 16 < job.magic
    requires job.decode(job.t[o..]) == Some(Insn(5, Call(0)))
    requires job.decode(job.t[o + 5..]) == Some(Insn(1, PopReg(reg)))
    ensures look(o) == v == Visited(Pair(CallPop(o, 6, Wrap32(job.ip + (o + 5)), reg)))
  {
    v := Visited(Pair(CallPop(o, 6, job.NextIp(o + 5), reg)));
    assert SameLook(look, job, o);
    NoWrap(job.magic, THUNK_CODE_OFFSET);
  }

  lemma LookReached(job: Job, look: Looks, o: nat) returns (v: Visit)
    requires LooksAt(look, job) && o + 16 == job.magic && o < |job.t|
    ensures look(o) == v == Reached
  {
    v := Reached;
    assert SameLook(look, job, o);
    NoWrap(job.magic, THUNK_CODE_OFFSET);
  }

  lemma LoweringDecodes(ip: Word)
    ensures var job := LoweringJob(ip);
            && job.decode(job.t[0..]) == Some(Insn(5, Call(0))) && job.decode(job.t[5..]) == Some(Insn(1, PopReg(0)))
            && job.decode(job.t[6..]) == Some(Insn(3, Other(0)))
  {
    var t := LoweringJob(ip).t;
    assert t[0..][..5] == [0xE8, 0, 0, 0, 0] && t[5..][0] == 0x58 && t[6..][..3] == [0x83, 0xEC, 0x04];
  }

  lemma LoweringLooks(job: Job, look: Looks)
    requires LooksAt(look, job) && job.magic == 25 && |job.t| == 41
    requires job.decode(job.t[0..]) == Some(Insn(5, Call(0))) && job.decode(job.t[5..]) == Some(Insn(1, PopReg(0)))
    requires job.decode(job.t[6..]) == Some(Insn(3, Other(0)))
    ensures look(0) == Visited(Lowering(job.ip)[0]) && look(6) == Visited(Lowering(job.ip)[1]) && look(9) == Reached
  {
    var v0 := LookPair(job, look, 0, 0);
    var v6 := LookKept(job, look, 6, Insn(3, Other(0)));
    var v9 := LookReached(job, look, 9);
  }

  /** The relocator accepts it: two items, then the asm block. */
  lemma LoweringRelocates(ip: Word)
    requires ip + 41 < 0x1_0000_0000
    ensures LoweringJob(ip).Valid() && Scan(Looker(LoweringJob(ip)), 41, 0) == Ok(Prologue(Lowering(ip), 9))
    ensures Relocated(LoweringJob(ip)).Ok?
  {
    var job := LoweringJob(ip);
    forall s: seq<Byte> | job.decode(s).Some?
      ensures job.Sized(job.decode(s).value, |s|)
    {
    }
    LookerLooks(job);
    LoweringDecodes(ip);
    LoweringLooks(job, Looker(job));
    ScanTwo(Looker(job), 41, Lowering(ip), 9);
  }

  lemma ScanTwo(look: Looks, len: nat, items: seq<Item>, end: nat)
    requires Advances(look, len) && |items| == 2 && look(0) == Visited(items[0]) && items[0].Len() <= end <= len
    requires look(items[0].Len()) == Visited(items[1]) && end == items[0].Len() + items[1].Len() && look(end) == Reached
    ensures Scan(look, len, 0) == Ok(Prologue(items, end))
  {
    assert AdvancesAt(look(0), 0, len) && AdvancesAt(look(items[0].Len()), items[0].Len(), len);
    assert Scan(look, len, end) == Ok(Prologue([], end));
    assert Scan(look, len, items[0].Len()) == Ok(Prologue([items[1]] + [], end));
    assert items == [items[0]] + ([items[1]] + []);
  }

  /** SUB ESP, 4. */
  ghost predicate LowersStack<E(!new)>(m: Machine<E>) {
    forall c: Cpu<E> :: m.exec(0, c) == Some(c.Set(ESP, Wrap32(c.reg[ESP] as int - 4)))
  }

  /** The theorems say something of it, on every machine that decodes these instructions. */
  lemma LoweringRelocatedBy<E(!new)>(m: Machine<E>, job: Job) returns (p: Prologue, thunk: RelocThunk)
    requires m.decode == FewInsns() && job == LoweringJob(job.ip) && job.ip + 41 < 0x1_0000_0000
    requires m.Holds(job.ip, job.t)
    ensures p == Prologue(Lowering(job.ip), 9) && RelocatedBy(m, job, p, thunk, 1, 2)
  {
    LoweringRelocates(job.ip);
    FewTrusted(m, job);
    p, thunk := Prologue(Lowering(job.ip), 9), Relocated(job).value;
    LoweringAsm(job, p);
  }

  lemma LoweringAsm(job: Job, p: Prologue)
    requires job == LoweringJob(job.ip) && p.asmAt == 9
    ensures AsmBlock(job, p, 1, 2)
  {
    var asm := AsmBytes(1, 0, 2, 0);
    assert job.t == LOWERING + asm + ([0xCC, 0xCC, 0xCC, 0xCC] + X86_MAGIC);
    assert job.t[9..9 + 12] == asm;
  }

  /** The original is at `end` with `pushed` at the top of the stack, and the thunk at `back` with something else
      there. */
  predicate TopsDiffer<E>(s: State<E>, s': State<E>, end: Word, back: Word, top: Word, pushed: Word,
                          was: Option<Word>)
  {
    && s.pc == end && s'.pc == back && s.cpu.reg[ESP] == s'.cpu.reg[ESP] == top
    && s.cpu.Load(top) == Some(pushed) && s'.cpu.Load(top) == was != Some(pushed)
  }

  /** So the memory at and above the stack pointer is not the same. */
  lemma DifferentLoads<E(!new)>(s: State<E>, s': State<E>, end: Word, back: Word, top: Word, pushed: Word,
                                was: Option<Word>)
    requires TopsDiffer(s, s', end, back, top, pushed, was) && top < 0xFFFF_FFFC
    ensures !StackSame(s.cpu, s'.cpu)
  {
  }

  /** Run from state `a`, the original for as many steps as its prologue takes, and the thunk likewise. */
  predicate RunsDiffer<E(==)>(step: State<E> -> Option<State<E>>, ip: Word, items: seq<Item>, end: Word, base: Word,
                              back: Word, pushed: Word, a: Cpu<E>, top: Word)
  {
    var r, r' := Run(step, Total(OldSteps, items), State(ip, a)), Run(step, |items| + 3, State(base, a));
    r.Some? && r'.Some? && TopsDiffer(r.value, r'.value, end, back, top, pushed, a.Load(top))
  }

  /** From every state that has other than the address pushed below the stack pointer. */
  ghost predicate AlwaysDiffer<E(!new)>(step: State<E> -> Option<State<E>>, ip: Word, items: seq<Item>, end: Word,
                                        base: Word, back: Word)
  {
    forall a: Cpu<E>, top: Word | HasBelow(a, top, LoweringPair(ip).target) ::
      RunsDiffer(step, ip, items, end, base, back, LoweringPair(ip).target, a, top)
  }

  predicate HasBelow<E>(a: Cpu<E>, top: Word, pushed: Word) {
    a.reg[ESP] >= 4 && top == a.reg[ESP] - 4 && a.Load(top).Some? && a.Load(top) != Some(pushed)
  }

  /**
   The two prologues need not leave the same memory at the stack pointer: in this one the stack is lowered after the
   pair. Run from the same state, the original arrives at the asm block with the address that CALL pushed at the top of
   the stack, and the placed thunk at the code after it with what was there before.
   */
  lemma StackTopDiffers<E(!new)>(m: Machine<E>, job: Job, p: Prologue, thunk: RelocThunk, align: nat, block: seq<Byte>,
                                 rx: Address, base: Word, cl: Reg32, closure: Word, jmp: Reg32, back: Word, end: Word)
    requires LowersStack(m) && p.items == Lowering(job.ip) && cl != ESP && jmp != ESP && end == job.ip + p.asmAt
    requires RelocatedBy(m, job, p, thunk, cl, jmp)
    requires PlacedThunk(m, thunk, align, block, rx, base, closure, back)
    ensures AlwaysDiffer(m.Step, job.ip, p.items, end, base, back)
  {
    ThunkRuns(m, job, p, thunk, align, block, rx, base, cl, closure, jmp, back, end);
    AllDiffer(m.Step, m, job.ip, p.items, end, base, cl, closure, jmp, back);
  }

  lemma AllDiffer<E(!new)>(step: State<E> -> Option<State<E>>, m: Machine<E>, ip: Word, items: seq<Item>, end: Word,
                           base: Word, cl: Reg32, closure: Word, jmp: Reg32, back: Word)
    requires forall a: Cpu<E> :: BothRun(step, m, ip, items, end, base, cl, closure, jmp, back, a)
    requires items == Lowering(ip) && LowersStack(m) && cl != ESP && jmp != ESP
    ensures AlwaysDiffer(step, ip, items, end, base, back)
  {
    var pushed := LoweringPair(ip).target;
    forall a: Cpu<E>, top: Word | HasBelow(a, top, pushed)
      ensures RunsDiffer(step, ip, items, end, base, back, pushed, a, top)
    {
      LoweringRuns(step, m, ip, items, end, base, cl, closure, jmp, back, pushed, a, top);
    }
  }

  lemma LoweringRuns<E(!new)>(step: State<E> -> Option<State<E>>, m: Machine<E>, ip: Word, items: seq<Item>, end: Word,
                              base: Word, cl: Reg32, closure: Word, jmp: Reg32, back: Word, pushed: Word, a: Cpu<E>,
                              top: Word)
    requires BothRun(step, m, ip, items, end, base, cl, closure, jmp, back, a) && items == Lowering(ip)
    requires pushed == Wrap32(ip + 5) && LowersStack(m) && HasBelow(a, top, pushed) && cl != ESP && jmp != ESP
    ensures RunsDiffer(step, ip, items, end, base, back, pushed, a, top)
  {
    var o, n := EffectsDiffer(m, ip, a, top);
    TopDiffers(step, m, ip, items, end, base, cl, closure, jmp, back, pushed, a, o, n, top);
  }

  lemma TopDiffers<E(!new)>(step: State<E> -> Option<State<E>>, m: Machine<E>, ip: Word, items: seq<Item>, end: Word,
                           base: Word, cl: Reg32, closure: Word, jmp: Reg32, back: Word, pushed: Word, a: Cpu<E>,
                           o: Cpu<E>, n: Cpu<E>, top: Word)
    requires BothRun(step, m, ip, items, end, base, cl, closure, jmp, back, a)
    requires a.Load(top) != Some(pushed) && cl != ESP && jmp != ESP
    requires Effects(m, items, a) == Some(o) && NewEffects(m, items, a) == Some(n)
    requires o.reg[ESP] == n.reg[ESP] == top && o.Load(top) == Some(pushed) && n.Load(top) == a.Load(top)
    ensures RunsDiffer(step, ip, items, end, base, back, pushed, a, top)
  {
    SameMemory(n.Set(cl, closure).Set(jmp, back), n, top);
  }

  lemma EffectsDiffer<E(!new)>(m: Machine<E>, ip: Word, a: Cpu<E>, top: Word) returns (o: Cpu<E>, n: Cpu<E>)
    requires LowersStack(m) && a.reg[ESP] >= 4 && top == a.reg[ESP] - 4 && a.Load(top).Some?
    ensures Quiet(m, Lowering(ip), {}, a)
    ensures Effects(m, Lowering(ip), a) == Some(o) && NewEffects(m, Lowering(ip), a) == Some(n)
    ensures o.reg == n.reg && o.reg[ESP] == top && o.Load(top) == Some(Wrap32(ip + 5)) && n.Load(top) == a.Load(top)
  {
    var o1, n1;
    NoBorrow(a.reg[ESP], top);
    o1, n1, o, n := LoweringEffects(m, LoweringPair(ip), a, top);
    EffectsTwo(m, Lowering(ip), a, o1, o, n1, n);
    LoweringQuiet(m, ip, a);
  }

  lemma LoweringEffects<E(!new)>(m: Machine<E>, pair: CallPop, a: Cpu<E>, top: Word)
    returns (o1: Cpu<E>, n1: Cpu<E>, o: Cpu<E>, n: Cpu<E>)
    requires LowersStack(m) && top == Wrap32(a.reg[ESP] as int - 4) && a.Load(top).Some? && pair.reg != ESP
    ensures Effect(m, Pair(pair), a) == Some(o1) && m.Perform(Other(0), o1) == Some(o)
    ensures NewEffect(m, Pair(pair), a) == Some(n1) && m.Perform(Other(0), n1) == Some(n)
    ensures o.reg == n.reg && o.reg[ESP] == top && o.Load(top) == Some(pair.target) && n.Load(top) == a.Load(top)
  {
    o1 := PairEffect(m, pair, a, top);
    n1 := a.Set(pair.reg, pair.target);
    o := Lowered(m, o1, top);
    n := Lowered(m, n1, top);
    SameMemory(n1, a, top);
  }

  lemma NoBorrow(esp: Word, top: Word)
    requires esp >= 4 && top == esp - 4
    ensures top == Wrap32(esp as int - 4)
  {
  }

  lemma EffectsTwo<E(!new)>(m: Machine<E>, items: seq<Item>, a: Cpu<E>, o1: Cpu<E>, o: Cpu<E>, n1: Cpu<E>, n: Cpu<E>)
    requires |items| == 2 && Effect(m, items[0], a) == Some(o1) && Effect(m, items[1], o1) == Some(o)
    requires NewEffect(m, items[0], a) == Some(n1) && NewEffect(m, items[1], n1) == Some(n)
    ensures Effects(m, items, a) == Some(o) && NewEffects(m, items, a) == Some(n)
  {
    var one := [items[1]];
    assert items[1..] == one && one[1..] == [];
    assert Effects(m, [], o) == Some(o) && NewEffects(m, [], n) == Some(n);
    assert Effects(m, one, o1) == Some(o) && NewEffects(m, one, n1) == Some(n);
  }

  lemma Lowered<E(!new)>(m: Machine<E>, c: Cpu<E>, top: Word) returns (r: Cpu<E>)
    requires LowersStack(m) && top == Wrap32(c.reg[ESP] as int - 4)
    ensures m.Perform(Other(0), c) == Some(r) && r.reg == c.reg[ESP := top] && r.Load(top) == c.Load(top)
  {
    r := c.Set(ESP, top);
    SameMemory(r, c, top);
  }

  lemma SameMemory<E>(a: Cpu<E>, b: Cpu<E>, w: Word)
    requires a.ram == b.ram
    ensures a.Load(w) == b.Load(w)
  {
  }

  /** After the pair, the address pushed is still below the stack. */
  lemma PairEffect<E(!new)>(m: Machine<E>, pair: CallPop, a: Cpu<E>, top: Word) returns (c: Cpu<E>)
    requires top == Wrap32(a.reg[ESP] as int - 4) && a.Load(top).Some? && pair.reg != ESP
    ensures Effect(m, Pair(pair), a) == Some(c) && c.reg == a.Set(pair.reg, pair.target).reg
    ensures c.Load(top) == Some(pair.target) && top == Wrap32(c.reg[ESP] as int - 4)
  {
    var pushed := a.Push(pair.target).value;
    PushPop(a, pair.target, pair.reg);
    StoreLoad(a.Set(ESP, top), top, pair.target);
    c := Effect(m, Pair(pair), a).value;
    assert c.ram == pushed.ram;
  }

  /** No instruction of that prologue depends on what the call wrote. */
  lemma LoweringQuiet<E(!new)>(m: Machine<E>, ip: Word, a: Cpu<E>)
    requires LowersStack(m)
    ensures Quiet(m, Lowering(ip), {}, a)
  {
    var pair, rest := Pair(LoweringPair(ip)), Lowering(ip)[1..];
    assert rest == [Lowering(ip)[1]] && rest[1..] == [];
    if Effect(m, pair, a).Some? {
      LoweringBlind(m, After(m, pair, {}, a), Effect(m, pair, a).value);
    }
  }

  lemma LoweringBlind<E(!new)>(m: Machine<E>, d: set<Word>, c: Cpu<E>)
    requires LowersStack(m)
    ensures Blind(m, Other(0), d, c)
  {
    forall b: Cpu<E> | SameExcept(d, c, b)
      ensures BlindTo(m, Other(0), d, c, b)
    {
      LoweringSame(m, d, c, b);
    }
  }

  lemma LoweringSame<E(!new)>(m: Machine<E>, d: set<Word>, c: Cpu<E>, b: Cpu<E>)
    requires LowersStack(m) && SameExcept(d, c, b)
    ensures BlindTo(m, Other(0), d, c, b)
  {
    var top := Wrap32(c.reg[ESP] as int - 4);
    var c', b' := c.Set(ESP, top), b.Set(ESP, top);
    assert m.Perform(Other(0), c) == Some(c') && m.Perform(Other(0), b) == Some(b');
    SetSame(d, c, b, ESP, top);
    BlindValues(m, Other(0), d, c, b, c', b');
  }

  lemma SetSame<E(!new)>(d: set<Word>, a: Cpu<E>, b: Cpu<E>, r: Reg32, v: Word)
    requires SameExcept(d, a, b)
    ensures SameExcept(d, a.Set(r, v), b.Set(r, v))
  {
  }

  lemma BlindValues<E(!new)>(m: Machine<E>, op: Op, d: set<Word>, a: Cpu<E>, b: Cpu<E>, a': Cpu<E>, b': Cpu<E>)
    requires m.Perform(op, a) == Some(a') && m.Perform(op, b) == Some(b') && SameExcept(d, a', b')
    ensures BlindTo(m, op, d, a, b)
  {
  }

  // ---------- a prologue that overwrites what its call has pushed ----------

  /** PUSH r32. */
  ghost predicate Pushes<E(!new)>(m: Machine<E>, op: Op, r: Reg32) {
    forall c: Cpu<E> :: m.Perform(op, c) == c.Push(c.reg[r])
  }

  /** PUSH depends on no memory, and settles the cells it writes. */
  lemma PushSettles<E(!new)>(m: Machine<E>, op: Op, r: Reg32, d: set<Word>, a: Cpu<E>)
    requires Pushes(m, op, r)
    ensures Blind(m, op, d, a)
    ensures forall w | w in Cells(Wrap32(a.reg[ESP] as int - 4)) :: Settled(m, op, d, a, w)
  {
    forall b: Cpu<E> | SameExcept(d, a, b)
      ensures BlindTo(m, op, d, a, b)
      ensures forall w | w in Cells(Wrap32(a.reg[ESP] as int - 4)) :: SettledIn(w, m.Perform(op, a), m.Perform(op, b))
    {
      PushSame(d, a, b, a.reg[r]);
    }
  }

  lemma PushSame<E(!new)>(d: set<Word>, a: Cpu<E>, b: Cpu<E>, v: Word)
    requires SameExcept(d, a, b)
    ensures a.Push(v).Some? <==> b.Push(v).Some?
    ensures a.Push(v).Some? ==>
              && SameExcept(d, a.Push(v).value, b.Push(v).value)
              && forall w | w in Cells(Wrap32(a.reg[ESP] as int - 4)) ::
                   w in b.Push(v).value.ram && b.Push(v).value.ram[w] == a.Push(v).value.ram[w]
  {
  }

  /** An instruction is blind to no cells at all. */
  lemma BlindToNone<E(!new)>(m: Machine<E>, op: Op, a: Cpu<E>)
    ensures Blind(m, op, {}, a)
  {
    forall b: Cpu<E> | SameExcept({}, a, b)
      ensures BlindTo(m, op, {}, a, b)
    {
      assert a.ram == b.ram;
    }
  }

  /** CALL to the next instruction, POP EAX, PUSH EAX, POP ECX. */
  function Repushing(ip: Word): seq<Item> {
    [Pair(LoweringPair(ip)), Kept(6, Insn(1, Other(1))), Kept(7, Insn(1, PopReg(1)))]
  }

  /** Nothing remains of what the call has pushed, and both prologues end in the same state. */
  lemma NothingRemains<E(!new)>(m: Machine<E>, ip: Word, items: seq<Item>, a: Cpu<E>)
    requires Pushes(m, Other(1), 0) && items == Repushing(ip) && Effects(m, items, a).Some?
    ensures Quiet(m, items, {}, a) && Remains(m, items, {}, a) == {}
    ensures NewEffects(m, items, a) == Effects(m, items, a)
  {
    RepushingSettles(m, items[0].pair, items[1], items[2], items, a);
    SameEffects(m, items, a);
  }

  lemma SameEffects<E(!new)>(m: Machine<E>, items: seq<Item>, a: Cpu<E>)
    requires Effects(m, items, a).Some? && Quiet(m, items, {}, a) && Remains(m, items, {}, a) == {}
    ensures NewEffects(m, items, a) == Effects(m, items, a)
  {
    PrologueAgrees(m, items, a);
    var o, c := Effects(m, items, a).value, Underneath(m, items, map[], a);
    assert c == map[] && o.ram + c == o.ram;
  }

  lemma QuietFirst<E(!new)>(m: Machine<E>, items: seq<Item>, rest: seq<Item>, d: set<Word>, d': set<Word>, a: Cpu<E>,
                            a': Cpu<E>)
    requires items != [] && rest == items[1..] && Effect(m, items[0], a) == Some(a') && d' == After(m, items[0], d, a)
    requires items[0].Kept? ==> Blind(m, items[0].insn.op, d, a)
    requires Quiet(m, rest, d', a') && Remains(m, rest, d', a') == {}
    ensures Quiet(m, items, d, a) && Remains(m, items, d, a) == {}
  {
  }

  /** An instruction at the end, when nothing remains before it. */
  lemma QuietLast<E(!new)>(m: Machine<E>, items: seq<Item>, a: Cpu<E>)
    requires |items| == 1 && items[0].Kept? && Effect(m, items[0], a).Some?
    ensures Quiet(m, items, {}, a) && Remains(m, items, {}, a) == {}
  {
    BlindToNone(m, items[0].insn.op, a);
    assert After(m, items[0], {}, a) == {} && items[1..] == [];
    QuietFirst(m, items, [], {}, {}, a, Effect(m, items[0], a).value);
  }

  /** A PUSH over the cells a call has just written. */
  lemma QuietPush<E(!new)>(m: Machine<E>, items: seq<Item>, rest: seq<Item>, d: set<Word>, a: Cpu<E>, a': Cpu<E>)
    requires |items| == 2 && rest == items[1..] && items[0].Kept? && items[1].Kept?
    requires Pushes(m, items[0].insn.op, 0)
    requires Effect(m, items[0], a) == Some(a') && Effect(m, items[1], a').Some?
    requires d == Cells(Wrap32(a.reg[ESP] as int - 4))
    ensures Quiet(m, items, d, a) && Remains(m, items, d, a) == {}
  {
    PushSettles(m, items[0].insn.op, 0, d, a);
    assert After(m, items[0], d, a) == {};
    QuietLast(m, rest, a');
    QuietFirst(m, items, rest, d, {}, a, a');
  }

  /** A call has written the cells just below the stack. */
  lemma PairLeaves<E(!new)>(m: Machine<E>, pair: CallPop, a: Cpu<E>, a': Cpu<E>)
    requires Effect(m, Pair(pair), a) == Some(a') && pair.reg != ESP
    ensures After(m, Pair(pair), {}, a) == Cells(Wrap32(a'.reg[ESP] as int - 4))
  {
    PushPop(a, pair.target, pair.reg);
    assert a'.reg[ESP] == a.reg[ESP];
  }

  lemma FirstEffect<E(!new)>(m: Machine<E>, items: seq<Item>, rest: seq<Item>, a: Cpu<E>) returns (a': Cpu<E>)
    requires items != [] && rest == items[1..] && Effects(m, items, a).Some?
    ensures Effect(m, items[0], a) == Some(a') && Effects(m, rest, a') == Effects(m, items, a)
  {
    a' := Effect(m, items[0], a).value;
  }

  lemma RepushingSettles<E(!new)>(m: Machine<E>, pair: CallPop, push: Item, pop: Item, items: seq<Item>, a: Cpu<E>)
    requires items == [Pair(pair), push, pop] && pair.reg != ESP && push.Kept? && pop.Kept?
    requires Pushes(m, push.insn.op, 0) && Effects(m, items, a).Some?
    ensures Quiet(m, items, {}, a) && Remains(m, items, {}, a) == {}
  {
    var two, one := [push, pop], [pop];
    assert items[1..] == two && two[1..] == one;
    var a1 := FirstEffect(m, items, two, a);
    var a2 := FirstEffect(m, two, one, a1);
    var _ := FirstEffect(m, one, one[1..], a2);
    PairLeaves(m, pair, a, a1);
    var d := Cells(Wrap32(a1.reg[ESP] as int - 4));
    QuietPush(m, two, one, d, a1, a2);
    QuietFirst(m, items, two, {}, d, a, a1);
  }
}
