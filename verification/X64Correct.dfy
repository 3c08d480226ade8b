/** The re-encoded prologue does what the original does, although it overwrites registers on the way. */
module X64Correct {
  import opened Bytes
  import opened Runs
  import opened X64Machine
  import opened X64Reloc
  import opened X64Liveness

  // ---------- what instructions may depend on ----------

  /** The two states differ only in registers of `d`. */
  predicate AgreeExcept<E(==)>(d: set<Gpr>, a: Cpu<E>, b: Cpu<E>) {
    a.rest == b.rest && forall r: Gpr | r !in d :: a.gpr[r] == b.gpr[r]
  }

  predicate SameOutcome<E(==)>(d: set<Gpr>, x: Option<Cpu<E>>, y: Option<Cpu<E>>) {
    match x
    case None => y.None?
    case Some(a) => y.Some? && AgreeExcept(d, a, y.value)
  }

  predicate Unread(d: set<Gpr>, insn: Insn) { forall r: Gpr | r in d :: !Reads(insn, r) }

  function Surviving(d: set<Gpr>, insn: Insn): set<Gpr> { set r: Gpr | r in d && !Kills(insn, r) }

  /** What the registers reported for an instruction promise: registers it is not said to read do not matter to it,
      apart from what they hold afterwards, and those it replaces do not matter at all. */
  ghost predicate Respects<E(!new)>(m: Machine<E>, insn: Insn) {
    && (insn.mem.AtRegister? ==> Reads(insn, insn.mem.reg))
    && forall ea: Address, a: Cpu<E>, b: Cpu<E>, d: set<Gpr> :: RespectsOn(m, insn, ea, a, b, d)
  }

  ghost predicate RespectsOn<E(!new)>(m: Machine<E>, insn: Insn, ea: Address, a: Cpu<E>, b: Cpu<E>, d: set<Gpr>) {
    AgreeExcept(d, a, b) && Unread(d, insn) ==>
      SameOutcome(Surviving(d, insn), m.Perform(insn.op, ea, a), m.Perform(insn.op, ea, b))
  }

  /** MOV r64, m64 keeps the promise when its destination is reported as written. */
  lemma LoadRespects<E(!new)>(m: Machine<E>, insn: Insn)
    requires insn.op.LoadFrom? && insn.used == [Use(Some(insn.op.reg), 8, Write)] && !insn.mem.AtRegister?
    ensures Respects(m, insn)
  {
    forall ea: Address, a: Cpu<E>, b: Cpu<E>, d: set<Gpr>
      ensures RespectsOn(m, insn, ea, a, b, d)
    {
      assert Replaces(insn.used[0], insn.op.reg);
      assert !Reads(insn, insn.op.reg);
    }
  }

  // ---------- encoding ----------

  /** The bytes of MOV r64, imm64: REX.W, with REX.B for R8 and up; B8 plus the low three bits of the register; the
      immediate. */
  predicate MovBytes(s: seq<Byte>, r: Gpr, a: Address) {
    && |s| == 10 && FromLe8(s[2..10]) == a
    && if r < 8 then s[0] == 0x48 && s[1] == 0xB8 + r else s[0] == 0x49 && s[1] == 0xB8 + r - 8
  }

  /** The decoder knows this instruction. */
  ghost predicate MovDecodes(decode: Decoder) {
    forall s: seq<Byte>, r: Gpr, a: Address :: MovDecodesAt(decode, s, r, a)
  }

  predicate MovDecodesAt(decode: Decoder, s: seq<Byte>, r: Gpr, a: Address) {
    MovBytes(s, r, a) ==>
      match decode(s)
      case None => false
      case Some(d) => d.len == 10 && d.op == MovImm(r, a) && d.flow.Next?
  }

  /** The relocator puts these bytes before an instruction it rewrites. */
  lemma MovIsMov(r: Gpr, a: Address)
    ensures MovBytes(MovR64Imm64(r, a), r, a)
  {
    assert MovR64Imm64(r, a)[2..10] == Le8(a);
    Le8RoundTrip(a);
  }

  /** An instruction encoded to go through a register decodes to itself; what it is said to use does not matter. */
  predicate EncoderDecodesAt(decode: Decoder, encode: Encoder, insn: Insn) {
    match encode(insn)
    case None => true
    case Some(bytes) =>
      match decode(bytes)
      case None => false
      case Some(d) => d.len == |bytes| && d.op == insn.op && d.flow == insn.flow && d.mem == insn.mem
  }

  predicate ThroughDecodes(job: Job, e: Entry, r: Gpr) {
    EncoderDecodesAt(job.decode, job.encode, e.insn.(mem := AtRegister(r)))
  }

  /** So do the instructions of the prologue that are to be rewritten, with any register. */
  ghost predicate EncoderDecodes(job: Job, p: Prologue) {
    forall i, r: Gpr | 0 <= i < |p.entries| && p.entries[i].NeedsReloc() :: ThroughDecodes(job, p.entries[i], r)
  }

  /** The decoder and encoder are those of the machine. */
  ghost predicate Trusted<E(!new)>(m: Machine<E>, job: Job, p: Prologue) {
    m.decode == job.decode && Local(job.decode) && MovDecodes(job.decode) && EncoderDecodes(job, p)
  }

  // ---------- where the code goes ----------

  /** The offset of the new code for instruction `i`. */
  function NewAt(job: Job, entries: seq<Entry>, rs: seq<Option<Gpr>>, i: nat): nat
    requires i <= |entries| == |rs|
  {
    if i == 0 then 0
    else
      NewAt(job, entries, rs, i - 1) +
      match job.Piece(entries[i - 1], rs[i - 1]) case None => 0 case Some(piece) => |piece|
  }

  lemma {:induction false} CodeSuffix(job: Job, entries: seq<Entry>, rs: seq<Option<Gpr>>, i: nat, code: seq<Byte>)
    requires i <= |entries| == |rs| && job.Code(entries, rs, 0) == Some(code)
    ensures NewAt(job, entries, rs, i) <= |code|
    ensures job.Code(entries, rs, i) == Some(code[NewAt(job, entries, rs, i)..])
  {
    if i == 0 {
      assert code[0..] == code;
    } else {
      CodeSuffix(job, entries, rs, i - 1, code);
      var at := NewAt(job, entries, rs, i - 1);
      var piece := job.Piece(entries[i - 1], rs[i - 1]).value;
      assert code[at..][|piece|..] == code[at + |piece|..];
    }
  }

  /** In any byte sequence that starts with the new code, the code for instruction `i` is in its place. */
  lemma PieceAt(job: Job, entries: seq<Entry>, rs: seq<Option<Gpr>>, i: nat, code: seq<Byte>, placed: seq<Byte>)
    returns (piece: seq<Byte>)
    requires i < |entries| == |rs| && job.Code(entries, rs, 0) == Some(code) && code <= placed
    ensures job.Piece(entries[i], rs[i]) == Some(piece)
    ensures NewAt(job, entries, rs, i + 1) == NewAt(job, entries, rs, i) + |piece| <= |placed|
    ensures piece <= placed[NewAt(job, entries, rs, i)..]
  {
    CodeSuffix(job, entries, rs, i, code);
    CodeSuffix(job, entries, rs, i + 1, code);
    piece := job.Piece(entries[i], rs[i]).value;
    var at := NewAt(job, entries, rs, i);
    assert piece <= code[at..];
    assert placed[at..][..|piece|] == code[at..][..|piece|];
  }

  // ---------- one instruction ----------

  ghost function DeadSet(p: Prologue, i: nat): set<Gpr> { set r: Gpr | 0 <= r < 16 && Dead(p, i, r) }

  lemma DeadBefore(p: Prologue, i: nat)
    requires i < |p.entries|
    ensures Unread(DeadSet(p, i), p.entries[i].insn)
    ensures Surviving(DeadSet(p, i), p.entries[i].insn) <= DeadSet(p, i + 1)
  {
    forall r: Gpr
      ensures Dead(p, i, r) ==> !Reads(p.entries[i].insn, r) && (Kills(p.entries[i].insn, r) || Dead(p, i + 1, r))
    {
      DeadStep(p, i, r);
    }
  }

  /** Performed in states that differ in dead registers only, an instruction leaves states that do. */
  lemma PerformAgrees<E(!new)>(m: Machine<E>, p: Prologue, i: nat, ea: Address, a: Cpu<E>, b: Cpu<E>)
    requires i < |p.entries| && Respects(m, p.entries[i].insn) && AgreeExcept(DeadSet(p, i), a, b)
    ensures SameOutcome(DeadSet(p, i + 1), m.Perform(p.entries[i].insn.op, ea, a),
              m.Perform(p.entries[i].insn.op, ea, b))
  {
    DeadBefore(p, i);
    assert RespectsOn(m, p.entries[i].insn, ea, a, b, DeadSet(p, i));
  }

  /** A prologue, the registers used, its new code, and the bytes mapped at `base`, which start with that code. */
  datatype Image = Image(job: Job, p: Prologue, rs: seq<Option<Gpr>>, code: seq<Byte>, placed: seq<Byte>,
                         base: Address) {
    predicate Valid() {
      && job.Scanned(p, 0) && |rs| == |p.entries| && job.Code(p.entries, rs, 0) == Some(code) && code <= placed
      && job.ip + |job.t| < 0x1_0000_0000_0000_0000 && base + |placed| < 0x1_0000_0000_0000_0000
    }

    function At(i: nat): nat
      requires Valid() && i <= |p.entries|
    {
      NewAt(job, p.entries, rs, i)
    }

    function Steps(i: nat): nat
      requires i < |p.entries|
    {
      if p.entries[i].NeedsReloc() then 2 else 1
    }
  }

  /** Both the template and the new code are mapped. */
  ghost predicate Runnable<E(!new)>(m: Machine<E>, x: Image) {
    && x.Valid() && Trusted(m, x.job, x.p) && m.Holds(x.job.ip, x.job.t) && m.Holds(x.base, x.placed)
    && forall i | 0 <= i < |x.p.entries| :: x.p.entries[i].NeedsReloc() <==> x.rs[i].Some?
  }

  ghost predicate Sound<E(!new)>(m: Machine<E>, x: Image) {
    && Runnable(m, x)
    && forall i | 0 <= i < |x.p.entries| :: SoundAt(m, x, i)
  }

  /** The registers reported are right, and the register used, if one is needed, is dead. */
  ghost predicate SoundAt<E(!new)>(m: Machine<E>, x: Image, i: nat)
    requires x.Valid() && i < |x.p.entries|
  {
    Respects(m, x.p.entries[i].insn) && (x.rs[i].Some? ==> Dead(x.p, i, x.rs[i].value))
  }

  /** Both machines are about to execute instruction `i`, and differ in registers dead before it. */
  ghost predicate Related<E>(x: Image, i: nat, s: State<E>, s': State<E>)
    requires x.Valid() && i <= |x.p.entries|
  {
    && s.pc == x.job.ip + x.p.Off(i) && s'.pc == x.base + x.At(i)
    && AgreeExcept(DeadSet(x.p, i), s.cpu, s'.cpu)
  }

  /** Instruction `i` has made the original reach `o`, and the new code for it `o'`. */
  ghost predicate Follows<E>(x: Image, j: nat, o: Option<State<E>>, o': Option<State<E>>)
    requires x.Valid() && j <= |x.p.entries|
  {
    match o
    case None => o'.None?
    case Some(s) => o'.Some? && Related(x, j, s, o'.value)
  }

  lemma OriginalStep<E(!new)>(m: Machine<E>, x: Image, i: nat, a: Cpu<E>)
    requires Runnable(m, x) && i < |x.p.entries|
    ensures var e := x.p.entries[i];
            && e.at == x.p.Off(i) && e.at + e.insn.len == x.p.Off(i + 1) <= |x.job.t|
            && WrappingAdd(x.job.ip + e.at, e.insn.len) == x.job.ip + x.p.Off(i + 1)
            && m.Step(State(x.job.ip + e.at, a)) == m.Execute(e.insn, x.job.ip + e.at, a)
  {
    assert x.job.ScannedAt(x.p, i);
    StepAt(m, x.job.ip, x.job.t, x.p.Off(i), x.p.entries[i].insn, a);
  }

  /** An instruction that is kept is the same instruction in the new code. */
  lemma KeptStep<E(!new)>(m: Machine<E>, x: Image, i: nat, b: Cpu<E>)
    requires Runnable(m, x) && i < |x.p.entries| && !x.p.entries[i].NeedsReloc()
    ensures var insn := x.p.entries[i].insn;
            && x.At(i + 1) == x.At(i) + insn.len <= |x.placed|
            && WrappingAdd(x.base + x.At(i), insn.len) == x.base + x.At(i + 1)
            && m.Step(State(x.base + x.At(i), b)) == m.Execute(insn, x.base + x.At(i), b)
  {
    var e := x.p.entries[i];
    assert x.job.ScannedAt(x.p, i);
    var piece := PieceAt(x.job, x.p.entries, x.rs, i, x.code, x.placed);
    assert LocalAt(x.job.decode, x.job.t[e.at..], x.placed[x.At(i)..]);
    assert x.job.t[e.at..][..e.insn.len] == piece;
    StepAt(m, x.base, x.placed, x.At(i), e.insn, b);
  }

  /** An instruction that is rewritten is a MOV of the address and the instruction through the register. */
  lemma RewrittenDecodes(x: Image, i: nat, r: Gpr) returns (mov: Insn, d: Insn)
    requires x.Valid() && i < |x.p.entries| && x.p.entries[i].NeedsReloc() && x.rs[i] == Some(r)
    requires Local(x.job.decode) && MovDecodes(x.job.decode) && EncoderDecodes(x.job, x.p)
    ensures x.At(i) + 10 + d.len == x.At(i + 1) <= |x.placed|
    ensures x.job.decode(x.placed[x.At(i)..]) == Some(mov)
    ensures mov.op == MovImm(r, x.job.Target(x.p.entries[i])) && mov.flow.Next? && mov.len == 10
    ensures x.job.decode(x.placed[x.At(i) + 10..]) == Some(d)
    ensures d.op == x.p.entries[i].insn.op && d.flow == x.p.entries[i].insn.flow && d.mem == AtRegister(r)
  {
    var e, decode := x.p.entries[i], x.job.decode;
    var piece := PieceAt(x.job, x.p.entries, x.rs, i, x.code, x.placed);
    var at, bytes, through := x.At(i), MovR64Imm64(r, x.job.Target(e)), x.job.Through(e, r).value;
    PrefixSplit(x.placed, at, bytes, through);
    MovIsMov(r, x.job.Target(e));
    assert MovDecodesAt(decode, bytes, r, x.job.Target(e)) && LocalAt(decode, bytes, x.placed[at..]);
    assert ThroughDecodes(x.job, e, r);
    assert LocalAt(decode, through, x.placed[at + 10..]);
    mov, d := decode(bytes).value, decode(through).value;
  }

  lemma RewrittenSteps<E(!new)>(m: Machine<E>, x: Image, i: nat, r: Gpr, b: Cpu<E>, b': Cpu<E>) returns (d: Insn)
    requires Runnable(m, x) && i < |x.p.entries| && x.p.entries[i].NeedsReloc() && x.rs[i] == Some(r)
    requires b' == b.Set(r, x.job.Target(x.p.entries[i]))
    ensures d.op == x.p.entries[i].insn.op && d.flow == x.p.entries[i].insn.flow && d.mem == AtRegister(r)
    ensures x.At(i) + 10 + d.len == x.At(i + 1) <= |x.placed|
    ensures WrappingAdd(x.base + x.At(i) + 10, d.len) == x.base + x.At(i + 1)
    ensures m.Step(State(x.base + x.At(i), b)) == Some(State(x.base + x.At(i) + 10, b'))
    ensures m.Step(State(x.base + x.At(i) + 10, b')) == m.Execute(d, x.base + x.At(i) + 10, b')
  {
    var mov;
    mov, d := RewrittenDecodes(x, i, r);
    StepAt(m, x.base, x.placed, x.At(i), mov, b);
    StepAt(m, x.base, x.placed, x.At(i) + 10, d, b');
  }

  lemma PrefixSplit(s: seq<Byte>, at: nat, a: seq<Byte>, b: seq<Byte>)
    requires at <= |s| && a + b <= s[at..]
    ensures a[..|a|] <= s[at..] && at + |a| <= |s| && b[..|b|] <= s[at + |a|..]
  {
    assert s[at..][..|a|] == (a + b)[..|a|] == a;
    assert s[at + |a|..] == s[at..][|a|..];
    assert s[at..][|a|..][..|b|] == (a + b)[|a|..] == b;
  }

  // ---------- one step ----------

  /** The outcome of an instruction that continues at `next`. */
  function Continue<E>(next: Address, r: Option<Cpu<E>>): Option<State<E>> {
    match r
    case None => None
    case Some(cpu) => Some(State(next, cpu))
  }

  lemma ExecuteNext<E(!new)>(m: Machine<E>, insn: Insn, pc: Address, next: Address, ea: Address, cpu: Cpu<E>)
    requires insn.flow.Next? && WrappingAdd(pc, insn.len) == next && m.Effective(insn.mem, next, cpu) == ea
    ensures m.Execute(insn, pc, cpu) == Continue(next, m.Perform(insn.op, ea, cpu))
  {
  }

  lemma OriginalContinues<E(!new)>(m: Machine<E>, x: Image, i: nat, next: Address, ea: Address, s: State<E>)
    requires Runnable(m, x) && i < |x.p.entries| && s.pc == x.job.ip + x.p.Off(i) && x.p.entries[i].insn.flow.Next?
    requires next == x.job.ip + x.p.Off(i + 1) && ea == m.Effective(x.p.entries[i].insn.mem, next, s.cpu)
    ensures m.Step(s) == Continue(next, m.Perform(x.p.entries[i].insn.op, ea, s.cpu))
  {
    OriginalStep(m, x, i, s.cpu);
    ExecuteNext(m, x.p.entries[i].insn, s.pc, next, ea, s.cpu);
  }

  lemma KeptContinues<E(!new)>(m: Machine<E>, x: Image, i: nat, next: Address, ea: Address, s: State<E>)
    requires Runnable(m, x) && i < |x.p.entries| && s.pc == x.base + x.At(i) && x.p.entries[i].insn.flow.Next?
    requires next == x.base + x.At(i + 1) && ea == m.Effective(x.p.entries[i].insn.mem, next, s.cpu)
    requires !x.p.entries[i].NeedsReloc()
    ensures m.Step(s) == Continue(next, m.Perform(x.p.entries[i].insn.op, ea, s.cpu))
  {
    KeptStep(m, x, i, s.cpu);
    ExecuteNext(m, x.p.entries[i].insn, s.pc, next, ea, s.cpu);
  }

  lemma RewrittenContinues<E(!new)>(m: Machine<E>, x: Image, i: nat, next: Address, r: Gpr, ea: Address, s: State<E>,
                                    b: Cpu<E>)
    requires Runnable(m, x) && i < |x.p.entries| && s.pc == x.base + x.At(i) && x.p.entries[i].insn.flow.Next?
    requires x.p.entries[i].NeedsReloc() && x.rs[i] == Some(r)
    requires next == x.base + x.At(i + 1) && ea == x.job.Target(x.p.entries[i]) && b == s.cpu.Set(r, ea)
    ensures Run(m.Step, 2, s) == Continue(next, m.Perform(x.p.entries[i].insn.op, ea, b))
  {
    var d := RewrittenSteps(m, x, i, r, s.cpu, b);
    ExecuteNext(m, d, s.pc + 10, next, ea, b);
    RunTwo(m.Step, s, State(s.pc + 10, b));
  }

  lemma ContinueFollows<E>(x: Image, j: nat, r: Option<Cpu<E>>, r': Option<Cpu<E>>, next: Address, next': Address)
    requires x.Valid() && j <= |x.p.entries| && SameOutcome(DeadSet(x.p, j), r, r')
    requires next == x.job.ip + x.p.Off(j) && next' == x.base + x.At(j)
    ensures Follows(x, j, Continue(next, r), Continue(next', r'))
  {
  }

  lemma KeptSimulates<E(!new)>(m: Machine<E>, x: Image, i: nat, s: State<E>, s': State<E>)
    requires Sound(m, x) && i < |x.p.entries| && Related(x, i, s, s')
    requires !x.p.entries[i].NeedsReloc() && x.p.entries[i].insn.flow.Next?
    ensures Follows(x, i + 1, m.Step(s), m.Step(s'))
  {
    var insn := x.p.entries[i].insn;
    NextInside(x, i);
    var next, next' := x.job.ip + x.p.Off(i + 1), x.base + x.At(i + 1);
    assert SoundAt(m, x, i);
    DeadBefore(x.p, i);
    var ea := m.Effective(insn.mem, next, s.cpu);
    OriginalContinues(m, x, i, next, ea, s);
    KeptContinues(m, x, i, next', ea, s');
    PerformAgrees(m, x.p, i, ea, s.cpu, s'.cpu);
    ContinueFollows(x, i + 1, m.Perform(insn.op, ea, s.cpu), m.Perform(insn.op, ea, s'.cpu), next, next');
  }

  /** Setting a dead register goes unnoticed. */
  lemma SetDead<E>(p: Prologue, i: nat, r: Gpr, v: Address, a: Cpu<E>, b: Cpu<E>)
    requires Dead(p, i, r) && AgreeExcept(DeadSet(p, i), a, b)
    ensures AgreeExcept(DeadSet(p, i), a, b.Set(r, v))
  {
    assert r in DeadSet(p, i);
  }

  lemma RewrittenSimulates<E(!new)>(m: Machine<E>, x: Image, i: nat, s: State<E>, s': State<E>)
    requires Sound(m, x) && i < |x.p.entries| && Related(x, i, s, s')
    requires x.p.entries[i].NeedsReloc() && x.p.entries[i].insn.flow.Next?
    ensures Follows(x, i + 1, m.Step(s), Run(m.Step, 2, s'))
  {
    assert SoundAt(m, x, i) && x.job.ScannedAt(x.p, i);
    var e, r := x.p.entries[i], x.rs[i].value;
    NextInside(x, i);
    var next, next', ea := x.job.ip + x.p.Off(i + 1), x.base + x.At(i + 1), x.job.Target(e);
    var b := s'.cpu.Set(r, ea);
    OriginalContinues(m, x, i, next, ea, s);
    RewrittenContinues(m, x, i, next', r, ea, s', b);
    SetDead(x.p, i, r, ea, s.cpu, s'.cpu);
    PerformAgrees(m, x.p, i, ea, s.cpu, b);
    ContinueFollows(x, i + 1, m.Perform(e.insn.op, ea, s.cpu), m.Perform(e.insn.op, ea, b), next, next');
  }

  // ---------- conditional branches ----------

  /** The branch at `i` leads to instruction `j`, or to the asm block. */
  predicate LeadsTo(p: Prologue, i: nat, j: nat)
    requires i < |p.entries|
  {
    j <= |p.entries| && p.entries[i].insn.flow.Jcc? && p.Off(i + 1) + p.entries[i].insn.flow.rel == p.Off(j)
  }

  /** No instruction between `i` and `j`, in either order, is rewritten. */
  predicate KeptBetween(p: Prologue, i: nat, j: nat)
    requires i <= |p.entries| && j <= |p.entries|
  {
    forall k | 0 <= k < |p.entries| && (i <= k < j || j <= k < i) :: !p.entries[k].NeedsReloc()
  }

  /** The new code for an instruction that is rewritten is longer than the instruction. */
  predicate Grows(x: Image)
    requires x.Valid()
  {
    forall k | 0 <= k < |x.p.entries| && x.p.entries[k].NeedsReloc() :: x.At(k) + x.p.entries[k].insn.len < x.At(k + 1)
  }

  /** Going through a register, an instruction is less than ten bytes shorter than with its displacement. */
  ghost predicate SavesLittle(job: Job, p: Prologue) {
    forall i, r: Gpr | 0 <= i < |p.entries| && p.entries[i].NeedsReloc() ::
      SavesLittleAt(job.encode, p.entries[i].insn, r)
  }

  predicate SavesLittleAt(encode: Encoder, insn: Insn, r: Gpr) {
    match encode(insn.(mem := AtRegister(r)))
    case None => true
    case Some(bytes) => insn.len < 10 + |bytes|
  }

  /** So the MOV put before it makes up for what it saves. */
  lemma RewrittenGrows(x: Image)
    requires x.Valid() && x.p.Served(x.rs) && SavesLittle(x.job, x.p)
    ensures Grows(x)
  {
    forall k | 0 <= k < |x.p.entries| && x.p.entries[k].NeedsReloc()
      ensures x.At(k) + x.p.entries[k].insn.len < x.At(k + 1)
    {
      var e := x.p.entries[k];
      assert x.p.ServedAt(x.rs, k) && x.job.ScannedAt(x.p, k);
      var piece := PieceAt(x.job, x.p.entries, x.rs, k, x.code, x.placed);
      assert SavesLittleAt(x.job.encode, e.insn, x.rs[k].value);
    }
  }

  lemma PieceSize(x: Image, k: nat)
    requires x.Valid() && k < |x.p.entries|
    ensures !x.p.entries[k].NeedsReloc() ==> x.At(k + 1) - x.At(k) == x.p.Off(k + 1) - x.p.Off(k)
    ensures x.p.Off(k + 1) - x.p.Off(k) == x.p.entries[k].insn.len
  {
    assert x.job.ScannedAt(x.p, k);
    var piece := PieceAt(x.job, x.p.entries, x.rs, k, x.code, x.placed);
  }

  /** The distance between two instructions is kept exactly when none between them is rewritten. */
  lemma {:induction false} DistanceExact(x: Image, i: nat, j: nat)
    requires x.Valid() && i <= j <= |x.p.entries| && Grows(x)
    ensures x.At(j) - x.At(i) >= x.p.Off(j) - x.p.Off(i)
    ensures x.At(j) - x.At(i) == x.p.Off(j) - x.p.Off(i) <==> KeptBetween(x.p, i, j)
    decreases j
  {
    if i < j {
      DistanceExact(x, i, j - 1);
      PieceSize(x, j - 1);
      assert KeptBetween(x.p, i, j) <==> KeptBetween(x.p, i, j - 1) && !x.p.entries[j - 1].NeedsReloc();
    }
  }

  /** A branch copied as it is lands on the new code for its target exactly when no instruction in between is
      rewritten. */
  lemma BranchLands(x: Image, i: nat, j: nat)
    requires x.Valid() && x.p.Served(x.rs) && SavesLittle(x.job, x.p)
    requires i < |x.p.entries| && LeadsTo(x.p, i, j)
    ensures x.At(i + 1) + x.p.entries[i].insn.flow.rel == x.At(j) <==> KeptBetween(x.p, i + 1, j)
  {
    RewrittenGrows(x);
    if i + 1 <= j {
      DistanceExact(x, i + 1, j);
    } else {
      DistanceExact(x, j, i + 1);
      assert KeptBetween(x.p, i + 1, j) <==> KeptBetween(x.p, j, i + 1);
    }
  }

  /** Without `Grows`: a branch over instructions that are kept lands on the new code for its target. */
  lemma {:induction false} DistanceKept(x: Image, i: nat, j: nat)
    requires x.Valid() && i <= j <= |x.p.entries| && KeptBetween(x.p, i, j)
    ensures x.At(j) - x.At(i) == x.p.Off(j) - x.p.Off(i)
    decreases j
  {
    if i < j {
      DistanceKept(x, i, j - 1);
      PieceSize(x, j - 1);
    }
  }

  /** The branch at `i`, to `j`, uses no register, jumps over no instruction that is rewritten, and skips no write that
      makes a register look dead that `j` may read. */
  ghost predicate Clear(p: Prologue, i: nat, j: nat)
    requires i < |p.entries|
  {
    && LeadsTo(p, i, j) && KeptBetween(p, i + 1, j)
    && !p.entries[i].NeedsReloc() && p.entries[i].insn.used == []
    && DeadSet(p, i + 1) <= DeadSet(p, j)
  }

  /** In the new code as well, the branch leads from `i` to `j`. */
  lemma BranchTargets(x: Image, i: nat, j: nat)
    requires x.Valid() && i < |x.p.entries| && LeadsTo(x.p, i, j) && KeptBetween(x.p, i + 1, j)
    ensures x.At(i + 1) + x.p.entries[i].insn.flow.rel == x.At(j) <= |x.placed|
    ensures x.p.Off(j) <= |x.job.t|
    ensures WrappingAdd(x.job.ip + x.p.Off(i + 1), x.p.entries[i].insn.flow.rel) == x.job.ip + x.p.Off(j)
    ensures WrappingAdd(x.base + x.At(i + 1), x.p.entries[i].insn.flow.rel) == x.base + x.At(j)
  {
    var rel := x.p.entries[i].insn.flow.rel;
    BranchDistance(x, i, j);
    Inside(x, j);
    Lands(x.job.ip, x.p.Off(i + 1), rel, x.p.Off(j));
    Lands(x.base, x.At(i + 1), rel, x.At(j));
  }

  lemma BranchDistance(x: Image, i: nat, j: nat)
    requires x.Valid() && i < |x.p.entries| && LeadsTo(x.p, i, j) && KeptBetween(x.p, i + 1, j)
    ensures x.At(i + 1) + x.p.entries[i].insn.flow.rel == x.At(j)
  {
    if i + 1 <= j {
      DistanceKept(x, i + 1, j);
    } else {
      DistanceKept(x, j, i + 1);
    }
  }

  lemma Inside(x: Image, j: nat)
    requires x.Valid() && j <= |x.p.entries|
    ensures x.p.Off(j) <= |x.job.t| && x.At(j) <= |x.placed|
  {
    CodeSuffix(x.job, x.p.entries, x.rs, j, x.code);
    if j < |x.p.entries| {
      assert x.job.ScannedAt(x.p, j);
    }
  }

  lemma Lands(base: Address, from: nat, rel: int, to: nat)
    requires from + rel == to && base + to < 0x1_0000_0000_0000_0000
    ensures WrappingAdd(base + from, rel) == base + to
  {
  }

  lemma BranchDead(p: Prologue, i: nat)
    requires i < |p.entries| && p.entries[i].insn.used == []
    ensures DeadSet(p, i) <= DeadSet(p, i + 1)
  {
    forall r: Gpr | Dead(p, i, r)
      ensures Dead(p, i + 1, r)
    {
      DeadStep(p, i, r);
    }
  }

  lemma ExecuteBranch<E(!new)>(m: Machine<E>, insn: Insn, pc: Address, next: Address, to: Address, cpu: Cpu<E>)
    requires insn.flow.Jcc? && WrappingAdd(pc, insn.len) == next && WrappingAdd(next, insn.flow.rel) == to
    ensures m.Execute(insn, pc, cpu) == Some(State(if m.taken(insn.op, cpu.rest) then to else next, cpu))
  {
  }

  lemma OriginalBranches<E(!new)>(m: Machine<E>, x: Image, i: nat, next: Address, to: Address, s: State<E>)
    requires Runnable(m, x) && i < |x.p.entries| && s.pc == x.job.ip + x.p.Off(i) && x.p.entries[i].insn.flow.Jcc?
    requires next == x.job.ip + x.p.Off(i + 1) && WrappingAdd(next, x.p.entries[i].insn.flow.rel) == to
    ensures m.Step(s) == Some(State(if m.taken(x.p.entries[i].insn.op, s.cpu.rest) then to else next, s.cpu))
  {
    OriginalStep(m, x, i, s.cpu);
    ExecuteBranch(m, x.p.entries[i].insn, s.pc, next, to, s.cpu);
  }

  lemma KeptBranches<E(!new)>(m: Machine<E>, x: Image, i: nat, next: Address, to: Address, s: State<E>)
    requires Runnable(m, x) && i < |x.p.entries| && s.pc == x.base + x.At(i) && x.p.entries[i].insn.flow.Jcc?
    requires next == x.base + x.At(i + 1) && WrappingAdd(next, x.p.entries[i].insn.flow.rel) == to
    requires !x.p.entries[i].NeedsReloc()
    ensures m.Step(s) == Some(State(if m.taken(x.p.entries[i].insn.op, s.cpu.rest) then to else next, s.cpu))
  {
    KeptStep(m, x, i, s.cpu);
    ExecuteBranch(m, x.p.entries[i].insn, s.pc, next, to, s.cpu);
  }

  lemma OriginalTakes<E(!new)>(m: Machine<E>, x: Image, i: nat, j: nat, k: nat, s: State<E>)
    requires Runnable(m, x) && i < |x.p.entries| && s.pc == x.job.ip + x.p.Off(i)
    requires LeadsTo(x.p, i, j) && KeptBetween(x.p, i + 1, j)
    requires k == if m.taken(x.p.entries[i].insn.op, s.cpu.rest) then j else i + 1
    ensures x.p.Off(k) <= |x.job.t| && m.Step(s) == Some(State(x.job.ip + x.p.Off(k), s.cpu))
  {
    BranchTargets(x, i, j);
    NextInside(x, i);
    OriginalBranches(m, x, i, x.job.ip + x.p.Off(i + 1), x.job.ip + x.p.Off(j), s);
  }

  lemma KeptTakes<E(!new)>(m: Machine<E>, x: Image, i: nat, j: nat, k: nat, s: State<E>)
    requires Runnable(m, x) && i < |x.p.entries| && s.pc == x.base + x.At(i)
    requires LeadsTo(x.p, i, j) && KeptBetween(x.p, i + 1, j) && !x.p.entries[i].NeedsReloc()
    requires k == if m.taken(x.p.entries[i].insn.op, s.cpu.rest) then j else i + 1
    ensures x.At(k) <= |x.placed| && m.Step(s) == Some(State(x.base + x.At(k), s.cpu))
  {
    BranchTargets(x, i, j);
    NextInside(x, i);
    KeptBranches(m, x, i, x.base + x.At(i + 1), x.base + x.At(j), s);
  }

  /** Both machines branch the same way. */
  lemma BothBranch<E(!new)>(m: Machine<E>, x: Image, i: nat, j: nat, k: nat, s: State<E>, s': State<E>)
    requires Sound(m, x) && i < |x.p.entries| && Related(x, i, s, s')
    requires LeadsTo(x.p, i, j) && KeptBetween(x.p, i + 1, j) && !x.p.entries[i].NeedsReloc()
    requires k == if m.taken(x.p.entries[i].insn.op, s.cpu.rest) then j else i + 1
    ensures x.p.Off(k) <= |x.job.t| && x.At(k) <= |x.placed|
    ensures m.Step(s) == Some(State(x.job.ip + x.p.Off(k), s.cpu))
    ensures m.Step(s') == Some(State(x.base + x.At(k), s'.cpu))
  {
    OriginalTakes(m, x, i, j, k, s);
    KeptTakes(m, x, i, j, k, s');
  }

  lemma NextInside(x: Image, i: nat)
    requires x.Valid() && i < |x.p.entries|
    ensures x.p.Off(i + 1) <= |x.job.t| && x.At(i + 1) <= |x.placed|
  {
    assert x.job.ScannedAt(x.p, i);
    var _ := PieceAt(x.job, x.p.entries, x.rs, i, x.code, x.placed);
  }

  lemma BranchSimulates<E(!new)>(m: Machine<E>, x: Image, i: nat, j: nat, k: nat, s: State<E>, s': State<E>)
    requires Sound(m, x) && i < |x.p.entries| && Related(x, i, s, s') && Clear(x.p, i, j)
    requires k == if m.taken(x.p.entries[i].insn.op, s.cpu.rest) then j else i + 1
    ensures Follows(x, k, m.Step(s), m.Step(s'))
  {
    BothBranch(m, x, i, j, k, s, s');
    BranchDead(x.p, i);
    assert DeadSet(x.p, i) <= DeadSet(x.p, k);
  }

  /** Whenever the branch at `i` is taken, the new code follows it to `j`. */
  ghost predicate AlwaysFollows<E(!new)>(step: State<E> -> Option<State<E>>, taken: E -> bool, x: Image, i: nat, j: nat)
    requires x.Valid() && i <= |x.p.entries| && j <= |x.p.entries|
  {
    forall s: State<E>, s': State<E> | Related(x, i, s, s') && taken(s.cpu.rest) :: Follows(x, j, step(s), step(s'))
  }

  /** A branch that uses no register and jumps over nothing that is rewritten is always followed exactly when it skips
      no write that makes a register look dead: when what is dead after it is dead at its target. */
  lemma BranchExact<E(!new)>(m: Machine<E>, x: Image, i: nat, j: nat, taken: E -> bool, e: E)
    requires Sound(m, x) && i < |x.p.entries| && LeadsTo(x.p, i, j) && KeptBetween(x.p, i + 1, j)
    requires !x.p.entries[i].NeedsReloc() && x.p.entries[i].insn.used == []
    requires taken(e) && forall f: E :: taken(f) <==> m.taken(x.p.entries[i].insn.op, f)
    ensures AlwaysFollows(m.Step, taken, x, i, j) <==> DeadSet(x.p, i + 1) <= DeadSet(x.p, j)
  {
    if DeadSet(x.p, i + 1) <= DeadSet(x.p, j) {
      forall s: State<E>, s': State<E> | Related(x, i, s, s') && taken(s.cpu.rest)
        ensures Follows(x, j, m.Step(s), m.Step(s'))
      {
        BranchSimulates(m, x, i, j, j, s, s');
      }
    } else {
      var r :| r in DeadSet(x.p, i + 1) && r !in DeadSet(x.p, j);
      var s, s' := BranchLoses(m, x, i, j, r, e);
    }
  }

  /** Two states that differ in a register the target may read. */
  lemma BranchLoses<E(!new)>(m: Machine<E>, x: Image, i: nat, j: nat, r: Gpr, e: E)
    returns (s: State<E>, s': State<E>)
    requires Sound(m, x) && i < |x.p.entries| && LeadsTo(x.p, i, j) && KeptBetween(x.p, i + 1, j)
    requires !x.p.entries[i].NeedsReloc() && x.p.entries[i].insn.used == [] && m.taken(x.p.entries[i].insn.op, e)
    requires Dead(x.p, i + 1, r) && r !in DeadSet(x.p, j)
    ensures Related(x, i, s, s') && s.cpu.rest == e && !Follows(x, j, m.Step(s), m.Step(s'))
  {
    DeadStep(x.p, i, r);
    NextInside(x, i);
    assert x.job.ScannedAt(x.p, i);
    var a := Cpu(seq(16, _ => 0), e);
    s, s' := State(x.job.ip + x.p.Off(i), a), State(x.base + x.At(i), a.Set(r, 1));
    assert r in DeadSet(x.p, i);
    BothBranch(m, x, i, j, j, s, s');
  }

  // ---------- whole prologues ----------

  /** Every instruction simply continues, or is a branch that can be copied. */
  ghost predicate Straight(p: Prologue) {
    forall i | 0 <= i < |p.entries| :: StraightAt(p, i)
  }

  ghost predicate StraightAt(p: Prologue, i: nat)
    requires i < |p.entries|
  {
    p.entries[i].insn.flow.Next? || exists j :: Clear(p, i, j)
  }

  lemma StepSimulates<E(!new)>(m: Machine<E>, x: Image, i: nat, s: State<E>, s': State<E>) returns (j: nat)
    requires Sound(m, x) && Straight(x.p) && i < |x.p.entries| && Related(x, i, s, s')
    ensures j <= |x.p.entries| && Follows(x, j, m.Step(s), Run(m.Step, x.Steps(i), s'))
    ensures x.p.entries[i].insn.flow.Next? ==> j == i + 1
  {
    assert StraightAt(x.p, i);
    j := i + 1;
    if !x.p.entries[i].insn.flow.Next? {
      var to: nat :| Clear(x.p, i, to);
      j := if m.taken(x.p.entries[i].insn.op, s.cpu.rest) then to else i + 1;
      BranchSimulates(m, x, i, to, j, s, s');
      RunOne(m.Step, s');
    } else if x.p.entries[i].NeedsReloc() {
      RewrittenSimulates(m, x, i, s, s');
    } else {
      KeptSimulates(m, x, i, s, s');
      RunOne(m.Step, s');
    }
  }

  datatype Execution<S> = Arrived(state: S) | Faulted | Running(state: S)

  /** At most `n` steps, up to the first time the program counter is `stop`. */
  function Upto<E>(step: State<E> -> Option<State<E>>, stop: Address, n: nat, s: State<E>): Execution<State<E>> {
    if s.pc == stop then Arrived(s)
    else if n == 0 then Running(s)
    else
      match step(s)
      case None => Faulted
      case Some(s') => Upto(step, stop, n - 1, s')
  }

  lemma {:induction false} OffBelow(job: Job, p: Prologue, i: nat)
    requires job.Scanned(p, 0) && i <= |p.entries|
    ensures p.Off(i) <= p.asmAt && (p.Off(i) == p.asmAt ==> i == |p.entries|)
    decreases |p.entries| - i
  {
    if i < |p.entries| {
      assert job.ScannedAt(p, i);
      OffBelow(job, p, i + 1);
    }
  }

  /** Every step of the original is followed by the new code. */
  ghost predicate Simulation<E(!new)>(step: State<E> -> Option<State<E>>, x: Image)
    requires x.Valid()
  {
    forall i: nat, s: State<E>, s': State<E> | i < |x.p.entries| && Related(x, i, s, s') ::
      SimulatedStep(step, x, i, s, s')
  }

  ghost predicate SimulatedStep<E>(step: State<E> -> Option<State<E>>, x: Image, i: nat, s: State<E>, s': State<E>)
    requires x.Valid() && i < |x.p.entries|
  {
    exists j: nat | j <= |x.p.entries| :: Follows(x, j, step(s), Run(step, x.Steps(i), s'))
  }

  lemma PrologueSimulation<E(!new)>(m: Machine<E>, x: Image)
    requires Sound(m, x) && Straight(x.p)
    ensures Simulation(m.Step, x)
  {
    forall i: nat, s: State<E>, s': State<E> | i < |x.p.entries| && Related(x, i, s, s')
      ensures SimulatedStep(m.Step, x, i, s, s')
    {
      var j := StepSimulates(m, x, i, s, s');
    }
  }

  /** Where the original has arrived at the asm block within `n` steps, the new code has within `k`. */
  ghost predicate Simulated<E(!new)>(step: State<E> -> Option<State<E>>, x: Image, n: nat, s: State<E>, k: nat,
                                     s': State<E>)
    requires x.Valid()
  {
    match Upto(step, x.job.ip + x.p.asmAt, n, s)
    case Arrived(o) => Follows(x, |x.p.entries|, Some(o), Run(step, k, s'))
    case Faulted => Run(step, k, s').None?
    case Running(_) => true
  }

  /** What the original has reached at the asm block, the new code has reached there, or both have faulted. */
  lemma {:induction false} RunSimulates<E(!new)>(step: State<E> -> Option<State<E>>, x: Image, i: nat, n: nat,
                                                 s: State<E>, s': State<E>) returns (k: nat)
    requires x.Valid() && Simulation(step, x) && i <= |x.p.entries| && Related(x, i, s, s')
    ensures Simulated(step, x, n, s, k, s')
    decreases n
  {
    OffBelow(x.job, x.p, i);
    k := 0;
    if n > 0 && i < |x.p.entries| {
      assert SimulatedStep(step, x, i, s, s');
      var first := Run(step, x.Steps(i), s');
      var j: nat :| j <= |x.p.entries| && Follows(x, j, step(s), first);
      k := x.Steps(i);
      if step(s).Some? {
        var rest := RunSimulates(step, x, j, n - 1, step(s).value, first.value);
        RunCompose(step, x.Steps(i), rest, s');
        k := x.Steps(i) + rest;
      }
    }
  }

  // ---------- the thunk asm block ----------

  /** The block loads the closure register from the magic, and jumps to the address after it. */
  predicate AsmBlock(job: Job, p: Prologue, jmp: Insn) {
    var q := p.asmAt + p.asm.len;
    && p.asm.op0 < 16 && p.asm.flow.Next? && p.asm.op == LoadFrom(p.asm.op0) && p.asm.mem.IpRel?
    && q + p.asm.mem.disp == job.magic && q <= |job.t| && job.decode(job.t[q..]) == Some(jmp)
    && jmp.flow.OtherFlow? && jmp.op.JumpTo? && jmp.mem.IpRel? && q + jmp.len + jmp.mem.disp == job.magic + 8
    && q + jmp.len <= job.magic && job.magic + 16 == |job.t|
  }

  /** From offset `at` of the placed bytes on stands the asm block, with both slots filled. */
  predicate AsmPlaced(job: Job, p: Prologue, placed: seq<Byte>, at: nat, closure: Address, back: Address)
    requires p.asmAt <= job.magic <= |job.t|
  {
    var slot := at + job.magic - p.asmAt;
    && slot + 16 <= |placed| && placed[at..slot] == job.t[p.asmAt..job.magic]
    && placed[slot..slot + 8] == Le8(closure) && placed[slot + 8..slot + 16] == Le8(back)
  }

  /** A window of `t` at `b` that stands in `s` at `a` has the same slices. */
  lemma SameSlice(s: seq<Byte>, a: nat, t: seq<Byte>, b: nat, n: nat, d: nat, len: nat)
    requires a + n <= |s| && b + n <= |t| && s[a..a + n] == t[b..b + n] && d + len <= n
    ensures t[b + d..][..len] <= s[a + d..]
  {
    var y, z := s[a + d..][..len], t[b + d..][..len];
    forall k | 0 <= k < len
      ensures y[k] == z[k]
    {
      assert y[k] == s[a..a + n][d + k] == t[b..b + n][d + k] == z[k];
    }
  }

  /** An instruction that ends before the magic is in its place. */
  lemma AsmDecodes(job: Job, p: Prologue, placed: seq<Byte>, at: nat, closure: Address, back: Address, d: nat,
                   insn: Insn)
    requires Local(job.decode) && p.asmAt + d <= job.magic <= |job.t| && AsmPlaced(job, p, placed, at, closure, back)
    requires job.decode(job.t[p.asmAt + d..]) == Some(insn) && p.asmAt + d + insn.len <= job.magic
    ensures at + d <= |placed| && job.decode(placed[at + d..]) == Some(insn)
  {
    SameSlice(placed, at, job.t, p.asmAt, job.magic - p.asmAt, d, insn.len);
    assert LocalAt(job.decode, job.t[p.asmAt + d..], placed[at + d..]);
  }

  lemma ReadsBack<E(!new)>(m: Machine<E>, base: Address, code: seq<Byte>, q: nat, v: Address, e: E)
    requires m.Holds(base, code) && q + 8 <= |code| && code[q..q + 8] == Le8(v)
    ensures m.read(e, base + q) == Some(v)
  {
    assert m.Reads(code, base, q, e);
    Le8RoundTrip(v);
  }

  /** The closure register is loaded from the slot at the magic. */
  lemma AsmLoads<E(!new)>(m: Machine<E>, job: Job, p: Prologue, jmp: Insn, placed: seq<Byte>, base: Address, at: nat,
                          closure: Address, back: Address, b: Cpu<E>)
    requires Local(job.decode) && m.decode == job.decode && m.Holds(base, placed) && job.Scanned(p, 0)
    requires AsmBlock(job, p, jmp) && AsmPlaced(job, p, placed, at, closure, back)
    ensures m.Step(State(base + at, b)) == Some(State(base + at + p.asm.len, b.Set(p.asm.op0, closure)))
  {
    AsmDecodes(job, p, placed, at, closure, back, 0, p.asm);
    StepAt(m, base, placed, at, p.asm, b);
    ReadsBack(m, base, placed, at + job.magic - p.asmAt, closure, b.rest);
    ExecuteNext(m, p.asm, base + at, base + at + p.asm.len, base + at + job.magic - p.asmAt, b);
  }

  /** The jump goes to the address in the slot after it. */
  lemma AsmJumps<E(!new)>(m: Machine<E>, job: Job, p: Prologue, jmp: Insn, placed: seq<Byte>, base: Address, at: nat,
                          closure: Address, back: Address, b: Cpu<E>)
    requires Local(job.decode) && m.decode == job.decode && m.Holds(base, placed) && job.Scanned(p, 0)
    requires AsmBlock(job, p, jmp) && AsmPlaced(job, p, placed, at, closure, back)
    ensures m.Step(State(base + at + p.asm.len, b)) == Some(State(back, b))
  {
    AsmDecodes(job, p, placed, at, closure, back, p.asm.len, jmp);
    StepAt(m, base, placed, at + p.asm.len, jmp, b);
    ReadsBack(m, base, placed, at + job.magic - p.asmAt + 8, back, b.rest);
  }

  lemma AsmRuns<E(!new)>(m: Machine<E>, job: Job, p: Prologue, jmp: Insn, placed: seq<Byte>, base: Address, at: nat,
                         closure: Address, back: Address, b: Cpu<E>)
    requires Local(job.decode) && m.decode == job.decode && m.Holds(base, placed) && job.Scanned(p, 0)
    requires AsmBlock(job, p, jmp) && AsmPlaced(job, p, placed, at, closure, back)
    ensures Run(m.Step, 2, State(base + at, b)) == Some(State(back, b.Set(p.asm.op0, closure)))
  {
    var b' := b.Set(p.asm.op0, closure);
    AsmLoads(m, job, p, jmp, placed, base, at, closure, back, b);
    AsmJumps(m, job, p, jmp, placed, base, at, closure, back, b');
    RunTwo(m.Step, State(base + at, b), State(base + at + p.asm.len, b'));
  }
}
