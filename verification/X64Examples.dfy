/** Templates on which the x86-64 relocator does not do what is wanted of it. */
module X64Examples {
  import opened Bytes
  import opened SafeJit
  import opened Placement
  import opened X64Machine
  import opened X64Reloc
  import opened X64Liveness
  import opened X64Correct

  // ---------- a decoder for a few instructions ----------

  const NOP := Insn(1, Other(0), Next, Elsewhere, [], 16)

  /** JE over `rel` bytes. */
  function Je(rel: Byte): Insn { Insn(2, Other(1), Jcc(rel), Elsewhere, [], 16) }

  /** MOVAPS XMM0, from memory relative to the instruction pointer, and through RAX. */
  function Movaps(disp: Byte): Insn { Insn(7, Other(2), Next, IpRel(disp), [], 16) }
  const MOVAPS_RAX := Insn(3, Other(2), Next, AtRegister(0), [Use(Some(0), 8, Read)], 16)

  /** MOV RAX, likewise. */
  function MovRax(disp: Byte): Insn { Insn(7, LoadFrom(0), Next, IpRel(disp), [Use(Some(0), 8, Write)], 0) }
  const LOAD_RAX := Insn(3, LoadFrom(0), Next, AtRegister(0), [Use(Some(0), 8, ReadWrite)], 0)

  /** MOV EAX: the bytes of MOV RAX without the first. Its first operand comes before RAX. */
  function MovEax(disp: Byte): Insn { Insn(6, Other(4), Next, IpRel(disp), [Use(Some(0), 4, Write)], 16) }

  const MOV_RCX_RAX := Insn(3, Other(3), Next, Elsewhere, [Use(Some(0), 8, Read), Use(Some(1), 8, Write)], 1)

  function MovImm64(r: Gpr, imm: Address): Insn {
    Insn(10, MovImm(r, imm), Next, Elsewhere, [Use(Some(r), 8, Write)], r)
  }

  function Jmp(disp: Byte): Insn { Insn(6, JumpTo, OtherFlow, IpRel(disp), [], 16) }

  predicate IsMovImm(b0: Byte, b1: Byte) { (b0 == 0x48 || b0 == 0x49) && 0xB8 <= b1 < 0xC0 }

  /** An instruction other than MOV r64, imm64, by its first bytes; displacements are below 128. */
  function DecodeHead(b0: Byte, b1: Byte, b2: Byte, b3: Byte): Option<Insn> {
    if b0 == 0x90 then Some(NOP)
    else if b0 == 0x74 && b1 < 0x80 then Some(Je(b1))
    else if b0 == 0x0F && b1 == 0x28 && b2 == 5 then Some(Movaps(b3))
    else if b0 == 0x0F && b1 == 0x28 && b2 == 0 then Some(MOVAPS_RAX)
    else if b0 == 0x48 && b1 == 0x8B && b2 == 5 then Some(MovRax(b3))
    else if b0 == 0x48 && b1 == 0x8B && b2 == 0 then Some(LOAD_RAX)
    else if b0 == 0x48 && b1 == 0x89 && b2 == 0xC1 then Some(MOV_RCX_RAX)
    else if b0 == 0x8B && b1 == 5 then Some(MovEax(b2))
    else if b0 == 0xFF && b1 == 0x25 then Some(Jmp(b2))
    else None
  }

  function ByteAt(s: seq<Byte>, k: nat): Byte { if k < |s| then s[k] else 0xCC }

  function DecodeFew(s: seq<Byte>): (r: Option<Insn>)
    ensures r.Some? ==> 0 < r.value.len <= |s|
  {
    if |s| >= 10 && IsMovImm(s[0], s[1]) then Some(MovImm64(8 * (s[0] - 0x48) + s[1] - 0xB8, FromLe8(s[2..10])))
    else
      var insn :- DecodeHead(ByteAt(s, 0), ByteAt(s, 1), ByteAt(s, 2), ByteAt(s, 3));
      if insn.len <= |s| then Some(insn) else None
  }

  function FewInsns(): Decoder { (s: seq<Byte>) => DecodeFew(s) }

  /** The instructions that go through RAX. */
  function FewEncodings(): Encoder {
    (insn: Insn) =>
      if insn.mem != AtRegister(0) then None
      else if insn.op == Other(2) then Some([0x0F, 0x28, 0])
      else if insn.op == LoadFrom(0) then Some([0x48, 0x8B, 0])
      else None
  }

  function JobOf(t: seq<Byte>, ip: Address, magic: nat): Job { Job(FewInsns(), FewEncodings(), t, ip, magic) }

  lemma JobValid(job: Job)
    requires job.decode == FewInsns() && job.ip + |job.t| < 0x1_0000_0000_0000_0000 && job.magic <= |job.t|
    ensures job.Valid()
  {
    assert forall s: seq<Byte> :: job.decode(s) == DecodeFew(s);
  }

  /** The bytes at offset `o` are those of an instruction. */
  predicate Stands(t: seq<Byte>, o: nat, insn: Insn) {
    && o + 4 <= |t| && o + insn.len <= |t|
    && DecodeHead(t[o], t[o + 1], t[o + 2], t[o + 3]) == Some(insn)
  }

  lemma StandsDecodes(t: seq<Byte>, o: nat, insn: Insn)
    requires Stands(t, o, insn)
    ensures DecodeFew(t[o..]) == Some(insn)
  {
    var s := t[o..];
    assert ByteAt(s, 0) == t[o] && ByteAt(s, 1) == t[o + 1] && ByteAt(s, 2) == t[o + 2] && ByteAt(s, 3) == t[o + 3];
  }

  /** What the scan makes of an instruction at offset `o`. */
  lemma LookAt(job: Job, o: nat, insn: Insn)
    requires job.decode == FewInsns() && o < |job.t| < 0x1000
    requires DecodeFew(job.t[o..]) == Some(insn) && !insn.flow.OtherFlow?
    ensures insn.mem.IpRel? && o + insn.len + insn.mem.disp == job.magic ==> job.Look(o) == Reached(insn)
    ensures !insn.mem.IpRel? || o + insn.len + insn.mem.disp != job.magic ==> job.Look(o) == Visited(Entry(insn, o))
  {
    assert job.decode(job.t[o..]) == Some(insn);
    if insn.mem.IpRel? {
      OperandAt(job, o, insn);
    }
  }

  lemma LookStands(job: Job, o: nat, insn: Insn)
    requires job.decode == FewInsns() && |job.t| < 0x1000 && Stands(job.t, o, insn) && !insn.flow.OtherFlow?
    ensures insn.mem.IpRel? && o + insn.len + insn.mem.disp == job.magic ==> job.Look(o) == Reached(insn)
    ensures !insn.mem.IpRel? || o + insn.len + insn.mem.disp != job.magic ==> job.Look(o) == Visited(Entry(insn, o))
  {
    StandsDecodes(job.t, o, insn);
    LookAt(job, o, insn);
  }

  /** Where the operand of an instruction at offset `o` is, from the start of the template. */
  lemma OperandAt(job: Job, o: nat, insn: Insn)
    requires insn.mem.IpRel? && 0 <= insn.mem.disp < 0x100 && o + insn.len < 0x1100
    ensures job.AtMagic(Entry(insn, o)) <==> o + insn.len + insn.mem.disp == job.magic
  {
    var x := o + insn.len + insn.mem.disp;
    assert job.Target(Entry(insn, o)) == WrappingAdd(job.ip, x);
    WrapBack(job.ip, x);
  }

  lemma WrapBack(ip: Address, x: nat)
    requires x < 0x2000
    ensures WrappingAdd(WrappingAdd(ip, x), 0 - ip) == x
  {
    assert WrappingAdd(ip, x) == ip + x || WrappingAdd(ip, x) == ip + x - 0x1_0000_0000_0000_0000;
  }

  // ---------- scanning ----------

  /** The scan has seen the instructions of `p` one after the other. */
  ghost predicate Sees(job: Job, p: Prologue)
    requires job.Valid()
  {
    && p.asmAt <= |job.t| && job.Look(p.asmAt) == Reached(p.asm)
    && forall i | 0 <= i < |p.entries| :: SeesAt(job, p, i)
  }

  predicate SeesAt(job: Job, p: Prologue, i: nat)
    requires i < |p.entries|
  {
    var e := p.entries[i];
    e.at + e.insn.len == p.Off(i + 1) <= |job.t| && 0 < e.insn.len && job.Look(e.at) == Visited(e)
  }

  lemma {:induction false} ScanSees(job: Job, look: Looks, p: Prologue, i: nat)
    requires job.Valid() && Sees(job, p) && i <= |p.entries|
    requires Advances(look, |job.t|) && forall o: nat | o <= |job.t| :: look(o) == job.Look(o)
    ensures p.Off(i) <= |job.t| && Scan(look, |job.t|, p.Off(i)) == Ok(p.(entries := p.entries[i..]))
    decreases |p.entries| - i
  {
    if i < |p.entries| {
      assert SeesAt(job, p, i);
      ScanSees(job, look, p, i + 1);
      var e := p.entries[i];
      assert look(e.at) == Visited(e);
      assert [e] + p.entries[i + 1..] == p.entries[i..];
    }
  }

  lemma ScanIs(job: Job, p: Prologue)
    requires job.Valid() && Sees(job, p) && p.Off(0) == 0
    ensures Scan(job.Looker(), |job.t|, 0) == Ok(p)
  {
    ScanSees(job, job.Looker(), p, 0);
    assert p.entries[0..] == p.entries;
  }

  // ---------- a register that is overlooked ----------

  /** Eight NOPs, a load into XMM0, then the asm block, whose first instruction takes seven bytes. */
  const LATE_LOAD: seq<Byte> :=
    [0x90, 0x90, 0x90, 0x90, 0x90, 0x90, 0x90, 0x90] + [0x0F, 0x28, 5, 0, 0, 0, 0, 0x48, 0x8B, 5, 10, 0, 0, 0]
    + [0xFF, 0x25, 12, 0, 0, 0, 0xCC, 0xCC, 0xCC, 0xCC] + X86_MAGIC

  function LateLoad(): Prologue {
    Prologue([Entry(NOP, 0), Entry(NOP, 1), Entry(NOP, 2), Entry(NOP, 3), Entry(NOP, 4), Entry(NOP, 5), Entry(NOP, 6),
              Entry(NOP, 7), Entry(Movaps(0), 8)], 15, MovRax(10))
  }

  /** RAX is dead before the load, but is not found: the table holds the length of the asm block's first instruction
      where an index is wanted. */
  lemma DeadButOverlooked()
    ensures LateLoad().Chosen(8).None? && Dead(LateLoad(), 8, 0)
  {
    var p := LateLoad();
    var load := p.entries[8].insn;
    assert |p.entries| == 9;
    forall r: Gpr
      ensures !Reads(load, r) && !Kills(load, r)
      ensures Dead(p, 8, r) <==> r == 0
    {
      DeadStep(p, 8, r);
      DeadAtEnd(p, r);
    }
    forall r: Gpr | Dead(p, 8, r)
      ensures Overlooked(p, 8, r)
    {
    }
    ChosenExact(p, 8);
  }

  /** The relocator refuses a prologue with an instruction for which no register is found. */
  lemma Refused(job: Job, p: Prologue, i: nat)
    requires job.Valid() && Scan(job.Looker(), |job.t|, 0) == Ok(p) && p.asm.op0 < 16
    requires job.HighestJcc(p) <= p.asmAt && NumReloc(p.entries) > 0
    requires i < |p.entries| && p.entries[i].NeedsReloc() && p.Chosen(i).None?
    ensures job.Relocated() == Err(NoAvailableRegister)
  {
    ChoiceAt(p, i);
    assert !p.ServedAt(p.Choices(), i);
  }

  /** The relocator refuses this template, although RAX could hold the address. */
  lemma LateLoadRefused(job: Job)
    requires job == JobOf(LATE_LOAD, job.ip, 32) && job.ip + |LATE_LOAD| < 0x1_0000_0000_0000_0000
    ensures job.Valid() && Scan(job.Looker(), |job.t|, 0) == Ok(LateLoad())
    ensures job.Relocated() == Err(NoAvailableRegister)
  {
    var p := LateLoadScanned(job);
    LateLoadCounts(job);
    DeadButOverlooked();
    Refused(job, p, 8);
  }

  lemma LateLoadScanned(job: Job) returns (p: Prologue)
    requires job == JobOf(LATE_LOAD, job.ip, 32) && job.ip + |LATE_LOAD| < 0x1_0000_0000_0000_0000
    ensures p == LateLoad() && job.Valid() && Scan(job.Looker(), |job.t|, 0) == Ok(p)
  {
    p := LateLoad();
    LateLoadBytes(job.t);
    JobValid(job);
    LateLoadSeen(job);
    ScanIs(job, p);
  }

  lemma LateLoadBytes(t: seq<Byte>)
    requires t == LATE_LOAD
    ensures |t| == 48 && forall k | 0 <= k < 8 :: t[k] == 0x90
    ensures Stands(t, 8, Movaps(0)) && Stands(t, 15, MovRax(10))
  {
    assert t[0] == t[1] == t[2] == t[3] == t[4] == t[5] == t[6] == t[7] == 0x90;
  }

  lemma LateLoadSeen(job: Job)
    requires job.decode == FewInsns() && job.magic == 32 && job.Valid()
    requires |job.t| == 48 && forall k | 0 <= k < 8 :: job.t[k] == 0x90
    requires Stands(job.t, 8, Movaps(0)) && Stands(job.t, 15, MovRax(10))
    ensures Sees(job, LateLoad()) && LateLoad().Off(0) == 0
  {
    forall k: nat | k < 8
      ensures job.Look(k) == Visited(Entry(NOP, k))
    {
      LookStands(job, k, NOP);
    }
    LookStands(job, 8, Movaps(0));
    LookStands(job, 15, MovRax(10));
    LateLoadSees(job);
  }

  lemma LateLoadSees(job: Job)
    requires job.Valid() && |job.t| == 48
    requires forall k: nat | k < 8 :: job.Look(k) == Visited(Entry(NOP, k))
    requires job.Look(8) == Visited(Entry(Movaps(0), 8)) && job.Look(15) == Reached(MovRax(10))
    ensures Sees(job, LateLoad())
  {
  }

  lemma LateLoadCounts(job: Job)
    ensures NumReloc(LateLoad().entries) > 0 && job.HighestJcc(LateLoad()) == 0
  {
    JccBelow(job, LateLoad().entries + [Entry(LateLoad().asm, 15)], 0);
  }

  lemma {:induction false} JccBelow(job: Job, entries: seq<Entry>, bound: nat)
    requires forall i | 0 <= i < |entries| && entries[i].insn.flow.Jcc? :: job.JccOffset(entries[i]) <= bound
    ensures job.MaxJcc(entries) <= bound
    decreases |entries|
  {
    if entries != [] {
      JccBelow(job, entries[..|entries| - 1], bound);
    }
  }

  // ---------- a branch over an instruction that is rewritten ----------

  /** The relocator accepts a prologue with a register for every instruction that needs one. */
  lemma Accepts(job: Job, p: Prologue, rs: seq<Option<Gpr>>) returns (thunk: RelocThunk)
    requires job.Valid() && Scan(job.Looker(), |job.t|, 0) == Ok(p) && p.asm.op0 < 16
    requires job.HighestJcc(p) <= p.asmAt && NumReloc(p.entries) > 0
    requires rs == p.Choices() && p.Served(rs) && job.Code(p.entries, rs, 0).Some?
    ensures job.Relocated() == Ok(thunk)
    ensures thunk == job.Finished(job.Code(p.entries, rs, 0).value, p.asmAt)
  {
    thunk := job.Finished(job.Code(p.entries, rs, 0).value, p.asmAt);
  }

  /** JE over a load of RAX, to the asm block. */
  const JUMP_OVER: seq<Byte> :=
    [0x74, 7, 0x48, 0x8B, 5, 0x7F, 0, 0, 0] + [0x48, 0x8B, 5, 8, 0, 0, 0]
    + [0xFF, 0x25, 10, 0, 0, 0, 0xCC, 0xCC] + X86_MAGIC

  function JumpOver(): Prologue { Prologue([Entry(Je(7), 0), Entry(MovRax(0x7F), 2)], 9, MovRax(8)) }

  function JumpOverCode(ip: Address): seq<Byte> {
    JUMP_OVER[0..2] + (MovR64Imm64(0, WrappingAdd(ip + 9, 0x7F)) + [0x48, 0x8B, 0])
  }

  /**
   The relocator accepts this template and copies the branch, which still leads seven bytes on: into the MOV that the
   load has been rewritten to, and not to the asm block.
   */
  lemma JumpOverMisses(job: Job, x: Image)
    requires job == JobOf(JUMP_OVER, job.ip, 24) && job.ip + |JUMP_OVER| < 0x1_0000_0000_0000_0000
    requires x == Image(job, JumpOver(), [None, Some(0)], JumpOverCode(job.ip), JumpOverCode(job.ip), 0)
    ensures job.Valid() && Scan(job.Looker(), |job.t|, 0) == Ok(x.p) && x.rs == x.p.Choices()
    ensures job.Relocated() == Ok(job.Finished(x.code, 9))
    ensures x.Valid() && LeadsTo(x.p, 0, 2) && x.At(1) + 7 == 9 && x.At(2) == 15
  {
    JumpOverScanned(job);
    JumpOverChoices();
    JumpOverCoded(job);
    JumpOverCounts(job);
    var thunk := Accepts(job, x.p, x.rs);
    JumpOverPlaced(job, x);
  }

  lemma JumpOverScanned(job: Job)
    requires job == JobOf(JUMP_OVER, job.ip, 24) && job.ip + |JUMP_OVER| < 0x1_0000_0000_0000_0000
    ensures job.Valid() && Scan(job.Looker(), |job.t|, 0) == Ok(JumpOver()) && job.Scanned(JumpOver(), 0)
  {
    JumpOverBytes(job.t);
    JobValid(job);
    JumpOverSeen(job);
    ScanIs(job, JumpOver());
    ScanScanned(job, job.Looker(), 0);
  }

  lemma JumpOverBytes(t: seq<Byte>)
    requires t == JUMP_OVER
    ensures |t| == 40 && Stands(t, 0, Je(7)) && Stands(t, 2, MovRax(0x7F)) && Stands(t, 9, MovRax(8))
  {
  }

  lemma JumpOverSeen(job: Job)
    requires job.decode == FewInsns() && job.magic == 24 && job.Valid() && |job.t| == 40
    requires Stands(job.t, 0, Je(7)) && Stands(job.t, 2, MovRax(0x7F)) && Stands(job.t, 9, MovRax(8))
    ensures Sees(job, JumpOver()) && JumpOver().Off(0) == 0
  {
    LookStands(job, 0, Je(7));
    LookStands(job, 2, MovRax(0x7F));
    LookStands(job, 9, MovRax(8));
    JumpOverSees(job);
  }

  lemma JumpOverSees(job: Job)
    requires job.Valid() && |job.t| == 40
    requires job.Look(0) == Visited(Entry(Je(7), 0)) && job.Look(2) == Visited(Entry(MovRax(0x7F), 2))
    requires job.Look(9) == Reached(MovRax(8))
    ensures Sees(job, JumpOver())
  {
  }

  lemma JumpOverChoices()
    ensures JumpOver().Choices() == [None, Some(0)] && JumpOver().Served([None, Some(0)])
  {
    var p := JumpOver();
    assert p.Table(2)[0] == LastWrite(7);
    UpdateExact(p.Table(2), p.entries[1].insn.used, 1, 0);
    assert Replaces(p.entries[1].insn.used[0], 0);
    assert p.Table(1)[0] == LastWrite(1);
    assert p.Chosen(1) == Some(0);
  }

  lemma JumpOverCoded(job: Job)
    requires job == JobOf(JUMP_OVER, job.ip, 24)
    ensures job.Code(JumpOver().entries, [None, Some(0)], 0) == Some(JumpOverCode(job.ip))
  {
    var entries, rs: seq<Option<Gpr>> := JumpOver().entries, [None, Some(0)];
    var through: seq<Byte> := [0x48, 0x8B, 0];
    var piece := MovR64Imm64(0, WrappingAdd(job.ip + 9, 0x7F)) + through;
    assert job.Piece(entries[1], rs[1]) == Some(piece) && job.Piece(entries[0], rs[0]) == Some(JUMP_OVER[0..2]);
    assert job.Code(entries, rs, 2) == Some([]);
    assert piece + [] == piece;
    assert job.Code(entries, rs, 1) == Some(piece);
  }

  lemma JumpOverCounts(job: Job)
    requires job == JobOf(JUMP_OVER, job.ip, 24)
    ensures NumReloc(JumpOver().entries) > 0 && job.HighestJcc(JumpOver()) <= 9
  {
    var entries := JumpOver().entries;
    JumpOverJcc(job, entries[0]);
    JccBelow(job, entries + [Entry(JumpOver().asm, 9)], 9);
  }

  lemma JumpOverJcc(job: Job, e: Entry)
    requires e == Entry(Je(7), 0)
    ensures job.JccOffset(e) == 9
  {
    WrapBack(job.ip, 9);
  }

  lemma JumpOverPlaced(job: Job, x: Image)
    requires job == JobOf(JUMP_OVER, job.ip, 24) && job.ip + |JUMP_OVER| < 0x1_0000_0000_0000_0000
    requires x == Image(job, JumpOver(), [None, Some(0)], JumpOverCode(job.ip), JumpOverCode(job.ip), 0)
    requires job.Scanned(JumpOver(), 0)
    requires job.Code(JumpOver().entries, [None, Some(0)], 0) == Some(JumpOverCode(job.ip))
    ensures x.Valid() && LeadsTo(x.p, 0, 2) && x.At(1) + 7 == 9 && x.At(2) == 15
  {
    PieceSize(x, 0);
    var _ := PieceAt(job, x.p.entries, x.rs, 1, x.code, x.placed);
  }
}
