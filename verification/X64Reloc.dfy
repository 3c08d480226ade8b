/** The x86-64 relocator of `x86_64.rs`. */
module X64Reloc {
  import opened Bytes
  import opened SafeJit
  import opened X64Machine

  /** The encoder, on an instruction whose memory operand is a register. */
  type Encoder = Insn -> Option<seq<Byte>>

  /** MOV r64, imm64: REX.W, with REX.B for R8 and up, then B8+r and the immediate. */
  function MovR64Imm64(r: Gpr, imm: Address): (s: seq<Byte>)
    ensures |s| == 10
  {
    [0x48 + r / 8, 0xB8 + r % 8] + Le8(imm)
  }

  /** A decoded instruction and its offset in the template. */
  datatype Entry = Entry(insn: Insn, at: nat) {
    predicate NeedsReloc() { insn.mem.IpRel? }
  }

  datatype GprOp = NoOp | LastRead(i: nat) | LastWrite(i: nat)

  type GprOps = x: seq<GprOp> | |x| == 16 witness seq(16, _ => NoOp)

  /** The table entry of a register after a use of it by instruction `i`. */
  function Touch(op: GprOp, u: Use, i: nat): GprOp {
    if u.access == Write then
      if u.size >= 4 && op != LastRead(i) then LastWrite(i) else op
    else if u.access != NoAccess then LastRead(i)
    else op
  }

  function TouchOne(ops: GprOps, u: Use, i: nat): GprOps {
    match u.gpr
    case None => ops
    case Some(r) => ops[r := Touch(ops[r], u, i)]
  }

  function Update(ops: GprOps, used: seq<Use>, i: nat): GprOps
    decreases used
  {
    if used == [] then ops else Update(TouchOne(ops, used[0], i), used[1..], i)
  }

  predicate Available(op: GprOp, i: nat) { op.LastWrite? && op.i >= i }

  /** The first available register from `r` on. */
  function FirstFrom(ops: GprOps, i: nat, r: nat): (c: Option<Gpr>)
    requires r <= 16
    ensures c.Some? ==>
              && r <= c.value && Available(ops[c.value], i)
              && forall q: nat | r <= q < c.value :: !Available(ops[q], i)
    ensures c.None? ==> forall q: nat | r <= q < 16 :: !Available(ops[q], i)
    decreases 16 - r
  {
    if r == 16 then None else if Available(ops[r], i) then Some(r) else FirstFrom(ops, i, r + 1)
  }

  /** The instructions before the thunk asm block, the offset of that block, and its first instruction. */
  datatype Prologue = Prologue(entries: seq<Entry>, asmAt: nat, asm: Insn) {
    /** The table before any instruction: the asm block writes the closure register. The table holds indices of
        instructions, but what is stored here is a length in bytes. */
    function Seed(): GprOps
      requires asm.op0 < 16
    {
      seq(16, r requires 0 <= r < 16 => if r == asm.op0 then LastWrite(asm.len) else NoOp)
    }

    /** The table after the backward pass has reached instruction `i`. */
    function Table(i: nat): GprOps
      requires asm.op0 < 16 && i <= |entries|
      decreases |entries| - i
    {
      if i == |entries| then Seed() else Update(Table(i + 1), entries[i].insn.used, i)
    }

    /** The register that is to hold the address of the operand of instruction `i`. */
    function Chosen(i: nat): Option<Gpr>
      requires asm.op0 < 16 && i < |entries|
    {
      FirstFrom(Table(i), i, 0)
    }

    /** The register for each instruction; none where none is needed, or none is available. */
    function Choices(): (rs: seq<Option<Gpr>>)
      requires asm.op0 < 16
      ensures |rs| == |entries|
    {
      seq(|entries|, i requires 0 <= i < |entries| => if entries[i].NeedsReloc() then Chosen(i) else None)
    }

    /** Every instruction that needs a register has one. */
    predicate Served(rs: seq<Option<Gpr>>)
      requires |rs| == |entries|
    {
      forall i | 0 <= i < |entries| :: ServedAt(rs, i)
    }

    predicate ServedAt(rs: seq<Option<Gpr>>, i: nat)
      requires i < |rs| == |entries|
    {
      entries[i].NeedsReloc() <==> rs[i].Some?
    }

    /** Where instruction `i` starts, or the asm block. */
    function Off(i: nat): nat
      requires i <= |entries|
    {
      if i < |entries| then entries[i].at else asmAt
    }

  }

  predicate Template(t: seq<Byte>, ip: Address, magic: nat) {
    ip + |t| < 0x1_0000_0000_0000_0000 && magic <= |t|
  }

  datatype Visit = Failed(error: JitError) | Reached(asm: Insn) | Visited(entry: Entry)

  /** What the scan makes of every offset. */
  type Looks = nat --> Visit

  ghost predicate Advances(look: Looks, len: nat) {
    forall o: nat | o <= len :: look.requires(o) && AdvancesAt(look(o), o, len)
  }

  predicate AdvancesAt(v: Visit, o: nat, len: nat) {
    match v
    case Failed(_) => true
    case Reached(_) => o <= len
    case Visited(e) => e.at == o && 0 < e.insn.len && o + e.insn.len <= len
  }

  /** The forward scan from offset `o`. */
  function Scan(look: Looks, len: nat, o: nat): (r: Result<Prologue>)
    requires Advances(look, len) && o <= len
    ensures r.Ok? ==> r.value.asmAt <= len
    decreases len - o
  {
    assert AdvancesAt(look(o), o, len);
    match look(o)
    case Failed(e) => Err(e)
    case Reached(asm) => Ok(Prologue([], o, asm))
    case Visited(e) => PrependAll([e], Scan(look, len, o + e.insn.len))
  }

  /** How many instructions need a register. */
  function NumReloc(entries: seq<Entry>): nat {
    if entries == [] then 0
    else NumReloc(entries[..|entries| - 1]) + if entries[|entries| - 1].NeedsReloc() then 1 else 0
  }

  function PrependAll(entries: seq<Entry>, rest: Result<Prologue>): Result<Prologue> {
    match rest
    case Err(e) => Err(e)
    case Ok(p) => Ok(p.(entries := entries + p.entries))
  }

  /** What the relocator is given. */
  datatype Job = Job(decode: Decoder, encode: Encoder, t: seq<Byte>, ip: Address, magic: nat) {
    /** The template contains the magic, and decoding stays inside it. */
    ghost predicate Valid() {
      && ip + |t| < 0x1_0000_0000_0000_0000 && magic <= |t|
      && forall s: seq<Byte> :: decode(s).Some? ==> 0 < decode(s).value.len <= |s|
    }

    /** The address of the operand relative to the instruction pointer. */
    function Target(e: Entry): Address
      requires e.NeedsReloc()
    {
      WrappingAdd(ip + e.at + e.insn.len, e.insn.mem.disp)
    }

    predicate AtMagic(e: Entry) {
      e.NeedsReloc() && WrappingAdd(Target(e), 0 - ip) == magic
    }

    /** The offset a Jcc leads to, in wrapping arithmetic. */
    function JccOffset(e: Entry): Address
      requires e.insn.flow.Jcc?
    {
      WrappingAdd(WrappingAdd(ip + e.at + e.insn.len, e.insn.flow.rel), 0 - ip)
    }

    /** The instructions of `p` follow each other from offset `o` up to the asm block, as decoded. */
    predicate Scanned(p: Prologue, o: nat) {
      && p.Off(0) == o && p.asmAt <= |t| && decode(t[p.asmAt..]) == Some(p.asm)
      && AtMagic(Entry(p.asm, p.asmAt)) && !p.asm.flow.OtherFlow?
      && forall i | 0 <= i < |p.entries| :: ScannedAt(p, i)
    }

    predicate ScannedAt(p: Prologue, i: nat)
      requires i < |p.entries|
    {
      var e := p.entries[i];
      && e.at + e.insn.len == p.Off(i + 1) <= |t| && 0 < e.insn.len && decode(t[e.at..]) == Some(e.insn)
      && !e.insn.flow.OtherFlow? && !AtMagic(e)
    }

    /** What the scan makes of the instruction at offset `o`. */
    function Look(o: nat): Visit
      requires o <= |t|
    {
      if o == |t| then Failed(NoThunkAsm)
      else
        match decode(t[o..])
        case None => Failed(InvalidInstruction)
        case Some(insn) =>
          if insn.flow.OtherFlow? then Failed(UnsupportedInstruction)
          else if AtMagic(Entry(insn, o)) then Reached(insn)
          else Visited(Entry(insn, o))
    }

    function Max(a: Address, b: Address): Address { if a < b then b else a }

    function MaxJcc(entries: seq<Entry>): Address {
      if entries == [] then 0
      else
        var rest := MaxJcc(entries[..|entries| - 1]);
        var e := entries[|entries| - 1];
        MaxWith(rest, e)
    }

    function MaxWith(max: Address, e: Entry): Address {
      if e.insn.flow.Jcc? then Max(max, JccOffset(e)) else max
    }

    /** The scan has seen the asm block's first instruction as well. */
    function HighestJcc(p: Prologue): Address { MaxJcc(p.entries + [Entry(p.asm, p.asmAt)]) }

    /** The instruction re-encoded to go through a register. */
    function Through(e: Entry, r: Gpr): Option<seq<Byte>> {
      encode(e.insn.(mem := AtRegister(r)))
    }

    /** The new code for an instruction, with the register chosen for it. */
    function Piece(e: Entry, r: Option<Gpr>): Option<seq<Byte>> {
      if !e.NeedsReloc() then
        if e.at + e.insn.len <= |t| then Some(t[e.at..e.at + e.insn.len]) else None
      else
        var register :- r;
        var bytes :- Through(e, register);
        Some(MovR64Imm64(register, Target(e)) + bytes)
    }

    /** The new code from instruction `i` on. */
    function Code(entries: seq<Entry>, rs: seq<Option<Gpr>>, i: nat): Option<seq<Byte>>
      requires i <= |entries| == |rs|
      decreases |entries| - i
    {
      if i == |entries| then Some([])
      else
        var piece :- Piece(entries[i], rs[i]);
        var rest :- Code(entries, rs, i + 1);
        Some(piece + rest)
    }

    function Finished(code: seq<Byte>, asmAt: nat): RelocThunk
      requires asmAt <= |t|
    {
      var thunk := code + t[asmAt..];
      RelocThunk(thunk, WrappingAdd(magic, |thunk| - |t|))
    }

    /** What is made of a prologue when `rs` are the registers to use. */
    function Rewritten(p: Prologue, rs: seq<Option<Gpr>>): Result<RelocThunk>
      requires p.asmAt <= |t| && |p.entries| == |rs|
    {
      if !p.Served(rs) then Err(NoAvailableRegister)
      else
        match Code(p.entries, rs, 0)
        case None => Err(EncodingError)
        case Some(code) => Ok(Finished(code, p.asmAt))
    }

    function Looker(): (look: Looks)
      requires Valid()
      ensures Advances(look, |t|)
    {
      (o: nat) requires o <= |t| => Look(o)
    }

    function Relocated(): Result<RelocThunk>
      requires Valid()
    {
      match Scan(Looker(), |t|, 0)
      case Err(e) => Err(e)
      case Ok(p) =>
        if HighestJcc(p) > p.asmAt then Err(UnsupportedControlFlow)
        else if NumReloc(p.entries) == 0 then Ok(RelocThunk(t, magic))
        else if p.asm.op0 >= 16 then Err(IndexOutOfBounds)
        else Rewritten(p, p.Choices())
    }
  }

  // ---------- the relocator ----------

  /** Decode the instruction at `position`, and keep count of what matters about it. */
  method DecodeNext(job: Job, position: nat, max: Address, num: nat) returns (v: Visit, max': Address, num': nat)
    requires position < |job.t|
    ensures v == job.Look(position)
    ensures v.Visited? ==> max' == job.MaxWith(max, v.entry) && num' == num + if v.entry.NeedsReloc() then 1 else 0
    ensures v.Reached? ==> max' == job.MaxWith(max, Entry(v.asm, position)) && num' == num
  {
    max', num' := max, num;
    var decoded := job.decode(job.t[position..]);
    if decoded.None? {
      return Failed(InvalidInstruction), max', num';
    }
    var instruction := Entry(decoded.value, position);
    match instruction.insn.flow {
      case Next =>
      case Jcc(_) =>
        max' := job.Max(max', job.JccOffset(instruction));
      case OtherFlow =>
        return Failed(UnsupportedInstruction), max', num';
    }
    if instruction.NeedsReloc() {
      if job.AtMagic(instruction) {
        return Reached(instruction.insn), max', num';
      }
      num' := num' + 1;
    }
    return Visited(instruction), max', num';
  }

  lemma CountAppend(job: Job, entries: seq<Entry>, e: Entry)
    ensures job.MaxJcc(entries + [e]) == job.MaxWith(job.MaxJcc(entries), e)
    ensures NumReloc(entries + [e]) == NumReloc(entries) + if e.NeedsReloc() then 1 else 0
  {
    assert (entries + [e])[..|entries|] == entries;
  }

  lemma ScanAppend(look: Looks, len: nat, entries: seq<Entry>, o: nat, v: Visit)
    requires Advances(look, len) && o <= len && v == look(o)
    ensures AdvancesAt(v, o, len)
    ensures match v
            case Failed(e) => PrependAll(entries, Scan(look, len, o)) == Err(e)
            case Reached(asm) => PrependAll(entries, Scan(look, len, o)) == Ok(Prologue(entries, o, asm))
            case Visited(e) =>
              PrependAll(entries, Scan(look, len, o)) == PrependAll(entries + [e], Scan(look, len, o + e.insn.len))
  {
    assert entries + [] == entries;
    if v.Visited? {
      var e := v.entry;
      var rest := Scan(look, len, o + e.insn.len);
      if rest.Ok? {
        assert entries + ([e] + rest.value.entries) == entries + [e] + rest.value.entries;
      }
    }
  }

  method ScanForward(job: Job, ghost look: Looks) returns (r: Result<Prologue>, maxJccOffset: Address,
                     numIpRelReloc: nat)
    requires Advances(look, |job.t|) && forall o: nat | o <= |job.t| :: look(o) == job.Look(o)
    ensures r == Scan(look, |job.t|, 0)
    ensures r.Ok? ==> maxJccOffset == job.HighestJcc(r.value) && numIpRelReloc == NumReloc(r.value.entries)
  {
    var position := 0;
    var instructions: seq<Entry> := [];
    ghost var whole := Scan(look, |job.t|, 0);
    maxJccOffset, numIpRelReloc := 0, 0;
    assert whole.Ok? ==> [] + whole.value.entries == whole.value.entries;
    while position < |job.t|
      invariant position <= |job.t|
      invariant whole == PrependAll(instructions, Scan(look, |job.t|, position))
      invariant maxJccOffset == job.MaxJcc(instructions)
      invariant numIpRelReloc == NumReloc(instructions)
    {
      var v;
      v, maxJccOffset, numIpRelReloc := DecodeNext(job, position, maxJccOffset, numIpRelReloc);
      ScanAppend(look, |job.t|, instructions, position, v);
      match v {
        case Failed(e) =>
          return Err(e), maxJccOffset, numIpRelReloc;
        case Reached(asm) =>
          CountAppend(job, instructions, Entry(asm, position));
          return Ok(Prologue(instructions, position, asm)), maxJccOffset, numIpRelReloc;
        case Visited(instruction) =>
          CountAppend(job, instructions, instruction);
          instructions := instructions + [instruction];
          position := position + instruction.insn.len;
      }
    }
    ScanAppend(look, |job.t|, instructions, position, look(position));
    return Err(NoThunkAsm), maxJccOffset, numIpRelReloc;
  }

  /** The table after instruction `i` is seen. */
  method RecordUses(gprOps: array<GprOp>, used: seq<Use>, i: nat)
    requires gprOps.Length == 16
    modifies gprOps
    ensures gprOps[..] == Update(old(gprOps[..]), used, i)
  {
    for k := 0 to |used|
      invariant Update(gprOps[..], used[k..], i) == Update(old(gprOps[..]), used, i)
    {
      ghost var before := gprOps[..];
      var usedGpr := used[k];
      assert used[k..][0] == usedGpr && used[k..][1..] == used[k + 1..];
      match usedGpr.gpr {
        case None =>
        case Some(fullRegister) =>
          gprOps[fullRegister] := Touch(gprOps[fullRegister], usedGpr, i);
      }
      assert gprOps[..] == TouchOne(before, usedGpr, i);
    }
  }

  /** The registers chosen for the instructions from `i` on, last instruction first. */
  function Stack(rs: seq<Option<Gpr>>, i: nat): seq<Gpr>
    requires i <= |rs|
    decreases |rs| - i
  {
    if i == |rs| then []
    else if rs[i].Some? then Stack(rs, i + 1) + [rs[i].value]
    else Stack(rs, i + 1)
  }

  lemma ChoiceAt(p: Prologue, i: nat)
    requires p.asm.op0 < 16 && i < |p.entries|
    ensures p.Choices()[i] == if p.entries[i].NeedsReloc() then FirstFrom(p.Table(i), i, 0) else None
  {
  }

  /** The backward pass: a register for every instruction that needs one. */
  method PickRegisters(p: Prologue, ghost rs: seq<Option<Gpr>>) returns (ok: bool, chosenRegisters: seq<Gpr>)
    requires p.asm.op0 < 16 && rs == p.Choices()
    ensures ok <==> p.Served(rs)
    ensures ok ==> chosenRegisters == Stack(rs, 0)
  {
    var gprOps := new GprOp[16](_ => NoOp);
    gprOps[p.asm.op0] := LastWrite(p.asm.len);
    assert gprOps[..] == p.Seed();
    chosenRegisters := [];
    for i := |p.entries| downto 0
      invariant gprOps[..] == p.Table(i)
      invariant chosenRegisters == Stack(rs, i)
      invariant forall j | i <= j < |p.entries| :: p.ServedAt(rs, j)
    {
      RecordUses(gprOps, p.entries[i].insn.used, i);
      ChoiceAt(p, i);
      if p.entries[i].NeedsReloc() {
        var availGpr := FirstFrom(gprOps[..], i, 0);
        if availGpr.None? {
          assert !p.ServedAt(rs, i);
          return false, [];
        }
        chosenRegisters := chosenRegisters + [availGpr.value];
      }
    }
    return true, chosenRegisters;
  }

  /** New code for the instruction at `offset`; the register it needs is on top of the stack. */
  method ReencodeOne(job: Job, instr: Entry, offset: nat, ghost rs: seq<Option<Gpr>>, ghost i: nat, chosen: seq<Gpr>)
    returns (piece: Option<seq<Byte>>, chosen': seq<Gpr>)
    requires i < |rs| && (instr.NeedsReloc() <==> rs[i].Some?) && chosen == Stack(rs, i)
    requires offset == instr.at && offset + instr.insn.len <= |job.t|
    ensures piece == job.Piece(instr, rs[i]) && chosen' == Stack(rs, i + 1)
  {
    chosen' := chosen;
    if instr.NeedsReloc() {
      var register := chosen[|chosen| - 1];
      chosen' := chosen[..|chosen| - 1];
      var bytes := job.Through(instr, register);
      if bytes.None? {
        return None, chosen';
      }
      return Some(MovR64Imm64(register, job.Target(instr)) + bytes.value), chosen';
    } else {
      return Some(job.t[offset..offset + instr.insn.len]), chosen';
    }
  }

  function Append(a: seq<Byte>, b: Option<seq<Byte>>): Option<seq<Byte>> {
    match b
    case None => None
    case Some(b) => Some(a + b)
  }

  lemma CodeAppend(job: Job, entries: seq<Entry>, rs: seq<Option<Gpr>>, i: nat, buffer: seq<Byte>)
    requires i < |entries| == |rs|
    ensures match job.Piece(entries[i], rs[i])
            case None => Append(buffer, job.Code(entries, rs, i)) == None
            case Some(piece) =>
              Append(buffer, job.Code(entries, rs, i)) == Append(buffer + piece, job.Code(entries, rs, i + 1))
  {
    if job.Piece(entries[i], rs[i]).Some? && job.Code(entries, rs, i + 1).Some? {
      var piece, rest := job.Piece(entries[i], rs[i]).value, job.Code(entries, rs, i + 1).value;
      assert buffer + (piece + rest) == buffer + piece + rest;
    }
  }

  /** The second forward pass. */
  method Reencode(job: Job, p: Prologue, ghost rs: seq<Option<Gpr>>, chosen: seq<Gpr>) returns (code: Option<seq<Byte>>)
    requires job.Scanned(p, 0) && |p.entries| == |rs| && p.Served(rs) && chosen == Stack(rs, 0)
    ensures code == job.Code(p.entries, rs, 0)
  {
    var instructions := p.entries;
    var chosenRegisters := chosen;
    var offset := 0;
    var buffer: seq<Byte> := [];
    ghost var whole := job.Code(instructions, rs, 0);
    assert whole.Some? ==> [] + whole.value == whole.value;
    for i := 0 to |instructions|
      invariant chosenRegisters == Stack(rs, i)
      invariant offset == p.Off(i)
      invariant Append(buffer, job.Code(instructions, rs, i)) == whole
    {
      assert job.ScannedAt(p, i) && p.ServedAt(rs, i);
      CodeAppend(job, instructions, rs, i, buffer);
      var piece;
      piece, chosenRegisters := ReencodeOne(job, instructions[i], offset, rs, i, chosenRegisters);
      if piece.None? {
        return None;
      }
      buffer := buffer + piece.value;
      offset := offset + instructions[i].insn.len;
    }
    assert chosenRegisters == [] && offset == p.asmAt;
    assert buffer + [] == buffer;
    return Some(buffer);
  }

  /** Everything after the scan. */
  method Rewrite(job: Job, p: Prologue) returns (r: Result<RelocThunk>)
    requires job.Scanned(p, 0) && p.asm.op0 < 16
    ensures r == job.Rewritten(p, p.Choices())
  {
    ghost var rs := p.Choices();
    var ok, chosenRegisters := PickRegisters(p, rs);
    if !ok {
      return Err(NoAvailableRegister);
    }
    var code := Reencode(job, p, rs, chosenRegisters);
    if code.None? {
      return Err(EncodingError);
    }
    return Ok(job.Finished(code.value, p.asmAt));
  }

  /** The scan's result is what was decoded. */
  lemma {:induction false} ScanScanned(job: Job, look: Looks, o: nat)
    requires Advances(look, |job.t|) && o <= |job.t| && forall p: nat | p <= |job.t| :: look(p) == job.Look(p)
    ensures Scan(look, |job.t|, o).Ok? ==> job.Scanned(Scan(look, |job.t|, o).value, o)
    decreases |job.t| - o
  {
    assert AdvancesAt(look(o), o, |job.t|) && look(o) == job.Look(o);
    if look(o).Visited? {
      var e := look(o).entry;
      ScanScanned(job, look, o + e.insn.len);
      if Scan(look, |job.t|, o + e.insn.len).Ok? {
        ScannedPrepend(job, e, Scan(look, |job.t|, o + e.insn.len).value);
      }
    }
  }

  lemma ScannedPrepend(job: Job, e: Entry, p: Prologue)
    requires job.Scanned(p, e.at + e.insn.len) && e.at + e.insn.len <= |job.t| && 0 < e.insn.len
    requires job.decode(job.t[e.at..]) == Some(e.insn) && !e.insn.flow.OtherFlow? && !job.AtMagic(e)
    ensures job.Scanned(p.(entries := [e] + p.entries), e.at)
  {
    var q := p.(entries := [e] + p.entries);
    forall i | 0 <= i < |q.entries|
      ensures job.ScannedAt(q, i)
    {
      if i > 0 {
        assert job.ScannedAt(p, i - 1);
      }
    }
  }

  method TryRelocThunkTemplate(job: Job) returns (r: Result<RelocThunk>)
    requires job.Valid()
    ensures r == job.Relocated()
  {
    var scanned, maxJccOffset, numIpRelReloc := ScanForward(job, job.Looker());
    if scanned.Err? {
      return Err(scanned.error);
    }
    var p := scanned.value;
    if maxJccOffset > p.asmAt {
      return Err(UnsupportedControlFlow);
    }
    if numIpRelReloc == 0 {
      return Ok(RelocThunk(job.t, job.magic));
    }
    if p.asm.op0 >= 16 {
      return Err(IndexOutOfBounds);
    }
    ScanScanned(job, job.Looker(), 0);
    r := Rewrite(job, p);
  }
}
