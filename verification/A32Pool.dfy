/** The literal pool of an A32 thunk. */
module A32Pool {
  import opened Bytes
  import opened SafeJit
  import opened ArmReloc
  import opened ArmLayout
  import opened ArmShape
  import opened EncodingA32
  import opened A32Machine
  import opened A32Decode
  import opened A32Reloc
  import opened A32Simulation

  // ---------- the encoder ----------

  /** A literal is in reach of a load when it is less than 4096 bytes from the program counter. */
  predicate InReach(at: nat, here: nat) { -0x1000 < LiteralOffset(at, here) < 0x1000 }

  /** The encoder makes a load of the literal, relative to the program counter, exactly when the literal is in reach. */
  ghost predicate LiteralLoads(decode: Word -> Insn, encode: LoadEncoder) {
    forall reg: nat, at: nat, here: nat | reg < 15 && at % 4 == 0 ::
      LoadsLiteral(decode, encode(reg, at, here), reg, at, here)
  }

  predicate LoadsLiteral(decode: Word -> Insn, w: Option<Word>, reg: nat, at: nat, here: nat) {
    && (w.Some? <==> InReach(at, here))
    && (w.Some? ==> decode(w.value) == LoadImmediate(LdrWord, reg, 15, LiteralOffset(at, here)))
  }

  /** `load` makes loads relative to the program counter. */
  ghost predicate MakesLoads(load: (nat, nat, nat) -> Option<LdrImm>) {
    forall reg: nat, at: nat, here: nat | at % 4 == 0 :: MakesLoad(load(reg, at, here), reg, at, here)
  }

  predicate MakesLoad(ldr: Option<LdrImm>, reg: nat, at: nat, here: nat) {
    IsLoadOf(ldr, reg, 15, LiteralOffset(at, here))
  }

  /** The load, by name. */
  lemma NewLitMakes(pc: Word, reg: nat, at: nat, here: nat) returns (ldr: Option<LdrImm>)
    requires pc % 4 == 0 && at % 4 == 0
    ensures ldr == LiteralLoad(pc, reg, at, here) && MakesLoad(ldr, reg, at, here)
  {
    ldr := LiteralLoad(pc, reg, at, here);
    NewLitDecodes(pc, at, reg, here);
  }

  lemma EncoderLoads<E(!new)>(m: Machine<E>, load: (nat, nat, nat) -> Option<LdrImm>)
    requires m.IsA32() && MakesLoads(load)
    ensures LiteralLoads(m.decode, EncoderOf(load))
  {
    var encode := EncoderOf(load);
    forall reg: nat, at: nat, here: nat | reg < 15 && at % 4 == 0
      ensures LoadsLiteral(m.decode, encode(reg, at, here), reg, at, here)
    {
      assert MakesLoad(load(reg, at, here), reg, at, here);
      if load(reg, at, here).Some? {
        assert m.decode(load(reg, at, here).value.raw) == Decode(load(reg, at, here).value.raw);
      }
    }
  }

  lemma LiteralEncoderLoads<E(!new)>(m: Machine<E>, pc: Word)
    requires m.IsA32() && pc % 4 == 0
    ensures LiteralLoads(m.decode, LiteralEncoder(pc))
  {
    var load := (reg: nat, at: nat, here: nat) => LiteralLoad(pc, reg, at, here);
    forall reg: nat, at: nat, here: nat | at % 4 == 0
      ensures MakesLoad(load(reg, at, here), reg, at, here)
    {
      var ldr := NewLitMakes(pc, reg, at, here);
      assert load(reg, at, here) == ldr;
    }
    EncoderLoads(m, load);
  }

  // ---------- the pool ----------

  lemma PoolLoads(decode: Word -> Insn, encode: LoadEncoder, before: seq<Byte>, code: seq<Byte>, fixups: seq<Fixup>,
                  pool: nat, i: nat)
    requires LiteralLoads(decode, encode) && PoolFilled(4, encode, before, code, fixups) && pool <= |before|
    requires i < |fixups| && fixups[i].at % 4 == 0 && fixups[i].reg < 15
    ensures LoadsTarget(decode, code, fixups[i].at, fixups[i].reg, fixups[i].target, pool)
  {
    var f, q := fixups[i], |before| + 4 * i;
    assert SlotFilled(4, encode, code, fixups, |before|, i) && LiteralLoaded(4, encode, code, f, |before|, q);
    assert LoadsLiteral(decode, encode(f.reg, f.at, q), f.reg, f.at, q);
    WordLoads(decode, encode, code, f, |before|, q);
    assert LoadsFrom(decode, code, f.at, f.reg, f.target, pool, q);
  }

  lemma WordLoads(decode: Word -> Insn, encode: LoadEncoder, code: seq<Byte>, f: Fixup, pool: nat, q: nat)
    requires LiteralLoaded(4, encode, code, f, pool, q) && LoadsLiteral(decode, encode(f.reg, f.at, q), f.reg, f.at, q)
    ensures decode(WordAt(code, f.at)) == LoadImmediate(LdrWord, f.reg, 15, q - f.at - 8)
  {
    Le4RoundTrip(encode(f.reg, f.at, q).value);
  }

  lemma PoolLoadsAll(decode: Word -> Insn, encode: LoadEncoder, before: seq<Byte>, code: seq<Byte>,
                     fixups: seq<Fixup>, pool: nat)
    requires LiteralLoads(decode, encode) && PoolFilled(4, encode, before, code, fixups) && pool <= |before|
    requires forall f | f in fixups :: f.at % 4 == 0 && f.reg < 15
    ensures forall f | f in fixups :: Loading(decode, code, pool)(f)
  {
    forall f | f in fixups
      ensures LoadsTarget(decode, code, f.at, f.reg, f.target, pool)
    {
      var i :| 0 <= i < |fixups| && fixups[i] == f;
      PoolLoads(decode, encode, before, code, fixups, pool, i);
    }
  }

  // ---------- the thunk ----------

  /** The new code is `k` bytes longer than the template before its asm block, is the template from there on, and has
      every instruction where the offset map says, with its literals in the pool. */
  ghost predicate LaidOut(decode: Word -> Insn, t: seq<Byte>, plan: Plan, code: seq<Byte>, k: nat, pool: nat) {
    && k == 4 * Loads(plan.items) && plan.asmAt <= |t| && pool == |t| + k <= |code|
    && code[plan.asmAt + k..pool] == t[plan.asmAt..]
    && AllPlaced(Loading(decode, code, pool), code, t, plan.items, 0)
  }

  /** The relocator's result is laid out as the offset map says, and its magic has moved with the code. */
  lemma RelocatedLaidOut(decode: Word -> Insn, encode: LoadEncoder, visit: Visitor, t: seq<Byte>, magic: nat,
                         plan: Plan, k: nat, pool: nat, thunk: RelocThunk)
    requires Advances(visit, |t|) && LiteralLoads(decode, encode) && magic <= |t|
    requires Scan(visit, |t|, 0) == Ok(plan) && Sound(plan, |t|, 15) && k == 4 * Loads(plan.items) && pool == |t| + k
    requires Relocated(visit, 4, encode, t, magic) == Ok(thunk)
    ensures LaidOut(decode, t, plan, thunk.thunk, k, pool) && thunk.magicOffset == magic + k
  {
    var p := EmitAll(Start(t, magic), plan.items);
    EmitAllInBounds(Start(t, magic), plan.items);
    var before := FinishFills(4, encode, t, magic, plan.items);
    CodeLaidOut(decode, encode, t, magic, plan, p, before, thunk.thunk, k, pool);
  }

  lemma CodeLaidOut(decode: Word -> Insn, encode: LoadEncoder, t: seq<Byte>, magic: nat, plan: Plan,
                    p: Progress, before: seq<Byte>, code: seq<Byte>, k: nat, pool: nat)
    requires LiteralLoads(decode, encode) && Sound(plan, |t|, 15) && k == 4 * Loads(plan.items) && pool == |t| + k
    requires p == EmitAll(Start(t, magic), plan.items) && Ready(p, k) && p.extra == Fixups(plan.items, 0)
    requires Contents(p) <= before && PoolFilled(4, encode, before, code, p.extra)
    ensures LaidOut(decode, t, plan, code, k, pool)
  {
    ContentsSize(p, k);
    AsmKept(15, t, magic, plan, p, code, k);
    FixupsOf(plan.items, 15, 0);
    PoolLoadsAll(decode, encode, before, code, p.extra, pool);
    CodePlaced(Loading(decode, code, pool), Start(t, magic), plan.items, p, before, code);
  }

  // ---------- literals out of reach ----------

  /** Every literal is in reach of its load. */
  ghost predicate AllInReach(fixups: seq<Fixup>, pool: nat) {
    forall i | 0 <= i < |fixups| :: InReach(fixups[i].at, pool + 4 * i)
  }

  /** Once the scan has succeeded, the relocator fails exactly when a literal is out of reach, and then says so. */
  lemma RelocatedExact(decode: Word -> Insn, encode: LoadEncoder, visit: Visitor, t: seq<Byte>, magic: nat, plan: Plan,
                       pool: nat)
    requires LiteralLoads(decode, encode) && Advances(visit, |t|) && magic <= |t| && Scan(visit, |t|, 0) == Ok(plan)
    requires Sound(plan, |t|, 15) && pool == |BeforePool(4, EmitAll(Start(t, magic), plan.items))|
    ensures Relocated(visit, 4, encode, t, magic).Ok? <==> AllInReach(Fixups(plan.items, 0), pool)
    ensures Relocated(visit, 4, encode, t, magic).Err? ==> Relocated(visit, 4, encode, t, magic) == Err(EncodingError)
  {
    var start, fixups := Start(t, magic), Fixups(plan.items, 0);
    var p := EmitAll(start, plan.items);
    EmitAllInBounds(start, plan.items);
    EmitAllSizes(start, plan.items, 0);
    assert p.extra == fixups;
    BackpatchExact(4, encode, BeforePool(4, p), fixups);
    FixupsOf(plan.items, 15, 0);
    AllEncode(decode, encode, fixups, pool);
  }

  lemma AllEncode(decode: Word -> Insn, encode: LoadEncoder, fixups: seq<Fixup>, pool: nat)
    requires LiteralLoads(decode, encode) && forall f | f in fixups :: f.at % 4 == 0 && f.reg < 15
    ensures AllInReach(fixups, pool) <==> forall i | 0 <= i < |fixups| :: LoadEncodes(4, encode, fixups[i], pool, i)
  {
    forall i | 0 <= i < |fixups|
      ensures InReach(fixups[i].at, pool + 4 * i) <==> LoadEncodes(4, encode, fixups[i], pool, i)
    {
      var f, here := fixups[i], pool + 4 * i;
      assert LoadsLiteral(decode, encode(f.reg, f.at, here), f.reg, f.at, here);
    }
  }
}
