/** The main results about the AArch64 relocator. */
module A64Correct {
  import opened Bytes
  import opened Runs
  import opened SafeJit
  import opened EncodingA64
  import opened A64Machine
  import opened ArmReloc
  import opened A64Reloc
  import opened ArmLayout
  import opened ArmShape
  import opened A64Decode
  import opened A64Simulation

  // ---------- the pool ----------

  /** The encoder's loads reach every literal at an aligned distance below 1 MiB. */
  ghost predicate Reaches(decode: Word -> Insn, encode: LoadEncoder) {
    forall reg: nat, at: nat, here: nat | reg < 32 && at <= here && (here - at) % 4 == 0 && here - at < 0x10_0000 ::
      ReachesAt(decode, encode, reg, at, here)
  }

  predicate ReachesAt(decode: Word -> Insn, encode: LoadEncoder, reg: nat, at: nat, here: nat) {
    encode(reg, at, here).Some? && decode(encode(reg, at, here).value) == LoadLiteral(Word64, reg, here - at)
  }

  /** `load` makes a literal load of the given distance. */
  predicate LoadsAt(decode: Word -> Insn, load: (nat, nat) -> Option<LdrImm>, reg: nat, d: nat) {
    load(reg, d).Some? && decode(load(reg, d).value.raw) == LoadLiteral(Word64, reg, d)
  }

  lemma PoolEncoderReaches<E>(m: Machine<E>)
    requires m.IsA64()
    ensures Reaches(m.decode, PoolEncoder())
  {
    var load := (reg: nat, distance: nat) => PoolLoad(reg, distance);
    forall reg: nat, d: nat | reg < 32 && d % 4 == 0 && d < 0x10_0000
      ensures LoadsAt(m.decode, load, reg, d)
    {
      PoolLoadReaches(reg, d);
      assert m.decode(PoolLoad(reg, d).value.raw) == Decode(PoolLoad(reg, d).value.raw);
    }
    EncoderReaches(m.decode, load);
  }

  lemma EncoderReaches(decode: Word -> Insn, load: (nat, nat) -> Option<LdrImm>)
    requires forall reg: nat, d: nat | reg < 32 && d % 4 == 0 && d < 0x10_0000 :: LoadsAt(decode, load, reg, d)
    ensures Reaches(decode, EncoderOf(load))
  {
    forall reg: nat, at: nat, here: nat | reg < 32 && at <= here && (here - at) % 4 == 0 && here - at < 0x10_0000
      ensures ReachesAt(decode, EncoderOf(load), reg, at, here)
    {
      assert LoadsAt(decode, load, reg, here - at);
    }
  }

  /** Every placeholder of a filled pool loads its target, when its literal is within reach. */
  lemma PoolLoads(decode: Word -> Insn, encode: LoadEncoder, before: seq<Byte>, code: seq<Byte>, fixups: seq<Fixup>,
                  i: nat)
    requires Reaches(decode, encode) && i < |fixups| && PoolFilled(8, encode, before, code, fixups)
    requires fixups[i].reg < 32 && |code| <= 0x10_0000 && |before| % 4 == 0 && fixups[i].at % 4 == 0
    ensures LoadsTarget(decode, code, fixups[i].at, fixups[i].reg, fixups[i].target, |before|)
  {
    var f, q := fixups[i], |before| + 8 * i;
    assert SlotFilled(8, encode, code, fixups, |before|, i) && LiteralLoaded(8, encode, code, f, |before|, q);
    PoolDistances(|before|, i, f.at, q);
    assert ReachesAt(decode, encode, f.reg, f.at, q);
    WordIsLoad(decode, encode, code, f, |before|, q);
    assert LoadsFrom(decode, code, f.at, f.reg, f.target, |before|, q);
  }

  lemma PoolDistances(pool: nat, i: nat, at: nat, q: nat)
    requires pool % 4 == 0 && at % 4 == 0 && q == pool + 8 * i && at <= q
    ensures (q - at) % 4 == 0
  {
  }

  lemma WordIsLoad(decode: Word -> Insn, encode: LoadEncoder, code: seq<Byte>, f: Fixup, pool: nat, q: nat)
    requires LiteralLoaded(8, encode, code, f, pool, q) && ReachesAt(decode, encode, f.reg, f.at, q)
    ensures decode(WordAt(code, f.at)) == LoadLiteral(Word64, f.reg, q - f.at)
  {
    Le4RoundTrip(encode(f.reg, f.at, q).value);
  }

  lemma PadExact(d: nat)
    ensures (d + (if d % 8 == 0 then 0 else 4)) % 8 == 0 <==> d % 4 == 0
  {
  }

  /** The literals are aligned to eight bytes relative to the magic exactly when the template leaves the magic a
      multiple of four bytes. */
  lemma PoolAlignment(t: seq<Byte>, magic: nat, items: seq<Item>)
    requires Path(items, 0, |t|) && magic <= |t|
    ensures var p := EmitAll(Start(t, magic), items);
            (|BeforePool(8, p)| - p.newMagic) % 8 == 0 <==> (|t| - magic) % 4 == 0
  {
    var start := Start(t, magic);
    var p := EmitAll(start, items);
    EmitAllSizes(start, items, 0);
    PoolDistance(p, |t| - magic, 4 * Loads(items));
    PadExact(|t| - magic);
  }

  lemma PoolDistance(p: Progress, d: nat, delta: nat)
    requires Ready(p, delta) && |p.buf.orig| + delta - p.newMagic == d
    ensures |BeforePool(8, p)| - p.newMagic == d + if d % 8 == 0 then 0 else 4
  {
    BeforePoolSize(8, p, delta);
  }

  // ---------- the prologue ----------

  /** The scan visited `item` in template `t` at `pc`, and understood it. */
  ghost predicate Understood<E(!new)>(m: Machine<E>, t: seq<Byte>, pc: Address, item: Item) {
    && item.at + 4 <= |t| && item.at < item.Next() <= |t| && pc + |t| < 0x1_0000_0000_0000_0000
    && (item.Rewritten() ==> item.reg < 32)
    && Describes(m.decode, item, m.decode(WordAt(t, item.at)), pc + item.at, pc)
    && Supported(m, WordAt(t, item.at), item, pc + item.at)
  }

  lemma {:induction false} MatchItems<E(!new)>(m: Machine<E>, t: seq<Byte>, pc: Address, code: seq<Byte>, base: Address,
                                               items: seq<Item>, delta: nat, o: nat, asmAt: nat, pool: nat)
    requires m.Holds(pc, t) && m.Holds(base, code) && AllPlaced(Loading(m.decode, code, pool), code, t, items, delta)
    requires forall i | 0 <= i < |items| :: Understood(m, t, pc, items[i])
    requires Chain(items, o, asmAt) && asmAt <= |t| && asmAt + delta + 4 * Loads(items) <= |code|
    ensures AllMatched(m.Step, pc, base, items, delta, o, asmAt)
    decreases items
  {
    if items == [] {
    } else {
      var item, rest := items[0], items[1..];
      ChainBound(rest, item.Next(), asmAt);
      assert Understood(m, t, pc, item);
      forall i | 0 <= i < |rest|
        ensures Understood(m, t, pc, rest[i])
      {
        assert Understood(m, t, pc, items[i + 1]);
      }
      MatchItems(m, t, pc, code, base, rest, After(item, delta), item.Next(), asmAt, pool);
      forall cpu: Cpu<E>
        ensures MatchedIn(m.Step, pc, base, item, delta, cpu)
      {
        ItemMatches(m, t, pc, code, base, item, delta, pool, cpu);
      }
    }
  }

  /** The scan understands every instruction it visits, apart from the cases `Supported` excludes. */
  lemma VisitUnderstood<E(!new)>(m: Machine<E>, cs: Disassembler, recognise: Recogniser, t: seq<Byte>, pc: Address,
                                 magic: nat, o: nat)
    requires Recognises(m, recognise) && Template(t, pc, magic) && o <= |t|
    requires o + 4 <= |t| ==> BranchReported(m.decode, cs, WordAt(t, o))
    ensures match VisitAt(cs, recognise, t, pc, magic, o)
            case Visited(item) =>
              && item.at == o && o + 4 <= |t| && (item.Rewritten() ==> item.reg < 32)
              && (Supported(m, WordAt(t, o), item, pc + o) ==> Understood(m, t, pc, item))
            case Reached =>
              && o + 4 <= |t| && m.decode(WordAt(t, o)).LoadLiteral?
              && WrappingAdd(pc + o, m.decode(WordAt(t, o)).offset) == pc + magic
            case Failed(_) => true
  {
    if o + 4 <= |t| && cs(WordAt(t, o)).Some? {
      var w := WordAt(t, o);
      if IsBranchGroup(cs(w).value) {
        BranchRefused(cs(w).value);
      }
      WordUnderstood(m, t, recognise(w, pc + o), HasUnsupportedInsnGroup(cs(w).value), pc, magic, o);
    }
  }

  lemma WordUnderstood<E(!new)>(m: Machine<E>, t: seq<Byte>, d: Decoded, unsupported: bool, pc: Address, magic: nat,
                                o: nat)
    requires Template(t, pc, magic) && o + 4 <= |t|
    requires AgreesOn(m.decode, d, m.decode(WordAt(t, o)), pc + o)
    requires Leaves(m.decode(WordAt(t, o))) ==> unsupported
    ensures match Decide(d, unsupported, pc, |t|, magic, o)
            case Visited(item) =>
              && (item.Rewritten() ==> item.reg < 32)
              && (Supported(m, WordAt(t, o), item, pc + o) ==> Understood(m, t, pc, item))
            case Reached => m.decode(WordAt(t, o)).LoadLiteral?
                            && WrappingAdd(pc + o, m.decode(WordAt(t, o)).offset) == pc + magic
            case Failed(_) => true
  {
    DecideDescribes(m.decode, d, m.decode(WordAt(t, o)), unsupported, pc, |t|, magic, o);
  }

  /** The scan visited `item` in template `t` at `pc`. */
  predicate VisitedAs(cs: Disassembler, recognise: Recogniser, t: seq<Byte>, pc: Address, magic: nat, item: Item)
    requires Template(t, pc, magic)
  {
    item.at + 4 <= |t| && VisitAt(cs, recognise, t, pc, magic, item.at) == Visited(item)
  }

  /** An instruction that is kept is in none of the groups numbered below eight. */
  lemma KeptGroups(cs: Disassembler, recognise: Recogniser, t: seq<Byte>, pc: Address, magic: nat, item: Item)
    requires Template(t, pc, magic) && VisitedAs(cs, recognise, t, pc, magic, item) && item.Kept?
    ensures cs(WordAt(t, item.at)).Some? && forall g | g in cs(WordAt(t, item.at)).value :: g >= 8
  {
    UnsupportedExact(cs(WordAt(t, item.at)).value);
  }

  lemma VisitAligned<E>(m: Machine<E>, cs: Disassembler, recognise: Recogniser, t: seq<Byte>, pc: Address, magic: nat,
                        item: Item)
    requires Recognises(m, recognise) && Template(t, pc, magic) && VisitedAs(cs, recognise, t, pc, magic, item)
    ensures StaysAligned(item)
  {
    if item.at % 4 == 0 {
      var w := WordAt(t, item.at);
      DecideAligned(m.decode, recognise(w, pc + item.at), m.decode(w),
                    HasUnsupportedInsnGroup(cs(w).value), pc, |t|, magic, item.at);
    }
  }

  lemma ItemUnderstood<E(!new)>(m: Machine<E>, cs: Disassembler, recognise: Recogniser, t: seq<Byte>, pc: Address,
                                magic: nat, item: Item)
    requires Recognises(m, recognise) && Template(t, pc, magic) && VisitedAs(cs, recognise, t, pc, magic, item)
    requires BranchReported(m.decode, cs, WordAt(t, item.at))
    requires Supported(m, WordAt(t, item.at), item, pc + item.at)
    ensures Understood(m, t, pc, item)
  {
    VisitUnderstood(m, cs, recognise, t, pc, magic, item.at);
  }

  /** Every item of the plan has been visited. */
  lemma PlanVisited(cs: Disassembler, recognise: Recogniser, visit: Visitor, t: seq<Byte>, pc: Address, magic: nat,
                    plan: Plan)
    requires Template(t, pc, magic) && visit == VisitorOf(cs, recognise, t, pc, magic)
    requires Scan(visit, |t|, 0) == Ok(plan)
    ensures Path(plan.items, 0, |t|) && Chain(plan.items, 0, plan.asmAt) && plan.asmAt <= |t|
    ensures forall i | 0 <= i < |plan.items| :: VisitedAs(cs, recognise, t, pc, magic, plan.items[i])
  {
    ScanVisits(visit, |t|, 0);
    forall i | 0 <= i < |plan.items|
      ensures VisitedAs(cs, recognise, t, pc, magic, plan.items[i])
    {
      PathItem(plan.items, 0, |t|, i);
      assert visit(plan.items[i].at) == Visited(plan.items[i]);
    }
  }

  lemma PlanAligned<E>(m: Machine<E>, cs: Disassembler, recognise: Recogniser, t: seq<Byte>, pc: Address, magic: nat,
                       plan: Plan)
    requires Recognises(m, recognise) && Template(t, pc, magic) && Chain(plan.items, 0, plan.asmAt)
    requires forall i | 0 <= i < |plan.items| :: VisitedAs(cs, recognise, t, pc, magic, plan.items[i])
    ensures forall i | 0 <= i < |plan.items| :: plan.items[i].at % 4 == 0
  {
    forall i | 0 <= i < |plan.items|
      ensures StaysAligned(plan.items[i])
    {
      VisitAligned(m, cs, recognise, t, pc, magic, plan.items[i]);
    }
    ChainAligned(plan.items, 0, plan.asmAt);
  }

  lemma ItemsUnderstood<E(!new)>(m: Machine<E>, cs: Disassembler, recognise: Recogniser, t: seq<Byte>, pc: Address,
                                 magic: nat, items: seq<Item>)
    requires Recognises(m, recognise) && Template(t, pc, magic)
    requires forall i | 0 <= i < |items| :: VisitedAs(cs, recognise, t, pc, magic, items[i])
    requires ReportsBranches(m.decode, cs, t, items) && AllSupported(m, t, pc, items)
    ensures forall i | 0 <= i < |items| :: Understood(m, t, pc, items[i])
  {
    forall i | 0 <= i < |items|
      ensures Understood(m, t, pc, items[i])
    {
      ItemUnderstood(m, cs, recognise, t, pc, magic, items[i]);
    }
  }

  /** Every instruction of the plan is understood, where what the relocator does not check holds. */
  lemma PlanUnderstood<E(!new)>(m: Machine<E>, cs: Disassembler, recognise: Recogniser, visit: Visitor, t: seq<Byte>,
                                pc: Address, magic: nat, plan: Plan)
    requires Recognises(m, recognise) && Template(t, pc, magic) && visit == VisitorOf(cs, recognise, t, pc, magic)
    requires Scan(visit, |t|, 0) == Ok(plan)
    requires ReportsBranches(m.decode, cs, t, plan.items) && AllSupported(m, t, pc, plan.items)
    ensures Sound(plan, |t|, 32)
    ensures forall i | 0 <= i < |plan.items| :: Understood(m, t, pc, plan.items[i])
  {
    PlanVisited(cs, recognise, visit, t, pc, magic, plan);
    PlanAligned(m, cs, recognise, t, pc, magic, plan);
    ItemsUnderstood(m, cs, recognise, t, pc, magic, plan.items);
  }

  // ---------- the theorem ----------

  /** The conditions the relocator leaves to its caller, on the instructions of a plan. */
  ghost predicate AllSupported<E(!new)>(m: Machine<E>, t: seq<Byte>, pc: Address, items: seq<Item>)
    requires pc + |t| < 0x1_0000_0000_0000_0000
  {
    forall i | 0 <= i < |items| && items[i].at + 4 <= |t| ::
      Supported(m, WordAt(t, items[i].at), items[i], pc + items[i].at)
  }

  /** Run at `base` for `n` steps, the relocated code has the outcome `plan` has at `pc`, and is at `mid` where the
      original is at the thunk asm block. */
  ghost predicate SimulatesFrom<E>(step: State<E> -> Option<State<E>>, pc: Address, plan: Plan,
                                   base: Address, n: nat, mid: Address, cpu: Cpu<E>)
  {
    var original := Run(step, |plan.items|, State(pc, cpu));
    && (original.Some? ==> original.value.pc == pc + plan.asmAt)
    && Run(step, n, State(base, cpu)) == Moved(original, mid)
  }

  ghost predicate Simulates<E(!new)>(step: State<E> -> Option<State<E>>, pc: Address, plan: Plan,
                                     base: Address, n: nat, mid: Address)
  {
    forall cpu: Cpu<E> :: SimulatesFrom(step, pc, plan, base, n, mid, cpu)
  }

  lemma MatchedSimulates<E(!new)>(step: State<E> -> Option<State<E>>, pc: Address, plan: Plan,
                                  base: Address, n: nat, mid: Address)
    requires Chain(plan.items, 0, plan.asmAt) && pc + plan.asmAt < 0x1_0000_0000_0000_0000
    requires n == |plan.items| + Loads(plan.items) && mid == base + plan.asmAt + 4 * Loads(plan.items)
    requires AllMatched(step, pc, base, plan.items, 0, 0, plan.asmAt)
    ensures Simulates(step, pc, plan, base, n, mid)
  {
    forall cpu: Cpu<E>
      ensures SimulatesFrom(step, pc, plan, base, n, mid, cpu)
    {
      RunsMatch(step, pc, base, plan.items, 0, 0, plan.asmAt, cpu);
    }
  }

  /** The new code is `k` bytes longer than the template before its asm block, is the template from there on, and has
      every instruction where the offset map says, with its literals in the pool. */
  ghost predicate LaidOut(decode: Word -> Insn, t: seq<Byte>, plan: Plan, code: seq<Byte>, k: nat, pool: nat) {
    && k == 4 * Loads(plan.items) && plan.asmAt <= |t| && pool == |t| + k <= |code|
    && code[plan.asmAt + k..pool] == t[plan.asmAt..]
    && AllPlaced(Loading(decode, code, pool), code, t, plan.items, 0)
  }

  lemma PoolLoadsAll(decode: Word -> Insn, encode: LoadEncoder, before: seq<Byte>, code: seq<Byte>,
                     fixups: seq<Fixup>, pool: nat)
    requires Reaches(decode, encode) && PoolFilled(8, encode, before, code, fixups) && pool <= |before|
    requires |code| <= 0x10_0000 && |before| % 4 == 0
    requires forall f | f in fixups :: f.at % 4 == 0 && f.reg < 32
    ensures forall f | f in fixups :: LoadsTarget(decode, code, f.at, f.reg, f.target, pool)
  {
    forall f | f in fixups
      ensures LoadsTarget(decode, code, f.at, f.reg, f.target, pool)
    {
      var i :| 0 <= i < |fixups| && fixups[i] == f;
      PoolLoads(decode, encode, before, code, fixups, i);
      var q :| LoadsFrom(decode, code, f.at, f.reg, f.target, |before|, q);
      assert LoadsFrom(decode, code, f.at, f.reg, f.target, pool, q);
    }
  }

  lemma CodeLaidOut(decode: Word -> Insn, encode: LoadEncoder, t: seq<Byte>, magic: nat, plan: Plan,
                    p: Progress, before: seq<Byte>, code: seq<Byte>, k: nat, pool: nat)
    requires Reaches(decode, encode) && Sound(plan, |t|, 32) && |before| % 4 == 0 && |code| <= 0x10_0000
    requires k == 4 * Loads(plan.items) && pool == |t| + k
    requires p == EmitAll(Start(t, magic), plan.items) && Ready(p, k) && p.extra == Fixups(plan.items, 0)
    requires Contents(p) <= before && PoolFilled(8, encode, before, code, p.extra)
    ensures LaidOut(decode, t, plan, code, k, pool)
  {
    AsmKept(32, t, magic, plan, p, code, k);
    ContentsSize(p, k);
    FixupsOf(plan.items, 32, 0);
    PoolLoadsAll(decode, encode, before, code, p.extra, pool);
    CodePlaced(Loading(decode, code, pool), Start(t, magic), plan.items, p, before, code);
  }

  /** The relocator's result is laid out as the offset map says, and its magic has moved with the code. */
  lemma RelocatedLaidOut(decode: Word -> Insn, encode: LoadEncoder, visit: Visitor, t: seq<Byte>, magic: nat,
                         plan: Plan, k: nat, pool: nat, thunk: RelocThunk)
    requires Advances(visit, |t|) && Reaches(decode, encode) && magic <= |t| && |t| % 4 == 0
    requires Scan(visit, |t|, 0) == Ok(plan) && Sound(plan, |t|, 32) && k == 4 * Loads(plan.items) && pool == |t| + k
    requires Relocated(visit, 8, encode, t, magic) == Ok(thunk) && |thunk.thunk| <= 0x10_0000
    ensures LaidOut(decode, t, plan, thunk.thunk, k, pool) && thunk.magicOffset == magic + k
  {
    var p := EmitAll(Start(t, magic), plan.items);
    EmitAllInBounds(Start(t, magic), plan.items);
    var before := FinishFills(8, encode, t, magic, plan.items);
    ContentsSize(p, k);
    MultipleOfFour(|t|, Loads(plan.items), |before|);
    CodeLaidOut(decode, encode, t, magic, plan, p, before, thunk.thunk, k, pool);
  }

  /** A branch that was followed is copied, and leads from its new place to the new place of its target: a branch whose
      target stayed behind, or had anything inserted before it that the branch had not, would not. */
  lemma BranchFollowed<E(!new)>(m: Machine<E>, t: seq<Byte>, pc: Address, plan: Plan, code: seq<Byte>, base: Address,
                                k: nat, pool: nat, i: nat, cpu: Cpu<E>)
    requires LaidOut(m.decode, t, plan, code, k, pool) && Sound(plan, |t|, 32)
    requires m.Holds(pc, t) && m.Holds(base, code)
    requires i < |plan.items| && plan.items[i].Followed? && Understood(m, t, pc, plan.items[i])
    ensures NewOffset(plan, i) <= NewOffset(plan, i + 1) <= |code|
    ensures m.Step(State(pc + plan.items[i].at, cpu)) == Some(State(pc + plan.items[i].to, cpu))
    ensures m.Step(State(base + NewOffset(plan, i), cpu)) == Some(State(base + NewOffset(plan, i + 1), cpu))
  {
    var delta := ItemPlaced(m.decode, t, plan, code, k, pool, i);
    FollowedSimulates(m, t, pc, code, base, plan.items[i], delta, pool, cpu);
  }

  lemma ItemPlaced(decode: Word -> Insn, t: seq<Byte>, plan: Plan, code: seq<Byte>, k: nat, pool: nat, i: nat)
    returns (delta: nat)
    requires LaidOut(decode, t, plan, code, k, pool) && Chain(plan.items, 0, plan.asmAt) && i < |plan.items|
    ensures Placed(Loading(decode, code, pool), code, t, plan.items[i], delta)
    ensures delta <= After(plan.items[i], delta) <= k
    ensures NewOffset(plan, i) == plan.items[i].at + delta
    ensures NewOffset(plan, i + 1) == plan.items[i].Next() + After(plan.items[i], delta)
  {
    delta := 4 * Loads(plan.items[..i]);
    PlacedAtIndex(Loading(decode, code, pool), code, t, plan.items, 0, i);
    NewOffsets(plan, i, delta);
  }

  /** The relocated prologue, placed anywhere, has the outcome of the original. */
  lemma PlacedSimulates<E(!new)>(m: Machine<E>, t: seq<Byte>, pc: Address, plan: Plan,
                                 code: seq<Byte>, base: Address, k: nat, pool: nat, n: nat, mid: Address)
    requires Chain(plan.items, 0, plan.asmAt) && plan.asmAt <= |t|
    requires k == 4 * Loads(plan.items) && |t| + k <= |code|
    requires n == |plan.items| + Loads(plan.items) && mid == base + plan.asmAt + k
    requires AllPlaced(Loading(m.decode, code, pool), code, t, plan.items, 0)
    requires forall i | 0 <= i < |plan.items| :: Understood(m, t, pc, plan.items[i])
    requires m.Holds(pc, t) && m.Holds(base, code)
    ensures Simulates(m.Step, pc, plan, base, n, mid)
  {
    MatchItems(m, t, pc, code, base, plan.items, 0, 0, plan.asmAt, pool);
    MatchedSimulates(m.Step, pc, plan, base, n, mid);
  }
}
