/** Running the A32 prologue the relocator makes. */
module A32Simulation {
  import opened Bytes
  import opened Runs
  import opened ArmReloc
  import opened ArmLayout
  import opened ArmShape
  import opened A32Machine

  // ---------- what an item means ----------

  /** `item` describes the instruction `insn` at address `a` of a template mapped at `pc`. */
  predicate Describes(decode: Word -> Insn, item: Item, insn: Insn, a: Word, pc: Word) {
    match item
    case Kept(_) => insn.Other? || (insn.LoadImmediate? && insn.rn < 15)
    case Followed(_, to) => insn.Jump? && BranchTarget(a, insn.offset) == pc + to
    case Load(_, reg, target, word) =>
      && insn.LoadImmediate? && insn.rt == reg < 15 && insn.rn == 15 && FromPc(a, insn.offset) == target
      && decode(word) == LoadImmediate(insn.kind, reg, reg, 0)
    case AddressOf(_, reg, target) => insn.Address? && insn.rd == reg < 15 && FromPc(a, insn.offset) == target
  }

  /** The instruction does the same at every address. */
  ghost predicate Movable<E(!new)>(m: Machine<E>, w: Word) {
    forall p: Word, q: Word, cpu: Cpu<E> :: m.exec(w, p, cpu) == m.exec(w, q, cpu)
  }

  /** The scan visited `item` in template `t` at `pc`, and understood it. */
  ghost predicate Understood<E(!new)>(m: Machine<E>, t: seq<Byte>, pc: Word, item: Item) {
    && item.at + 4 <= |t| && item.at < item.Next() <= |t| && pc + |t| < 0x1_0000_0000 && item.at % 4 == 0
    && Describes(m.decode, item, m.decode(WordAt(t, item.at)), pc + item.at, pc)
    && (item.Kept? && m.decode(WordAt(t, item.at)).Other? ==> Movable(m, WordAt(t, item.at)))
  }

  /** At offset `p`, `code` loads the literal `target`, found at offset `q` in the pool, into `reg`. */
  predicate LoadsFrom(decode: Word -> Insn, code: seq<Byte>, p: nat, reg: nat, target: Address, pool: nat, q: nat) {
    && p % 4 == 0 && p + 4 <= q && pool <= q && q + 4 <= |code| && code[q..q + 4] == Le(target, 4)
    && decode(WordAt(code, p)) == LoadImmediate(LdrWord, reg, 15, q - p - 8)
  }

  ghost predicate LoadsTarget(decode: Word -> Insn, code: seq<Byte>, p: nat, reg: nat, target: Address, pool: nat) {
    exists q :: LoadsFrom(decode, code, p, reg, target, pool, q)
  }

  /** The placeholders that load their targets from the pool. */
  ghost function Loading(decode: Word -> Insn, code: seq<Byte>, pool: nat): Fixup -> bool {
    (f: Fixup) => LoadsTarget(decode, code, f.at, f.reg, f.target, pool)
  }

  // ---------- one instruction ----------

  function Continue<E>(next: Word, r: Option<Cpu<E>>): Option<State<E>> {
    match r
    case None => None
    case Some(cpu) => Some(State(next, cpu))
  }

  /** What an item does to the machine, wherever it stands. */
  function Effect<E(!new)>(m: Machine<E>, item: Item, insn: Insn, w: Word, a: Word, cpu: Cpu<E>): Option<Cpu<E>>
    requires item.Rewritten() ==> item.target < 0x1_0000_0000
  {
    match item
    case Kept(_) =>
      if insn.LoadImmediate? && insn.rn < 15 then m.Load(insn.kind, insn.rt, Wrap32(cpu.r[insn.rn] + insn.offset), cpu)
      else m.exec(w, a, cpu)
    case Followed(_, _) => Some(cpu)
    case Load(_, reg, target, _) => if insn.LoadImmediate? then m.Load(insn.kind, reg, target, cpu) else None
    case AddressOf(_, reg, target) => Some(cpu.Set(reg, target))
  }

  lemma StepAt<E(!new)>(m: Machine<E>, base: Word, code: seq<Byte>, p: nat, cpu: Cpu<E>)
    requires m.Holds(base, code) && p + 4 <= |code|
    ensures m.Step(State(base + p, cpu)) == m.Execute(m.decode(WordAt(code, p)), WordAt(code, p), State(base + p, cpu))
    ensures Wrap32(base + p + 4) == base + p + 4
  {
    var a, w := base + p, WordAt(code, p);
    FetchHolds(m, base, code, p);
    StepFetched(m, State(a, cpu), w);
    NoWrap(a + 4);
  }

  lemma NoWrap(a: nat)
    requires a < 0x1_0000_0000
    ensures Wrap32(a) == a
  {
  }

  lemma StepFetched<E(!new)>(m: Machine<E>, s: State<E>, w: Word)
    requires m.Fetch(s.pc) == Some(w)
    ensures m.Step(s) == m.Execute(m.decode(w), w, s)
  {
  }

  /** An instruction has the effect of the item that describes it. */
  lemma ExecuteEffect<E(!new)>(m: Machine<E>, item: Item, insn: Insn, w: Word, a: Word, pc: Word, next: Word,
                               cpu: Cpu<E>)
    requires Describes(m.decode, item, insn, a, pc) && next == if item.Followed? then pc + item.to else Wrap32(a + 4)
    ensures item.Rewritten() ==> item.target < 0x1_0000_0000
    ensures m.Execute(insn, w, State(a, cpu)) == Continue(next, Effect(m, item, insn, w, a, cpu))
  {
  }

  /** The original's step for an item. */
  lemma OldStep<E(!new)>(m: Machine<E>, t: seq<Byte>, pc: Word, item: Item, w: Word, a: Word, next: Word, cpu: Cpu<E>)
    requires m.Holds(pc, t) && Understood(m, t, pc, item)
    requires w == WordAt(t, item.at) && a == pc + item.at && next == pc + item.Next()
    ensures item.Rewritten() ==> item.target < 0x1_0000_0000
    ensures m.Step(State(a, cpu)) == Continue(next, Effect(m, item, m.decode(w), w, a, cpu))
  {
    StepAt(m, pc, t, item.at, cpu);
    ExecuteEffect(m, item, m.decode(w), w, a, pc, next, cpu);
  }

  /** The offset of a literal from an aligned instruction leads to the literal. */
  lemma LiteralAddress(base: Word, p: nat, q: nat)
    requires base % 4 == 0 && p % 4 == 0 && p + 4 <= q && base + q + 4 < 0x1_0000_0000
    ensures FromPc(base + p, q - p - 8) == base + q
  {
    assert ReadPc(base + p) == base + p + 8;
  }

  /** What a literal load at offset `p` reads from offset `q`. */
  lemma LiteralRead<E(!new)>(m: Machine<E>, base: Word, code: seq<Byte>, p: nat, q: nat, target: Address, rest: E)
    requires m.Holds(base, code) && p % 4 == 0 && p + 4 <= q && q + 4 <= |code| && base % 4 == 0
    requires target < 0x1_0000_0000 && code[q..q + 4] == Le(target, 4)
    ensures FromPc(base + p, q - p - 8) == base + q
    ensures m.Read4(rest, base + q) == Some(target)
  {
    LiteralAddress(base, p, q);
    ReadHolds(m, base, code, q, rest);
    LiteralValue(target);
  }

  lemma LiteralValue(target: Address)
    requires target < 0x1_0000_0000
    ensures FromLe4(Le(target, 4)) == target
  {
    Le4RoundTrip(target);
  }

  /** The effect of a literal load of `target` at offset `p` of the new code. */
  lemma LiteralStep<E(!new)>(m: Machine<E>, base: Word, code: seq<Byte>, p: nat, reg: nat, target: Word, pool: nat,
                              a: Word, next: Word, cpu: Cpu<E>)
    requires m.Holds(base, code) && LoadsTarget(m.decode, code, p, reg, target, pool) && a == base + p && next == a + 4
    ensures m.Step(State(a, cpu)) == Some(State(next, cpu.Set(reg, target)))
  {
    var q: nat :| LoadsFrom(m.decode, code, p, reg, target, pool, q);
    var offset, at := q - p - 8, base + q;
    StepAt(m, base, code, p, cpu);
    LiteralRead(m, base, code, p, q, target, cpu.rest);
    ExecuteLiteral(m, reg, offset, WordAt(code, p), a, at, target, next, cpu);
  }

  lemma ExecuteLiteral<E(!new)>(m: Machine<E>, reg: nat, offset: int, w: Word, a: Word, at: Word, target: Word,
                                next: Word, cpu: Cpu<E>)
    requires next == Wrap32(a + 4) && FromPc(a, offset) == at && m.Read4(cpu.rest, at) == Some(target)
    ensures m.Execute(LoadImmediate(LdrWord, reg, 15, offset), w, State(a, cpu))
         == Some(State(next, cpu.Set(reg, target)))
  {
  }

  /** A load does not see what its own target registers held. */
  lemma LoadThrough<E(!new)>(m: Machine<E>, kind: LoadKind, reg: nat, a: Word, cpu: Cpu<E>, x: Word)
    ensures m.Load(kind, reg, a, cpu.Set(reg, x)) == m.Load(kind, reg, a, cpu)
  {
    assert forall v: Word :: cpu.Set(reg, x).Set(reg, v) == cpu.Set(reg, v);
  }

  // ---------- each kind of instruction ----------

  /** How many steps of the new code match one step of the template. */
  function Steps(item: Item): nat { if item.Load? then 2 else 1 }

  /** From state `cpu`, one step at `a` leads to `next`, and `n` steps at `a'` to `next'`, with the same outcome. */
  ghost predicate SameFrom<E>(step: State<E> -> Option<State<E>>, a: Word, next: Word, n: nat, a': Word, next': Word,
                              cpu: Cpu<E>) {
    match step(State(a, cpu))
    case None => Run(step, n, State(a', cpu)).None?
    case Some(o) => o.pc == next && Run(step, n, State(a', cpu)) == Some(State(next', o.cpu))
  }

  ghost predicate DoesSame<E(!new)>(step: State<E> -> Option<State<E>>, a: Word, next: Word, n: nat, a': Word,
                                    next': Word) {
    forall cpu: Cpu<E> :: SameFrom(step, a, next, n, a', next', cpu)
  }

  lemma OneStepSame<E>(step: State<E> -> Option<State<E>>, a: Word, next: Word, a': Word, next': Word, cpu: Cpu<E>,
                       r: Option<Cpu<E>>)
    requires step(State(a, cpu)) == Continue(next, r) && step(State(a', cpu)) == Continue(next', r)
    ensures SameFrom(step, a, next, 1, a', next', cpu)
  {
    RunOne(step, State(a', cpu));
  }

  lemma TwoStepsSame<E>(step: State<E> -> Option<State<E>>, a: Word, next: Word, a': Word, next': Word, cpu: Cpu<E>,
                        r: Option<Cpu<E>>, between: State<E>)
    requires step(State(a, cpu)) == Continue(next, r)
    requires step(State(a', cpu)) == Some(between) && step(between) == Continue(next', r)
    ensures SameFrom(step, a, next, 2, a', next', cpu)
  {
    RunTwo(step, State(a', cpu), between);
  }

  /** An instruction that is kept, in its new place. */
  lemma NewKept<E(!new)>(m: Machine<E>, base: Word, code: seq<Byte>, p: nat, item: Item, w: Word, pc: Word, a: Word,
                         a': Word, next': Word, cpu: Cpu<E>)
    requires m.Holds(base, code) && p + 4 <= |code| && WordAt(code, p) == w && item.Kept?
    requires Describes(m.decode, item, m.decode(w), a, pc) && (m.decode(w).Other? ==> Movable(m, w))
    requires a' == base + p && next' == a' + 4
    ensures m.Step(State(a', cpu)) == Continue(next', Effect(m, item, m.decode(w), w, a, cpu))
  {
    StepAt(m, base, code, p, cpu);
    ExecuteEffect(m, item, m.decode(w), w, a', pc, next', cpu);
    if m.decode(w).Other? {
      assert m.exec(w, a, cpu) == m.exec(w, a', cpu);
    }
  }

  lemma KeptSame<E(!new)>(m: Machine<E>, t: seq<Byte>, pc: Word, code: seq<Byte>, base: Word, item: Item, delta: nat,
                          pool: nat, a: Word, next: Word, a': Word, next': Word, cpu: Cpu<E>)
    requires m.Holds(pc, t) && m.Holds(base, code) && Understood(m, t, pc, item) && item.Kept?
    requires Placed(Loading(m.decode, code, pool), code, t, item, delta)
    requires a == pc + item.at && next == a + 4 && a' == base + item.at + delta && next' == a' + 4
    ensures SameFrom(m.Step, a, next, 1, a', next', cpu)
  {
    var w := WordAt(t, item.at);
    OldStep(m, t, pc, item, w, a, next, cpu);
    NewKept(m, base, code, item.at + delta, item, w, pc, a, a', next', cpu);
    OneStepSame(m.Step, a, next, a', next', cpu, Effect(m, item, m.decode(w), w, a, cpu));
  }

  /** A branch whose source and target move by the same amount still leads from one to the other. */
  lemma SameJump(pc: Word, base: Word, at: nat, to: nat, offset: int, delta: nat)
    requires pc + at < 0x1_0000_0000 && BranchTarget(pc + at, offset) == pc + to
    requires base + at + delta < 0x1_0000_0000 && base + to + delta < 0x1_0000_0000
    ensures BranchTarget(base + at + delta, offset) == base + to + delta
  {
    JumpWraps(pc + at, offset);
    JumpWraps(base + at + delta, offset);
    var k := (pc + at + 8 + offset) / 0x1_0000_0000;
    assert base + at + delta + 8 + offset == base + to + delta + 0x1_0000_0000 * k;
  }

  lemma JumpWraps(a: Word, offset: int)
    ensures BranchTarget(a, offset) == Wrap32(a + 8 + offset)
  {
    assert ReadPc(a) == a + 8 || ReadPc(a) == a + 8 - 0x1_0000_0000;
  }

  lemma NewFollowed<E(!new)>(m: Machine<E>, base: Word, code: seq<Byte>, p: nat, w: Word, a': Word, next': Word,
                             cpu: Cpu<E>)
    requires m.Holds(base, code) && p + 4 <= |code| && WordAt(code, p) == w && a' == base + p
    requires m.decode(w).Jump? && BranchTarget(a', m.decode(w).offset) == next'
    ensures m.Step(State(a', cpu)) == Some(State(next', cpu))
  {
    StepAt(m, base, code, p, cpu);
  }

  lemma FollowedSame<E(!new)>(m: Machine<E>, t: seq<Byte>, pc: Word, code: seq<Byte>, base: Word, item: Item,
                              delta: nat, pool: nat, a: Word, next: Word, a': Word, next': Word, cpu: Cpu<E>)
    requires m.Holds(pc, t) && m.Holds(base, code) && Understood(m, t, pc, item) && item.Followed?
    requires Placed(Loading(m.decode, code, pool), code, t, item, delta) && item.to + delta <= |code|
    requires a == pc + item.at && next == pc + item.to && a' == base + item.at + delta
    requires next' == base + item.to + delta
    ensures SameFrom(m.Step, a, next, 1, a', next', cpu)
  {
    var w := WordAt(t, item.at);
    OldStep(m, t, pc, item, w, a, next, cpu);
    SameJump(pc, base, item.at, item.to, m.decode(w).offset, delta);
    NewFollowed(m, base, code, item.at + delta, w, a', next', cpu);
    OneStepSame(m.Step, a, next, a', next', cpu, Some(cpu));
  }

  lemma AddressSame<E(!new)>(m: Machine<E>, t: seq<Byte>, pc: Word, code: seq<Byte>, base: Word, item: Item,
                             delta: nat, pool: nat, a: Word, next: Word, a': Word, next': Word, cpu: Cpu<E>)
    requires m.Holds(pc, t) && m.Holds(base, code) && Understood(m, t, pc, item) && item.AddressOf?
    requires Placed(Loading(m.decode, code, pool), code, t, item, delta)
    requires a == pc + item.at && next == a + 4 && a' == base + item.at + delta && next' == a' + 4
    ensures SameFrom(m.Step, a, next, 1, a', next', cpu)
  {
    OldStep(m, t, pc, item, WordAt(t, item.at), a, next, cpu);
    LiteralStep(m, base, code, item.at + delta, item.reg, item.target, pool, a', next', cpu);
    OneStepSame(m.Step, a, next, a', next', cpu, Some(cpu.Set(item.reg, item.target)));
  }

  lemma ExecuteThrough<E(!new)>(m: Machine<E>, kind: LoadKind, reg: nat, target: Word, w: Word, pc: Word, next: Word,
                                cpu: Cpu<E>)
    requires reg < 15 && next == Wrap32(pc + 4)
    ensures m.Execute(LoadImmediate(kind, reg, reg, 0), w, State(pc, cpu.Set(reg, target)))
         == Continue(next, m.Load(kind, reg, target, cpu.Set(reg, target)))
  {
    assert Wrap32(cpu.Set(reg, target).r[reg] + 0) == target;
  }

  /** The second half of a rewritten load: through the register that now holds the address. */
  lemma ThroughStep<E(!new)>(m: Machine<E>, base: Word, code: seq<Byte>, p: nat, kind: LoadKind, reg: nat, target: Word,
                             a: Word, next: Word, cpu: Cpu<E>)
    requires m.Holds(base, code) && p + 4 <= |code| && reg < 15 && a == base + p && next == a + 4
    requires m.decode(WordAt(code, p)) == LoadImmediate(kind, reg, reg, 0)
    ensures m.Step(State(a, cpu.Set(reg, target))) == Continue(next, m.Load(kind, reg, target, cpu))
  {
    var w, loaded := WordAt(code, p), cpu.Set(reg, target);
    StepAt(m, base, code, p, loaded);
    ExecuteThrough(m, kind, reg, target, w, a, next, cpu);
    LoadThrough(m, kind, reg, target, cpu, target);
  }

  lemma LoadSame<E(!new)>(m: Machine<E>, t: seq<Byte>, pc: Word, code: seq<Byte>, base: Word, item: Item, delta: nat,
                          pool: nat, a: Word, next: Word, a': Word, mid: Word, next': Word, cpu: Cpu<E>)
    requires m.Holds(pc, t) && m.Holds(base, code) && Understood(m, t, pc, item) && item.Load?
    requires Placed(Loading(m.decode, code, pool), code, t, item, delta)
    requires a == pc + item.at && next == a + 4 && a' == base + item.at + delta && mid == a' + 4 && next' == a' + 8
    ensures SameFrom(m.Step, a, next, 2, a', next', cpu)
  {
    var w, p := WordAt(t, item.at), item.at + delta;
    var kind := m.decode(w).kind;
    OldStep(m, t, pc, item, w, a, next, cpu);
    LiteralStep(m, base, code, p, item.reg, item.target, pool, a', mid, cpu);
    ThroughWord(code, t, item, delta);
    ThroughStep(m, base, code, p + 4, kind, item.reg, item.target, mid, next', cpu);
    TwoStepsSame(m.Step, a, next, a', next', cpu, m.Load(kind, item.reg, item.target, cpu),
                 State(mid, cpu.Set(item.reg, item.target)));
  }

  lemma ItemSame<E(!new)>(m: Machine<E>, t: seq<Byte>, pc: Word, code: seq<Byte>, base: Word, item: Item, delta: nat,
                          pool: nat, a: Word, next: Word, a': Word, next': Word)
    requires m.Holds(pc, t) && m.Holds(base, code) && Understood(m, t, pc, item)
    requires Placed(Loading(m.decode, code, pool), code, t, item, delta) && item.Next() + After(item, delta) <= |code|
    requires a == pc + item.at && next == pc + item.Next()
    requires a' == base + item.at + delta && next' == base + item.Next() + After(item, delta)
    ensures DoesSame(m.Step, a, next, Steps(item), a', next')
  {
    var n := Steps(item);
    forall cpu: Cpu<E>
      ensures SameFrom(m.Step, a, next, n, a', next', cpu)
    {
      match item
      case Kept(_) => KeptSame(m, t, pc, code, base, item, delta, pool, a, next, a', next', cpu);
      case Followed(_, _) => FollowedSame(m, t, pc, code, base, item, delta, pool, a, next, a', next', cpu);
      case AddressOf(_, _, _) => AddressSame(m, t, pc, code, base, item, delta, pool, a, next, a', next', cpu);
      case Load(_, _, _, _) => LoadSame(m, t, pc, code, base, item, delta, pool, a, next, a', a' + 4, next', cpu);
    }
  }
}
