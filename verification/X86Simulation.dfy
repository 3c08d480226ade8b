/** Running the spliced prologue, and the thunk, on the machine. */
module X86Simulation {
  import opened Bytes
  import opened Runs
  import opened X86Machine
  import opened X86Reloc
  import opened X86Correct
  import opened X86Effects

  // ---------- one item ----------

  function Continue<E>(next: Word, r: Option<Cpu<E>>): Option<State<E>> {
    match r
    case None => None
    case Some(cpu) => Some(State(next, cpu))
  }

  function OldSteps(item: Item): nat { if item.Pair? then 2 else 1 }

  /** The original's steps for an item. */
  ghost predicate OldRuns<E(!new)>(step: State<E> -> Option<State<E>>, m: Machine<E>, job: Job, item: Item)
    requires job.ip + item.At() + item.Len() < 0x1_0000_0000
  {
    forall a: Cpu<E> :: OldRun(step, m, job, item, a)
  }

  ghost predicate OldRun<E(!new)>(step: State<E> -> Option<State<E>>, m: Machine<E>, job: Job, item: Item, a: Cpu<E>)
    requires job.ip + item.At() + item.Len() < 0x1_0000_0000
  {
    Run(step, OldSteps(item), State(job.ip + item.At(), a))
    == Continue(job.ip + item.At() + item.Len(), Effect(m, item, a))
  }

  lemma OldItem<E(!new)>(m: Machine<E>, job: Job, item: Item)
    requires m.decode == job.decode && Local(job.decode) && m.Holds(job.ip, job.t) && Decodes(job, item)
    ensures OldRuns(m.Step, m, job, item)
  {
    forall a: Cpu<E>
      ensures OldRun(m.Step, m, job, item, a)
    {
      match item
      case Kept(at, insn) => OldKeptItem(m, job, item, a);
      case Pair(pair) => OldPairItem(m, job, pair, job.decode(job.t[pair.offset..]).value, a);
    }
  }

  lemma OldKeptItem<E(!new)>(m: Machine<E>, job: Job, item: Item, a: Cpu<E>)
    requires m.decode == job.decode && Local(job.decode) && m.Holds(job.ip, job.t) && Decodes(job, item) && item.Kept?
    ensures OldRun(m.Step, m, job, item, a)
  {
    StepAt(m, job.ip, job.t, item.at, item.insn, a);
    OldKept(m.Step, m, job, item, a);
  }

  lemma OldPairItem<E(!new)>(m: Machine<E>, job: Job, pair: CallPop, call: Insn, a: Cpu<E>)
    requires m.decode == job.decode && Local(job.decode) && m.Holds(job.ip, job.t) && pair.offset + pair.len <= |job.t|
    requires job.decode(job.t[pair.offset..]) == Some(call) && DecodesPair(job, pair, call)
    ensures OldRun(m.Step, m, job, Pair(pair), a)
  {
    var at, next, end := job.ip + pair.offset, job.ip + pair.offset + call.len, job.ip + pair.offset + pair.len;
    var pushed := a.Push(pair.target);
    CallStep(m, job, pair, call, at, next, a, pushed);
    if pushed.Some? {
      PopStep(m, job, pair, call, next, end, pushed.value);
    }
    OldPair(m.Step, m, job, pair, at, next, end, a, pushed);
  }

  lemma OldKept<E(!new)>(step: State<E> -> Option<State<E>>, m: Machine<E>, job: Job, item: Item, a: Cpu<E>)
    requires item.Kept? && job.ip + item.At() + item.Len() < 0x1_0000_0000
    requires step(State(job.ip + item.At(), a)) == Continue(job.ip + item.At() + item.Len(), Effect(m, item, a))
    ensures OldRun(step, m, job, item, a)
  {
    RunOne(step, State(job.ip + item.At(), a));
  }

  lemma OldPair<E(!new)>(step: State<E> -> Option<State<E>>, m: Machine<E>, job: Job, pair: CallPop, at: Word,
                         next: Word, end: Word, a: Cpu<E>, pushed: Option<Cpu<E>>)
    requires at == job.ip + pair.offset && end == at + pair.len && pushed == a.Push(pair.target)
    requires step(State(at, a)) == Continue(next, pushed)
    requires pushed.Some? ==> step(State(next, pushed.value)) == Continue(end, pushed.value.Pop(pair.reg))
    ensures OldRun(step, m, job, Pair(pair), a)
  {
    RunPair(step, State(at, a), Continue(next, pushed), Continue(end, Effect(m, Pair(pair), a)));
  }

  lemma CallStep<E(!new)>(m: Machine<E>, job: Job, pair: CallPop, call: Insn, at: Word, next: Word, a: Cpu<E>,
                          pushed: Option<Cpu<E>>)
    requires m.decode == job.decode && Local(job.decode) && m.Holds(job.ip, job.t) && pair.offset + pair.len <= |job.t|
    requires job.decode(job.t[pair.offset..]) == Some(call) && DecodesPair(job, pair, call)
    requires at == job.ip + pair.offset && next == at + call.len && pushed == a.Push(pair.target)
    ensures m.Step(State(at, a)) == Continue(next, pushed)
  {
    StepAt(m, job.ip, job.t, pair.offset, call, a);
  }

  lemma PopStep<E(!new)>(m: Machine<E>, job: Job, pair: CallPop, call: Insn, next: Word, end: Word, pushed: Cpu<E>)
    requires m.decode == job.decode && Local(job.decode) && m.Holds(job.ip, job.t) && pair.offset + pair.len <= |job.t|
    requires DecodesPair(job, pair, call)
    requires next == job.ip + pair.offset + call.len && end == job.ip + pair.offset + pair.len
    ensures m.Step(State(next, pushed)) == Continue(end, pushed.Pop(pair.reg))
  {
    var pop := Insn(pair.len - call.len, PopReg(pair.reg));
    StepAt(m, job.ip, job.t, pair.offset + call.len, pop, pushed);
  }

  /** The bytes of MOV r32, imm32: B8 plus the register, and the immediate. */
  predicate MovBytes(s: seq<Byte>, r: Reg32, v: Word) { |s| == 5 && s[0] == 0xB8 + r && FromLe4(s[1..5]) == v }

  /** The decoder knows this instruction. */
  ghost predicate MovDecodes(decode: Decoder) {
    forall s: seq<Byte>, r: Reg32, v: Word :: MovDecodesAt(decode, s, r, v)
  }

  predicate MovDecodesAt(decode: Decoder, s: seq<Byte>, r: Reg32, v: Word) {
    MovBytes(s, r, v) ==> decode(s) == Some(Insn(5, MovImm(r, v)))
  }

  /** The relocator puts these bytes in place of a CALL and its POP. */
  lemma MovIsMov(r: Reg32, v: Word)
    ensures MovBytes(MovR32Imm32(r, v), r, v)
  {
    assert MovR32Imm32(r, v)[1..5] == Le4(v);
    Le4RoundTrip(v);
  }

  /** The new code's step for an item. */
  ghost predicate NewRuns<E(!new)>(step: State<E> -> Option<State<E>>, m: Machine<E>, item: Item, pc: Word,
                                   next: Word) {
    forall b: Cpu<E> :: step(State(pc, b)) == Continue(next, NewEffect(m, item, b))
  }

  lemma NewItem<E(!new)>(m: Machine<E>, job: Job, item: Item, placed: seq<Byte>, base: Word, q: nat, pc: Word,
                         next: Word)
    requires m.decode == job.decode && Local(job.decode) && MovDecodes(job.decode)
    requires m.Holds(base, placed) && Decodes(job, item) && q <= |placed| && Piece(job.t, item) <= placed[q..]
    requires pc == base + q && next == pc + |Piece(job.t, item)|
    ensures NewRuns(m.Step, m, item, pc, next)
  {
    forall b: Cpu<E>
      ensures m.Step(State(pc, b)) == Continue(next, NewEffect(m, item, b))
    {
      NewStep(m, job, item, placed, base, q, pc, next, b);
    }
  }

  lemma MovHere(decode: Decoder, mov: seq<Byte>, r: Reg32, v: Word, code: seq<Byte>)
    requires Local(decode) && MovDecodes(decode) && MovBytes(mov, r, v) && mov <= code
    ensures decode(code) == Some(Insn(5, MovImm(r, v)))
  {
    assert MovDecodesAt(decode, mov, r, v) && LocalAt(decode, mov, code);
    assert mov[..5] == mov;
  }

  lemma KeptHere(decode: Decoder, t: seq<Byte>, at: nat, insn: Insn, code: seq<Byte>)
    requires Local(decode) && at + insn.len <= |t| && decode(t[at..]) == Some(insn) && t[at..at + insn.len] <= code
    ensures decode(code) == Some(insn)
  {
    assert LocalAt(decode, t[at..], code);
    assert t[at..][..insn.len] == t[at..at + insn.len];
  }

  lemma NewStep<E(!new)>(m: Machine<E>, job: Job, item: Item, placed: seq<Byte>, base: Word, q: nat, pc: Word,
                         next: Word, b: Cpu<E>)
    requires m.decode == job.decode && Local(job.decode) && MovDecodes(job.decode)
    requires m.Holds(base, placed) && Decodes(job, item) && q <= |placed| && Piece(job.t, item) <= placed[q..]
    requires pc == base + q && next == pc + |Piece(job.t, item)|
    ensures m.Step(State(pc, b)) == Continue(next, NewEffect(m, item, b))
  {
    match item
    case Kept(at, insn) =>
      KeptHere(job.decode, job.t, at, insn, placed[q..]);
      StepAt(m, base, placed, q, insn, b);
    case Pair(pair) =>
      MovIsMov(pair.reg, pair.target);
      MovHere(job.decode, Piece(job.t, item), pair.reg, pair.target, placed[q..]);
      StepAt(m, base, placed, q, Insn(5, MovImm(pair.reg, pair.target)), b);
  }

  // ---------- whole prologues ----------

  ghost predicate AllRun<E(!new)>(step: State<E> -> Option<State<E>>, m: Machine<E>, job: Job, items: seq<Item>,
                                  o: nat, end: nat, pc: nat)
    requires Path(items, o, end) && end <= |job.t| && job.ip + end < 0x1_0000_0000
    requires pc + |Code(job.t, items, o, end)| < 0x1_0000_0000
    decreases items
  {
    items == [] ||
    (PathBound(items[1..], o + items[0].Len(), end);
     && OldRuns(step, m, job, items[0])
     && NewRuns(step, m, items[0], pc, pc + |Piece(job.t, items[0])|)
     && AllRun(step, m, job, items[1..], o + items[0].Len(), end, pc + |Piece(job.t, items[0])|))
  }

  lemma {:induction false} ItemsRun<E(!new)>(m: Machine<E>, job: Job, items: seq<Item>, o: nat, end: nat,
                                             placed: seq<Byte>, base: Word, q: nat, pc: Word)
    requires m.decode == job.decode && Local(job.decode) && MovDecodes(job.decode)
    requires m.Holds(job.ip, job.t) && m.Holds(base, placed) && AllDecode(job, items)
    requires Path(items, o, end) && end <= |job.t| && q <= |placed| && Code(job.t, items, o, end) <= placed[q..]
    requires pc == base + q
    ensures pc + |Code(job.t, items, o, end)| < 0x1_0000_0000 && AllRun(m.Step, m, job, items, o, end, pc)
    decreases items
  {
    if items != [] {
      var q' := FirstPlaced(job, items, o, end, placed, q);
      var rest, next, pc' := items[1..], o + items[0].Len(), base + q';
      assert Decodes(job, items[0]);
      FirstRuns(m, job, items[0], placed, base, q, pc, pc');
      RestDecodes(job, items);
      PathBound(rest, next, end);
      ItemsRun(m, job, rest, next, end, placed, base, q', pc');
      AllRunFrom(m.Step, m, job, items, rest, o, next, end, pc, pc');
    }
  }

  lemma AllRunFrom<E(!new)>(step: State<E> -> Option<State<E>>, m: Machine<E>, job: Job, items: seq<Item>,
                            rest: seq<Item>, o: nat, next: nat, end: nat, pc: Word, pc': Word)
    requires items != [] && rest == items[1..] && next == o + items[0].Len()
    requires Path(items, o, end) && next <= end <= |job.t| && job.ip + end < 0x1_0000_0000
    requires pc' == pc + |Piece(job.t, items[0])| && pc' + |Code(job.t, rest, next, end)| < 0x1_0000_0000
    requires OldRuns(step, m, job, items[0]) && NewRuns(step, m, items[0], pc, pc')
    requires AllRun(step, m, job, rest, next, end, pc')
    ensures pc + |Code(job.t, items, o, end)| < 0x1_0000_0000 && AllRun(step, m, job, items, o, end, pc)
  {
  }

  lemma RestDecodes(job: Job, items: seq<Item>)
    requires AllDecode(job, items) && items != []
    ensures AllDecode(job, items[1..])
  {
    forall i | 0 <= i < |items[1..]|
      ensures Decodes(job, items[1..][i])
    {
      assert items[1..][i] == items[i + 1];
    }
  }

  lemma FirstRuns<E(!new)>(m: Machine<E>, job: Job, item: Item, placed: seq<Byte>, base: Word, q: nat, pc: Word,
                           next: Word)
    requires m.decode == job.decode && Local(job.decode) && MovDecodes(job.decode)
    requires m.Holds(job.ip, job.t) && m.Holds(base, placed) && Decodes(job, item)
    requires q <= |placed| && Piece(job.t, item) <= placed[q..] && pc == base + q && next == pc + |Piece(job.t, item)|
    ensures OldRuns(m.Step, m, job, item) && NewRuns(m.Step, m, item, pc, next)
  {
    OldItem(m, job, item);
    NewItem(m, job, item, placed, base, q, pc, next);
  }

  /** The code for the first item comes first. */
  lemma FirstPlaced(job: Job, items: seq<Item>, o: nat, end: nat, placed: seq<Byte>, q: nat) returns (q': nat)
    requires items != [] && Path(items, o, end) && end <= |job.t| && q <= |placed|
    requires Code(job.t, items, o, end) <= placed[q..]
    ensures o + items[0].Len() <= end && q' == q + |Piece(job.t, items[0])| <= |placed|
    ensures Piece(job.t, items[0]) <= placed[q..]
    ensures Code(job.t, items[1..], o + items[0].Len(), end) <= placed[q'..]
  {
    var next := o + items[0].Len();
    PathBound(items[1..], next, end);
    Prefixes(Piece(job.t, items[0]), Code(job.t, items[1..], next, end), placed, q);
    q' := q + |Piece(job.t, items[0])|;
  }

  lemma Prefixes(a: seq<Byte>, b: seq<Byte>, s: seq<Byte>, q: nat)
    requires q <= |s| && a + b <= s[q..]
    ensures a <= s[q..] && q + |a| <= |s| && b <= s[q + |a|..]
  {
    assert s[q..][..|a|] == (a + b)[..|a|] == a;
    assert s[q + |a|..] == s[q..][|a|..];
    assert s[q..][|a|..][..|b|] == (a + b)[|a|..] == b;
  }

  /** What items do one after the other, given what each does. */
  function Folded<E(!new)>(effect: (Item, Cpu<E>) -> Option<Cpu<E>>, items: seq<Item>, a: Cpu<E>): Option<Cpu<E>>
    decreases items
  {
    if items == [] then Some(a)
    else
      match effect(items[0], a)
      case None => None
      case Some(a') => Folded(effect, items[1..], a')
  }

  function EffectOf<E(!new)>(m: Machine<E>): (Item, Cpu<E>) -> Option<Cpu<E>> {
    (item: Item, a: Cpu<E>) => Effect(m, item, a)
  }

  lemma {:induction false} FoldedEffects<E(!new)>(m: Machine<E>, items: seq<Item>, a: Cpu<E>)
    ensures Folded(EffectOf(m), items, a) == Effects(m, items, a)
    decreases items
  {
    if items != [] && Effect(m, items[0], a).Some? {
      FoldedEffects(m, items[1..], Effect(m, items[0], a).value);
    }
  }

  /** From address `ip` on, the item does `effect`. */
  ghost predicate Leads<E(!new)>(step: State<E> -> Option<State<E>>, effect: (Item, Cpu<E>) -> Option<Cpu<E>>, ip: Word,
                                 item: Item) {
    forall a: Cpu<E> :: LeadsFrom(step, effect, ip, item, a)
  }

  ghost predicate LeadsFrom<E(!new)>(step: State<E> -> Option<State<E>>, effect: (Item, Cpu<E>) -> Option<Cpu<E>>,
                                     ip: Word, item: Item, a: Cpu<E>) {
    && ip + item.At() + item.Len() < 0x1_0000_0000
    && Run(step, OldSteps(item), State(ip + item.At(), a))
       == Continue(ip + item.At() + item.Len(), effect(item, a))
  }

  lemma {:induction false} AllRunLeads<E(!new)>(step: State<E> -> Option<State<E>>, m: Machine<E>, job: Job,
                                                items: seq<Item>, o: nat, end: nat, pc: nat)
    requires Path(items, o, end) && end <= |job.t| && job.ip + end < 0x1_0000_0000
    requires pc + |Code(job.t, items, o, end)| < 0x1_0000_0000 && AllRun(step, m, job, items, o, end, pc)
    ensures forall i | 0 <= i < |items| :: Leads(step, EffectOf(m), job.ip, items[i])
    decreases items
  {
    if items != [] {
      var rest, next := items[1..], o + items[0].Len();
      PathBound(rest, next, end);
      AllRunLeads(step, m, job, rest, next, end, pc + |Piece(job.t, items[0])|);
      assert OldRuns(step, m, job, items[0]);
      forall a: Cpu<E>
        ensures LeadsFrom(step, EffectOf(m), job.ip, items[0], a)
      {
        assert OldRun(step, m, job, items[0], a);
      }
      assert forall i | 0 < i < |items| :: items[i] == rest[i - 1];
    }
  }

  lemma {:induction false} FoldedRun<E(!new)>(step: State<E> -> Option<State<E>>,
                                              effect: (Item, Cpu<E>) -> Option<Cpu<E>>, ip: Word, items: seq<Item>,
                                              o: nat, end: nat, s: Word, end': Word, a: Cpu<E>)
    requires Path(items, o, end) && s == ip + o && end' == ip + end
    requires forall i | 0 <= i < |items| :: Leads(step, effect, ip, items[i])
    ensures Run(step, Total(OldSteps, items), State(s, a)) == Continue(end', Folded(effect, items, a))
    decreases items
  {
    if items != [] {
      var first, rest, next := items[0], items[1..], o + items[0].Len();
      assert Leads(step, effect, ip, first) && LeadsFrom(step, effect, ip, first, a);
      var r := effect(first, a);
      if r.Some? {
        assert forall i | 0 <= i < |rest| :: rest[i] == items[i + 1];
        FoldedRun(step, effect, ip, rest, next, end, ip + next, end', r.value);
        RunCompose(step, OldSteps(first), Total(OldSteps, rest), State(s, a));
      } else {
        RunFaults(step, OldSteps(first), Total(OldSteps, rest), State(s, a));
      }
    }
  }

  /** The original's run over the prologue. */
  lemma OldRunIs<E(!new)>(step: State<E> -> Option<State<E>>, m: Machine<E>, job: Job,
                                             items: seq<Item>, o: nat, end: nat, pc: nat, s: Word, end': Word,
                                             a: Cpu<E>)
    requires Path(items, o, end) && end <= |job.t| && job.ip + end < 0x1_0000_0000 && s == job.ip + o
    requires end' == job.ip + end
    requires pc + |Code(job.t, items, o, end)| < 0x1_0000_0000 && AllRun(step, m, job, items, o, end, pc)
    ensures Run(step, Total(OldSteps, items), State(s, a)) == Continue(end', Effects(m, items, a))
  {
    AllRunLeads(step, m, job, items, o, end, pc);
    FoldedRun(step, EffectOf(m), job.ip, items, o, end, s, end', a);
    FoldedEffects(m, items, a);
  }

  /** The new code's run over the prologue. */
  lemma {:induction false} NewRunIs<E(!new)>(step: State<E> -> Option<State<E>>, m: Machine<E>, job: Job,
                                             items: seq<Item>, o: nat, end: nat, pc: Word, end': Word, b: Cpu<E>)
    requires Path(items, o, end) && end <= |job.t| && job.ip + end < 0x1_0000_0000
    requires end' == pc + |Code(job.t, items, o, end)| && AllRun(step, m, job, items, o, end, pc)
    ensures Run(step, |items|, State(pc, b)) == Continue(end', NewEffects(m, items, b))
    decreases items
  {
    if items != [] {
      var next := o + items[0].Len();
      PathBound(items[1..], next, end);
      var pc' := pc + |Piece(job.t, items[0])|;
      assert step(State(pc, b)) == Continue(pc', NewEffect(m, items[0], b));
      if NewEffect(m, items[0], b).Some? {
        NewRunIs(step, m, job, items[1..], next, end, pc', end', NewEffect(m, items[0], b).value);
      }
    }
  }
}
