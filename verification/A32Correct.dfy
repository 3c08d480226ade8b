/** The prologue the A32 relocator makes does what the original does, wherever it is placed. */
module A32Correct {
  import opened Bytes
  import opened Runs
  import opened ArmReloc
  import opened ArmLayout
  import opened ArmShape
  import opened A32Machine
  import opened A32Simulation

  // ---------- whole prologues ----------

  /** Every item from offset `o` on is matched by the new code, which is `delta` bytes longer before it. */
  ghost predicate AllSame<E(!new)>(step: State<E> -> Option<State<E>>, pc: Word, base: Word, items: seq<Item>, o: nat,
                                   delta: nat, asmAt: nat)
    requires Chain(items, o, asmAt) && pc + asmAt < 0x1_0000_0000
    requires base + asmAt + delta + 4 * Loads(items) < 0x1_0000_0000
    decreases items
  {
    items == [] ||
    (ChainBound(items[1..], items[0].Next(), asmAt);
     var d := After(items[0], delta);
     && DoesSame(step, pc + o, pc + items[0].Next(), Steps(items[0]), base + o + delta, base + items[0].Next() + d)
     && AllSame(step, pc, base, items[1..], items[0].Next(), d, asmAt))
  }

  lemma {:induction false} ItemsSame<E(!new)>(m: Machine<E>, t: seq<Byte>, pc: Word, code: seq<Byte>, base: Word,
                                              items: seq<Item>, o: nat, delta: nat, asmAt: nat, pool: nat)
    requires m.Holds(pc, t) && m.Holds(base, code) && AllPlaced(Loading(m.decode, code, pool), code, t, items, delta)
    requires forall i | 0 <= i < |items| :: Understood(m, t, pc, items[i])
    requires Chain(items, o, asmAt) && asmAt <= |t| && asmAt + delta + 4 * Loads(items) <= |code|
    ensures AllSame(m.Step, pc, base, items, o, delta, asmAt)
    decreases items
  {
    if items == [] {
    } else {
      var next, d := Rest(Loading(m.decode, code, pool), t, code, items, o, delta, asmAt);
      RestUnderstood(m, t, pc, items);
      ItemsSame(m, t, pc, code, base, items[1..], next, d, asmAt, pool);
      var a: Word, b: Word := pc + o, pc + next;
      var a': Word, b': Word := base + o + delta, base + next + d;
      ItemSame(m, t, pc, code, base, items[0], delta, pool, a, b, a', b');
      AllSameFrom(m.Step, pc, base, items, items[1..], o, next, delta, d, asmAt, a, b, a', b');
    }
  }

  /** What is left of a chain of placed items after the first. */
  lemma Rest(loads: Fixup -> bool, t: seq<Byte>, code: seq<Byte>, items: seq<Item>, o: nat, delta: nat, asmAt: nat)
    returns (next: nat, d: nat)
    requires AllPlaced(loads, code, t, items, delta) && items != []
    requires Chain(items, o, asmAt) && asmAt <= |t| && asmAt + delta + 4 * Loads(items) <= |code|
    ensures items[0].at == o && next == items[0].Next() && d == After(items[0], delta)
    ensures o <= next <= asmAt && Chain(items[1..], next, asmAt) && asmAt + d + 4 * Loads(items[1..]) <= |code|
    ensures Placed(loads, code, t, items[0], delta) && AllPlaced(loads, code, t, items[1..], d)
  {
    next, d := items[0].Next(), After(items[0], delta);
    ChainBound(items[1..], next, asmAt);
  }

  lemma RestUnderstood<E(!new)>(m: Machine<E>, t: seq<Byte>, pc: Word, items: seq<Item>)
    requires items != [] && forall i | 0 <= i < |items| :: Understood(m, t, pc, items[i])
    ensures Understood(m, t, pc, items[0])
    ensures forall i | 0 <= i < |items[1..]| :: Understood(m, t, pc, items[1..][i])
  {
    forall i | 0 <= i < |items[1..]|
      ensures Understood(m, t, pc, items[1..][i])
    {
      assert Understood(m, t, pc, items[i + 1]);
    }
  }

  lemma AllSameFrom<E(!new)>(step: State<E> -> Option<State<E>>, pc: Word, base: Word, items: seq<Item>,
                             rest: seq<Item>, o: nat, next: nat, delta: nat, d: nat, asmAt: nat,
                             a: Word, b: Word, a': Word, b': Word)
    requires items != [] && rest == items[1..] && next == items[0].Next() && d == After(items[0], delta)
    requires Chain(items, o, asmAt) && next <= asmAt && pc + asmAt < 0x1_0000_0000
    requires base + asmAt + d + 4 * Loads(rest) < 0x1_0000_0000
    requires a == pc + o && b == pc + next && a' == base + o + delta && b' == base + next + d
    requires DoesSame(step, a, b, Steps(items[0]), a', b') && AllSame(step, pc, base, rest, next, d, asmAt)
    ensures AllSame(step, pc, base, items, o, delta, asmAt)
  {
  }

  /** Both machines are at the same instruction in the same state. */
  ghost predicate TracksAt<E(!new)>(step: State<E> -> Option<State<E>>, pc: Word, base: Word, asmAt: nat, k: nat,
                                    items: seq<Item>, s: State<E>, s': State<E>, o: nat, delta: nat)
    requires pc + asmAt < 0x1_0000_0000 && base + asmAt + k < 0x1_0000_0000
  {
    && Chain(items, o, asmAt) && k == delta + 4 * Loads(items) && AllSame(step, pc, base, items, o, delta, asmAt)
    && s.pc == pc + o && s'.pc == base + o + delta && s.cpu == s'.cpu
  }

  ghost predicate Tracks<E(!new)>(step: State<E> -> Option<State<E>>, pc: Word, base: Word, asmAt: nat, k: nat,
                                  items: seq<Item>, s: State<E>, s': State<E>)
    requires pc + asmAt < 0x1_0000_0000 && base + asmAt + k < 0x1_0000_0000
  {
    exists o: nat, delta: nat :: TracksAt(step, pc, base, asmAt, k, items, s, s', o, delta)
  }

  lemma ItemTracks<E(!new)>(step: State<E> -> Option<State<E>>, pc: Word, base: Word, asmAt: nat, k: nat,
                            items: seq<Item>, s: State<E>, s': State<E>)
    requires pc + asmAt < 0x1_0000_0000 && base + asmAt + k < 0x1_0000_0000 && items != []
    requires Tracks(step, pc, base, asmAt, k, items, s, s')
    ensures match step(s)
            case None => Run(step, Steps(items[0]), s').None?
            case Some(r) => Run(step, Steps(items[0]), s').Some?
                            && Tracks(step, pc, base, asmAt, k, items[1..], r, Run(step, Steps(items[0]), s').value)
  {
    var o: nat, delta: nat :| TracksAt(step, pc, base, asmAt, k, items, s, s', o, delta);
    var item, d := items[0], After(items[0], delta);
    ChainBound(items[1..], item.Next(), asmAt);
    var next, next' := pc + item.Next(), base + item.Next() + d;
    assert SameFrom(step, s.pc, next, Steps(item), s'.pc, next', s.cpu);
    assert s == State(s.pc, s.cpu) && s' == State(s'.pc, s.cpu);
    if step(s).Some? {
      var r, r' := step(s).value, Run(step, Steps(item), s').value;
      assert TracksAt(step, pc, base, asmAt, k, items[1..], r, r', item.Next(), d);
    }
  }

  /** Run at `base` for `n` steps, the relocated code has the outcome `items` have at `pc`, and is at `mid` where
      the original is at the thunk asm block. */
  ghost predicate SimulatesFrom<E>(step: State<E> -> Option<State<E>>, pc: Word, items: seq<Item>, end: Word,
                                   base: Word, n: nat, mid: Word, cpu: Cpu<E>)
  {
    match Run(step, |items|, State(pc, cpu))
    case None => Run(step, n, State(base, cpu)).None?
    case Some(o) => o.pc == end && Run(step, n, State(base, cpu)) == Some(State(mid, o.cpu))
  }

  ghost predicate Simulates<E(!new)>(step: State<E> -> Option<State<E>>, pc: Word, items: seq<Item>, end: Word,
                                     base: Word, n: nat, mid: Word)
  {
    forall cpu: Cpu<E> :: SimulatesFrom(step, pc, items, end, base, n, mid, cpu)
  }

  lemma SameSimulates<E(!new)>(step: State<E> -> Option<State<E>>, pc: Word, base: Word, items: seq<Item>, asmAt: nat,
                               k: nat)
    requires pc + asmAt < 0x1_0000_0000 && base + asmAt + k < 0x1_0000_0000 && k == 4 * Loads(items)
    requires Chain(items, 0, asmAt) && AllSame(step, pc, base, items, 0, 0, asmAt)
    ensures Simulates(step, pc, items, pc + asmAt, base, Total(Steps, items), base + asmAt + k)
  {
    var tracks := (i: seq<Item>, x: State<E>, x': State<E>) => Tracks(step, pc, base, asmAt, k, i, x, x');
    forall i: seq<Item>, x: State<E>, x': State<E> | i != [] && tracks(i, x, x')
      ensures match step(x)
              case None => Run(step, Steps(i[0]), x').None?
              case Some(r) => Run(step, Steps(i[0]), x').Some? && tracks(i[1..], r, Run(step, Steps(i[0]), x').value)
    {
      ItemTracks(step, pc, base, asmAt, k, i, x, x');
    }
    var end, n, mid := pc + asmAt, Total(Steps, items), base + asmAt + k;
    forall cpu: Cpu<E>
      ensures SimulatesFrom(step, pc, items, end, base, n, mid, cpu)
    {
      assert TracksAt(step, pc, base, asmAt, k, items, State(pc, cpu), State(base, cpu), 0, 0);
      MirroredRun(step, Steps, tracks, items, State(pc, cpu), State(base, cpu));
    }
  }
}
