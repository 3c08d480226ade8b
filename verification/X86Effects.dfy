/** The effects of the original prologue and of the spliced one, and how they differ. */
module X86Effects {
  import opened Bytes
  import opened X86Machine
  import opened X86Reloc

  // ---------- what instructions may depend on ----------

  /** The two states differ only in the memory cells of `d`. */
  ghost predicate SameExcept<E(!new)>(d: set<Word>, a: Cpu<E>, b: Cpu<E>) {
    && a.reg == b.reg && a.rest == b.rest && a.ram.Keys == b.ram.Keys
    && forall w: Word | w in a.ram && w !in d :: a.ram[w] == b.ram[w]
  }

  /** Performed in state `a`, the instruction does not depend on the cells of `d`. */
  ghost predicate Blind<E(!new)>(m: Machine<E>, op: Op, d: set<Word>, a: Cpu<E>) {
    forall b: Cpu<E> | SameExcept(d, a, b) :: BlindTo(m, op, d, a, b)
  }

  ghost predicate BlindTo<E(!new)>(m: Machine<E>, op: Op, d: set<Word>, a: Cpu<E>, b: Cpu<E>) {
    m.Perform(op, a).Some? ==> m.Perform(op, b).Some? && SameExcept(d, m.Perform(op, a).value, m.Perform(op, b).value)
  }

  /** POP is blind to cells other than the four it reads. */
  lemma PopBlind<E(!new)>(m: Machine<E>, r: Reg32, d: set<Word>, a: Cpu<E>)
    requires d !! Cells(a.reg[ESP])
    ensures Blind(m, PopReg(r), d, a)
  {
    forall b: Cpu<E> | SameExcept(d, a, b)
      ensures BlindTo(m, PopReg(r), d, a, b)
    {
      if a.Mapped4(a.reg[ESP]) {
        assert b.Mapped4(a.reg[ESP]);
        assert a.Load(a.reg[ESP]) == b.Load(a.reg[ESP]);
      }
    }
  }

  // ---------- one item ----------

  /** What the original does for an item. */
  function Effect<E(!new)>(m: Machine<E>, item: Item, a: Cpu<E>): Option<Cpu<E>> {
    match item
    case Kept(_, insn) => m.Perform(insn.op, a)
    case Pair(pair) =>
      var pushed :- a.Push(pair.target);
      pushed.Pop(pair.reg)
  }

  /** What the new code does for it. */
  function NewEffect<E(!new)>(m: Machine<E>, item: Item, b: Cpu<E>): Option<Cpu<E>> {
    match item
    case Kept(_, insn) => m.Perform(insn.op, b)
    case Pair(pair) => Some(b.Set(pair.reg, pair.target))
  }

  /** The cells the original writes for it, and the new code does not. */
  function Scratch<E>(item: Item, a: Cpu<E>): set<Word> {
    if item.Pair? then Cells(Wrap32(a.reg[ESP] as int - 4)) else {}
  }

  // ---------- what a call leaves behind ----------

  /** Performed in any state like `a` outside `d`, the instruction leaves the same in cell `w`. */
  ghost predicate Settled<E(!new)>(m: Machine<E>, op: Op, d: set<Word>, a: Cpu<E>, w: Word) {
    forall b: Cpu<E> | SameExcept(d, a, b) :: SettledIn(w, m.Perform(op, a), m.Perform(op, b))
  }

  predicate SettledIn<E>(w: Word, x: Option<Cpu<E>>, y: Option<Cpu<E>>) {
    x.Some? && w in x.value.ram ==> y.Some? && w in y.value.ram && y.value.ram[w] == x.value.ram[w]
  }

  /** The cells in which the two may differ after the item, when they may differ in those of `d` before: those a call
      has written, and of the others those whose content still depends on what was in `d`. */
  ghost function After<E(!new)>(m: Machine<E>, item: Item, d: set<Word>, a: Cpu<E>): set<Word> {
    match item
    case Kept(_, insn) => set w | w in d && !Settled(m, insn.op, d, a, w)
    case Pair(_) => d + Scratch(item, a)
  }

  /** State `a`, with other bytes in some cells. */
  function Over<E>(a: Cpu<E>, c: map<Word, Byte>): Cpu<E> { a.(ram := a.ram + c) }

  lemma OverSame<E(!new)>(a: Cpu<E>, c: map<Word, Byte>)
    requires c.Keys <= a.ram.Keys
    ensures SameExcept(c.Keys, a, Over(a, c))
  {
    assert (a.ram + c).Keys == a.ram.Keys;
  }

  /** A state that differs in some cells only is the other with its own bytes in those. */
  lemma SameIsOver<E(!new)>(d: set<Word>, a: Cpu<E>, b: Cpu<E>) returns (c: map<Word, Byte>)
    requires SameExcept(d, a, b)
    ensures c == Cut(b.ram, d) && b == Over(a, c) && c.Keys <= a.ram.Keys
  {
    c := Cut(b.ram, d);
    assert a.ram + c == b.ram;
  }

  /** The cells of `d` and what is in them. */
  function Cut(bytes: map<Word, Byte>, d: set<Word>): map<Word, Byte> { map w | w in bytes && w in d :: bytes[w] }

  /** The bytes found in the cells a call is about to write. */
  function CoveredBy<E>(item: Item, a: Cpu<E>): map<Word, Byte> { Cut(a.ram, Scratch(item, a)) }

  /** What the new code has in those cells after the item, when it has `c` in them before: what a call would have
      overwritten, or what the instruction makes of it. */
  ghost function Beneath<E(!new)>(m: Machine<E>, item: Item, c: map<Word, Byte>, a: Cpu<E>): map<Word, Byte> {
    match item
    case Kept(_, insn) =>
      var b := m.Perform(insn.op, Over(a, c));
      if b.Some? then Cut(b.value.ram, After(m, item, c.Keys, a)) else map[]
    case Pair(_) => CoveredBy(item, a) + c
  }

  lemma KeptBeneath<E(!new)>(m: Machine<E>, item: Item, c: map<Word, Byte>, a: Cpu<E>, a': Cpu<E>)
    requires c.Keys <= a.ram.Keys && item.Kept? && Blind(m, item.insn.op, c.Keys, a)
    requires Effect(m, item, a) == Some(a')
    ensures NewEffect(m, item, Over(a, c)) == Some(Over(a', Beneath(m, item, c, a)))
    ensures Beneath(m, item, c, a).Keys == After(m, item, c.Keys, a) <= a'.ram.Keys
  {
    var op, b, d := item.insn.op, Over(a, c), c.Keys;
    OverSame(a, c);
    assert BlindTo(m, op, d, a, b);
    var b', d' := m.Perform(op, b).value, After(m, item, d, a);
    AfterMapped(m, item, d, a, a');
    assert SameExcept(d', a', b') by { Settle(m, item, d, a, a', b, b'); }
    var _ := SameIsOver(d', a', b');
  }

  lemma AfterMapped<E(!new)>(m: Machine<E>, item: Item, d: set<Word>, a: Cpu<E>, a': Cpu<E>)
    requires item.Kept? && m.Perform(item.insn.op, a) == Some(a')
    ensures After(m, item, d, a) <= a'.ram.Keys
  {
    forall w | w in d && w !in a'.ram
      ensures Settled(m, item.insn.op, d, a, w)
    {
    }
  }

  /** Two states that differ in `d` differ afterwards in what is not settled. */
  lemma Settle<E(!new)>(m: Machine<E>, item: Item, d: set<Word>, a: Cpu<E>, a': Cpu<E>, b: Cpu<E>, b': Cpu<E>)
    requires item.Kept? && SameExcept(d, a, b) && SameExcept(d, a', b')
    requires m.Perform(item.insn.op, a) == Some(a') && m.Perform(item.insn.op, b) == Some(b')
    ensures SameExcept(After(m, item, d, a), a', b')
  {
    forall w: Word | w in a'.ram && w !in After(m, item, d, a)
      ensures a'.ram[w] == b'.ram[w]
    {
      if w in d {
        assert Settled(m, item.insn.op, d, a, w);
        assert SettledIn(w, m.Perform(item.insn.op, a), m.Perform(item.insn.op, b));
      }
    }
  }

  /** The bytes a call pushes. */
  function PushedBy<E>(item: Item, a: Cpu<E>): map<Word, Byte> {
    if item.Kept? then map[]
    else
      var top, b := Wrap32(a.reg[ESP] as int - 4), Le4(item.pair.target);
      map[top := b[0], Wrap32(top as int + 1) := b[1], Wrap32(top as int + 2) := b[2], Wrap32(top as int + 3) := b[3]]
  }

  lemma PushShows<E>(a: Cpu<E>, pair: CallPop)
    requires a.Push(pair.target).Some?
    ensures PushedBy(Pair(pair), a).Keys == Scratch(Pair(pair), a) <= a.ram.Keys
    ensures a.Push(pair.target).value.ram == a.ram + PushedBy(Pair(pair), a)
  {
  }

  lemma PairBeneath<E(!new)>(m: Machine<E>, item: Item, c: map<Word, Byte>, a: Cpu<E>, a': Cpu<E>)
    requires c.Keys <= a.ram.Keys && item.Pair? && Effect(m, item, a) == Some(a')
    ensures a'.ram == a.ram + PushedBy(item, a) && PushedBy(item, a).Keys == Scratch(item, a)
    ensures NewEffect(m, item, Over(a, c)) == Some(Over(a', Beneath(m, item, c, a)))
    ensures Beneath(m, item, c, a).Keys == After(m, item, c.Keys, a) <= a'.ram.Keys
  {
    PushPop(a, item.pair.target, item.pair.reg);
    PushShows(a, item.pair);
    CoverBack(a.ram, PushedBy(item, a), CoveredBy(item, a), c);
  }

  /** What was overwritten, written back over it. */
  lemma CoverBack(ram: map<Word, Byte>, pushed: map<Word, Byte>, covered: map<Word, Byte>, c: map<Word, Byte>)
    requires pushed.Keys <= ram.Keys && covered == Cut(ram, pushed.Keys) && c.Keys <= ram.Keys
    ensures covered.Keys == pushed.Keys && (covered + c).Keys == c.Keys + pushed.Keys <= (ram + pushed).Keys
    ensures ram + pushed + (covered + c) == ram + c
  {
  }

  // ---------- whole prologues ----------

  function Effects<E(!new)>(m: Machine<E>, items: seq<Item>, a: Cpu<E>): Option<Cpu<E>>
    decreases items
  {
    if items == [] then Some(a)
    else
      match Effect(m, items[0], a)
      case None => None
      case Some(a') => Effects(m, items[1..], a')
  }

  function NewEffects<E(!new)>(m: Machine<E>, items: seq<Item>, b: Cpu<E>): Option<Cpu<E>>
    decreases items
  {
    if items == [] then Some(b)
    else
      match NewEffect(m, items[0], b)
      case None => None
      case Some(b') => NewEffects(m, items[1..], b')
  }

  /** On the run from state `a`, no instruction depends on a cell in which the two may differ, `d` to begin with. */
  ghost predicate Quiet<E(!new)>(m: Machine<E>, items: seq<Item>, d: set<Word>, a: Cpu<E>)
    decreases items
  {
    items == [] ||
    (&& (items[0].Kept? ==> Blind(m, items[0].insn.op, d, a))
     && (Effect(m, items[0], a).Some? ==>
           Quiet(m, items[1..], After(m, items[0], d, a), Effect(m, items[0], a).value)))
  }

  /** The cells in which the two may differ in the end. */
  ghost function Remains<E(!new)>(m: Machine<E>, items: seq<Item>, d: set<Word>, a: Cpu<E>): set<Word>
    decreases items
  {
    if items == [] || Effect(m, items[0], a).None? then d
    else Remains(m, items[1..], After(m, items[0], d, a), Effect(m, items[0], a).value)
  }

  /** What the new code has in them in the end, when it has `c` in some to begin with. */
  ghost function Underneath<E(!new)>(m: Machine<E>, items: seq<Item>, c: map<Word, Byte>, a: Cpu<E>): map<Word, Byte>
    decreases items
  {
    if items == [] || Effect(m, items[0], a).None? then c
    else Underneath(m, items[1..], Beneath(m, items[0], c, a), Effect(m, items[0], a).value)
  }

  /** Where the original gets through the prologue, the new code does, and ends in the same state but for the cells that
      remain, where it has what it had before the calls, or what other instructions have made of that. */
  lemma {:induction false} PrologueUnder<E(!new)>(m: Machine<E>, items: seq<Item>, c: map<Word, Byte>, a: Cpu<E>)
    requires c.Keys <= a.ram.Keys && Quiet(m, items, c.Keys, a) && Effects(m, items, a).Some?
    ensures Underneath(m, items, c, a).Keys == Remains(m, items, c.Keys, a) <= Effects(m, items, a).value.ram.Keys
    ensures NewEffects(m, items, Over(a, c)) == Some(Over(Effects(m, items, a).value, Underneath(m, items, c, a)))
    decreases items
  {
    if items == [] {
    } else {
      var item := items[0];
      var a' := Effect(m, item, a).value;
      if item.Kept? {
        KeptBeneath(m, item, c, a, a');
      } else {
        PairBeneath(m, item, c, a, a');
      }
      PrologueUnder(m, items[1..], Beneath(m, item, c, a), a');
    }
  }

  /** From the same state, they differ only in the cells that remain. */
  lemma PrologueAgrees<E(!new)>(m: Machine<E>, items: seq<Item>, a: Cpu<E>)
    requires Quiet(m, items, {}, a) && Effects(m, items, a).Some?
    ensures NewEffects(m, items, a) == Some(Over(Effects(m, items, a).value, Underneath(m, items, map[], a)))
    ensures Underneath(m, items, map[], a).Keys == Remains(m, items, {}, a)
    ensures SameExcept(Remains(m, items, {}, a), Effects(m, items, a).value, NewEffects(m, items, a).value)
  {
    var none: map<Word, Byte> := map[];
    assert none.Keys == {} && a.ram + none == a.ram;
    PrologueUnder(m, items, none, a);
    OverSame(Effects(m, items, a).value, Underneath(m, items, none, a));
  }

  // ---------- memory at and above the stack pointer ----------

  /** The cells the calls of the original write, on the run from state `a`. */
  function Touched<E(!new)>(m: Machine<E>, items: seq<Item>, a: Cpu<E>): set<Word>
    decreases items
  {
    if items == [] || Effect(m, items[0], a).None? then {}
    else Scratch(items[0], a) + Touched(m, items[1..], Effect(m, items[0], a).value)
  }

  /** The states agree on the memory at and above the stack pointer of the first. */
  ghost predicate StackSame<E>(o: Cpu<E>, n: Cpu<E>) {
    forall w: Word | o.reg[ESP] <= w && w in o.ram :: w in n.ram && n.ram[w] == o.ram[w]
  }

  predicate AllBelow(d: set<Word>, sp: Word) { forall w | w in d :: w < sp }

  /** Every call on the run from state `a` finds the stack pointer at most at `sp`, and room below it. */
  predicate CallsBelow<E(!new)>(m: Machine<E>, items: seq<Item>, a: Cpu<E>, sp: Word)
    decreases items
  {
    items == [] ||
    (&& (items[0].Pair? ==> 4 <= a.reg[ESP] <= sp)
     && (Effect(m, items[0], a).Some? ==> CallsBelow(m, items[1..], Effect(m, items[0], a).value, sp)))
  }

  lemma CellsBelow(esp: Word, sp: Word)
    ensures AllBelow(Cells(Wrap32(esp as int - 4)), sp) <==> 4 <= esp <= sp
  {
    var top := Wrap32(esp as int - 4);
    assert top in Cells(top) && Wrap32(top as int + 3) in Cells(top);
    if esp >= 4 {
      assert top == esp as int - 4 && Cells(top) == {top, top + 1, top + 2, top + 3};
    } else {
      assert top == esp + 0xFFFF_FFFC;
      assert Wrap32(top as int + (3 - esp)) in Cells(top);
    }
  }

  lemma BothBelow(c: set<Word>, d: set<Word>, sp: Word)
    ensures AllBelow(c + d, sp) <==> AllBelow(c, sp) && AllBelow(d, sp)
  {
    if AllBelow(c + d, sp) {
      assert forall w | w in c + d :: w < sp;
    }
  }

  /** The cells written are all below the final stack pointer exactly when no call finds the stack pointer above it. */
  lemma {:induction false} TouchedBelowExact<E(!new)>(m: Machine<E>, items: seq<Item>, a: Cpu<E>, sp: Word)
    requires Effects(m, items, a).Some?
    ensures AllBelow(Touched(m, items, a), sp) <==> CallsBelow(m, items, a, sp)
    decreases items
  {
    if items != [] {
      var a' := Effect(m, items[0], a).value;
      TouchedBelowExact(m, items[1..], a', sp);
      CellsBelow(a.reg[ESP], sp);
      BothBelow(Scratch(items[0], a), Touched(m, items[1..], a'), sp);
    }
  }

  /** What remains is among what the calls have written. */
  lemma {:induction false} RemainsTouched<E(!new)>(m: Machine<E>, items: seq<Item>, d: set<Word>, a: Cpu<E>)
    ensures Remains(m, items, d, a) <= d + Touched(m, items, a)
    decreases items
  {
    if items != [] && Effect(m, items[0], a).Some? {
      RemainsTouched(m, items[1..], After(m, items[0], d, a), Effect(m, items[0], a).value);
    }
  }

  /** So no cell that remains is at or above the final stack pointer if no call finds the stack pointer above it. */
  lemma RemainsBelow<E(!new)>(m: Machine<E>, items: seq<Item>, a: Cpu<E>, sp: Word)
    requires Effects(m, items, a).Some? && CallsBelow(m, items, a, sp)
    ensures AllBelow(Remains(m, items, {}, a), sp)
  {
    TouchedBelowExact(m, items, a, sp);
    RemainsTouched(m, items, {}, a);
  }

  /** Where the original ends at `o`, every cell that remains and is at or above the stack pointer holds there what the
      new code has in it. */
  ghost predicate NothingSeen<E(!new)>(m: Machine<E>, items: seq<Item>, a: Cpu<E>, o: Cpu<E>) {
    var c := Underneath(m, items, map[], a);
    forall w | w in c && o.reg[ESP] <= w :: w in o.ram && o.ram[w] == c[w]
  }

  /** The stacks agree exactly when nothing is seen there of what the calls have written. */
  lemma StackExact<E(!new)>(m: Machine<E>, items: seq<Item>, a: Cpu<E>, o: Cpu<E>)
    requires Quiet(m, items, {}, a) && Effects(m, items, a) == Some(o)
    ensures NewEffects(m, items, a).Some?
    ensures StackSame(o, NewEffects(m, items, a).value) <==> NothingSeen(m, items, a, o)
    ensures AllBelow(Remains(m, items, {}, a), o.reg[ESP]) ==> NothingSeen(m, items, a, o)
  {
    PrologueAgrees(m, items, a);
    StackOver(o, Underneath(m, items, map[], a));
    assert SameExcept(Remains(m, items, {}, a), o, NewEffects(m, items, a).value);
  }

  lemma StackOver<E(!new)>(o: Cpu<E>, c: map<Word, Byte>)
    requires c.Keys <= o.ram.Keys
    ensures StackSame(o, Over(o, c)) <==> forall w | w in c && o.reg[ESP] <= w :: w in o.ram && o.ram[w] == c[w]
  {
    if StackSame(o, Over(o, c)) {
      forall w | w in c && o.reg[ESP] <= w
        ensures w in o.ram && o.ram[w] == c[w]
      {
        assert Over(o, c).ram[w] == c[w];
      }
    }
  }

  // ---------- what was pushed, and what it was pushed over ----------

  /** Every cell of `d` the instruction leaves as it was, or leaves the same in whatever was in those cells. */
  ghost predicate Spares<E(!new)>(m: Machine<E>, op: Op, d: set<Word>, a: Cpu<E>) {
    forall b: Cpu<E> | SameExcept(d, a, b) :: SparesIn(m, op, d, a, b)
  }

  ghost predicate SparesIn<E(!new)>(m: Machine<E>, op: Op, d: set<Word>, a: Cpu<E>, b: Cpu<E>) {
    match m.Perform(op, b)
    case None => true
    case Some(c) =>
      forall w | w in d && w in b.ram && w in c.ram :: c.ram[w] == b.ram[w] || Settled(m, op, d, a, w)
  }

  /** On the run from state `a`, no instruction makes something else of a cell in which the two may differ. */
  ghost predicate Sparing<E(!new)>(m: Machine<E>, items: seq<Item>, d: set<Word>, a: Cpu<E>)
    decreases items
  {
    items == [] ||
    (&& (items[0].Kept? ==> Spares(m, items[0].insn.op, d, a))
     && (Effect(m, items[0], a).Some? ==>
           Sparing(m, items[1..], After(m, items[0], d, a), Effect(m, items[0], a).value)))
  }

  /** The bytes the calls of the original have pushed, the last at each address, in the cells that remain. */
  ghost function Pushed<E(!new)>(m: Machine<E>, items: seq<Item>, p: map<Word, Byte>, a: Cpu<E>): map<Word, Byte>
    decreases items
  {
    if items == [] || Effect(m, items[0], a).None? then p
    else
      var p' := if items[0].Pair? then p + PushedBy(items[0], a) else Cut(p, After(m, items[0], p.Keys, a));
      Pushed(m, items[1..], p', Effect(m, items[0], a).value)
  }

  /** The bytes they have overwritten, the first at each address, in the cells that remain. */
  ghost function Covered<E(!new)>(m: Machine<E>, items: seq<Item>, c: map<Word, Byte>, a: Cpu<E>): map<Word, Byte>
    decreases items
  {
    if items == [] || Effect(m, items[0], a).None? then c
    else
      var c' := if items[0].Pair? then CoveredBy(items[0], a) + c else Cut(c, After(m, items[0], c.Keys, a));
      Covered(m, items[1..], c', Effect(m, items[0], a).value)
  }

  /** Where no instruction makes something else of them, the original has in the cells that remain what was pushed
      there, and the new code what was overwritten. */
  lemma {:induction false} PrologueSpares<E(!new)>(m: Machine<E>, items: seq<Item>, p: map<Word, Byte>,
                                                   c: map<Word, Byte>, a: Cpu<E>, o: Cpu<E>)
    requires p.Keys == c.Keys <= a.ram.Keys && p == Cut(a.ram, p.Keys)
    requires Quiet(m, items, c.Keys, a) && Sparing(m, items, c.Keys, a) && Effects(m, items, a) == Some(o)
    ensures Underneath(m, items, c, a) == Covered(m, items, c, a)
    ensures Pushed(m, items, p, a) == Cut(o.ram, Remains(m, items, c.Keys, a))
    decreases items
  {
    if items == [] {
    } else {
      var item, rest := items[0], items[1..];
      var a' := Effect(m, item, a).value;
      if item.Kept? {
        var d', c', p' := After(m, item, c.Keys, a), Beneath(m, item, c, a), Cut(p, After(m, item, p.Keys, a));
        KeptBeneath(m, item, c, a, a');
        KeptSpares(m, item, p, c, a, a');
        PrologueSpares(m, rest, p', c', a', o);
      } else {
        var c', p' := Beneath(m, item, c, a), p + PushedBy(item, a);
        PairBeneath(m, item, c, a, a');
        PushedOver(a.ram, p, PushedBy(item, a));
        PrologueSpares(m, rest, p', c', a', o);
      }
    }
  }

  lemma PushedOver(ram: map<Word, Byte>, p: map<Word, Byte>, pushed: map<Word, Byte>)
    requires p.Keys <= ram.Keys && pushed.Keys <= ram.Keys && p == Cut(ram, p.Keys)
    ensures (p + pushed).Keys == p.Keys + pushed.Keys && p + pushed == Cut(ram + pushed, p.Keys + pushed.Keys)
  {
  }

  /** A cell that is not settled is left as it was. */
  lemma CellsSpared<E(!new)>(m: Machine<E>, op: Op, d: set<Word>, a: Cpu<E>, b: Cpu<E>, b': Cpu<E>, left: set<Word>)
    requires SparesIn(m, op, d, a, b) && m.Perform(op, b) == Some(b')
    requires left <= d && left <= b.ram.Keys && left <= b'.ram.Keys
    requires forall w | w in left :: !Settled(m, op, d, a, w)
    ensures Cut(b'.ram, left) == Cut(b.ram, left)
  {
    forall w | w in left
      ensures b'.ram[w] == b.ram[w]
    {
    }
  }

  lemma KeptSpares<E(!new)>(m: Machine<E>, item: Item, p: map<Word, Byte>, c: map<Word, Byte>, a: Cpu<E>, a': Cpu<E>)
    requires p.Keys == c.Keys <= a.ram.Keys && p == Cut(a.ram, p.Keys) && item.Kept?
    requires Spares(m, item.insn.op, c.Keys, a) && Blind(m, item.insn.op, c.Keys, a) && Effect(m, item, a) == Some(a')
    ensures Beneath(m, item, c, a) == Cut(c, After(m, item, c.Keys, a))
    ensures Cut(p, After(m, item, c.Keys, a)) == Cut(a'.ram, After(m, item, c.Keys, a))
    ensures Cut(p, After(m, item, c.Keys, a)).Keys == After(m, item, c.Keys, a)
  {
    var op, b, d := item.insn.op, Over(a, c), c.Keys;
    OverSame(a, c);
    KeptBeneath(m, item, c, a, a');
    assert SparesIn(m, op, d, a, a) && SparesIn(m, op, d, a, b);
    var b', left := m.Perform(op, b).value, After(m, item, d, a);
    MappedBeneath(m, item, c, a, b');
    CellsSpared(m, op, d, a, b, b', left);
    CellsSpared(m, op, d, a, a, a', left);
    CutCut(a.ram, c, p, left);
  }

  lemma MappedBeneath<E(!new)>(m: Machine<E>, item: Item, c: map<Word, Byte>, a: Cpu<E>, b': Cpu<E>)
    requires item.Kept? && m.Perform(item.insn.op, Over(a, c)) == Some(b')
    requires Beneath(m, item, c, a).Keys == After(m, item, c.Keys, a)
    ensures After(m, item, c.Keys, a) <= b'.ram.Keys
    ensures Beneath(m, item, c, a) == Cut(b'.ram, After(m, item, c.Keys, a))
  {
  }

  lemma CutCut(ram: map<Word, Byte>, c: map<Word, Byte>, p: map<Word, Byte>, left: set<Word>)
    requires left <= c.Keys <= ram.Keys && p == Cut(ram, c.Keys)
    ensures Cut(ram + c, left) == Cut(c, left) && Cut(p, left) == Cut(ram, left) && Cut(ram, left).Keys == left
  {
  }

  /** No call has pushed, at or above `sp`, a byte other than the one it overwrote. */
  ghost predicate PushesUnseen<E(!new)>(m: Machine<E>, items: seq<Item>, a: Cpu<E>, sp: Word) {
    var p, c := Pushed(m, items, map[], a), Covered(m, items, map[], a);
    forall w | w in p && sp <= w :: w in c && p[w] == c[w]
  }

  /** Then nothing is seen exactly when every byte still there is the one it was pushed over. */
  lemma PushesExact<E(!new)>(m: Machine<E>, items: seq<Item>, a: Cpu<E>, o: Cpu<E>)
    requires Quiet(m, items, {}, a) && Sparing(m, items, {}, a) && Effects(m, items, a) == Some(o)
    ensures NothingSeen(m, items, a, o) <==> PushesUnseen(m, items, a, o.reg[ESP])
  {
    var none: map<Word, Byte> := map[];
    assert none.Keys == {} && none == Cut(a.ram, {});
    PrologueSpares(m, items, none, none, a, o);
    PrologueAgrees(m, items, a);
  }
}
