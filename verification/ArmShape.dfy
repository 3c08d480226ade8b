/** What every thunk the Arm relocators make looks like. */
module ArmShape {
  import opened Bytes
  import opened SafeJit
  import opened ArmReloc
  import opened ArmLayout

  /** Every item starts where the previous one leads, and the last leads to `asmAt`. */
  predicate Chain(items: seq<Item>, o: nat, asmAt: nat) {
    if items == [] then o == asmAt
    else items[0].at == o && o < items[0].Next() && Chain(items[1..], items[0].Next(), asmAt)
  }

  lemma {:induction false} ChainBound(items: seq<Item>, o: nat, asmAt: nat)
    requires Chain(items, o, asmAt)
    ensures o <= asmAt
  {
    if items != [] {
      ChainBound(items[1..], items[0].Next(), asmAt);
    }
  }

  /** Each item is what the scan decided at its offset, and the scan stopped at the thunk asm block. */
  lemma {:induction false} ScanVisits(visit: Visitor, len: nat, o: nat)
    requires Covers(visit, len) && o <= len && AdvancesFrom(visit, len, o) && Scan(visit, len, o).Ok?
    ensures var plan := Scan(visit, len, o).value;
            && Chain(plan.items, o, plan.asmAt) && plan.asmAt <= len && visit(plan.asmAt) == Reached
            && (forall i | 0 <= i < |plan.items| ::
                  plan.items[i].at <= len && visit(plan.items[i].at) == Visited(plan.items[i]))
    decreases len - o
  {
    if visit(o).Visited? {
      var item := visit(o).item;
      ScanVisits(visit, len, item.Next());
      var rest := Scan(visit, len, item.Next()).value;
      var plan := Scan(visit, len, o).value;
      assert plan.items == [item] + rest.items && plan.items[1..] == rest.items;
    }
  }

  /** Instructions that lead from aligned offsets to aligned offsets keep to them. */
  lemma {:induction false} ChainAligned(items: seq<Item>, o: nat, asmAt: nat)
    requires Chain(items, o, asmAt) && o % 4 == 0
    requires forall i | 0 <= i < |items| :: StaysAligned(items[i])
    ensures asmAt % 4 == 0 && forall i | 0 <= i < |items| :: items[i].at % 4 == 0
    decreases items
  {
    if items != [] {
      ChainAligned(items[1..], items[0].Next(), asmAt);
      assert items == [items[0]] + items[1..];
    }
  }

  lemma {:induction false} PathItem(items: seq<Item>, from: nat, len: nat, i: nat)
    requires Path(items, from, len) && i < |items|
    ensures from <= items[i].at && items[i].at + 4 <= items[i].Next() <= len
    decreases items
  {
    PathFrom(items[1..], items[0].Next(), items[0].Next(), len);
    if i > 0 {
      PathItem(items[1..], items[0].Next(), len, i - 1);
    }
  }

  predicate StaysAligned(item: Item) { item.at % 4 == 0 ==> item.Next() % 4 == 0 }

  /** What is known of a plan: its items are in place, aligned, and name real registers. */
  predicate Sound(plan: Plan, len: nat, regs: nat) {
    && Path(plan.items, 0, len) && Chain(plan.items, 0, plan.asmAt) && plan.asmAt <= len
    && forall i | 0 <= i < |plan.items| ::
         plan.items[i].at % 4 == 0 && (plan.items[i].Rewritten() ==> plan.items[i].reg < regs)
  }

  /** The code produced agrees with everything emitted, outside the placeholders. */
  ghost predicate AgreesOutside(code: seq<Byte>, body: seq<Byte>, fixups: seq<Fixup>) {
    |body| <= |code| && forall j | 0 <= j < |body| :: !InSlot(fixups, j) ==> code[j] == body[j]
  }

  lemma {:induction false} FixupsFrom(items: seq<Item>, from: nat, len: nat, delta: nat)
    requires Path(items, from, len)
    ensures Separate(Fixups(items, delta), from + delta)
    ensures forall f | f in Fixups(items, delta) :: from + delta <= f.at
    decreases items
  {
    if items == [] {
    } else {
      var item := items[0];
      FixupsFrom(items[1..], item.Next(), len, After(item, delta));
      var rest := Fixups(items[1..], After(item, delta));
      if item.Rewritten() {
        SeparateFrom(rest, item.at + delta + 4, item.Next() + After(item, delta));
        assert Fixups(items, delta)[1..] == rest;
      } else {
        SeparateFrom(rest, from + delta, item.Next() + After(item, delta));
        assert Fixups(items, delta) == rest;
      }
    }
  }

  lemma SeparateFrom(fixups: seq<Fixup>, less: nat, from: nat)
    requires Separate(fixups, from) && less <= from
    ensures Separate(fixups, less)
  {
  }

  /** Placeholders are aligned when the instructions are, and name their registers. */
  lemma {:induction false} FixupsOf(items: seq<Item>, regs: nat, delta: nat)
    requires forall i | 0 <= i < |items| :: items[i].at % 4 == 0 && (items[i].Rewritten() ==> items[i].reg < regs)
    requires delta % 4 == 0
    ensures forall f | f in Fixups(items, delta) :: f.at % 4 == 0 && f.reg < regs
    decreases items
  {
    if items == [] {
    } else {
      forall i | 0 <= i < |items[1..]|
        ensures items[1..][i].at % 4 == 0 && (items[1..][i].Rewritten() ==> items[1..][i].reg < regs)
      {
        assert items[1..][i] == items[i + 1];
      }
      FixupsOf(items[1..], regs, After(items[0], delta));
    }
  }

  predicate RegisterBelow(item: Item, regs: nat) { item.Rewritten() ==> item.reg < regs }

  lemma {:induction false} FixupRegisters(items: seq<Item>, regs: nat, delta: nat)
    requires forall i | 0 <= i < |items| :: RegisterBelow(items[i], regs)
    ensures forall f | f in Fixups(items, delta) :: f.reg < regs
    decreases items
  {
    if items == [] {
    } else {
      forall i | 0 <= i < |items[1..]|
        ensures RegisterBelow(items[1..][i], regs)
      {
        assert items[1..][i] == items[i + 1];
      }
      assert RegisterBelow(items[0], regs);
      FixupRegisters(items[1..], regs, After(items[0], delta));
    }
  }

  /** Bytes away from every slot are those emitted. */
  lemma SameWindow(code: seq<Byte>, body: seq<Byte>, fixups: seq<Fixup>, p: nat)
    requires AgreesOutside(code, body, fixups) && p + 4 <= |body|
    requires forall f | f in fixups :: f.at + 4 <= p || p + 4 <= f.at
    ensures code[p..p + 4] == body[p..p + 4]
  {
    forall j | p <= j < p + 4
      ensures code[j] == body[j]
    {
      assert !InSlot(fixups, j);
    }
  }

  /** The load through a register stands after its placeholder. */
  lemma ThroughWord(code: seq<Byte>, t: seq<Byte>, item: Item, delta: nat)
    requires item.Load? && LaidItem(code, t, item, delta)
    ensures WordAt(code, item.at + delta + 4) == item.word
  {
    Le4RoundTrip(item.word);
  }

  lemma PlaceOne(code: seq<Byte>, body: seq<Byte>, t: seq<Byte>, fixups: seq<Fixup>, item: Item, delta: nat)
    requires LaidItem(body, t, item, delta) && AgreesOutside(code, body, fixups)
    requires forall f | f in fixups ::
               f.at + 4 <= item.at + delta || item.at + 4 + After(item, delta) <= f.at || f in Slot(item, delta)
    ensures LaidItem(code, t, item, delta)
  {
    if item.Load? {
      SameWindow(code, body, fixups, item.at + delta + 4);
    } else if !item.Rewritten() {
      SameWindow(code, body, fixups, item.at + delta);
    }
  }

  /** The new code for `item` stands in its place, and `loads` holds of its placeholder. */
  ghost predicate Placed(loads: Fixup -> bool, code: seq<Byte>, t: seq<Byte>, item: Item, delta: nat) {
    LaidItem(code, t, item, delta) && (item.Rewritten() ==> loads(Fixup(item.at + delta, item.reg, item.target)))
  }

  ghost predicate AllPlaced(loads: Fixup -> bool, code: seq<Byte>, t: seq<Byte>, items: seq<Item>, delta: nat) {
    items == [] ||
    (Placed(loads, code, t, items[0], delta) && AllPlaced(loads, code, t, items[1..], After(items[0], delta)))
  }

  /** Where the new code has the instruction `i` of a plan, or its thunk asm block. */
  function NewOffset(plan: Plan, i: nat): nat
    requires i <= |plan.items|
  {
    (if i < |plan.items| then plan.items[i].at else plan.asmAt) + 4 * Loads(plan.items[..i])
  }

  lemma {:induction false} PlacedAtIndex(loads: Fixup -> bool, code: seq<Byte>, t: seq<Byte>, items: seq<Item>,
                                         delta: nat, i: nat)
    requires AllPlaced(loads, code, t, items, delta) && i < |items|
    ensures Placed(loads, code, t, items[i], delta + 4 * Loads(items[..i]))
  {
    if i == 0 {
      assert items[..0] == [];
    } else {
      PlacedAtIndex(loads, code, t, items[1..], After(items[0], delta), i - 1);
      assert items[..i][1..] == items[1..][..i - 1];
    }
  }

  lemma {:induction false} ChainAtIndex(items: seq<Item>, o: nat, asmAt: nat, i: nat)
    requires Chain(items, o, asmAt) && i < |items|
    ensures items[i].Next() == if i + 1 < |items| then items[i + 1].at else asmAt
  {
    if i > 0 {
      ChainAtIndex(items[1..], items[0].Next(), asmAt, i - 1);
    }
  }

  lemma {:induction false} LoadsTo(items: seq<Item>, i: nat)
    requires i < |items|
    ensures 4 * Loads(items[..i + 1]) == After(items[i], 4 * Loads(items[..i])) && Loads(items[..i + 1]) <= Loads(items)
  {
    assert items[..i + 1][1..] == items[1..][..i];
    if i == 0 {
      assert items[..0] == [] && items[1..][..0] == [];
    } else {
      LoadsTo(items[1..], i - 1);
      assert items[..i][1..] == items[1..][..i - 1];
    }
  }

  /** The new code before an instruction that is not a load is as much longer as after it. */
  lemma NewOffsets(plan: Plan, i: nat, delta: nat)
    requires Chain(plan.items, 0, plan.asmAt) && i < |plan.items| && delta == 4 * Loads(plan.items[..i])
    ensures NewOffset(plan, i) == plan.items[i].at + delta && delta <= 4 * Loads(plan.items)
    ensures NewOffset(plan, i + 1) == plan.items[i].Next() + After(plan.items[i], delta)
    ensures After(plan.items[i], delta) <= 4 * Loads(plan.items)
  {
    ChainAtIndex(plan.items, 0, plan.asmAt, i);
    LoadsTo(plan.items, i);
  }

  /** Code that agrees with what was emitted outside the placeholders has everything in its place. */
  lemma {:induction false} PlaceAll(loads: Fixup -> bool, code: seq<Byte>, body: seq<Byte>, t: seq<Byte>,
                                    fixups: seq<Fixup>, items: seq<Item>, o: nat, delta: nat)
    requires Path(items, o, |t|) && Laid(body, t, items, delta) && AgreesOutside(code, body, fixups)
    requires forall f | f in fixups :: f.at + 4 <= o + delta || f in Fixups(items, delta)
    requires forall f | f in Fixups(items, delta) :: loads(f)
    ensures AllPlaced(loads, code, t, items, delta)
    decreases items
  {
    if items == [] {
    } else {
      var item, rest, d := items[0], items[1..], After(items[0], delta);
      FixupsFrom(rest, item.Next(), |t|, d);
      forall f | f in fixups
        ensures f.at + 4 <= item.Next() + d || f in Fixups(rest, d)
      {
      }
      PlaceAll(loads, code, body, t, fixups, rest, item.Next(), d);
      PlaceOne(code, body, t, fixups, item, delta);
      if item.Rewritten() {
        assert Fixup(item.at + delta, item.reg, item.target) in Fixups(items, delta);
      }
    }
  }

  /** The code a relocator makes before its pool is filled, with every literal loaded. */
  lemma CodePlaced(loads: Fixup -> bool, start: Progress, items: seq<Item>, p: Progress, before: seq<Byte>,
                   code: seq<Byte>)
    requires Ready(start, 0) && start.buf.copied == 0 && Path(items, 0, |start.buf.orig|)
    requires p == EmitAll(start, items) && Contents(p) <= before && AgreesOutside(code, before, Fixups(items, 0))
    requires forall f | f in Fixups(items, 0) :: loads(f)
    ensures AllPlaced(loads, code, start.buf.orig, items, 0)
  {
    EmitAllLaid(start, items, 0, Contents(p));
    PlaceAll(loads, code, Contents(p), start.buf.orig, Fixups(items, 0), items, 0, 0);
  }

  // ---------- patching keeps the prologue ----------

  /** `patched` is `code` except for `n` bytes from `magic` on. */
  ghost predicate SameOutside(patched: seq<Byte>, code: seq<Byte>, magic: nat, n: nat) {
    |patched| == |code| && forall k | 0 <= k < |code| && !(magic <= k < magic + n) :: patched[k] == code[k]
  }

  lemma WindowKept(patched: seq<Byte>, code: seq<Byte>, magic: nat, n: nat, p: nat, k: nat)
    requires SameOutside(patched, code, magic, n) && p + k <= |code| && (p + k <= magic || magic + n <= p)
    ensures patched[p..p + k] == code[p..p + k]
  {
  }

  /** Loads before the magic survive patching. */
  ghost predicate LoadsKept(loads: Fixup -> bool, loads': Fixup -> bool, magic: nat) {
    forall f: Fixup | f.at + 4 <= magic && loads(f) :: loads'(f)
  }

  lemma {:induction false} AllPlacedKept(loads: Fixup -> bool, loads': Fixup -> bool, patched: seq<Byte>,
                                         code: seq<Byte>, t: seq<Byte>, items: seq<Item>, delta: nat, o: nat,
                                         asmAt: nat, magic: nat, n: nat)
    requires SameOutside(patched, code, magic, n) && AllPlaced(loads, code, t, items, delta)
    requires LoadsKept(loads, loads', magic)
    requires Chain(items, o, asmAt) && Path(items, o, |t|) && asmAt + delta + 4 * Loads(items) <= magic
    ensures AllPlaced(loads', patched, t, items, delta)
    decreases items
  {
    if items == [] {
    } else {
      var item, d := items[0], After(items[0], delta);
      ChainBound(items[1..], item.Next(), asmAt);
      if item.Load? {
        WindowKept(patched, code, magic, n, item.at + delta + 4, 4);
      } else if !item.Rewritten() {
        WindowKept(patched, code, magic, n, item.at + delta, 4);
      }
      AllPlacedKept(loads, loads', patched, code, t, items[1..], d, item.Next(), asmAt, magic, n);
    }
  }

  /** A word of the template's tail is where the tail is. */
  lemma TailWord(t: seq<Byte>, code: seq<Byte>, patched: seq<Byte>, a: nat, k: nat, magic: nat, n: nat, p: nat)
    requires a <= p && p + 4 <= magic && magic + n == |t|
    requires |t| + k <= |code| && code[a + k..|t| + k] == t[a..]
    requires SameOutside(patched, code, magic + k, n)
    ensures p + k + 4 <= |patched| && WordAt(patched, p + k) == WordAt(t, p)
  {
    WindowKept(patched, code, magic + k, n, p + k, 4);
    SliceSlice(code, a + k, |t| + k, p - a, p - a + 4);
    SliceSlice(t, a, |t|, p - a, p - a + 4);
    assert a + k + (p - a) == p + k && a + k + (p - a + 4) == p + k + 4;
    assert t[a..|t|] == t[a..];
  }

  /** Nothing to rewrite leaves the buffer unused. */
  lemma {:induction false} NothingEmitted(p: Progress, items: seq<Item>, delta: nat)
    requires Path(items, p.buf.copied, |p.buf.orig|) && Fixups(items, delta) == []
    ensures EmitAll(p, items) == p
    decreases items
  {
    if items == [] {
    } else {
      PathFrom(items[1..], p.buf.copied, items[0].Next(), |p.buf.orig|);
      NothingEmitted(p, items[1..], After(items[0], delta));
    }
  }

  /** The finished thunk: everything emitted, padding, and the filled pool. */
  lemma FinishFills(width: nat, encode: LoadEncoder, t: seq<Byte>, magic: nat, items: seq<Item>)
    returns (before: seq<Byte>)
    requires Path(items, 0, |t|) && magic <= |t| && width > 0
    requires var p := EmitAll(Start(t, magic), items); InBounds(p.extra, |p.buf.out|) && Finish(width, encode, p).Ok?
    ensures var p := EmitAll(Start(t, magic), items);
            var thunk := Finish(width, encode, p).value.thunk;
            && Ready(p, 4 * Loads(items)) && p.newMagic == magic + 4 * Loads(items) && p.extra == Fixups(items, 0)
            && Contents(p) <= before && (|before| == |Contents(p)| || |before| == |Contents(p)| + width / 2)
            && PoolFilled(width, encode, before, thunk, p.extra)
  {
    var start := Start(t, magic);
    var p := EmitAll(start, items);
    EmitAllSizes(start, items, 0);
    assert p.extra == Fixups(items, 0);
    if p.extra == [] {
      NothingEmitted(start, items, 0);
      before := t;
      assert t[0..] == t;
    } else {
      before := BeforePool(width, p);
      BeforePoolSize(width, p, 4 * Loads(items));
      FixupsFrom(items, 0, |t|, 0);
      BackpatchFillsPool(width, encode, before, p.extra, 0);
    }
  }

  /** A thunk is at least as much longer than the template as its magic has moved. */
  lemma RelocatedSize(width: nat, encode: LoadEncoder, visit: Visitor, t: seq<Byte>, magic: nat)
    requires Advances(visit, |t|) && magic <= |t| && width > 0 && Relocated(visit, width, encode, t, magic).Ok?
    ensures var thunk := Relocated(visit, width, encode, t, magic).value;
            magic <= thunk.magicOffset && |t| + (thunk.magicOffset - magic) <= |thunk.thunk|
  {
    var items := Scan(visit, |t|, 0).value.items;
    var k, p := 4 * Loads(items), EmitAll(Start(t, magic), items);
    EmitAllInBounds(Start(t, magic), items);
    var code := Finish(width, encode, p).value.thunk;
    var before := FinishFills(width, encode, t, magic, items);
    ContentsSize(p, k);
    FilledSize(width, encode, before, code, p.extra);
  }

  lemma FilledSize(width: nat, encode: LoadEncoder, before: seq<Byte>, code: seq<Byte>, fixups: seq<Fixup>)
    requires PoolFilled(width, encode, before, code, fixups)
    ensures |before| <= |code|
  {
  }

  lemma BeforePoolSize(width: nat, p: Progress, delta: nat)
    requires Ready(p, delta) && width > 0
    ensures Contents(p) <= BeforePool(width, p)
    ensures |Contents(p)| == |p.buf.orig| + delta
    ensures |BeforePool(width, p)| == |Contents(p)|
                                      + if (|p.buf.orig| + delta - p.newMagic) % width == 0 then 0 else width / 2
  {
  }

  lemma {:induction false} EmitAllCopied(p: Progress, items: seq<Item>, o: nat, asmAt: nat)
    requires Path(items, p.buf.copied, |p.buf.orig|) && Chain(items, o, asmAt) && p.buf.copied <= o
    ensures EmitAll(p, items).buf.copied <= asmAt
    decreases items
  {
    if items == [] {
    } else {
      PathFrom(items[1..], items[0].at + 4, items[0].Next(), |p.buf.orig|);
      PathFrom(items[1..], Emit(p, items[0]).buf.copied, items[0].at + 4, |p.buf.orig|);
      EmitAllCopied(Emit(p, items[0]), items[1..], items[0].Next(), asmAt);
    }
  }

  lemma {:induction false} FixupsBelow(items: seq<Item>, o: nat, len: nat, asmAt: nat, delta: nat)
    requires Path(items, o, len) && Chain(items, o, asmAt)
    ensures forall f | f in Fixups(items, delta) :: f.at + 4 <= asmAt + delta + 4 * Loads(items)
    decreases items
  {
    if items == [] {
    } else {
      FixupsBelow(items[1..], items[0].Next(), len, asmAt, After(items[0], delta));
      ChainBound(items[1..], items[0].Next(), asmAt);
    }
  }

  /** From the thunk asm block on, the new code is the template as it was. */
  lemma TailKept(t: seq<Byte>, code: seq<Byte>, p: Progress, asmAt: nat, delta: nat)
    requires Ready(p, delta) && p.buf.orig == t && p.buf.copied <= asmAt <= |t|
    requires AgreesOutside(code, Contents(p), p.extra)
    requires forall f | f in p.extra :: f.at + 4 <= asmAt + delta
    ensures |t| + delta <= |code| && code[asmAt + delta..|t| + delta] == t[asmAt..]
  {
    forall j | asmAt + delta <= j < |t| + delta
      ensures code[j] == t[j - delta]
    {
      assert !InSlot(p.extra, j);
    }
  }

  lemma AsmKept(regs: nat, t: seq<Byte>, magic: nat, plan: Plan, p: Progress, code: seq<Byte>, k: nat)
    requires Sound(plan, |t|, regs) && p == EmitAll(Start(t, magic), plan.items) && Ready(p, k)
    requires k == 4 * Loads(plan.items)
    requires p.extra == Fixups(plan.items, 0) && AgreesOutside(code, Contents(p), p.extra)
    ensures |t| + k <= |code| && code[plan.asmAt + k..|t| + k] == t[plan.asmAt..]
  {
    FixupsBelow(plan.items, 0, |t|, plan.asmAt, 0);
    EmitAllCopied(Start(t, magic), plan.items, 0, plan.asmAt);
    TailKept(t, code, p, plan.asmAt, k);
  }

  lemma ContentsSize(p: Progress, delta: nat)
    requires Ready(p, delta)
    ensures |Contents(p)| == |p.buf.orig| + delta
  {
  }

  lemma MultipleOfFour(len: nat, loads: nat, before: nat)
    requires len % 4 == 0 && (before == len + 4 * loads || before == len + 4 * loads + 4)
    ensures before % 4 == 0
  {
  }

  // ---------- nothing to rewrite ----------

  predicate NoneRewritten(items: seq<Item>) { forall i | 0 <= i < |items| :: !items[i].Rewritten() }

  lemma {:induction false} NoFixups(items: seq<Item>, delta: nat)
    ensures Fixups(items, delta) == [] <==> NoneRewritten(items)
    decreases items
  {
    if items == [] {
    } else {
      var rest := items[1..];
      NoFixups(rest, After(items[0], delta));
      assert NoneRewritten(items) <==> !items[0].Rewritten() && NoneRewritten(rest) by {
        assert forall i | 0 <= i < |rest| :: rest[i] == items[i + 1];
        assert forall i | 0 < i < |items| :: items[i] == rest[i - 1];
      }
    }
  }

  /** What the relocator does after the scan. */
  lemma RelocatedFinished(width: nat, encode: LoadEncoder, visit: Visitor, t: seq<Byte>, magic: nat, plan: Plan,
                          thunk: RelocThunk) returns (p: Progress)
    requires width > 0 && magic <= |t| && Advances(visit, |t|) && Scan(visit, |t|, 0) == Ok(plan)
    requires Relocated(visit, width, encode, t, magic) == Ok(thunk)
    ensures p == EmitAll(Start(t, magic), plan.items) && p.buf.Valid() && InBounds(p.extra, |p.buf.out|)
    ensures Path(plan.items, 0, |t|) && p.extra == Fixups(plan.items, 0) && Finish(width, encode, p) == Ok(thunk)
  {
    var start := Start(t, magic);
    p := EmitAll(start, plan.items);
    EmitAllInBounds(start, plan.items);
    EmitAllSizes(start, plan.items, 0);
  }

  /** The thunk is the template with its magic where it was exactly when no instruction was rewritten. */
  lemma UnchangedExact(width: nat, encode: LoadEncoder, visit: Visitor, t: seq<Byte>, magic: nat, plan: Plan,
                       thunk: RelocThunk)
    requires width > 0 && magic <= |t| && Advances(visit, |t|) && Scan(visit, |t|, 0) == Ok(plan)
    requires Relocated(visit, width, encode, t, magic) == Ok(thunk)
    ensures thunk == RelocThunk(t, magic) <==> NoneRewritten(plan.items)
  {
    var p := RelocatedFinished(width, encode, visit, t, magic, plan, thunk);
    NoFixups(plan.items, 0);
    if p.extra == [] {
      NothingEmitted(Start(t, magic), plan.items, 0);
    } else {
      var before := FinishFills(width, encode, t, magic, plan.items);
      ContentsSize(p, 4 * Loads(plan.items));
      PoolLonger(width, encode, before, thunk.thunk, p.extra);
    }
  }

  lemma PoolLonger(width: nat, encode: LoadEncoder, before: seq<Byte>, code: seq<Byte>, fixups: seq<Fixup>)
    requires width > 0 && fixups != [] && PoolFilled(width, encode, before, code, fixups)
    ensures |before| < |code|
  {
    MulPositive(width, |fixups|);
  }

  lemma MulPositive(a: nat, b: nat)
    requires a > 0 && b > 0
    ensures a * b > 0
  {
  }
}
