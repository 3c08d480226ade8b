/** Where the relocators put each instruction and literal. */
module ArmLayout {
  import opened Bytes
  import opened CowBuf
  import opened SafeJit
  import opened ArmReloc

  function Loads(items: seq<Item>): nat {
    if items == [] then 0 else (if items[0].Load? then 1 else 0) + Loads(items[1..])
  }

  /** Bytes inserted before the instruction that follows `item`. */
  function After(item: Item, delta: nat): nat {
    if item.Load? then delta + 4 else delta
  }

  /** The placeholder of an item, when the new code is `delta` bytes longer than the template so far. */
  function Slot(item: Item, delta: nat): seq<Fixup> {
    if item.Rewritten() then [Fixup(item.at + delta, item.reg, item.target)] else []
  }

  function Fixups(items: seq<Item>, delta: nat): seq<Fixup> {
    if items == [] then [] else Slot(items[0], delta) + Fixups(items[1..], After(items[0], delta))
  }

  /** Everything written, and the rest of the template. */
  function Contents(p: Progress): seq<Byte>
    requires p.buf.Valid()
  {
    p.buf.out + p.buf.orig[p.buf.copied..]
  }

  predicate Ready(p: Progress, delta: nat) {
    p.buf.Valid() && |p.buf.out| == p.buf.copied + delta
  }

  /** The state after the first item of a path. */
  lemma Peel(p: Progress, items: seq<Item>, delta: nat) returns (q: Progress)
    requires items != [] && Ready(p, delta) && Path(items, p.buf.copied, |p.buf.orig|)
    ensures items[0].at + 4 <= |p.buf.orig|
    ensures Ready(q, After(items[0], delta)) && q.buf.orig == p.buf.orig
    ensures Path(items[1..], items[0].at + 4, |q.buf.orig|) && Path(items[1..], q.buf.copied, |q.buf.orig|)
    ensures EmitAll(p, items) == EmitAll(q, items[1..])
    ensures q.newMagic - p.newMagic == After(items[0], delta) - delta
    ensures q.extra == p.extra + Slot(items[0], delta)
    ensures if items[0].Rewritten()
            then q.buf.out == p.buf.out + p.buf.orig[p.buf.copied..items[0].at] + items[0].Replacement()
                 && q.buf.copied == items[0].at + 4
            else q == p
  {
    var item, rest := items[0], items[1..];
    PathFrom(rest, item.at + 4, item.Next(), |p.buf.orig|);
    q := Emit(p, item);
    PathFrom(rest, q.buf.copied, item.at + 4, |p.buf.orig|);
  }

  /** The sizes and placeholders after a whole path. */
  lemma {:induction false} EmitAllSizes(p: Progress, items: seq<Item>, delta: nat)
    requires Ready(p, delta) && Path(items, p.buf.copied, |p.buf.orig|)
    ensures var q := EmitAll(p, items);
            && Ready(q, delta + 4 * Loads(items))
            && q.newMagic == p.newMagic + 4 * Loads(items)
            && q.extra == p.extra + Fixups(items, delta)
    decreases items
  {
    if items == [] {
    } else {
      var q := Peel(p, items, delta);
      var d := After(items[0], delta);
      EmitAllSizes(q, items[1..], d);
      assert p.extra + Slot(items[0], delta) + Fixups(items[1..], d) == p.extra + Fixups(items, delta);
    }
  }

  /** What precedes the first item of a path is the template as it was. */
  lemma {:induction false} EmitAllPrefix(p: Progress, items: seq<Item>, delta: nat, u: nat, c: seq<Byte>)
    requires Ready(p, delta) && p.buf.copied <= u <= |p.buf.orig| && Path(items, u, |p.buf.orig|)
    requires Path(items, p.buf.copied, |p.buf.orig|) && c == Contents(EmitAll(p, items))
    ensures p.buf.out + p.buf.orig[p.buf.copied..u] <= c
    decreases items
  {
    if items == [] {
      assert p.buf.orig[p.buf.copied..u] + p.buf.orig[u..] == p.buf.orig[p.buf.copied..];
    } else {
      var q := Peel(p, items, delta);
      if items[0].Rewritten() {
        EmitAllPrefix(q, items[1..], After(items[0], delta), items[0].at + 4, c);
        PrefixStep(p.buf.out, p.buf.orig, p.buf.copied, u, items[0].at, items[0].Replacement(), c);
      } else {
        PathFrom(items[1..], u, items[0].Next(), |p.buf.orig|);
        EmitAllPrefix(p, items[1..], delta, u, c);
      }
    }
  }

  lemma PrefixStep(out: seq<Byte>, t: seq<Byte>, copied: nat, u: nat, at: nat, inserted: seq<Byte>, c: seq<Byte>)
    requires copied <= u <= at && at + 4 <= |t|
    requires out + t[copied..at] + inserted + t[at + 4..at + 4] <= c
    ensures out + t[copied..u] <= c
  {
    assert t[copied..u] <= t[copied..at];
    assert out + t[copied..u] <= out + t[copied..at] <= out + t[copied..at] + inserted + t[at + 4..at + 4];
  }

  /** An instruction kept, or a load through a register, stands where the offset map says. */
  predicate LaidItem(code: seq<Byte>, t: seq<Byte>, item: Item, delta: nat) {
    && item.at + 4 <= |t| && item.at + After(item, delta) + 4 <= |code|
    && (item.Load? ==> code[item.at + delta + 4..item.at + delta + 8] == Le4(item.word))
    && (!item.Rewritten() ==> code[item.at + delta..item.at + delta + 4] == t[item.at..item.at + 4])
  }

  predicate Laid(code: seq<Byte>, t: seq<Byte>, items: seq<Item>, delta: nat) {
    items == [] || (LaidItem(code, t, items[0], delta) && Laid(code, t, items[1..], After(items[0], delta)))
  }

  lemma {:induction false} EmitAllLaid(p: Progress, items: seq<Item>, delta: nat, c: seq<Byte>)
    requires Ready(p, delta) && Path(items, p.buf.copied, |p.buf.orig|) && c == Contents(EmitAll(p, items))
    ensures Laid(c, p.buf.orig, items, delta)
    decreases items
  {
    if items == [] {
    } else {
      var q := Peel(p, items, delta);
      EmitAllLaid(q, items[1..], After(items[0], delta), c);
      EmitAllPrefix(q, items[1..], After(items[0], delta), items[0].at + 4, c);
      LaidFirst(p, q, items[0], delta, c);
    }
  }

  lemma LaidFirst(p: Progress, q: Progress, item: Item, delta: nat, c: seq<Byte>)
    requires Ready(p, delta) && p.buf.copied <= item.at && item.at + 4 <= |p.buf.orig|
    requires if item.Rewritten()
             then q.buf ==
                  View(p.buf.orig, p.buf.out + p.buf.orig[p.buf.copied..item.at] + item.Replacement(), item.at + 4)
             else q == p
    requires q.buf.out + q.buf.orig[q.buf.copied..item.at + 4] <= c
    ensures LaidItem(c, p.buf.orig, item, delta)
  {
    var pre := q.buf.out + q.buf.orig[q.buf.copied..item.at + 4];
    assert |pre| == item.at + 4 + After(item, delta);
    assert pre == c[..|pre|];
    var k := item.at + delta;
    if item.Load? {
      assert pre == p.buf.out + p.buf.orig[p.buf.copied..item.at] + Zeros(4) + Le4(item.word);
      assert c[k + 4..k + 8] == pre[k + 4..k + 8];
    } else if !item.Rewritten() {
      assert c[k..k + 4] == pre[k..k + 4];
    }
  }

  // ---------- the literal pool ----------

  predicate InSlot(fixups: seq<Fixup>, j: int) {
    exists f | f in fixups :: f.at <= j < f.at + 4
  }

  /** Slots in increasing order that do not overlap. */
  predicate Separate(fixups: seq<Fixup>, from: nat) {
    fixups == [] || (from <= fixups[0].at && Separate(fixups[1..], fixups[0].at + 4))
  }

  lemma {:induction false} SeparateAfter(fixups: seq<Fixup>, from: nat)
    requires Separate(fixups, from)
    ensures forall f | f in fixups :: from <= f.at
  {
    if fixups == [] {
    } else {
      SeparateAfter(fixups[1..], fixups[0].at + 4);
      assert fixups == [fixups[0]] + fixups[1..];
    }
  }

  /** The slot of the `i`th placeholder loads the `i`th literal, which holds its target. */
  predicate SlotFilled(width: nat, encode: LoadEncoder, code: seq<Byte>, fixups: seq<Fixup>, pool: nat, i: nat)
    requires i < |fixups|
  {
    LiteralLoaded(width, encode, code, fixups[i], pool, pool + width * i)
  }

  predicate LiteralLoaded(width: nat, encode: LoadEncoder, code: seq<Byte>, f: Fixup, pool: nat, entry: nat) {
    && f.at + 4 <= pool <= |code| && entry + width <= |code|
    && encode(f.reg, f.at, entry).Some?
    && code[f.at..f.at + 4] == Le4(encode(f.reg, f.at, entry).value)
    && code[entry..entry + width] == Le(f.target, width)
  }

  /** The pool is correct: every slot filled, every literal in place, and no other byte changed. */
  ghost predicate PoolFilled(width: nat, encode: LoadEncoder, before: seq<Byte>, code: seq<Byte>, fixups: seq<Fixup>) {
    && |code| == |before| + width * |fixups|
    && (forall i | 0 <= i < |fixups| :: SlotFilled(width, encode, code, fixups, |before|, i))
    && (forall j | 0 <= j < |before| :: !InSlot(fixups, j) ==> code[j] == before[j])
  }

  lemma {:induction false} BackpatchFillsPool(width: nat, encode: LoadEncoder, before: seq<Byte>, fixups: seq<Fixup>,
                                              from: nat)
    requires InBounds(fixups, |before|) && Separate(fixups, from)
    requires Backpatch(width, encode, before, fixups).Ok?
    ensures PoolFilled(width, encode, before, Backpatch(width, encode, before, fixups).value, fixups)
    decreases fixups
  {
    if fixups == [] {
      MulZero(width);
    } else {
      var f, rest := fixups[0], fixups[1..];
      var patched := BackpatchOne(width, encode, before, f).value;
      var code := Backpatch(width, encode, before, fixups).value;
      BackpatchFillsPool(width, encode, patched, rest, f.at + 4);
      SeparateAfter(rest, f.at + 4);
      MulNext(width, |rest|);
      FirstSlot(width, encode, before, patched, code, fixups);
      forall i | 0 < i < |fixups|
        ensures SlotFilled(width, encode, code, fixups, |before|, i)
      {
        LaterSlot(width, encode, code, fixups, |before|, i);
      }
      forall j | 0 <= j < |before| && !InSlot(fixups, j)
        ensures code[j] == before[j]
      {
        OutsideSlots(width, before, patched, fixups, f, j);
      }
    }
  }

  /** The pool is filled exactly when every load can be encoded at the distance of its literal. */
  lemma {:induction false} BackpatchExact(width: nat, encode: LoadEncoder, before: seq<Byte>, fixups: seq<Fixup>)
    requires InBounds(fixups, |before|)
    ensures Backpatch(width, encode, before, fixups).Err?
            ==> Backpatch(width, encode, before, fixups) == Err(EncodingError)
    ensures Backpatch(width, encode, before, fixups).Ok?
            <==> forall i | 0 <= i < |fixups| :: LoadEncodes(width, encode, fixups[i], |before|, i)
    decreases fixups
  {
    if fixups != [] {
      var rest := fixups[1..];
      MulZero(width);
      assert LoadEncodes(width, encode, fixups[0], |before|, 0) <==> BackpatchOne(width, encode, before, fixups[0]).Ok?;
      if BackpatchOne(width, encode, before, fixups[0]).Ok? {
        BackpatchExact(width, encode, BackpatchOne(width, encode, before, fixups[0]).value, rest);
        RestEncodes(width, encode, fixups, |before|);
      }
    }
  }

  predicate LoadEncodes(width: nat, encode: LoadEncoder, f: Fixup, pool: nat, i: nat) {
    encode(f.reg, f.at, pool + width * i).Some?
  }

  lemma RestEncodes(width: nat, encode: LoadEncoder, fixups: seq<Fixup>, pool: nat)
    requires fixups != []
    ensures (forall i | 0 < i < |fixups| :: LoadEncodes(width, encode, fixups[i], pool, i))
            <==> forall i | 0 <= i < |fixups[1..]| :: LoadEncodes(width, encode, fixups[1..][i], pool + width, i)
  {
    forall i | 0 <= i < |fixups| - 1
      ensures LoadEncodes(width, encode, fixups[1..][i], pool + width, i)
              <==> LoadEncodes(width, encode, fixups[i + 1], pool, i + 1)
    {
      MulNext(width, i);
    }
    if forall i | 0 <= i < |fixups[1..]| :: LoadEncodes(width, encode, fixups[1..][i], pool + width, i) {
      forall i | 0 < i < |fixups|
        ensures LoadEncodes(width, encode, fixups[i], pool, i)
      {
        assert LoadEncodes(width, encode, fixups[1..][i - 1], pool + width, i - 1);
      }
    }
  }

  lemma MulZero(width: nat)
    ensures width * 0 == 0
  {
  }

  lemma MulNext(width: nat, n: nat)
    ensures width + width * n == width * (n + 1) && width * 0 == 0
  {
  }

  lemma LaterSlot(width: nat, encode: LoadEncoder, code: seq<Byte>, fixups: seq<Fixup>, pool: nat, i: nat)
    requires 0 < i < |fixups| && InBounds(fixups, pool)
    requires SlotFilled(width, encode, code, fixups[1..], pool + width, i - 1)
    ensures SlotFilled(width, encode, code, fixups, pool, i)
  {
    MulNext(width, i - 1);
    assert fixups[i] == fixups[1..][i - 1] && fixups[i] in fixups;
  }

  lemma OutsideSlots(width: nat, before: seq<Byte>, patched: seq<Byte>, fixups: seq<Fixup>, f: Fixup, j: nat)
    requires fixups != [] && f == fixups[0] && f.at + 4 <= |before| && j < |before|
    requires exists literal, word :: |literal| == width && |word| == 4
               && patched == Splice(before + literal, f.at, 4, word)
    requires !InSlot(fixups, j)
    ensures !InSlot(fixups[1..], j) && patched[j] == before[j]
  {
    assert f in fixups;
    assert forall g | g in fixups[1..] :: g in fixups;
  }

  lemma FirstSlot(width: nat, encode: LoadEncoder, before: seq<Byte>, patched: seq<Byte>, code: seq<Byte>,
                  fixups: seq<Fixup>)
    requires fixups != [] && fixups[0].at + 4 <= |before| <= |patched| <= |code|
    requires InBounds(fixups, |before|)
    requires BackpatchOne(width, encode, before, fixups[0]) == Ok(patched)
    requires forall f | f in fixups[1..] :: fixups[0].at + 4 <= f.at && f.at + 4 <= |before|
    requires forall j | 0 <= j < |patched| :: !InSlot(fixups[1..], j) ==> code[j] == patched[j]
    ensures SlotFilled(width, encode, code, fixups, |before|, 0)
  {
    var f, n := fixups[0], |before|;
    MulZero(width);
    forall j | f.at <= j < f.at + 4 || n <= j < n + width
      ensures code[j] == patched[j]
    {
      assert !InSlot(fixups[1..], j);
    }
    assert code[f.at..f.at + 4] == patched[f.at..f.at + 4];
    assert code[n..n + width] == patched[n..n + width];
    SpliceIndex(before + Le(f.target, width), f.at, Le4(encode(f.reg, f.at, n).value));
    assert patched[n..n + width] == Le(f.target, width);
  }
}
