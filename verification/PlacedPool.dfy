/** Where the literal pool of a placed thunk lies. */
module PlacedPool {
  import opened Arith
  import opened Bytes
  import opened SafeJit
  import opened Placement
  import opened ArmReloc
  import opened ArmLayout
  import opened ArmShape

  /** The literal at offset `entry` of a thunk `skip` bytes into the block at `rx`. */
  predicate LiteralAt(block: seq<Byte>, rx: Address, skip: nat, entry: nat, width: nat, target: nat)
    requires width > 0
  {
    && (rx + skip + entry) % width == 0 && skip + entry + width <= |block|
    && block[skip + entry..skip + entry + width] == Le(target, width)
  }

  /** The slot of every load holds a load of its literal, and the literals follow each other from offset `pool`. */
  predicate AllFilled(width: nat, encode: LoadEncoder, code: seq<Byte>, fixups: seq<Fixup>, pool: nat) {
    forall i | 0 <= i < |fixups| :: SlotFilled(width, encode, code, fixups, pool, i)
  }

  // ---------- padding ----------

  lemma PadFour(d: nat, pad: nat)
    requires pad == if d % 4 == 0 then 0 else 2
    ensures (d + pad) % 4 == 0 <==> d % 2 == 0
  {
    var q, r := Divide(d, 4);
    if r == 0 {
      DivAdd(2 * q, 2, 0);
    } else if r == 2 {
      DivAdd(q + 1, 4, 0);
      DivAdd(2 * q + 1, 2, 0);
    } else {
      DivAdd(if r == 1 then q else q + 1, 4, if r == 1 then 3 else 1);
      DivAdd(if r == 1 then 2 * q else 2 * q + 1, 2, 1);
    }
  }

  lemma PadEight(d: nat, pad: nat)
    requires pad == if d % 8 == 0 then 0 else 4
    ensures (d + pad) % 8 == 0 <==> d % 4 == 0
  {
  }

  /** The pool is padded by half a literal of zeros where the template does not end a multiple of its width past the
      magic. It is then aligned relative to the magic exactly when the template ends a multiple of half that width past
      the magic. */
  lemma PaddingExact(width: nat, t: seq<Byte>, magic: nat, items: seq<Item>, p: Progress)
    requires (width == 4 || width == 8) && Path(items, 0, |t|) && magic <= |t| && p == EmitAll(Start(t, magic), items)
    ensures BeforePool(width, p)
         == Contents(p) + if (|t| - magic) % width == 0 then [] else if width == 4 then [0, 0] else [0, 0, 0, 0]
    ensures (|BeforePool(width, p)| - p.newMagic) % width == 0 <==> (|t| - magic) % (width / 2) == 0
  {
    var d, k := |t| - magic, 4 * Loads(items);
    EmitAllSizes(Start(t, magic), items, 0);
    ContentsSize(p, k);
    PaddedBy(width, p, d);
    if width == 4 {
      PadFour(d, if d % 4 == 0 then 0 else 2);
    } else {
      PadEight(d, if d % 8 == 0 then 0 else 4);
    }
  }

  lemma PaddedBy(width: nat, p: Progress, d: nat)
    requires (width == 4 || width == 8) && p.buf.Valid() && |Contents(p)| - p.newMagic == d
    ensures BeforePool(width, p) == Contents(p) + if d % width == 0 then [] else Zeros(width / 2)
    ensures Zeros(2) == [0, 0] && Zeros(4) == [0, 0, 0, 0]
  {
  }

  // ---------- the pool of a thunk ----------

  /** No padding is needed where the part of the template that is kept ends two literals past the magic. */
  lemma PoolStart(width: nat, t: seq<Byte>, magic: nat, items: seq<Item>, p: Progress)
    requires width > 0 && |t| == magic + 2 * width && Path(items, 0, |t|) && p == EmitAll(Start(t, magic), items)
    ensures |BeforePool(width, p)| == |t| + 4 * Loads(items) == p.newMagic + 2 * width
  {
    var k := 4 * Loads(items);
    EmitAllSizes(Start(t, magic), items, 0);
    TwoWidths(width, 2 * width);
    Unpadded(width, p, k, 2 * width);
  }

  lemma Unpadded(width: nat, p: Progress, k: nat, d: nat)
    requires width > 0 && Ready(p, k) && |p.buf.orig| + k - p.newMagic == d && d % width == 0
    ensures |BeforePool(width, p)| == |p.buf.orig| + k
  {
    BeforePoolSize(width, p, k);
  }

  lemma TwoWidths(width: nat, d: nat)
    requires width > 0 && d == 2 * width
    ensures d % width == 0
  {
    assert d == width * 2 && d % width == 0;
  }

  lemma FinishMoves(width: nat, encode: LoadEncoder, p: Progress, thunk: RelocThunk)
    requires width > 0 && p.buf.Valid() && InBounds(p.extra, |p.buf.out|) && Finish(width, encode, p) == Ok(thunk)
    ensures thunk.magicOffset == p.newMagic
  {
  }

  lemma PoolFinished(width: nat, encode: LoadEncoder, p: Progress, thunk: RelocThunk, fixups: seq<Fixup>, pool: nat)
    requires width > 0 && p.buf.Valid() && fixups == p.extra && InBounds(fixups, |p.buf.out|) && Separate(fixups, 0)
    requires Finish(width, encode, p) == Ok(thunk) && fixups != [] && pool == |BeforePool(width, p)|
    ensures AllFilled(width, encode, thunk.thunk, fixups, pool)
  {
    BackpatchFillsPool(width, encode, BeforePool(width, p), fixups, 0);
  }

  /** The pool starts two literals past the magic. */
  lemma PoolFollows(width: nat, encode: LoadEncoder, visit: Visitor, t: seq<Byte>, magic: nat, plan: Plan,
                    thunk: RelocThunk, fixups: seq<Fixup>, pool: nat)
    requires width > 0 && |t| == magic + 2 * width && Advances(visit, |t|) && Scan(visit, |t|, 0) == Ok(plan)
    requires Relocated(visit, width, encode, t, magic) == Ok(thunk) && fixups == Fixups(plan.items, 0)
    requires pool == thunk.magicOffset + 2 * width
    ensures AllFilled(width, encode, thunk.thunk, fixups, pool)
  {
    var p := RelocatedFinished(width, encode, visit, t, magic, plan, thunk);
    if fixups != [] {
      PoolStart(width, t, magic, plan.items, p);
      FixupsFrom(plan.items, 0, |t|, 0);
      FinishMoves(width, encode, p, thunk);
      PoolFinished(width, encode, p, thunk, fixups, pool);
    }
  }

  /** Patching the slots keeps the pool. */
  lemma LiteralKept(block: seq<Byte>, thunk: seq<Byte>, skip: nat, code: seq<Byte>, i: nat, a: seq<Byte>, j: nat,
                    b: seq<Byte>, pool: nat, entry: nat, end: nat)
    requires skip + |thunk| <= |block| && code == block[skip..skip + |thunk|]
    requires i + |a| <= pool && j + |b| <= pool <= entry <= end <= |thunk| && SlotsFilled(code, thunk, i, a, j, b)
    ensures block[skip + entry..skip + end] == thunk[entry..end]
  {
    forall k | entry <= k < end
      ensures code[k] == thunk[k]
    {
    }
    assert code[entry..end] == thunk[entry..end];
    SliceSlice(block, skip, skip + |thunk|, entry, end);
  }

  /** What lies behind the slots of a thunk that `New` has placed is in the block, as far from its magic as in the
      thunk. */
  lemma KeptInBlock(c: Consts, thunk: RelocThunk, block: seq<Byte>, rx: Address, skip: nat, closure: Address,
                    back: Address, pool: nat)
    requires c.Valid() && HasRoom(c, thunk) && PlacedAt(c, block, thunk, rx, skip, closure, back)
    requires thunk.magicOffset + c.returnAt + c.ptr == pool && pool <= |thunk.thunk|
    ensures EndsWith(block, skip, thunk.thunk, pool)
  {
    var i, j := thunk.magicOffset + c.closureAt, thunk.magicOffset + c.returnAt;
    var a, b, code := Le(closure, c.ptr), Le(back, c.ptr), Patched(c, thunk, closure, back);
    PatchedReadsBack(c, thunk, closure, back, i, j);
    LiteralKept(block, thunk.thunk, skip, code, i, a, j, b, pool, pool, |thunk.thunk|);
  }

  /** From offset `pool` on, the code is in the block. */
  predicate EndsWith(block: seq<Byte>, skip: nat, code: seq<Byte>, pool: nat) {
    pool <= |code| && skip + |code| <= |block| && block[skip + pool..skip + |code|] == code[pool..]
  }

  /** Every literal is in the block, at an address that is a multiple of its width. */
  predicate AllAligned(width: nat, block: seq<Byte>, rx: Address, skip: nat, fixups: seq<Fixup>, pool: nat)
    requires width > 0
  {
    forall i | 0 <= i < |fixups| :: LiteralAt(block, rx, skip, pool + width * i, width, fixups[i].target)
  }

  lemma Multiples(x: nat, width: nat, i: nat)
    requires width > 0 && x % width == 0
    ensures (x + width * i) % width == 0
  {
    var q, r := Divide(x, width);
    assert q * width + width * i == (q + i) * width by {
      Distribute(1, q, i, width);
    }
    DivAdd(q + i, width, 0);
  }

  lemma LiteralPlaced(width: nat, code: seq<Byte>, block: seq<Byte>, rx: Address, skip: nat, pool: nat, entry: nat,
                      target: nat)
    requires width > 0 && EndsWith(block, skip, code, pool) && (rx + skip + entry) % width == 0
    requires pool <= entry && entry + width <= |code| && code[entry..entry + width] == Le(target, width)
    ensures LiteralAt(block, rx, skip, entry, width, target)
  {
    var from, to, e := skip + pool, skip + |code|, entry - pool;
    SliceSlice(block, from, to, e, e + width);
    SliceSlice(code, pool, |code|, e, e + width);
    assert code[pool..|code|] == code[pool..];
  }

  lemma LiteralsPlaced(width: nat, encode: LoadEncoder, code: seq<Byte>, block: seq<Byte>, rx: Address, skip: nat,
                       fixups: seq<Fixup>, pool: nat)
    requires width > 0 && EndsWith(block, skip, code, pool) && (rx + skip + pool) % width == 0
    requires AllFilled(width, encode, code, fixups, pool)
    ensures AllAligned(width, block, rx, skip, fixups, pool)
  {
    forall i | 0 <= i < |fixups|
      ensures LiteralAt(block, rx, skip, pool + width * i, width, fixups[i].target)
    {
      var entry := width * i;
      assert SlotFilled(width, encode, code, fixups, pool, i);
      Multiples(rx + skip + pool, width, i);
      LiteralPlaced(width, code, block, rx, skip, pool, pool + entry, fixups[i].target);
    }
  }

  // ---------- AArch64 ----------

  lemma A64PoolStarts(thunk: RelocThunk, block: seq<Byte>, rx: Address, skip: nat, closure: Address, back: Address,
                      pool: nat)
    requires HasRoom(A64, thunk) && PlacedAt(A64, block, thunk, rx, skip, closure, back)
    requires pool == thunk.magicOffset + 16
    ensures (rx + skip + pool) % 8 == 0
  {
  }

  /** Every literal of an AArch64 thunk lies at an address that is a multiple of eight. */
  lemma A64PoolAligned(encode: LoadEncoder, visit: Visitor, t: seq<Byte>, magic: nat, plan: Plan, thunk: RelocThunk,
                       block: seq<Byte>, rx: Address, skip: nat, closure: Address, back: Address, fixups: seq<Fixup>,
                       pool: nat)
    requires |t| == magic + 16 && Advances(visit, |t|) && Scan(visit, |t|, 0) == Ok(plan)
    requires Relocated(visit, 8, encode, t, magic) == Ok(thunk) && fixups == Fixups(plan.items, 0)
    requires HasRoom(A64, thunk) && PlacedAt(A64, block, thunk, rx, skip, closure, back)
    requires pool == thunk.magicOffset + 16
    ensures AllFilled(8, encode, thunk.thunk, fixups, pool) && AllAligned(8, block, rx, skip, fixups, pool)
  {
    PoolFollows(8, encode, visit, t, magic, plan, thunk, fixups, pool);
    A64PoolStarts(thunk, block, rx, skip, closure, back, pool);
    KeptInBlock(A64, thunk, block, rx, skip, closure, back, pool);
    LiteralsPlaced(8, encode, thunk.thunk, block, rx, skip, fixups, pool);
  }

  // ---------- A32 ----------

  lemma A32PoolStarts(thunk: RelocThunk, block: seq<Byte>, rx: Address, skip: nat, closure: Address, back: Address,
                      pool: nat)
    requires HasRoom(ARM, thunk) && PlacedAt(ARM, block, thunk, rx, skip, closure, back)
    requires pool == thunk.magicOffset + 8
    ensures (rx + skip + pool) % 4 == 0
  {
  }

  /** Every literal of an A32 thunk lies at an address that is a multiple of four. */
  lemma A32PoolAligned(encode: LoadEncoder, visit: Visitor, t: seq<Byte>, magic: nat, plan: Plan, thunk: RelocThunk,
                       block: seq<Byte>, rx: Address, skip: nat, closure: Address, back: Address, fixups: seq<Fixup>,
                       pool: nat)
    requires |t| == magic + 8 && Advances(visit, |t|) && Scan(visit, |t|, 0) == Ok(plan)
    requires Relocated(visit, 4, encode, t, magic) == Ok(thunk) && fixups == Fixups(plan.items, 0)
    requires HasRoom(ARM, thunk) && PlacedAt(ARM, block, thunk, rx, skip, closure, back)
    requires pool == thunk.magicOffset + 8
    ensures AllFilled(4, encode, thunk.thunk, fixups, pool) && AllAligned(4, block, rx, skip, fixups, pool)
  {
    PoolFollows(4, encode, visit, t, magic, plan, thunk, fixups, pool);
    A32PoolStarts(thunk, block, rx, skip, closure, back, pool);
    KeptInBlock(ARM, thunk, block, rx, skip, closure, back, pool);
    LiteralsPlaced(4, encode, thunk.thunk, block, rx, skip, fixups, pool);
  }
}
