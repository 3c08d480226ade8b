/** The spliced prologue does what the original does, but for the memory that the calls write. */
module X86Correct {
  import opened Bytes
  import opened X86Machine
  import opened X86Reloc

  // ---------- what the scan has seen ----------

  /** The item is what stands in the template. */
  predicate Decodes(job: Job, item: Item) {
    item.At() + item.Len() <= |job.t| &&
    match job.decode(job.t[item.At()..])
    case None => false
    case Some(insn) =>
      match item
      case Kept(_, i) => insn == i && insn.Continues()
      case Pair(pair) => DecodesPair(job, pair, insn)
  }

  /** `call` leads to the instruction after it, which is the POP. */
  predicate DecodesPair(job: Job, pair: CallPop, call: Insn)
    requires pair.offset + pair.len <= |job.t|
  {
    var next := pair.offset + call.len;
    && call.op.Call? && 5 <= call.len < pair.len && pair.target == Wrap32(job.ip + next)
    && Wrap32(pair.target + call.op.rel) == pair.target
    && job.decode(job.t[next..]) == Some(Insn(pair.len - call.len, PopReg(pair.reg)))
  }

  predicate AllDecode(job: Job, items: seq<Item>) { forall i | 0 <= i < |items| :: Decodes(job, items[i]) }

  lemma LookDecodes(job: Job, o: nat)
    requires job.Valid() && o <= |job.t| && job.Look(o).Visited?
    ensures Decodes(job, job.Look(o).item)
  {
  }

  lemma {:induction false} ScanDecodes(job: Job, look: Looks, o: nat)
    requires LooksAt(look, job) && o <= |job.t| && Scan(look, |job.t|, o).Ok?
    ensures AllDecode(job, Scan(look, |job.t|, o).value.items)
    ensures look(Scan(look, |job.t|, o).value.asmAt) == Reached
    decreases |job.t| - o
  {
    assert SameLook(look, job, o) && AdvancesAt(look(o), o, |job.t|);
    if look(o).Visited? {
      LookDecodes(job, o);
      ScanDecodes(job, look, o + look(o).item.Len());
    }
  }

  // ---------- the new code, instruction by instruction ----------

  function Piece(t: seq<Byte>, item: Item): seq<Byte>
    requires item.At() + item.Len() <= |t|
  {
    match item
    case Kept(at, insn) => t[at..at + insn.len]
    case Pair(pair) => MovR32Imm32(pair.reg, pair.target)
  }

  function Code(t: seq<Byte>, items: seq<Item>, o: nat, end: nat): seq<Byte>
    requires Path(items, o, end) && end <= |t|
    decreases items
  {
    if items == [] then []
    else
      PathBound(items[1..], o + items[0].Len(), end);
      Piece(t, items[0]) + Code(t, items[1..], o + items[0].Len(), end)
  }

  lemma {:induction false} PathBound(items: seq<Item>, o: nat, end: nat)
    requires Path(items, o, end)
    ensures o <= end
    decreases items
  {
    if items != [] {
      PathBound(items[1..], o + items[0].Len(), end);
    }
  }

  /** Splicing the pairs out of the template is translating its instructions one by one. */
  lemma {:induction false} SplicedIsCode(t: seq<Byte>, items: seq<Item>, from: nat, o: nat, end: nat)
    requires Path(items, o, end) && end <= |t| && from <= o
    ensures o <= end && Ordered(CallPops(items), from, |t|)
    ensures Spliced(t, CallPops(items), from) == t[from..o] + Code(t, items, o, end) + t[end..]
    decreases items
  {
    PathOrdered(items, from, o, end);
    OrderedLater(CallPops(items), from, end, |t|);
    if items == [] {
      assert t[from..] == t[from..o] + [] + t[end..];
    } else {
      var next := o + items[0].Len();
      if items[0].Pair? {
        SplicedIsCode(t, items[1..], next, next, end);
        PairSpliced(t, items, items[1..], from, o, next, end);
      } else {
        SplicedIsCode(t, items[1..], from, next, end);
        FirstCode(t, items, items[1..], o, next, end);
        KeptSpliced(t, items, items[1..], from, o, next, Code(t, items, o, end), Code(t, items[1..], next, end),
                    t[end..], Spliced(t, CallPops(items[1..]), from));
      }
    }
  }

  lemma PairSpliced(t: seq<Byte>, items: seq<Item>, rest: seq<Item>, from: nat, o: nat, next: nat, end: nat)
    requires items != [] && rest == items[1..] && items[0].Pair? && next == o + items[0].Len()
    requires Path(items, o, end) && Path(rest, next, end) && next <= end <= |t| && from <= o
    requires Ordered(CallPops(items), from, |t|) && Ordered(CallPops(rest), next, |t|)
    requires Spliced(t, CallPops(rest), next) == t[next..next] + Code(t, rest, next, end) + t[end..]
    ensures Spliced(t, CallPops(items), from) == t[from..o] + Code(t, items, o, end) + t[end..]
  {
    var piece, c, spliced := Piece(t, items[0]), Code(t, rest, next, end), Spliced(t, CallPops(rest), next);
    FirstCode(t, items, rest, o, next, end);
    SplicedPair(t, items, rest, from, o, next, piece, spliced);
    Regroup(t[from..o], piece, spliced, t[next..next], c, t[end..]);
  }

  lemma FirstCode(t: seq<Byte>, items: seq<Item>, rest: seq<Item>, o: nat, next: nat, end: nat)
    requires items != [] && rest == items[1..] && next == o + items[0].Len()
    requires Path(items, o, end) && Path(rest, next, end) && next <= end <= |t|
    ensures Code(t, items, o, end) == Piece(t, items[0]) + Code(t, rest, next, end)
  {
  }

  lemma SplicedPair(t: seq<Byte>, items: seq<Item>, rest: seq<Item>, from: nat, o: nat, next: nat, piece: seq<Byte>,
                    spliced: seq<Byte>)
    requires items != [] && rest == items[1..] && items[0].Pair? && items[0].At() == o && next == o + items[0].Len()
    requires from <= o && next <= |t| && Ordered(CallPops(items), from, |t|) && Ordered(CallPops(rest), next, |t|)
    requires piece == Piece(t, items[0]) && spliced == Spliced(t, CallPops(rest), next)
    ensures Spliced(t, CallPops(items), from) == t[from..o] + piece + spliced
  {
    assert CallPops(items)[1..] == CallPops(rest);
  }

  lemma Regroup(a: seq<Byte>, b: seq<Byte>, s: seq<Byte>, none: seq<Byte>, c: seq<Byte>, d: seq<Byte>)
    requires s == none + c + d && none == []
    ensures a + b + s == a + (b + c) + d
  {
  }

  lemma KeptSpliced(t: seq<Byte>, items: seq<Item>, rest: seq<Item>, from: nat, o: nat, next: nat, code: seq<Byte>,
                    c: seq<Byte>, d: seq<Byte>, spliced: seq<Byte>)
    requires items != [] && rest == items[1..] && items[0].Kept? && from <= o <= next <= |t|
    requires Ordered(CallPops(items), from, |t|) && Ordered(CallPops(rest), from, |t|)
    requires spliced == Spliced(t, CallPops(rest), from) == t[from..next] + c + d && code == t[o..next] + c
    ensures Spliced(t, CallPops(items), from) == t[from..o] + code + d
  {
    KeptUnspliced(t, items, rest, from, spliced);
    Join(t, from, o, next, c, d, spliced);
  }

  lemma KeptUnspliced(t: seq<Byte>, items: seq<Item>, rest: seq<Item>, from: nat, spliced: seq<Byte>)
    requires items != [] && rest == items[1..] && items[0].Kept?
    requires Ordered(CallPops(items), from, |t|) && Ordered(CallPops(rest), from, |t|)
    requires spliced == Spliced(t, CallPops(rest), from)
    ensures spliced == Spliced(t, CallPops(items), from)
  {
    assert CallPops(items) == CallPops(rest);
  }

  lemma Join(t: seq<Byte>, from: nat, o: nat, next: nat, c: seq<Byte>, d: seq<Byte>, s: seq<Byte>)
    requires from <= o <= next <= |t| && s == t[from..next] + c + d
    ensures s == t[from..o] + (t[o..next] + c) + d
  {
    assert t[from..next] == t[from..o] + t[o..next];
  }

  // ---------- sizes ----------

  /** The bytes a splice saves: a pair gives way to five bytes. */
  function Saved(pairs: seq<CallPop>): int
    decreases pairs
  {
    if pairs == [] then 0 else pairs[0].len - 5 + Saved(pairs[1..])
  }

  /** Every pair is at least six bytes long. */
  lemma {:induction false} SavedAtLeast(job: Job, items: seq<Item>)
    requires AllDecode(job, items)
    ensures Saved(CallPops(items)) >= |CallPops(items)|
    decreases items
  {
    if items != [] {
      assert Decodes(job, items[0]);
      forall i | 0 <= i < |items[1..]|
        ensures Decodes(job, items[1..][i])
      {
        assert items[1..][i] == items[i + 1];
      }
      SavedAtLeast(job, items[1..]);
      if items[0].Pair? {
        assert CallPops(items)[1..] == CallPops(items[1..]);
      }
    }
  }

  lemma {:induction false} SplicedSize(t: seq<Byte>, pairs: seq<CallPop>, o: nat)
    requires Ordered(pairs, o, |t|)
    ensures o <= |t| && |Spliced(t, pairs, o)| == |t| - o - Saved(pairs)
    decreases pairs
  {
    OrderedBound(pairs, o, |t|);
    if pairs != [] {
      OrderedBound(pairs[1..], pairs[0].offset + pairs[0].len, |t|);
      SplicedSize(t, pairs[1..], pairs[0].offset + pairs[0].len);
    }
  }

  /** The thunk is the new code followed by the template from the asm block on; its magic has moved with that block, by
      the bytes saved. */
  lemma FinishedShape(job: Job, p: Prologue)
    requires job.Valid() && Path(p.items, 0, p.asmAt) && p.asmAt <= job.magic && AllDecode(job, p.items)
    ensures var thunk, code := Finished(job, p), Code(job.t, p.items, 0, p.asmAt);
            && thunk.thunk == code + job.t[p.asmAt..]
            && |thunk.thunk| == |job.t| - Saved(CallPops(p.items))
            && thunk.magicOffset == |code| + job.magic - p.asmAt == job.magic - Saved(CallPops(p.items))
  {
    FinishedCode(job, p);
    SplicedSize(job.t, CallPops(p.items), 0);
    CodeSize(job.t, p.items, 0, p.asmAt);
    SavedAtLeast(job, p.items);
    NoWrap(job.magic, -Saved(CallPops(p.items)));
  }

  lemma FinishedCode(job: Job, p: Prologue)
    requires Path(p.items, 0, p.asmAt) && p.asmAt <= |job.t|
    ensures Ordered(CallPops(p.items), 0, |job.t|)
    ensures var thunk := Finished(job, p);
            && thunk.thunk == Spliced(job.t, CallPops(p.items), 0)
               == Code(job.t, p.items, 0, p.asmAt) + job.t[p.asmAt..]
            && (thunk.magicOffset == job.magic || thunk.magicOffset == WrappingAdd(job.magic, |thunk.thunk| - |job.t|))
            && (|thunk.thunk| != |job.t| ==> thunk.magicOffset == WrappingAdd(job.magic, |thunk.thunk| - |job.t|))
  {
    var code := Code(job.t, p.items, 0, p.asmAt);
    SplicedIsCode(job.t, p.items, 0, 0, p.asmAt);
    assert job.t[0..0] + code == code;
    assert job.t[0..] == job.t;
  }

  lemma NoWrap(a: nat, d: int)
    requires 0 <= a + d < 0x1_0000_0000_0000_0000
    ensures WrappingAdd(a, d) == a + d
  {
  }

  lemma {:induction false} CodeSize(t: seq<Byte>, items: seq<Item>, o: nat, end: nat)
    requires Path(items, o, end) && end <= |t|
    ensures |Code(t, items, o, end)| == end - o - Saved(CallPops(items))
    decreases items
  {
    if items != [] {
      PathBound(items[1..], o + items[0].Len(), end);
      CodeSize(t, items[1..], o + items[0].Len(), end);
      if items[0].Pair? {
        assert CallPops(items)[1..] == CallPops(items[1..]);
      }
    }
  }
}
