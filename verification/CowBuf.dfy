/** The copy-on-write edit buffer of `arm_util.rs`. */
module CowBuf {
  import opened Bytes

  /** One call on the buffer. */
  datatype Op =
    | CopyUpTo(at: nat)
    | Append(at: nat, bytes: seq<Byte>)
    | Ignore(at: nat, count: nat)
    | Replace(at: nat, bytes: seq<Byte>)
  {
    /** How many original bytes the call drops, and what it puts in their place. */
    function Dropped(): nat {
      match this
      case CopyUpTo(_) => 0
      case Append(_, _) => 0
      case Ignore(_, count) => count
      case Replace(_, bytes) => |bytes|
    }

    function Inserted(): seq<Byte> {
      if Append? || Replace? then bytes else []
    }
  }

  /** The state of a buffer: `out` is what has been written, from the first `copied` original bytes. */
  datatype View = View(orig: seq<Byte>, out: seq<Byte>, copied: nat) {
    predicate Valid() { copied <= |orig| }

    /** The debug assertions: offsets do not go back, and stay inside the original. */
    predicate Accepts(op: Op) {
      copied <= op.at && op.at + op.Dropped() <= |orig|
    }

    function CopyTo(offset: nat): View
      requires copied <= offset <= |orig|
    {
      View(orig, out + orig[copied..offset], offset)
    }

    function AppendAt(offset: nat, bytes: seq<Byte>): View
      requires copied <= offset <= |orig|
    {
      if bytes == [] then this else View(orig, out + orig[copied..offset] + bytes, offset)
    }

    function IgnoreAt(offset: nat, count: nat): View
      requires copied <= offset && offset + count <= |orig|
    {
      View(orig, out + orig[copied..offset], offset + count)
    }

    function ReplaceAt(offset: nat, bytes: seq<Byte>): View
      requires copied <= offset && offset + |bytes| <= |orig|
    {
      if bytes == [] then this else View(orig, out + orig[copied..offset] + bytes, offset + |bytes|)
    }

    function Do(op: Op): (v: View)
      requires Accepts(op)
      ensures v.Valid() && v.orig == orig
    {
      match op
      case CopyUpTo(at) => CopyTo(at)
      case Append(at, bytes) => AppendAt(at, bytes)
      case Ignore(at, count) => IgnoreAt(at, count)
      case Replace(at, bytes) => ReplaceAt(at, bytes)
    }

    /** The offset a call returns. */
    function Returned(op: Op): nat
      requires Accepts(op)
    {
      |Do(op).out| - |op.Inserted()|
    }

    function IntoBytes(): seq<Byte>
      requires Valid()
    {
      if out == [] then orig else out + orig[copied..]
    }
  }

  class CowBuffer {
    const origBytes: seq<Byte>
    var newBytes: seq<Byte>
    var numCopied: nat

    function AsView(): View
      reads this
    {
      View(origBytes, newBytes, numCopied)
    }

    constructor (orig: seq<Byte>)
      ensures AsView() == View(orig, [], 0)
    {
      origBytes, newBytes, numCopied := orig, [], 0;
    }

    method CopyUpTo(offset: nat)
      requires AsView().Accepts(Op.CopyUpTo(offset))
      modifies this
      ensures AsView() == old(AsView()).CopyTo(offset)
    {
      var newNumCopied := if offset < |origBytes| then offset else |origBytes|;
      newBytes := newBytes + origBytes[numCopied..newNumCopied];
      numCopied := newNumCopied;
    }

    method Append(offset: nat, bytes: seq<Byte>) returns (bytesOffset: nat)
      requires AsView().Accepts(Op.Append(offset, bytes))
      modifies this
      ensures AsView() == old(AsView()).AppendAt(offset, bytes)
      ensures bytesOffset == |newBytes| - |bytes|
    {
      if bytes != [] {
        CopyUpTo(offset);
      }
      bytesOffset := |newBytes|;
      newBytes := newBytes + bytes;
    }

    method Ignore(offset: nat, count: nat) returns (bytesOffset: nat)
      requires AsView().Accepts(Op.Ignore(offset, count))
      modifies this
      ensures AsView() == old(AsView()).IgnoreAt(offset, count)
      ensures bytesOffset == |newBytes|
    {
      CopyUpTo(offset);
      numCopied := numCopied + count;
      bytesOffset := |newBytes|;
    }

    method Replace(offset: nat, bytes: seq<Byte>) returns (bytesOffset: nat)
      requires AsView().Accepts(Op.Replace(offset, bytes))
      modifies this
      ensures AsView() == old(AsView()).ReplaceAt(offset, bytes)
      ensures bytesOffset == |newBytes| - |bytes|
    {
      bytesOffset := Append(offset, bytes);
      numCopied := numCopied + |bytes|;
    }

    method IntoBytes() returns (bytes: seq<Byte>)
      requires AsView().Valid()
      ensures bytes == AsView().IntoBytes()
    {
      if newBytes == [] {
        bytes := origBytes;
      } else {
        bytes := newBytes + origBytes[numCopied..];
      }
    }
  }

  // ---------- whole runs of calls ----------

  function Splice(s: seq<Byte>, at: nat, dropped: nat, inserted: seq<Byte>): seq<Byte>
    requires at + dropped <= |s|
  {
    s[..at] + inserted + s[at + dropped..]
  }

  /** Offsets do not go back and stay inside `len` bytes. */
  predicate Ordered(ops: seq<Op>, from: nat, len: nat) {
    if ops == [] then from <= len
    else from <= ops[0].at && ops[0].at + ops[0].Dropped() <= len
         && Ordered(ops[1..], ops[0].at + ops[0].Dropped(), len)
  }

  /** The edits applied to the original on their own, the last one first so that offsets keep their meaning. */
  function Edited(orig: seq<Byte>, ops: seq<Op>, from: nat): (r: seq<Byte>)
    requires Ordered(ops, from, |orig|)
    ensures from <= |r| && from <= |orig| && r[..from] == orig[..from]
  {
    if ops == [] then orig
    else
      var op := ops[0];
      Splice(Edited(orig, ops[1..], op.at + op.Dropped()), op.at, op.Dropped(), op.Inserted())
  }

  function DoAll(v: View, ops: seq<Op>): (r: View)
    requires v.Valid()
    requires Ordered(ops, v.copied, |v.orig|)
    ensures r.Valid() && r.orig == v.orig
    decreases ops
  {
    if ops == [] then v
    else
      OrderedFrom(ops[1..], v.Do(ops[0]).copied, ops[0].at + ops[0].Dropped(), |v.orig|);
      DoAll(v.Do(ops[0]), ops[1..])
  }

  lemma OrderedFrom(ops: seq<Op>, less: nat, from: nat, len: nat)
    requires Ordered(ops, from, len) && less <= from
    ensures Ordered(ops, less, len)
  {
  }

  lemma EditedFrom(orig: seq<Byte>, ops: seq<Op>, less: nat, from: nat)
    requires Ordered(ops, from, |orig|) && less <= from && Ordered(ops, less, |orig|)
    ensures Edited(orig, ops, less) == Edited(orig, ops, from)
  {
  }

  lemma SpliceFrom(s: seq<Byte>, c: nat, at: nat, dropped: nat, inserted: seq<Byte>)
    requires c <= at && at + dropped <= |s|
    ensures Splice(s, at, dropped, inserted)[c..] == s[c..at] + inserted + s[at + dropped..]
  {
  }

  lemma SamePrefix(s: seq<Byte>, t: seq<Byte>, c: nat, at: nat, n: nat)
    requires c <= at <= n <= |s| && n <= |t| && s[..n] == t[..n]
    ensures s[c..at] == t[c..at]
  {
    assert s[..n][c..at] == s[c..at];
    assert t[..n][c..at] == t[c..at];
  }

  /** One call, seen on an original whose bytes from `op.at + op.Dropped()` on may already be edited. */
  lemma DoIsSplice(v: View, op: Op, later: seq<Byte>, v1: View)
    requires v.Valid() && v.Accepts(op) && v1 == v.Do(op)
    requires op.at + op.Dropped() <= |later|
    requires later[..op.at + op.Dropped()] == v.orig[..op.at + op.Dropped()]
    ensures v1.copied <= |later|
    ensures v1.out + later[v1.copied..] == v.out + Splice(later, op.at, op.Dropped(), op.Inserted())[v.copied..]
  {
    var from, kept, inserted := op.at + op.Dropped(), later[v.copied..op.at], op.Inserted();
    SamePrefix(later, v.orig, v.copied, op.at, from);
    SpliceFrom(later, v.copied, op.at, op.Dropped(), inserted);
    if inserted == [] && (op.Append? || op.Replace?) {
      assert later[v.copied..] == kept + inserted + later[from..];
    } else {
      assert v1.out == v.out + (kept + inserted) && v1.copied == from;
    }
  }

  /** What a run of calls leaves in the buffer, followed by what it has not copied yet, is the edited original. */
  lemma {:induction false} DoAllEdits(v: View, ops: seq<Op>)
    requires v.Valid() && Ordered(ops, v.copied, |v.orig|)
    ensures var r := DoAll(v, ops);
            r.out + r.orig[r.copied..] == v.out + Edited(v.orig, ops, v.copied)[v.copied..]
    decreases ops
  {
    if ops == [] {
    } else {
      var v1, from := FirstCall(v, ops);
      var later := Edited(v.orig, ops[1..], from);
      DoAllEdits(v1, ops[1..]);
      EditedFrom(v.orig, ops[1..], v1.copied, from);
      DoIsSplice(v, ops[0], later, v1);
    }
  }

  /** The buffer after the first call of a run. */
  lemma FirstCall(v: View, ops: seq<Op>) returns (v1: View, from: nat)
    requires ops != [] && v.Valid() && Ordered(ops, v.copied, |v.orig|)
    ensures v.Accepts(ops[0]) && v1 == v.Do(ops[0]) && v1.copied <= from == ops[0].at + ops[0].Dropped()
    ensures Ordered(ops[1..], from, |v.orig|) && Ordered(ops[1..], v1.copied, |v.orig|)
    ensures DoAll(v, ops) == DoAll(v1, ops[1..])
    ensures Edited(v.orig, ops, v.copied)
         == Splice(Edited(v.orig, ops[1..], from), ops[0].at, ops[0].Dropped(), ops[0].Inserted())
  {
    v1, from := v.Do(ops[0]), ops[0].at + ops[0].Dropped();
    OrderedFrom(ops[1..], v1.copied, from, |v.orig|);
  }

  lemma {:induction false} DoAllExtends(v: View, ops: seq<Op>)
    requires v.Valid() && Ordered(ops, v.copied, |v.orig|)
    ensures v.out <= DoAll(v, ops).out
    decreases ops
  {
    if ops == [] {
    } else {
      OrderedFrom(ops[1..], v.Do(ops[0]).copied, ops[0].at + ops[0].Dropped(), |v.orig|);
      DoAllExtends(v.Do(ops[0]), ops[1..]);
    }
  }

  /**
   Any calls at offsets that do not go back make `into_bytes` the edited original if and only if
   something was written or nothing was dropped: an empty buffer is taken for an unused one.
   */
  lemma IntoBytesIsEdited(orig: seq<Byte>, ops: seq<Op>)
    requires Ordered(ops, 0, |orig|)
    ensures var r := DoAll(View(orig, [], 0), ops);
            r.IntoBytes() == Edited(orig, ops, 0) <==> r.out != [] || r.copied == 0
  {
    var r := DoAll(View(orig, [], 0), ops);
    DoAllEdits(View(orig, [], 0), ops);
    assert Edited(orig, ops, 0)[0..] == Edited(orig, ops, 0);
    if r.out == [] {
      assert r.out + r.orig[r.copied..] == r.orig[r.copied..];
    }
  }

  /** A buffer that has dropped bytes and kept none returns the whole original. */
  lemma DroppedBytesReturn(orig: seq<Byte>, n: nat)
    requires 0 < n <= |orig|
    ensures var ops := [Ignore(0, n)];
            && Ordered(ops, 0, |orig|) && Edited(orig, ops, 0) == orig[n..]
            && DoAll(View(orig, [], 0), ops).IntoBytes() == orig != Edited(orig, ops, 0)
  {
    var ops := [Ignore(0, n)];
    assert ops[1..] == [];
    assert DoAll(View(orig, [], 0).Do(ops[0]), []) == View(orig, [], n);
    IntoBytesIsEdited(orig, ops);
  }

  /** The offset returned by a call that wrote something still locates what it wrote, whatever calls follow. */
  lemma ReturnedOffsetLocates(v: View, op: Op, later: seq<Op>)
    requires v.Valid() && Ordered([op] + later, v.copied, |v.orig|) && op.Inserted() != []
    ensures v.Accepts(op)
    ensures var final := DoAll(v, [op] + later).IntoBytes();
            var p := v.Returned(op);
            p + |op.Inserted()| <= |final| && final[p..p + |op.Inserted()|] == op.Inserted()
  {
    var v1 := v.Do(op);
    assert ([op] + later)[1..] == later;
    DoAllExtends(v1, later);
    EndsWith(v, op);
    WindowStays(v1.out, DoAll(v1, later).IntoBytes(), v.Returned(op), op.Inserted());
  }

  lemma EndsWith(v: View, op: Op)
    requires v.Valid() && v.Accepts(op) && op.Inserted() != []
    ensures var p := v.Returned(op); v.Do(op).out[p..p + |op.Inserted()|] == op.Inserted()
  {
  }

  lemma WindowStays(s: seq<Byte>, longer: seq<Byte>, p: nat, inserted: seq<Byte>)
    requires s <= longer && p + |inserted| <= |s| && s[p..p + |inserted|] == inserted
    ensures longer[p..p + |inserted|] == inserted
  {
    assert longer[..|s|] == s;
  }

  lemma SpliceIndex(s: seq<Byte>, at: nat, inserted: seq<Byte>)
    requires at + |inserted| <= |s|
    ensures var r := Splice(s, at, |inserted|, inserted);
            && |r| == |s| && r[at..at + |inserted|] == inserted
            && forall k | 0 <= k < |s| && !(at <= k < at + |inserted|) :: r[k] == s[k]
  {
  }
}
