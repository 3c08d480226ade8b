/** What the backward pass computes: which registers are dead before each instruction. */
module X64Liveness {
  import opened Bytes
  import opened X64Machine
  import opened X64Reloc

  /** A use of `r` that may depend on its value. */
  predicate Exposes(u: Use, r: Gpr) { u.gpr == Some(r) && u.access != Write && u.access != NoAccess }

  /** A use of `r` that replaces all of it: writing 32 bits clears the upper half. */
  predicate Replaces(u: Use, r: Gpr) { u.gpr == Some(r) && u.access == Write && u.size >= 4 }

  predicate Reads(insn: Insn, r: Gpr) { exists k | 0 <= k < |insn.used| :: Exposes(insn.used[k], r) }

  predicate Kills(insn: Insn, r: Gpr) {
    !Reads(insn, r) && exists k | 0 <= k < |insn.used| :: Replaces(insn.used[k], r)
  }

  // ---------- the table ----------

  predicate ReadsIn(used: seq<Use>, r: Gpr) { exists k | 0 <= k < |used| :: Exposes(used[k], r) }

  predicate ReplacesIn(used: seq<Use>, r: Gpr) { exists k | 0 <= k < |used| :: Replaces(used[k], r) }

  /** The entry of `r` after the uses of instruction `i`: a read takes precedence over a write. */
  lemma {:induction false} UpdateExact(ops: GprOps, used: seq<Use>, i: nat, r: Gpr)
    ensures Update(ops, used, i)[r]
         == if ReadsIn(used, r) || ops[r] == LastRead(i) then LastRead(i)
            else if ReplacesIn(used, r) then LastWrite(i) else ops[r]
    decreases used
  {
    if used == [] {
    } else {
      UpdateExact(TouchOne(ops, used[0], i), used[1..], i, r);
      Peel(used, r);
    }
  }

  lemma Peel(used: seq<Use>, r: Gpr)
    requires used != []
    ensures ReadsIn(used, r) <==> Exposes(used[0], r) || ReadsIn(used[1..], r)
    ensures ReplacesIn(used, r) <==> Replaces(used[0], r) || ReplacesIn(used[1..], r)
  {
    assert forall k | 0 <= k < |used[1..]| :: used[1..][k] == used[k + 1];
    assert forall k | 0 < k < |used| :: used[k] == used[1..][k - 1];
  }

  /** Every read recorded is at an instruction the pass has seen. */
  lemma {:induction false} ReadsAfter(p: Prologue, i: nat, r: Gpr)
    requires p.asm.op0 < 16 && i <= |p.entries|
    ensures p.Table(i)[r].LastRead? ==> p.Table(i)[r].i >= i
    decreases |p.entries| - i
  {
    if i < |p.entries| {
      ReadsAfter(p, i + 1, r);
      UpdateExact(p.Table(i + 1), p.entries[i].insn.used, i, r);
    }
  }

  lemma TableStep(p: Prologue, i: nat, r: Gpr)
    requires p.asm.op0 < 16 && i < |p.entries|
    ensures p.Table(i)[r]
         == if Reads(p.entries[i].insn, r) then LastRead(i)
            else if Kills(p.entries[i].insn, r) then LastWrite(i)
            else p.Table(i + 1)[r]
  {
    ReadsAfter(p, i + 1, r);
    UpdateExact(p.Table(i + 1), p.entries[i].insn.used, i, r);
  }

  // ---------- dead registers ----------

  /** Instruction `w`, or the asm block after the last instruction, replaces `r`. */
  predicate Replaced(p: Prologue, w: nat, r: Gpr)
    requires w <= |p.entries|
  {
    if w == |p.entries| then r == p.asm.op0 else Kills(p.entries[w].insn, r)
  }

  /** From instruction `i` on, `r` is not read before `w` replaces it. */
  predicate DeadUntil(p: Prologue, i: nat, w: nat, r: Gpr)
    requires w <= |p.entries|
  {
    i <= w && Replaced(p, w, r) && forall j | i <= j < w :: !Reads(p.entries[j].insn, r)
  }

  ghost predicate Dead(p: Prologue, i: nat, r: Gpr) {
    exists w | i <= w <= |p.entries| :: DeadUntil(p, i, w, r)
  }

  /** A register is dead before an instruction that replaces it, and before one that does not read it after which it is
      dead. */
  lemma DeadStep(p: Prologue, i: nat, r: Gpr)
    requires i < |p.entries|
    ensures Dead(p, i, r) <==> !Reads(p.entries[i].insn, r) && (Kills(p.entries[i].insn, r) || Dead(p, i + 1, r))
  {
    if !Reads(p.entries[i].insn, r) && Kills(p.entries[i].insn, r) {
      assert DeadUntil(p, i, i, r);
    }
    if !Reads(p.entries[i].insn, r) && Dead(p, i + 1, r) {
      var w :| i + 1 <= w <= |p.entries| && DeadUntil(p, i + 1, w, r);
      assert DeadUntil(p, i, w, r);
    }
    if Dead(p, i, r) {
      var w :| i <= w <= |p.entries| && DeadUntil(p, i, w, r);
      if w > i {
        assert DeadUntil(p, i + 1, w, r);
      }
    }
  }

  lemma DeadAtEnd(p: Prologue, r: Gpr)
    ensures Dead(p, |p.entries|, r) <==> r == p.asm.op0
  {
    if r == p.asm.op0 {
      assert DeadUntil(p, |p.entries|, |p.entries|, r);
    }
  }

  /** The table marks a register as written exactly when it is dead. */
  lemma {:induction false} TableExact(p: Prologue, i: nat, r: Gpr)
    requires p.asm.op0 < 16 && i <= |p.entries|
    ensures p.Table(i)[r].LastWrite? <==> Dead(p, i, r)
    decreases |p.entries| - i
  {
    if i == |p.entries| {
      DeadAtEnd(p, r);
    } else {
      TableExact(p, i + 1, r);
      TableStep(p, i, r);
      DeadStep(p, i, r);
    }
  }

  /** What a write in the table says: the index of the instruction that replaces the register, or, when only the asm
      block does, the length of the asm block's first instruction. */
  lemma {:induction false} WriteExact(p: Prologue, i: nat, r: Gpr)
    requires p.asm.op0 < 16 && i <= |p.entries| && p.Table(i)[r].LastWrite?
    ensures var w := p.Table(i)[r].i;
            || (i <= w < |p.entries| && DeadUntil(p, i, w, r))
            || (w == p.asm.len && DeadUntil(p, i, |p.entries|, r))
    ensures DeadUntil(p, i, |p.entries|, r) && (forall j | i <= j < |p.entries| :: !Kills(p.entries[j].insn, r))
            ==> p.Table(i)[r].i == p.asm.len
    decreases |p.entries| - i
  {
    if i < |p.entries| {
      TableStep(p, i, r);
      if !Kills(p.entries[i].insn, r) {
        WriteExact(p, i + 1, r);
      }
    }
  }

  // ---------- the choice ----------

  /** The register chosen for an instruction is dead before it. */
  lemma ChosenDead(p: Prologue, i: nat)
    requires p.asm.op0 < 16 && i < |p.entries| && p.Chosen(i).Some?
    ensures Dead(p, i, p.Chosen(i).value)
  {
    TableExact(p, i, p.Chosen(i).value);
  }

  /** The one register that can be dead and not available: the one only the asm block writes, for an instruction whose
      index is more than the length of the asm block's first instruction. */
  predicate Overlooked(p: Prologue, i: nat, r: Gpr)
    requires i <= |p.entries|
  {
    r == p.asm.op0 && i > p.asm.len && forall j | i <= j < |p.entries| :: !Kills(p.entries[j].insn, r)
  }

  /** No register is found exactly when every dead register is overlooked. */
  lemma ChosenExact(p: Prologue, i: nat)
    requires p.asm.op0 < 16 && i < |p.entries|
    ensures p.Chosen(i).None? <==> forall r: Gpr | Dead(p, i, r) :: Overlooked(p, i, r)
  {
    forall r: Gpr
      ensures Available(p.Table(i)[r], i) <==> Dead(p, i, r) && !Overlooked(p, i, r)
    {
      AvailableExact(p, i, r);
    }
  }

  lemma {:induction false} AvailableExact(p: Prologue, i: nat, r: Gpr)
    requires p.asm.op0 < 16 && i < |p.entries|
    ensures Available(p.Table(i)[r], i) <==> Dead(p, i, r) && !Overlooked(p, i, r)
  {
    TableExact(p, i, r);
    if p.Table(i)[r].LastWrite? {
      WriteExact(p, i, r);
      if p.Table(i)[r].i < i {
        KilledFirst(p, i, r, |p.entries|);
      }
    }
  }

  /** If the table entry is not an index from `i` on, no instruction from `i` on replaces the register. */
  lemma {:induction false} KilledFirst(p: Prologue, i: nat, r: Gpr, n: nat)
    requires p.asm.op0 < 16 && i <= n == |p.entries| && p.Table(i)[r].LastWrite? && p.Table(i)[r].i < i
    ensures r == p.asm.op0 && forall j | i <= j < n :: !Kills(p.entries[j].insn, r)
    decreases n - i
  {
    if i < n {
      TableStep(p, i, r);
      KilledFirst(p, i + 1, r, n);
    }
  }
}
