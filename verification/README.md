# Verification of the closure-ffi thunk relocator

closure-ffi turns a closure into a bare function pointer. The compiler generates a thunk template: a prologue, an asm
block that loads the closure pointer and jumps, a magic constant, and the rest of the function. At run time the
library copies everything up to the end of the magic to executable memory, rewrites the instructions of the prologue
that depend on where they stand, and writes the closure pointer and the address of the rest of the template over the
magic. This project models that relocator for AArch64, x86-64, 32-bit x86 and A32, together with the placement code
around it, and proves that entering the copy does what entering the template did.

## How the model is put together

- `Bytes`, `Arith`, `BitField`: little-endian words, the integer facts behind shifts and masks, and the getters and
  setters the `bitflags_field` macro generates.
- `CowBuf`: the copy-on-write edit buffer, as a class, and as a function on values.
- `ArmReloc`, `ArmLayout`, `ArmShape`: what the two Arm relocators share: the scan over a decision function, the
  edits, the literal pool, and where everything ends up. The pool entry width is a parameter (8 or 4).
- `EncodingA64`, `A64Reloc`, `EncodingA32`, `A32Reloc`: the encoders and the relocators, bit for bit.
- `A64Machine`, `A32Machine`, `X64Machine`, `X86Machine`: machines to run the code on. The instructions a relocator
  rewrites or emits have their architectural meaning; the effect of every other instruction is a parameter of the
  machine. A step is `None` where the processor faults. `Runs` and `CodePages` hold what they share.
- `A64Decode`, `A32Decode`: the encoders and decoders against the architecture's own decoding.
- `A64Simulation`, `A64Correct`, `A64EndToEnd`, `A64Theorem` and their A32 counterparts (with `A32Scan` and
  `A32Pool`): from one instruction to the placed thunk. `A64Examples` has a word whose rewriting is not faithful.
- `X64Reloc`, `X64Liveness`, `X64Correct`, `X64Theorem`: the x86-64 relocator, its backward pass and the refinement.
  `X64Examples` and `X64SkippedWrite` have three templates on which it falls short, with a decoder and an encoder for
  the instructions in them.
- `X86Reloc`, `X86Correct`, `X86Effects`, `X86Simulation`, `X86Theorem`, `X86Examples`: the call/pop rewriting, and two
  prologues, one that shows what its call has pushed and one that does not.
- `Placement`: `AllocatedThunk::new`: magic search, allocation, alignment and patching, as methods over arrays.
  `Layouts` says what that is on each architecture in numbers, `PlacedPool` where the literals of a placed thunk are.
- `Walks`, `ArmWalk`, `A64Accepts`, `A32Accepts`, `X64Accepts`, `X86Accepts`: which templates the relocators accept, and
  with which error they refuse the others, in terms of a walk through the template. What is at an offset, and where the
  walk goes on, is told by what the disassembler or decoder reports there, by the bits of the word and by numbers, not by
  the members that model the scan.

Methods with loops follow the source's loops and are proved equal to functions on values; the theorems are about those
functions. `X64Theorem`, `X86Theorem`, `A64Theorem` and `A32Theorem` each have a `Placeable` lemma that lets
`Placement.New` be given their relocator, and their main theorem starts from the `PlacedAt` that `New` ensures.

## What is assumed

- Disassemblers and x86 encoders are parameters. The hypotheses on them are predicates: `A64Simulation.ReportsBranches`
  and `A32Scan.Reports`, about the instructions the scan has visited (on AArch64, that a branch other than B is in a group
  numbered 1, 2, 3 or 7; on A32, among others, that the condition AL is reported exactly where bits 28 to 31 are 14),
  `X64Correct.Trusted` and `X64Correct.Respects`, `X86Theorem.Trusted`. The acceptance theorems need none of them. `X64SkippedWrite.SkippedWriteRelocated` and `X86Examples.LoweringRelocatedBy` meet the x86 ones
  with a decoder. For the instructions whose meaning is known, `X64Correct.LoadRespects` and `X86Effects.PopBlind` prove
  what is assumed of the others.
- Code pages (the program's own and the thunks) are not written while the prologue runs.
- The allocator hands out a writable and an executable view of the same memory, at addresses congruent modulo the
  alignment of the magic. Page protection and cache flushing are not modelled.
- Side conditions the code leaves to its caller stay explicit: `A64Theorem.Unchecked`, `A32Scan.Unchecked`,
  `ArmReloc.Advances` (for A32), `X64Correct.Straight`, `X86Effects.Quiet`.

## Model

| member | source | states |
|---|---|---|
| A64Theorem.A64ThunkEntersClosure | src/safe_jit/aarch64.rs:16-114 | Enter the relocated, placed and patched thunk anywhere: it faults exactly when the original prologue does, and otherwise reaches the template's code after the asm block with the registers, memory and flags of the original, the closure register holding the closure pointer |
| A64Theorem.A64Placeable | src/arch.rs:240-253 | The thunk the AArch64 relocator makes of the template up to its first magic has room for both pointer slots, so the allocator may be given it |
| A64EndToEnd.ThunkEntersClosure | src/arch.rs:122-140 | The same for any decoders and encoder that understand the architecture, through the asm block's two relative loads and its jump |
| A64Correct.PlacedSimulates | src/safe_jit/aarch64.rs:31-80 | The relocated prologue has the outcome of the original from every state, at every base address |
| A64Correct.RelocatedLaidOut | src/safe_jit/aarch64.rs:82-113 | Each instruction of the result stands where the offset map says, each placeholder loads its recorded target from the pool, the asm block and what follows are unchanged, and the magic has moved with them |
| A64Correct.BranchFollowed | src/safe_jit/aarch64.rs:67-72 | In the relocated code, a branch that was followed leads from the new place of the branch to the new place of its target, as the original leads from the one to the other |
| A64Simulation.RunsMatch | src/safe_jit/aarch64.rs:31-80 | Steps of the original are matched one for one, or one for two where a load was rewritten, over a whole prologue |
| A64Accepts.A64AcceptanceExact | src/safe_jit/aarch64.rs:16-114 | The relocator succeeds if and only if the walk from the first instruction (literal loads and address computations are passed, a B is followed to a later offset of the template, an instruction in a group numbered below eight is refused) arrives at a load of the magic and every literal can be loaded from its place in the pool; otherwise the error is the one at which the walk stops, or an encoding error. The template comes back unchanged if and only if nothing was rewritten |
| A64Accepts.A64ScanExact | src/safe_jit/aarch64.rs:31-84 | The scan succeeds exactly when the walk arrives, and fails with an error exactly when the walk stops at it |
| ArmReloc.UnsupportedExact | src/safe_jit/arm_util.rs:16-34 | The groups refused are exactly those numbered below eight |
| A64Correct.KeptGroups | src/safe_jit/aarch64.rs:77-79 | An instruction that is copied as it is is in no group numbered below eight |
| A64Correct.VisitUnderstood | src/safe_jit/aarch64.rs:40-79 | Whatever the scan visits, it understands: the item recorded describes the architectural instruction |
| A64Correct.PoolAlignment | src/safe_jit/aarch64.rs:92-96 | The pool is aligned to eight bytes relative to the magic if and only if the template ends a multiple of four bytes after the magic |
| PlacedPool.A64PoolAligned | src/safe_jit/aarch64.rs:92-107 | Every literal of a thunk that `New` has placed is in the block, at an absolute address that is a multiple of eight, and the slot of its load holds the load of it |
| PlacedPool.PaddingExact | src/safe_jit/arm.rs:121-125 | The padding before the pool is half a literal of zeros exactly where the template does not end a multiple of the literal's width past the magic, for both widths |
| ArmShape.UnchangedExact | src/safe_jit/aarch64.rs:86-113 | The thunk is the template with its magic where it was if and only if no instruction was rewritten |
| A64Reloc.TryRelocThunkTemplate | src/safe_jit/aarch64.rs:16-114 | The imperative relocator computes the function the theorems are about, error cases included, on every template |
| A64Decode.PoolLoadReaches | src/safe_jit/aarch64.rs:100-106 | The load made for a placeholder reaches its literal if and only if the distance is a multiple of four below 1 MiB |
| A64Decode.PoolLoadMisses | src/safe_jit/aarch64.rs:100-106 | From 1 MiB to 2 MiB the load is accepted and reads somewhere else |
| A64Decode.AdrTargetExact | src/safe_jit/arm_util/encoding_aarch64.rs:105-116 | The computed ADR or ADRP target is the architecture's if and only if bits 19 and 20 of the immediate agree |
| A64Decode.AdrSignLost | src/safe_jit/arm_util/encoding_aarch64.rs:105-116 | The word 0x10400000 is recognised and its target is 1 MiB too low, at every address |
| A64Decode.RecogniseAgrees | src/safe_jit/aarch64.rs:36-76 | On every word, what the decoders report is what the architecture decodes: kind, register, target, and the load put in its place |
| A64Decode.LdrImmDecodes | src/safe_jit/arm_util/encoding_aarch64.rs:39-77 | LDR (literal) is recognised exactly when the architecture decodes one, with the same operands |
| A64Decode.AdrDecodes | src/safe_jit/arm_util/encoding_aarch64.rs:92-103 | ADR and ADRP are recognised exactly when the architecture decodes one |
| A64Decode.BranchDecodes | src/safe_jit/arm_util/encoding_aarch64.rs:128-140 | B is recognised exactly when the architecture decodes one, with the same offset |
| A64Decode.LoadThroughDecodes | src/safe_jit/aarch64.rs:54-56 | The load put in the place of a literal load always encodes, and loads the same width through the same register |
| A64Decode.LiteralKept | src/safe_jit/aarch64.rs:77-79 | Literal loads into vector registers, and literal prefetches, are copied as they are, and name the same address if and only if the copy is where the original is |
| A64Examples.DiscardedLoadExact | src/safe_jit/aarch64.rs:54-56 | A literal load into register 31 is matched by what replaces it if and only if the literal and what the stack pointer names are both mapped, or neither |
| A64Examples.DiscardedLoadFaults | src/safe_jit/aarch64.rs:54-56 | The word 0x5800001F is accepted; the original never faults there, and the new code faults exactly where the stack pointer does not name eight mapped bytes |
| EncodingA64.LdrImmNewReadsBack | src/safe_jit/arm_util/encoding_aarch64.rs:57-64 | `new` succeeds exactly on registers below 32 and immediates in [-2^19, 2^19); the word decodes to the same opcode and register, and to the same immediate exactly in [-2^18, 2^18) |
| EncodingA64.LdrImmRebuilt | src/safe_jit/arm_util/encoding_aarch64.rs:38-77 | Every accepted word is rebuilt from its decoded fields |
| EncodingA64.LdrOfsNewReadsBack | src/safe_jit/arm_util/encoding_aarch64.rs:165-205 | LDR (immediate) succeeds exactly on representable operands and reads back |
| BitField.SetKeepsDisjoint | src/safe_jit/arm_util.rs:199-204 | Setting a field leaves every disjoint field as it was, for every range in the word |
| BitField.TrySetExact | src/safe_jit/arm_util.rs:206-218 | The unsigned try-setter succeeds exactly on representable values, and the value reads back |
| BitField.SignedIsTwosComplement | src/safe_jit/arm_util.rs:221-233 | The signed getter is the field in two's complement |
| BitField.TrySetSignedExact | src/safe_jit/arm_util.rs:243-257 | The signed try-setter accepts [-2^n, 2^n) for n bits, and reads back exactly in [-2^(n-1), 2^(n-1)) |
| CowBuf.CowBuffer.Append | src/safe_jit/arm_util.rs:107-117 | The buffer after an append, and the offset it returns |
| CowBuf.CowBuffer.Replace | src/safe_jit/arm_util.rs:131-141 | The buffer after a replacement, and the offset it returns |
| CowBuf.CowBuffer.Ignore | src/safe_jit/arm_util.rs:119-129 | The buffer after bytes are dropped, and the offset it returns |
| CowBuf.IntoBytesIsEdited | src/safe_jit/arm_util.rs:68-141 | After any calls at offsets that do not go back, `into_bytes` is the original with the edits applied if and only if something was written or nothing was dropped |
| CowBuf.DroppedBytesReturn | src/safe_jit/arm_util.rs:68-77 | A buffer that has only dropped bytes returns the whole original |
| CowBuf.ReturnedOffsetLocates | src/safe_jit/arm_util.rs:107-141 | An offset returned by a call that wrote something locates those bytes in the final result, whatever calls follow |
| ArmLayout.EmitAllSizes | src/safe_jit/aarch64.rs:36-65 | The running magic offset is the original plus the bytes inserted, and the placeholders are those of the offset map |
| ArmLayout.EmitAllLaid | src/safe_jit/aarch64.rs:36-65 | After the scan's edits every kept instruction and every load through a register stands at its mapped offset |
| ArmLayout.BackpatchFillsPool | src/safe_jit/aarch64.rs:98-107 | After back-patching every slot loads its own pool entry, which holds its target, and no other byte has changed |
| ArmLayout.BackpatchExact | src/safe_jit/arm.rs:129-135 | Back-patching succeeds exactly when every load can be encoded at its distance, and fails with an encoding error |
| ArmShape.ScanVisits | src/safe_jit/aarch64.rs:31-80 | The scan's instructions follow each other from the entry to the asm block; each is the decision made at its offset |
| ArmShape.AllPlacedKept | src/arch.rs:260-273 | Writing over the magic keeps every relocated instruction before it and every literal after it |
| A32Theorem.A32ThunkEntersClosure | src/safe_jit/arm.rs:24-142 | Enter the relocated, placed and patched A32 thunk: it faults exactly when the original prologue does, and otherwise reaches the code after the asm block in the same state with the closure register set |
| A32Theorem.A32RelocationSimulates | src/safe_jit/arm.rs:38-142 | The relocated prologue does what the original does at every base that is a multiple of four, although displacements are computed with the template's address |
| A32Theorem.A32RelocationExact | src/safe_jit/arm.rs:127-135 | Once the scan succeeds, relocation fails if and only if a literal is 4096 bytes or more from the program counter of its load, and then with an encoding error |
| A32Accepts.A32AcceptanceExact | src/safe_jit/arm.rs:24-142 | Where the branches followed lead forward: the relocator succeeds if and only if the walk arrives at a load of the magic and every literal is less than 4096 bytes from the program counter of its load; otherwise the error is the one at which the walk stops, or an encoding error |
| A32Accepts.A32ScanExact | src/safe_jit/arm.rs:38-113 | The scan succeeds exactly when the walk arrives (an instruction that writes the program counter or is in a group below eight, and one that reads it conditionally or is neither ADR nor a literal load, are refused), and fails with an error exactly when the walk stops at it |
| A32Scan.RewrittenAlways | src/safe_jit/arm.rs:70-73 | An instruction that is rewritten has the condition AL in bits 28 to 31 |
| A32Scan.VisitedGroups | src/safe_jit/arm.rs:59-69 | Anything visited but a B does not write the program counter and is in no group below eight; what is copied does not read it |
| PlacedPool.A32PoolAligned | src/safe_jit/arm.rs:121-135 | Every literal of a thunk that `New` has placed is in the block, at an absolute address that is a multiple of four |
| A32Theorem.A32Placeable | src/arch.rs:240-253 | The allocator may be given the A32 relocator: the thunk of the first magic has room for both slots |
| A32Reloc.TryRelocThunkTemplate | src/safe_jit/arm.rs:24-142 | The imperative relocator computes the function the theorems are about |
| A32Scan.VisitUnderstood | src/safe_jit/arm.rs:38-109 | Every instruction visited at an aligned offset is understood, given a truthful disassembler and the conditions of `Unchecked` |
| A32Scan.KeptBranchMoves | src/safe_jit/arm.rs:47-69 | A branch out of the template is copied as it is and leads to the same place only from its old address |
| A32Pool.RelocatedLaidOut | src/safe_jit/arm.rs:111-141 | The A32 result is laid out as the offset map says, each placeholder loading its target from the pool |
| A32Decode.NewLitDecodes | src/safe_jit/arm_util/encoding_arm.rs:36-50 | `new_lit` makes a load that reaches its literal wherever both are moved together by a multiple of four, and fails exactly out of range |
| A32Decode.LoadTargetExact | src/safe_jit/arm_util/encoding_arm.rs:110-118 | `target_pc` is the address the architecture loads a literal from, for every load form |
| A32Decode.RtLoadDecodes | src/safe_jit/arm_util/encoding_arm.rs:122-138 | `as_rt_load` is the same load through its own target register |
| A32Decode.AdrDecodes | src/safe_jit/arm_util/encoding_arm.rs:157-181 | ADR is recognised exactly when the architecture decodes one, with the same target, rotated immediate included |
| A32Decode.RotateExact | src/safe_jit/arm_util/encoding_arm.rs:174 | `rotate_right` is repeated rotation by one bit |
| X64Theorem.X64ThunkEntersClosure | src/safe_jit/x86_64.rs:11-163 | Whenever the original prologue reaches the asm block the placed thunk reaches the code after it, with memory, flags and every register as the original leaves them, except the closure register; where the original faults, so does the thunk |
| X64Theorem.X64BranchFreeFinishes | src/safe_jit/x86_64.rs:91-163 | Without branches the prologue finishes, and so does the thunk: same state, or a fault on both sides |
| X64Theorem.X64Placeable | src/arch.rs:240-253 | The allocator may be given the x86-64 relocator: the thunk of the first magic has room for both slots |
| X64Accepts.X64AcceptanceExact | src/safe_jit/x86_64.rs:11-163 | If the walk does not arrive at an operand that is the magic, the relocator fails for the reason it stops. Otherwise there is one prologue, and in this order: a branch past the start of the asm block is refused; with no operand relative to the instruction pointer the result is the template and its magic unchanged; an asm block that does not load into a general purpose register, an operand for which every dead register is overlooked, and one that does not encode with the lowest other dead register are refused, each with its error; and all else is accepted |
| X64Accepts.X64ScanExact | src/safe_jit/x86_64.rs:27-61 | The scan succeeds exactly when the walk arrives, and fails with an error exactly when the walk stops at it |
| X64Accepts.ChosenPicks | src/safe_jit/x86_64.rs:112-121 | The register chosen is the one with the lowest number that is dead and not overlooked, and there is none exactly when every dead register is overlooked |
| X64Theorem.BranchesInside | src/safe_jit/x86_64.rs:40-66 | In an accepted prologue every conditional branch leads to an offset of the prologue or to the asm block |
| X64Correct.RewrittenSimulates | src/safe_jit/x86_64.rs:132-145 | A rewritten instruction does what the original does, although its register was overwritten first |
| X64Correct.BranchLands | src/safe_jit/x86_64.rs:146-150 | A copied conditional branch lands on the new code for its target if and only if no instruction in between is rewritten |
| X64Correct.BranchExact | src/safe_jit/x86_64.rs:95-121 | A branch over instructions that are kept is followed from every pair of states that agree outside dead registers if and only if every register dead after it is dead at its target |
| X64Correct.MovIsMov | src/safe_jit/x86_64.rs:137-139 | The bytes put before a rewritten instruction are those of MOV r64, imm64, for each of the sixteen registers |
| X64Correct.RewrittenGrows | src/safe_jit/x86_64.rs:132-145 | Rewritten instructions get longer, given an encoder that saves less than ten bytes |
| X64Liveness.TableExact | src/safe_jit/x86_64.rs:96-110 | The table marks a register as written if and only if it is dead: no instruction from there on reads it before one replaces it |
| X64Liveness.WriteExact | src/safe_jit/x86_64.rs:91-110 | The index in a written entry is that of the replacing instruction, or the length of the asm block's first instruction |
| X64Liveness.ChosenDead | src/safe_jit/x86_64.rs:112-121 | The register chosen for an instruction is dead before it |
| X64Liveness.ChosenExact | src/safe_jit/x86_64.rs:91-121 | No register is found if and only if every dead register is the closure register, replaced only by the asm block, at an index above that length |
| X64Examples.LateLoadRefused | src/safe_jit/x86_64.rs:91-119 | A template the relocator refuses for want of a register although RAX is dead |
| X64Examples.JumpOverMisses | src/safe_jit/x86_64.rs:146-150 | An accepted template whose copied branch misses the new code for its target |
| X64SkippedWrite.SkippedWriteRelocated | src/safe_jit/x86_64.rs:95-121 | A template with a branch over a write that makes a register look dead meets every hypothesis of the main theorem but `Straight`, and is accepted |
| X64SkippedWrite.SkippedWriteMisses | src/safe_jit/x86_64.rs:95-121 | When the branch is taken, the original arrives with the caller's RAX in RCX and the placed thunk with an address of the template |
| X64Reloc.PickRegisters | src/safe_jit/x86_64.rs:95-122 | The backward pass leaves on its stack the register chosen for each instruction, or fails when one has none |
| X64Reloc.Reencode | src/safe_jit/x86_64.rs:130-153 | Each instruction pops the register chosen for it, the stack is empty at the end, and the running offset is the original position |
| X64Reloc.TryRelocThunkTemplate | src/safe_jit/x86_64.rs:11-163 | The imperative relocator computes the function the theorems are about, error cases included |
| X86Theorem.X86ThunkEntersClosure | src/safe_jit/x86.rs:15-101 | Where the original prologue arrives, the placed thunk arrives with the same registers and flags and the closure register set; memory differs at most in the cells where something of what the calls have pushed remains |
| X86Theorem.X86StackKept | src/safe_jit/x86.rs:35-53 | If nothing remains at or above the stack pointer the original ends with, all memory there is the same |
| X86Theorem.X86StackExact | src/safe_jit/x86.rs:35-53 | That memory is the same if and only if every cell that remains there holds what the new code has in it: with no read-modify-write of such a cell, if and only if each byte pushed that is still there is the one it was pushed over |
| X86Accepts.X86AcceptanceExact | src/safe_jit/x86.rs:15-101 | The relocator succeeds if and only if instructions that continue, and CALLs by zero each followed by a POP, lead from the first byte to the offset sixteen bytes before the magic; otherwise the error is the one at which the walk stops. The template comes back unchanged if and only if no CALL is passed |
| X86Simulation.MovIsMov | src/safe_jit/x86.rs:87-90 | The bytes put in place of a pair are those of MOV r32, imm32 |
| X86Theorem.X86Placeable | src/arch.rs:240-253 | The allocator may be given the x86 relocator |
| X86Effects.PrologueUnder | src/safe_jit/x86.rs:26-100 | Any number of pairs: the spliced prologue gets through where the original does, and its final state is the original's with, in the cells that remain, what the calls would have overwritten |
| X86Effects.PrologueAgrees | src/safe_jit/x86.rs:26-100 | From the same state, the two differ only in the cells that remain |
| X86Effects.PushesExact | src/safe_jit/x86.rs:35-53 | The exact condition in terms of the bytes pushed and the bytes they were pushed over |
| X86Effects.RemainsBelow | src/safe_jit/x86.rs:35-53 | Nothing remains at or above the final stack pointer if no call found the stack pointer above it |
| X86Effects.TouchedBelowExact | src/safe_jit/x86.rs:35-53 | The cells written are all below the final stack pointer if and only if no call found the stack pointer above it |
| X86Examples.LoweringRelocates | src/safe_jit/x86.rs:26-101 | The relocator accepts a prologue that lowers the stack pointer after a pair |
| X86Examples.LoweringRelocatedBy | src/safe_jit/x86.rs:26-101 | It meets every hypothesis of the main theorems, on every machine with these instructions |
| X86Examples.StackTopDiffers | src/safe_jit/x86.rs:35-53 | The original arrives with the address CALL pushed at the top of the stack, and the placed thunk with what was there before |
| X86Examples.NothingRemains | src/safe_jit/x86.rs:35-53 | A prologue that pushes over the return address and pops it again leaves nothing, and both codes end in the same state |
| X86Correct.SplicedIsCode | src/safe_jit/x86.rs:77-95 | Splicing the pairs out of the template is translating its instructions one by one |
| X86Correct.FinishedShape | src/safe_jit/x86.rs:71-100 | The output is shorter by the length of each pair less five, and the new magic offset locates the same suffix |
| X86Reloc.TryRelocThunkTemplate | src/safe_jit/x86.rs:15-101 | The imperative relocator computes the function the theorems are about |
| Placement.FindMagic | src/arch.rs:224-231 | The search ends at the first aligned occurrence of the magic, on every template that has one |
| Placement.New | src/arch.rs:204-287 | The template itself for a closure of size zero; otherwise the relocated template inside the allocated block, its magic aligned and both slots filled, or the relocation or allocation error |
| Layouts.A64InNumbers | src/arch.rs:204-276 | On AArch64 the magic is AD DE 00 00 AD DE 00 00 at the lowest multiple of eight where it stands, and sixteen bytes past it are the end of the template and the return address; the block is seven bytes longer than the thunk, whose magic is again at a multiple of eight, with the closure pointer over it and the return address after it |
| Layouts.X86_64InNumbers | src/arch.rs:204-276 | On x86-64 the same, with fourteen F0, FF and F0 for the magic |
| Layouts.X86InNumbers | src/arch.rs:204-276 | On 32-bit x86 the slots are fifteen and ten bytes before the magic, which is at a multiple of the alignment of its type |
| Layouts.A32InNumbers | src/arch.rs:204-276 | On A32 the magic is FD EA FD E7 at a multiple of four, eight bytes before the end; the block is three bytes longer than the thunk |
| Placement.PatchedReadsBack | src/arch.rs:260-273 | Both slots read back what was written, do not overlap on any architecture, and every other byte is the relocated thunk's |
| Placement.AlignOffset | src/arch.rs:226 | The least number of bytes to the next multiple of the alignment |
| Placement.SameAlignment | src/arch.rs:250-253 | Aligning the writable view aligns the executable one |

## Findings

Properties the code does not have. Each has an input on which it fails and, where one exists, the exact condition under
which it holds.

- ADR sign bit (src/safe_jit/arm_util/encoding_aarch64.rs:105-116): the sign of the 21-bit immediate is taken from bit
  19. `A64Decode.AdrTargetExact` has the condition, `A64Decode.AdrSignLost` the word 0x10400000.
- Pool loads out of reach (src/safe_jit/aarch64.rs:100-106): the signed try-setter accepts one bit more than it can
  hold, so a literal 1 MiB to 2 MiB away is accepted and never loaded. `A64Decode.PoolLoadReaches`,
  `A64Decode.PoolLoadMisses`, `BitField.TrySetSignedExact`.
- Vector literal loads (src/safe_jit/aarch64.rs:77-79): copied unchanged, so they name the same address only where they
  are not moved. `A64Decode.LiteralKept` has the condition; the theorem excludes them through `Movable`.
- Register 31 (src/safe_jit/aarch64.rs:54-56): a literal load that discards its result becomes a load through the stack
  pointer. `A64Examples.DiscardedLoadExact` has the condition, `A64Examples.DiscardedLoadFaults` the word 0x5800001F.
- Empty `CowBuffer` (src/safe_jit/arm_util.rs:68-77): a buffer from which bytes were dropped and to which none were
  written returns the original. `CowBuf.IntoBytesIsEdited`, `CowBuf.DroppedBytesReturn`.
- Byte length as an index (src/safe_jit/x86_64.rs:92): the seed of the backward pass stores a length where later
  comparisons expect an index, so a dead register can be overlooked. The choice stays sound (`X64Liveness.ChosenDead`);
  `X64Liveness.ChosenExact` says exactly what is lost, `X64Examples.LateLoadRefused` shows a template.
- Copied conditional branches (src/safe_jit/x86_64.rs:146-150): displacements are not adjusted for instructions inserted
  in between. `X64Correct.BranchLands`, `X64Examples.JumpOverMisses`.
- Skipped writes (src/safe_jit/x86_64.rs:95-121): the backward pass does not follow branches, so a register is taken for
  dead when a branch skips the write that replaces it, and its value is lost. `X64Correct.BranchExact` has the condition,
  `X64SkippedWrite.SkippedWriteMisses` a template.
- x86 stack memory (src/safe_jit/x86.rs:35-53): the return address that CALL pushes is not pushed by the new code, which
  shows if the stack pointer ends at or below it and it is not overwritten. `X86Theorem.X86StackExact` has the condition,
  `X86Examples.StackTopDiffers` a template.
- A32 branches out of the template (src/safe_jit/arm.rs:47-69): copied unchanged unless the disassembler says that B
  reads the program counter, and then they lead to the same place only where they are not moved.
  `A32Scan.KeptBranchMoves`.

## Left out

- Thumb mode (src/safe_jit/arm_util/encoding_thumb.rs): several of its decoders do not match the architecture.
- Page protection, cache flushing and the allocators of src/jit_alloc.rs: calls into the operating system; the model
  keeps only that allocation returns two congruent views of a block of the size asked for.
- src/bare_closure.rs, src/cc.rs, src/traits.rs, src/thunk_factory.rs, proc_macros/src/lib.rs: types and code generation
  around the relocator.
- Unused encoders (`LdrImm::new_at`, `Branch::try_set_target_pc`): no relocator calls them.
- Capstone and iced-x86: disassembling and x86 encoding are parameters, with the hypotheses named above.
- A64Theorem.A64ThunkEntersClosure: asks for the conditions of `Unchecked`, for a relocated thunk of at most 1 MiB and for
  a template whose length is a multiple of four, none of which the code checks.
- A32Accepts.A32AcceptanceExact: asks that the branches followed lead forward.
- A32Theorem.A32ThunkEntersClosure: asks that the branches the scan follows lead forward (it need not end otherwise), and
  for the conditions of `Unchecked`. Those leave out a conditional branch within the template, which the scan follows as
  if it were taken.
- A32Reloc.TryRelocThunkTemplate: its precondition is that same forwardness of the branches followed, without which the
  loop it models may run for ever.
- BitField.TrySetSignedExact: for fields of fewer than 32 bits; no signed field is a whole word.
- X64Reloc.TryRelocThunkTemplate: where the code panics, because the first operand of the instruction that loads from the
  magic is not a 64-bit general purpose register, the model returns `IndexOutOfBounds`.
- X64Theorem.X64ThunkEntersClosure: for prologues with branches it asks that each can be copied (`Straight`), and says
  nothing about a prologue that has not reached the asm block after the given number of steps.
- X86Theorem.X86ThunkEntersClosure: goes from the original to the thunk only; the thunk also gets through where the
  original's CALL would fault on an unmapped stack.
- X86Theorem.X86StackExact: what an instruction makes of a pushed byte without depending on it (a NOT of a dead stack
  slot) is carried along by `X86Effects.Underneath`, which applies the instruction to the byte overwritten.
- A64Theorem.A64Placeable: asks that the thunk fits in the address space.
- A32Theorem.A32Placeable: asks the same, and that the branches followed lead forward.
- X64Theorem.X64Placeable: asks the same, and that the thunk is no shorter than the two pointer slots.
