# MIPS trap frame: layout and save/restore macros

This project models the trap-frame machinery of a small MIPS teaching
kernel, as declared in `lab3-traps/headers/stackframe.h`.

- **The trap frame.** A frame has 39 word-sized slots: `gpr[0..31]`, then
  `lo`, `hi`, and the CP0 registers Status, Cause, BadVAddr, EPC and
  EntryHi. Slot `k` sits at byte offset `k * LONGSIZE`, and the frame is
  `TF_SIZE = 39 * LONGSIZE` bytes. `LONGSIZE` is 4 (MIPS32) or 8 (MIPS64).
- **The macros.** The assembly macros that build a frame on trap entry are
  `SAVE_SOME`, `SAVE_AT`, `SAVE_TEMP`, `SAVE_STATIC` and `SAVE_ALL`. Those
  that unwind it on exit are `RESTORE_TEMP`, `RESTORE_STATIC`, `RESTORE_AT`,
  `RESTORE_SOME`, `RESTORE_SP` and `RESTORE_ALL`, with their `_AND_RET`
  variants. `get_saved_sp` and `set_saved_sp` read and write the per-CPU
  kernel stack table `kernelsp`.

The model has five modules.

- `Layout` (`layout.dfy`): the slot numbering, the `TF_*` offsets and
  `TF_SIZE`. It proves that the offsets agree with the C layout of
  `struct trapframe`.
- `Words` (`words.dfy`): machine words and the build parameters `LONGSIZE`,
  `WORD_SHIFT`, `ST_KSU` and `ST_EXCM`.
  - Words are unsigned numbers.
  - Subtraction and shifts wrap modulo `2^(8*LONGSIZE)`.
  - `and`, `or`, `xor` and `nor` are defined bit by bit, and their
    properties are proved bit by bit.
- `StatusMerge` (`status.dfy`): how `RESTORE_SOME` rebuilds Status.
  1. It writes a safe intermediate value, the live Status with the
     `ST_EXCM` bits cleared.
  2. It then writes the merge. Bits 8..15 (the mask `0xff00`) come from
     the live value; every other bit comes from the saved frame.
- `Frame` (`frame.dfy`): stack memory as a map from byte address to word.
  It defines the slot address `TF_X(sp)` with wrap-around, the trap frame
  as a value, and runs of `STORE`s into a frame.
- `StackFrame` (`stackframe.dfy`): a `Machine` class holding:
  - the register file, `lo`/`hi` and the five CP0 registers;
  - memory and the `kernelsp` table;
  - an `eret` flag;
  - a ghost history of the values written to Status.

  Every macro is a method that performs the macro's instructions in order.
  A run of consecutive `STORE`s of registers is one `StoreFields` over the
  slots in the order listed. A value that passes through `v1` (the CP0
  values in `SAVE_SOME`, `hi` and `lo` in `SAVE_TEMP`) is moved into `v1`
  first and then stored from `v1`. Lemmas prove that the stores of each
  save macro, taken instruction by instruction, are one run of stores of
  the machine state at trap entry.
  `SaveAll`, `RestoreAll` and `RestoreAllAndRet` are composed from the
  smaller macros exactly as the header composes them. Two client methods
  run save-then-restore and `set_saved_sp`-then-`get_saved_sp`.

The `0xff00` mask covers only the interrupt-mask bits IM7..IM0. The
comments beside `RESTORE_SOME` say the live KX/SX/UX bits are kept too.
Those are Status bits 7..5, so with this mask they come from the saved
frame, and the model follows the code.

## Model

| member | source | states |
|---|---|---|
| Layout.Index | lab3-traps/headers/stackframe.h:40-79 | every field has a slot number below `TF_MEMBERS`; exactly the 32 GPR slots are numbered below 32, each with its register number |
| Layout.Offset | lab3-traps/headers/stackframe.h:40-79 | the byte offset `TF_X` = slot number × `LONGSIZE`; its properties are in `SlotInsideFrame` and `SlotsDisjoint` |
| Layout.TfSize | lab3-traps/headers/stackframe.h:36-37 | `TF_SIZE` = `TF_MEMBERS` × `LONGSIZE`; `SlotInsideFrame` proves every slot lies below it |
| Layout.IndexInjective | lab3-traps/headers/stackframe.h:40-79 | no two `TF_*` constants share a slot number |
| Layout.SlotInsideFrame | lab3-traps/headers/stackframe.h:36-79 | every slot offset is `LONGSIZE`-aligned and the slot ends within `TF_SIZE` |
| Layout.SlotsDisjoint | lab3-traps/headers/stackframe.h:40-79 | the byte ranges of two different slots do not overlap |
| Layout.StructOrder | lab3-traps/headers/stackframe.h:83-95 | `struct trapframe` has `TF_MEMBERS` (39) word members |
| Layout.StructOrderFollowsIndex | lab3-traps/headers/stackframe.h:40-95 | the struct member at position k is the field whose `TF_*` slot number is k |
| Layout.StructLayout | lab3-traps/headers/stackframe.h:83-95 | with every member `size` bytes wide, member `f` of `struct trapframe` sits at byte `Index(f) * size` |
| Layout.StructLayoutMatchesOffsets | lab3-traps/headers/stackframe.h:36-95 | for every field, the C layout offset of the struct member equals the hand-written `TF_*` offset, and `sizeof` equals `TF_SIZE` |
| Layout.StructLayoutNeedsLongSizeMembers | lab3-traps/headers/stackframe.h:30-95 | the `TF_*` offsets match the C layout for every field if and only if `unsigned long` is `LONGSIZE` bytes wide |
| Words.Wrap | lab3-traps/headers/stackframe.h:144 | the result of a wrapping arithmetic instruction fits the register width |
| Words.ShiftLeft | lab3-traps/headers/stackframe.h:108 | `SLL`: `x * 2^n` reduced to the register width (through `Wrap`) |
| Words.And | lab3-traps/headers/stackframe.h:135 | `and`/`andi` on unsigned words; `BitAnd` states its meaning |
| Words.Or | lab3-traps/headers/stackframe.h:261 | `or`/`ori`; `BitOr` states its meaning |
| Words.Xor | lab3-traps/headers/stackframe.h:262 | `xori`; `BitXor` states its meaning |
| Words.Nor | lab3-traps/headers/stackframe.h:266 | `nor` at register width; `BitNor` states its meaning |
| Words.BitAnd | lab3-traps/headers/stackframe.h:264-267 | bit i of `and` is set iff it is set in both operands |
| Words.BitOr | lab3-traps/headers/stackframe.h:261-268 | bit i of `or` is set iff it is set in either operand |
| Words.BitXor | lab3-traps/headers/stackframe.h:262 | bit i of `xor` is set iff the operands differ there |
| Words.BitNor | lab3-traps/headers/stackframe.h:266 | bit i of `nor` is set iff it is below the register width and clear in both operands |
| Words.BitsDetermine | lab3-traps/headers/stackframe.h:259-269 | two words with the same bits are equal |
| StatusMerge.ImMaskBits | lab3-traps/headers/stackframe.h:260 | `0xff00` has exactly bits 8..15 set |
| StatusMerge.SafeStatus | lab3-traps/headers/stackframe.h:259-263 | the value written by the first `mtc0`; `SafeStatusBits` states it is the live Status less the `ST_EXCM` bits |
| StatusMerge.MergeStatus | lab3-traps/headers/stackframe.h:264-269 | the value written by the second `mtc0`; `MergeStatusBits` and the two mask lemmas state where each bit comes from |
| StatusMerge.SafeStatusBits | lab3-traps/headers/stackframe.h:259-263 | the intermediate Status written first is the live value with every `ST_EXCM` bit cleared: `(x or m) xor m == x and not m` |
| StatusMerge.MergeStatusBits | lab3-traps/headers/stackframe.h:264-269 | bit by bit, the final Status has the current value's bits 8..15 and the saved value's other bits up to the register width |
| StatusMerge.MergeKeepsCurrentImBits | lab3-traps/headers/stackframe.h:264-269 | the merged value masked with `0xff00` equals the current value masked with `0xff00` |
| StatusMerge.MergeTakesOtherBitsFromSaved | lab3-traps/headers/stackframe.h:264-269 | the merged value masked with `nor(0, 0xff00)` equals the saved value masked the same way |
| StatusMerge.RestoredStatusBits | lab3-traps/headers/stackframe.h:259-269 | the whole formula: final Status is `((live and not ST_EXCM) and 0xff00) or (saved and not 0xff00)` at register width |
| StatusMerge.MergeOfOwnStatus | lab3-traps/headers/stackframe.h:259-269 | when `ST_EXCM` has no bit in `0xff00` and the value fits the register, merging a Status with itself gives it back |
| Frame.SlotAddr | lab3-traps/headers/stackframe.h:145-168 | the address `TF_X(sp)` lies inside the address space |
| Frame.LoadSlot | lab3-traps/headers/stackframe.h:217-299 | `LOAD rt, TF_X(sp)`: the word at the slot address, 0 if never stored; `StoreFieldsSlot` relates it to stores |
| Frame.Store | lab3-traps/headers/stackframe.h:145-206 | `STORE rt, TF_X(sp)`: one word written at the slot address |
| Frame.StoreFields | lab3-traps/headers/stackframe.h:145-206 | a run of `STORE`s of the members of a frame value, in the order listed; `StoreFieldsSlot` and `StoreFieldsOutside` state its effect |
| Frame.SlotAddrInjective | lab3-traps/headers/stackframe.h:40-79 | different slots of one frame have different addresses, also when the frame wraps around the address space |
| Frame.StoreFieldsSlot | lab3-traps/headers/stackframe.h:145-168 | after a run of stores into a frame, each stored slot reads back its member and every other slot keeps its old word |
| Frame.StoreFieldsOutside | lab3-traps/headers/stackframe.h:145-168 | stores into a frame leave every address outside the frame unchanged |
| Frame.StoreFieldsAgree | lab3-traps/headers/stackframe.h:145-168 | a run of stores depends only on the members it stores |
| Frame.StoreFieldsAppend | lab3-traps/headers/stackframe.h:209-214 | two consecutive runs of stores are one run over both slot lists |
| Frame.StoreFieldsSnoc | lab3-traps/headers/stackframe.h:154-194 | one more store of the member a slot names extends a run of stores by that slot |
| Frame.StoreFieldsContinue | lab3-traps/headers/stackframe.h:145-207 | stores from a second machine state continue a run of stores from a first one when the two agree on the stored members |
| Frame.SlotAddrAligned | lab3-traps/headers/stackframe.h:145-299 | every slot of a `LONGSIZE`-aligned frame is `LONGSIZE`-aligned, also when the frame wraps around the address space |
| StackFrame.CpuOffsetsDistinct | lab3-traps/headers/stackframe.h:106-123 | different CPUs use different `kernelsp` byte offsets, as long as `cpuid << WORD_SHIFT` does not overflow |
| StackFrame.CpuOffset | lab3-traps/headers/stackframe.h:106-123 | `cpuid << WORD_SHIFT`, the byte offset of the CPU's `kernelsp` entry |
| StackFrame.CpuEntriesDisjoint | lab3-traps/headers/stackframe.h:106-123 | the `LONGSIZE`-byte `kernelsp` words of two CPUs do not overlap when `2^WORD_SHIFT >= LONGSIZE`; for neighbouring CPUs they overlap otherwise |
| StackFrame.FromUser | lab3-traps/headers/stackframe.h:134-136 | the trap came from user or supervisor mode iff `Status and ST_KSU` is non-zero |
| StackFrame.StackTop | lab3-traps/headers/stackframe.h:134-142 | the stack the frame goes on: the CPU's `kernelsp` entry after a trap from user mode, else the current `sp` |
| StackFrame.FrameBase | lab3-traps/headers/stackframe.h:144 | the new frame base fits the register width |
| StackFrame.FrameEndsAtTop | lab3-traps/headers/stackframe.h:144 | the frame's base plus `TF_SIZE` is the top of the chosen stack, also when `SUBU` wrapped |
| StackFrame.FrameBaseAligned | lab3-traps/headers/stackframe.h:144 | a frame allocated below a `LONGSIZE`-aligned stack top is `LONGSIZE`-aligned |
| StackFrame.SaveAllCoverage | lab3-traps/headers/stackframe.h:125-214 | `SAVE_ALL` stores a slot iff it is not the slot of `k0` or `k1` |
| StackFrame.SaveAllReadsBack | lab3-traps/headers/stackframe.h:125-214 | after `SAVE_ALL`'s stores, every slot but those of `k0`/`k1` holds the saved machine's member; the `k0`/`k1` slots keep the old stack contents |
| StackFrame.SaveSomeRecordsSpAndZero | lab3-traps/headers/stackframe.h:142-146 | `SAVE_SOME`'s SP slot receives the `sp` of the saved machine and its ZERO slot receives register 0 |
| StackFrame.SaveSomeIgnoresK | lab3-traps/headers/stackframe.h:145-168 | `SAVE_SOME` stores the same words whatever `k0` and `k1` hold |
| StackFrame.KNotInSaveSome | lab3-traps/headers/stackframe.h:145-168 | `SAVE_SOME` stores neither `k0` nor `k1` |
| StackFrame.ScratchNotInLaterSaves | lab3-traps/headers/stackframe.h:172-207 | `SAVE_AT`, `SAVE_TEMP` and `SAVE_STATIC` store none of `sp`, `k0`, `k1` and `v1` |
| StackFrame.SaveSomeHead | lab3-traps/headers/stackframe.h:145-152 | `STORE k0, TF_SP(sp)` with `k0` the pre-trap `sp`, then `zero`, `v0`, `v1`, `a0`..`a3`, extend a run of stores of the entry state although `sp`, `k0` and `k1` have changed |
| StackFrame.SaveSomeCp0Run | lab3-traps/headers/stackframe.h:154-163 | the five CP0 stores, each of the value just read into `v1`, are one run of stores of the frame |
| StackFrame.SaveSomeTail | lab3-traps/headers/stackframe.h:154-168 | the CP0 stores and the stores of `t0`, `t1`, `t9`, `gp` and `ra` continue the run of the entry state, although `v1` now holds BadVAddr |
| StackFrame.SaveSomeParts | lab3-traps/headers/stackframe.h:145-168 | the SP slot, the argument slots, the CP0 slots and the last five register slots make up `SAVE_SOME`'s stores in order |
| StackFrame.SaveSomeSteps | lab3-traps/headers/stackframe.h:142-168 | the stores of `SAVE_SOME`, instruction by instruction, are one run over its 18 slots of the state at trap entry |
| StackFrame.SaveTempParts | lab3-traps/headers/stackframe.h:184-194 | `t2`..`t4`, HI, `t5`..`t8`, LO make up `SAVE_TEMP`'s stores in order |
| StackFrame.SaveTempSteps | lab3-traps/headers/stackframe.h:179-195 | the stores of `SAVE_TEMP`, with `hi` and `lo` passing through `v1`, are one run over its nine slots of the state at entry |
| StackFrame.StoresContinue | lab3-traps/headers/stackframe.h:172-207 | stores from a machine that differs only in scratch registers continue the run of stores from the entry state |
| StackFrame.SaveAllStores | lab3-traps/headers/stackframe.h:209-214 | the four store runs of `SAVE_ALL` equal one run over all its slots of the registers at trap entry, although `sp`, `k0`, `k1` and `v1` changed in between |
| StackFrame.RestoreAllCoverage | lab3-traps/headers/stackframe.h:216-289 | `RESTORE_TEMP`, `RESTORE_STATIC`, `RESTORE_AT` and `RESTORE_SOME` reload, each once, exactly the registers other than `zero`, `k0`, `k1` and `sp` |
| StackFrame.SomeRegsReloaded | lab3-traps/headers/stackframe.h:259-287 | after the Status, CP0 and final loads of `RESTORE_SOME`, each register it restores holds its slot and every other register is unchanged; the scratch uses of `a0`/`v0`/`v1` are undone |
| StackFrame.AllRegsReloaded | lab3-traps/headers/stackframe.h:303-307 | the four restore macros together reload every register but `zero`, `k0`, `k1` and `sp` from the frame |
| StackFrame.SaveThenRestore | lab3-traps/headers/stackframe.h:209-309 | loading a frame `SAVE_ALL` just filled gives back the saved registers (but `k0`/`k1`), `lo`, `hi`, EPC, Cause, EntryHi and the saved Status |
| StackFrame.Machine.Cpuid | lab3-traps/headers/stackframe.h:107 | the abstract `cpuid dst, tmp`: `dst` gets the CPU number, `tmp` what the macro leaves there, nothing else changes |
| StackFrame.Machine.GetSavedSp | lab3-traps/headers/stackframe.h:106-110 | `k0` ends as `cpuid << WORD_SHIFT` and `k1` as the `kernelsp` entry at that offset; no other register changes |
| StackFrame.Machine.SetSavedSp | lab3-traps/headers/stackframe.h:119-123 | `kernelsp` changes only at offset `cpuid << WORD_SHIFT`, which receives `stackp` as `cpuid` leaves it |
| StackFrame.Machine.AllocateFrame | lab3-traps/headers/stackframe.h:134-144 | new `sp` is `kernelsp[cpuid << WORD_SHIFT] - TF_SIZE` when `Status and ST_KSU` is non-zero, else old `sp - TF_SIZE`; `k0` holds the pre-trap `sp` and `k1` the stack top on both paths of the delay slot |
| StackFrame.Machine.SaveSome | lab3-traps/headers/stackframe.h:125-170 | the frame placement above; the stores, performed one instruction at a time with the CP0 values passing through `v1`, leave the 18 `SAVE_SOME` slots holding the entry state; SP slot = pre-trap `sp`, ZERO slot = 0; only `sp`, `k0`, `k1` and `v1` changed |
| StackFrame.Machine.SaveCp0 | lab3-traps/headers/stackframe.h:154-163 | each of Status, Cause, EPC, EntryHi and BadVAddr is read into `v1` and stored to its slot, in that order; `v1` ends holding BadVAddr |
| StackFrame.Machine.SaveAt | lab3-traps/headers/stackframe.h:172-177 | stores `AT` into its slot |
| StackFrame.Machine.SaveTemp | lab3-traps/headers/stackframe.h:179-195 | `hi` and `lo` are moved into `v1` and stored from it between the stores of `t2`..`t8`; the nine slots end holding the entry state; `v1` ends holding `lo` |
| StackFrame.Machine.SaveStatic | lab3-traps/headers/stackframe.h:197-207 | stores `s0`..`s8` |
| StackFrame.Machine.SaveAll | lab3-traps/headers/stackframe.h:209-214 | memory becomes the old memory with every slot but `k0`/`k1` of the new frame holding the entry state; `k0` ends as the pre-trap `sp`, `k1` as the stack top, `v1` as `lo`; no other register changes |
| StackFrame.Machine.RestoreTemp | lab3-traps/headers/stackframe.h:216-228 | `hi`, `lo` and `t2`..`t8` come from the frame although `t8` carries `hi` and `lo`; every other register is unchanged |
| StackFrame.Machine.RestoreStatic | lab3-traps/headers/stackframe.h:230-240 | `s0`..`s8` come from the frame; every other register is unchanged |
| StackFrame.Machine.RestoreAt | lab3-traps/headers/stackframe.h:242-247 | `AT` comes from its slot |
| StackFrame.Machine.RestoreStatus | lab3-traps/headers/stackframe.h:259-269 | Status is written twice: first the safe value, then the merge of the live IM bits into the saved Status; only `a0`, `v0` and `v1` change among the registers |
| StackFrame.Machine.RestoreCp0 | lab3-traps/headers/stackframe.h:271-278 | EPC, Cause, EntryHi, `ra` and `gp` come from the frame, with `v1` left holding EntryHi |
| StackFrame.Machine.RestoreArgs | lab3-traps/headers/stackframe.h:279-287 | `t9`, `t0`, `t1`, `a3`..`a0`, `v1` and `v0` come from the frame |
| StackFrame.Machine.RestoreSome | lab3-traps/headers/stackframe.h:249-289 | the Status formula and write history; EPC, Cause, EntryHi and the eleven registers of `RESTORE_SOME` from the frame; `sp` and every other register unchanged |
| StackFrame.Machine.RestoreSp | lab3-traps/headers/stackframe.h:294-296 | `sp` becomes its slot of the frame it points to |
| StackFrame.Machine.RestoreSpAndRet | lab3-traps/headers/stackframe.h:298-301 | as `RESTORE_SP`, then the `eret` event |
| StackFrame.Machine.RestoreRegs | lab3-traps/headers/stackframe.h:303-307 | all registers but `zero`, `k0`, `k1` and `sp`, and `lo`, `hi`, EPC, Cause, EntryHi, come from the frame `sp` points to, and `sp` is unchanged |
| StackFrame.Machine.RestoreAll | lab3-traps/headers/stackframe.h:303-309 | every register but `zero`, `k0` and `k1` (with `sp` loaded last), `lo`, `hi`, EPC, Cause and EntryHi come from the frame; Status is the merge; memory and BadVAddr are not written |
| StackFrame.Machine.RestoreAllAndRet | lab3-traps/headers/stackframe.h:311-317 | as `RESTORE_ALL`, then the `eret` event |
| StackFrame.Machine.SaveRestoreRoundTrip | lab3-traps/headers/stackframe.h:209-309 | `SAVE_ALL` then `RESTORE_ALL` gives back every register but `k0`/`k1`, and `lo`, `hi`, EPC, Cause and EntryHi; Status comes back as its own merge, and unchanged when `ST_EXCM` has no IM bit |
| StackFrame.Machine.SavedSpRoundTrip | lab3-traps/headers/stackframe.h:106-123 | `get_saved_sp` after `set_saved_sp sp` puts the stored `sp` in `k1`, provided `cpuid` leaves `sp` intact |

## Left out

- The `cpuid` macro and the headers defining `LOAD`, `STORE`, `SUBU`, `SLL`,
  `MFC0`, `ST_KSU`, `ST_EXCM`, `WORD_SHIFT` and `kernelsp` are not part of
  this model.
  - The CPU number is a constant of the machine.
  - What `cpuid` leaves in its second register is another constant
    (`None` when that register is left intact).
  - The masks and the shift amount are parameters. They are constrained
    only to fit the 16-bit immediate and the register width.
- `eret` is recorded as a flag `returned`. The privilege drop and the jump
  to EPC are not modelled.
- Pipeline hazards are not modelled: the HI/LO latency and `.set reorder`.
  The only pipeline effect modelled is the branch delay slot, whose
  `move k1, sp` runs on both paths.
- Interrupts between instructions and multiple cores running at once are
  not modelled; the machine is one CPU executing sequentially.
- Trap dispatch and handlers are not modelled. The `#if` choice of
  `LONGSIZE` is a parameter.
- CP0 registers take the whole value written by `mtc0`. Read-only and
  hardware-updated bits of Status and Cause are not modelled.
- On MIPS64, `mfc0` sign-extends the 32-bit Status and Cause values; this
  is not modelled.
- Register and memory words are unbounded naturals. Only the results of
  `SUBU`, `SLL` and `nor` are reduced to the register width; values loaded
  or moved are not constrained to it.
- Memory is modelled at word granularity, as a map from the byte address of
  each stored word to that word; an address never written reads as 0.
  Stores at byte addresses that partly overlap are not related to each
  other.
- Alignment is not checked. The frame goes wherever the stack top says. A
  stack top that is not `LONGSIZE`-aligned would make the CPU raise an
  address-error exception on the first `STORE`, and the model stores
  anyway. When the stack top is aligned, `FrameBaseAligned` and
  `SlotAddrAligned` show that every access of the macros is an aligned
  word access.
- `kernelsp` is a separate map keyed by byte offset, not a region of the
  same memory, so frame stores can never overwrite it. Its entries are
  independent words, even when two CPUs' `LONGSIZE`-byte words would
  overlap.
- StackFrame.CpuOffsetsDistinct: states distinct byte offsets, not disjoint
  words. The entries are disjoint words only when `2^WORD_SHIFT >=
  LONGSIZE`, which `CpuEntriesDisjoint` proves sufficient and, for
  neighbouring CPUs, necessary. The build parameters are not required to
  meet it, so the statement of `SetSavedSp` that no other CPU's entry
  changes rests on that condition.
- Layout.StructLayoutMatchesOffsets: assumes `unsigned long` is `LONGSIZE`
  bytes wide. `LONGSIZE` follows the instruction set. A 32-bit-long ABI on
  a MIPS64 build breaks the agreement, as
  `StructLayoutNeedsLongSizeMembers` shows.
- The register file is a 32-element sequence field, replaced by each
  instruction, rather than an array. Nothing else refers to it, so no
  aliasing is lost.
- No overflow or stack-exhaustion guard is modelled, because the code has
  none. Frame allocation wraps around the address space like `SUBU`.
- StackFrame.Machine.RestoreStatus: does not state the intermediate values
  it leaves in `a0` and `v1`. Only `v0` (the final Status) and the other
  registers are stated, and `RESTORE_SOME` reloads `a0`, `v0` and `v1` from
  the frame afterwards.
