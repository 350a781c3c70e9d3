/**
 * The trap entry and exit macros of the MIPS kernel as methods of a
 * machine: the register file, `lo`/`hi`, the five CP0 registers the macros
 * touch, stack memory and the per-CPU `kernelsp` table.
 *
 * Each macro is a straight-line sequence of register moves, CP0 accesses
 * and word loads and stores at `TF_*(sp)`; each method below performs the
 * same steps in the same order. A run of consecutive `STORE`s into the
 * frame is one `StoreFields` over the slots in the order the macro lists
 * them.
 */
module StackFrame {
  import opened Layout
  import opened Words
  import opened StatusMerge
  import opened Frame

  /** `SLL k0, WORD_SHIFT` applied to the CPU number: the byte offset of
    * the CPU's entry in `kernelsp`. */
  function CpuOffset(c: Config, cpuid: Word): Word {
    ShiftLeft(c, cpuid, c.wordShift)
  }

  /** Different CPUs own different entries of `kernelsp`, as long as the
    * shifted CPU numbers do not overflow the register. */
  lemma CpuOffsetsDistinct(c: Config, cpu1: Word, cpu2: Word)
    requires cpu1 != cpu2
    requires cpu1 * Pow2(c.wordShift) < Modulus(c) && cpu2 * Pow2(c.wordShift) < Modulus(c)
    ensures CpuOffset(c, cpu1) != CpuOffset(c, cpu2)
  {
    var p, m := Pow2(c.wordShift), Modulus(c);
    ModOnce(m, cpu1 * p);
    ModOnce(m, cpu2 * p);
    if cpu1 < cpu2 {
      MulStrictlyMonotonic(cpu1, cpu2, p);
    } else {
      MulStrictlyMonotonic(cpu2, cpu1, p);
    }
  }

  lemma MulStrictlyMonotonic(a: nat, b: nat, p: nat)
    requires a < b && 0 < p
    ensures a * p < b * p
  {
    assert b * p == a * p + (b - a) * p;
  }

  /** The `kernelsp` words of two CPUs, `LONGSIZE` bytes each, do not
    * overlap when `2^WORD_SHIFT >= LONGSIZE`; for neighbouring CPUs that
    * condition is also necessary. */
  lemma CpuEntriesDisjoint(c: Config, cpu1: Word, cpu2: Word)
    requires cpu1 < cpu2 && cpu2 * Pow2(c.wordShift) < Modulus(c)
    ensures Pow2(c.wordShift) >= c.longSize ==> CpuOffset(c, cpu1) + c.longSize <= CpuOffset(c, cpu2)
    ensures cpu2 == cpu1 + 1
        ==> (CpuOffset(c, cpu1) + c.longSize <= CpuOffset(c, cpu2) <==> Pow2(c.wordShift) >= c.longSize)
  {
    var p, m := Pow2(c.wordShift), Modulus(c);
    var a, b, d := cpu1 * p, cpu2 * p, cpu2 - cpu1;
    MulStrictlyMonotonic(cpu1, cpu2, p);
    ModOnce(m, a);
    ModOnce(m, b);
    assert CpuOffset(c, cpu1) == a && CpuOffset(c, cpu2) == b;
    MulDistance(cpu1, cpu2, p);
    MulBounds(p, d);
  }

  lemma MulDistance(x: nat, y: nat, p: nat)
    requires x < y
    ensures y * p == x * p + (y - x) * p
    ensures y == x + 1 ==> (y - x) * p == p
  {
  }

  /** `andi k0, ST_KSU` on Status is non-zero: the trap came from user
    * (or supervisor) mode. */
  predicate FromUser(c: Config, status: Word) {
    And(status, c.stKsu) != 0
  }

  /** The stack `SAVE_SOME` allocates the frame on: the CPU's saved kernel
    * stack pointer when the trap came from user mode, otherwise the
    * current `sp`. */
  function StackTop(c: Config, status: Word, sp: Word, kernelsp: map<Word, Word>, cpuid: Word): Word {
    if FromUser(c, status) then Load(kernelsp, CpuOffset(c, cpuid)) else sp
  }

  /** `SUBU sp, k1, TF_SIZE`: the base of the new frame. */
  function FrameBase(c: Config, top: Word): (base: Word)
    ensures Fits(c, base)
  {
    Wrap(c, top - TfSize(c.longSize))
  }

  /** The frame ends exactly where the chosen stack begins: `TF_SIZE` bytes
    * above its base is `top` again, also when the subtraction wrapped. */
  lemma FrameEndsAtTop(c: Config, top: Word)
    requires ValidConfig(c) && Fits(c, top)
    ensures Wrap(c, FrameBase(c, top) + TfSize(c.longSize)) == top
  {
    var m, t := Modulus(c), TfSize(c.longSize);
    assert t < m;
    if top < t {
      assert FrameBase(c, top) == top - t + m;
      assert (top + m) % m == top;
    } else {
      assert FrameBase(c, top) == top - t;
    }
  }

  /** A frame allocated below a `LONGSIZE`-aligned stack top is
    * `LONGSIZE`-aligned, also when `SUBU` wrapped; with `SlotAddrAligned`,
    * every `LOAD` and `STORE` of the macros is then an aligned word access. */
  lemma FrameBaseAligned(c: Config, top: Word)
    requires ValidConfig(c) && top % c.longSize == 0
    ensures FrameBase(c, top) % c.longSize == 0
  {
    var l, m := c.longSize, Modulus(c);
    assert m % l == 0;
    assert (top - TfSize(l)) % l == 0 by {
      var a := top / l;
      assert top == l * a;
      assert top - TfSize(l) == l * (a - TF_MEMBERS);
      MultipleMod(l, a - TF_MEMBERS);
    }
    ModOfMultiple(top - TfSize(l), m, l);
  }

  // The slots each save macro stores to, in the order of its `STORE`s.

  const SaveSomeSlots: seq<Field> :=
    [Gpr(Sp), Gpr(Zero), Gpr(V0), Gpr(V1), Gpr(A0), Gpr(A1), Gpr(A2), Gpr(A3),
     Status, Cause, Epc, EntryHi, BadVAddr,
     Gpr(T0), Gpr(T1), Gpr(T9), Gpr(Gp), Gpr(Ra)]
  /** The three parts of `SAVE_SOME`'s stores after the SP slot: the
    * argument registers, the CP0 registers and the registers stored after
    * them. */
  const SaveSomeArgSlots: seq<Field> := [Gpr(Zero), Gpr(V0), Gpr(V1), Gpr(A0), Gpr(A1), Gpr(A2), Gpr(A3)]
  const SaveSomeCp0Slots: seq<Field> := [Status, Cause, Epc, EntryHi, BadVAddr]
  const SaveSomeCallSlots: seq<Field> := [Gpr(T0), Gpr(T1), Gpr(T9), Gpr(Gp), Gpr(Ra)]
  const SaveAtSlots: seq<Field> := [Gpr(At)]
  const SaveTempSlots: seq<Field> :=
    [Gpr(T2), Gpr(T3), Gpr(T4), Hi, Gpr(T5), Gpr(T6), Gpr(T7), Gpr(T8), Lo]
  const SaveStaticSlots: seq<Field> :=
    [Gpr(S0), Gpr(S1), Gpr(S2), Gpr(S3), Gpr(S4), Gpr(S5), Gpr(S6), Gpr(S7), Gpr(S8)]

  /** `SAVE_ALL`: `SAVE_SOME`, `SAVE_AT`, `SAVE_TEMP`, `SAVE_STATIC`. */
  function SaveAllSlots(): seq<Field> {
    SaveSomeSlots + SaveAtSlots + SaveTempSlots + SaveStaticSlots
  }

  /** `SAVE_ALL` stores every slot of the frame except those of `k0` and
    * `k1`. */
  lemma SaveAllCoverage(f: Field)
    ensures f in SaveAllSlots() <==> f != Gpr(K0) && f != Gpr(K1)
  {
    KNotSaved();
    if !f.Gpr? {
      OthersSaved(f);
    } else if f.r != K0 && f.r != K1 {
      GprSaved(f.r);
    }
  }

  lemma KNotInSaveSome()
    ensures Gpr(K0) !in SaveSomeSlots && Gpr(K1) !in SaveSomeSlots
  {
  }

  lemma KNotSaved()
    ensures Gpr(K0) !in SaveAllSlots() && Gpr(K1) !in SaveAllSlots()
  {
    KNotInSaveSome();
    ScratchNotInLaterSaves();
  }

  lemma GprSaved(r: RegNum)
    requires r != K0 && r != K1
    ensures Gpr(r) in SaveAllSlots()
  {
    if r < 8 {
      assert Gpr(r) in SaveSomeSlots || Gpr(r) in SaveAtSlots;
    } else if r < 16 {
      assert Gpr(r) in SaveSomeSlots || Gpr(r) in SaveTempSlots;
    } else if r < 24 {
      assert Gpr(r) in SaveStaticSlots;
    } else {
      assert Gpr(r) in SaveSomeSlots || Gpr(r) in SaveTempSlots || Gpr(r) in SaveStaticSlots;
    }
  }

  lemma OthersSaved(f: Field)
    requires !f.Gpr?
    ensures f in SaveAllSlots()
  {
  }

  /** Reading the frame back after `SAVE_ALL`'s stores gives the member of
    * `tf` for every slot but those of `k0` and `k1`, which keep whatever
    * the stack held there. */
  lemma SaveAllReadsBack(c: Config, m: map<int, Word>, base: Word, tf: TrapFrame, f: Field)
    requires ValidConfig(c)
    ensures LoadSlot(c, StoreFields(c, m, base, SaveAllSlots(), tf), base, f)
         == if f == Gpr(K0) || f == Gpr(K1) then LoadSlot(c, m, base, f) else tf.Get(f)
  {
    SaveAllCoverage(f);
    StoreFieldsSlot(c, m, base, SaveAllSlots(), tf, f);
  }

  /** `SAVE_SOME` records in the SP slot the `sp` of the machine it
    * saves, that is the pre-trap stack pointer, not the kernel stack
    * pointer the frame was allocated on, and in the ZERO slot the value of
    * register 0. */
  lemma SaveSomeRecordsSpAndZero(c: Config, m: map<int, Word>, base: Word, tf: TrapFrame)
    requires ValidConfig(c)
    ensures LoadSlot(c, StoreFields(c, m, base, SaveSomeSlots, tf), base, Gpr(Sp)) == tf.gpr[Sp]
    ensures LoadSlot(c, StoreFields(c, m, base, SaveSomeSlots, tf), base, Gpr(Zero)) == tf.gpr[Zero]
  {
    StoreFieldsSlot(c, m, base, SaveSomeSlots, tf, Gpr(Sp));
    StoreFieldsSlot(c, m, base, SaveSomeSlots, tf, Gpr(Zero));
  }

  /** `SAVE_SOME` stores the same words whatever `k0` and `k1` held: it
    * has no slot for either. */
  lemma SaveSomeIgnoresK(c: Config, m: map<int, Word>, base: Word, tf: TrapFrame, tf': TrapFrame)
    requires forall r: RegNum :: r != K0 && r != K1 ==> tf.gpr[r] == tf'.gpr[r]
    requires tf.lo == tf'.lo && tf.hi == tf'.hi && tf.status == tf'.status && tf.cause == tf'.cause
    requires tf.badVAddr == tf'.badVAddr && tf.epc == tf'.epc && tf.entryHi == tf'.entryHi
    ensures StoreFields(c, m, base, SaveSomeSlots, tf) == StoreFields(c, m, base, SaveSomeSlots, tf')
  {
    KNotInSaveSome();
    forall f | f in SaveSomeSlots
      ensures tf.Get(f) == tf'.Get(f)
    {
    }
    StoreFieldsAgree(c, m, base, SaveSomeSlots, tf, tf');
  }

  /** `tf'` records the same machine state as `tf` except, possibly, for
    * the registers `SAVE_SOME` and `SAVE_TEMP` overwrite: `sp`, `k0`, `k1`
    * and `v1`. */
  ghost predicate SameButScratch(tf: TrapFrame, tf': TrapFrame) {
    && (forall r: RegNum :: r != Sp && r != K0 && r != K1 && r != V1 ==> tf.gpr[r] == tf'.gpr[r])
    && tf.lo == tf'.lo && tf.hi == tf'.hi && tf.status == tf'.status && tf.cause == tf'.cause
    && tf.badVAddr == tf'.badVAddr && tf.epc == tf'.epc && tf.entryHi == tf'.entryHi
  }

  lemma SameButScratchTransitive(tf: TrapFrame, tf': TrapFrame, tf'': TrapFrame)
    requires SameButScratch(tf, tf') && SameButScratch(tf', tf'')
    ensures SameButScratch(tf, tf'')
  {
  }

  /** No slot of `fs` belongs to `sp`, `k0`, `k1` or `v1`. */
  predicate NoScratchSlot(fs: seq<Field>) {
    Gpr(Sp) !in fs && Gpr(K0) !in fs && Gpr(K1) !in fs && Gpr(V1) !in fs
  }

  lemma ScratchNotInLaterSaves()
    ensures NoScratchSlot(SaveAtSlots) && NoScratchSlot(SaveTempSlots) && NoScratchSlot(SaveStaticSlots)
  {
    ScratchNotInSaveTemp();
    ScratchNotInSaveStatic();
  }

  lemma ScratchNotInSaveTemp()
    ensures NoScratchSlot(SaveTempSlots)
  {
  }

  lemma ScratchNotInSaveStatic()
    ensures NoScratchSlot(SaveStaticSlots)
  {
  }

  /** Stores of `gs` from a machine that differs from `tf` only in scratch
    * registers continue a run of stores of `fs` from `tf`. */
  lemma StoresContinue(c: Config, m: map<int, Word>, base: Word, fs: seq<Field>, gs: seq<Field>,
                       tf: TrapFrame, tf': TrapFrame)
    requires NoScratchSlot(gs) && SameButScratch(tf, tf')
    ensures StoreFields(c, StoreFields(c, m, base, fs, tf), base, gs, tf')
         == StoreFields(c, m, base, fs + gs, tf)
  {
    forall f | f in gs
      ensures tf'.Get(f) == tf.Get(f)
    {
    }
    StoreFieldsContinue(c, m, base, fs, gs, tf, tf');
  }

  /** The four runs of stores of `SAVE_ALL` are one run over
    * `SaveAllSlots()` of the registers at trap entry, although `SAVE_AT`,
    * `SAVE_TEMP` and `SAVE_STATIC` store from a machine whose `sp`, `k0`,
    * `k1` and `v1` have changed since. */
  lemma SaveAllStores(c: Config, m: map<int, Word>, base: Word,
                      tf: TrapFrame, tf1: TrapFrame, tf2: TrapFrame, tf3: TrapFrame)
    requires SameButScratch(tf, tf1) && SameButScratch(tf, tf2) && SameButScratch(tf, tf3)
    ensures StoreFields(c, StoreFields(c, StoreFields(c, StoreFields(c, m, base, SaveSomeSlots, tf),
                base, SaveAtSlots, tf1), base, SaveTempSlots, tf2), base, SaveStaticSlots, tf3)
         == StoreFields(c, m, base, SaveAllSlots(), tf)
  {
    ScratchNotInLaterSaves();
    var some := SaveSomeSlots;
    StoresContinue(c, m, base, some, SaveAtSlots, tf, tf1);
    StoresContinue(c, m, base, some + SaveAtSlots, SaveTempSlots, tf, tf2);
    StoresContinue(c, m, base, some + SaveAtSlots + SaveTempSlots, SaveStaticSlots, tf, tf3);
  }

  /** The stores of `SAVE_SOME` one instruction at a time: `k0` (the
    * pre-trap `sp`) into the SP slot, the argument registers from `tfA`,
    * the five CP0 values, each passing through `v1` after `v1` was stored,
    * then `t0`, `t1`, `t9`, `gp` and `ra` from `tfB`. Although `sp`, `k0`,
    * `k1` and `v1` have changed by then, the result is one run of stores
    * of the entry state `tf`. */
  lemma SaveSomeSteps(c: Config, m: map<int, Word>, base: Word, tf: TrapFrame, tfA: TrapFrame, tfB: TrapFrame)
    requires forall r: RegNum :: r != Sp && r != K0 && r != K1 ==> tfA.gpr[r] == tf.gpr[r]
    requires forall r: RegNum :: r != Sp && r != K0 && r != K1 && r != V1 ==> tfB.gpr[r] == tf.gpr[r]
    ensures StoreFields(c, Store(c, Store(c, Store(c, Store(c, Store(c,
              StoreFields(c, Store(c, m, base, Gpr(Sp), tf.gpr[Sp]), base, SaveSomeArgSlots, tfA),
              base, Status, tf.status), base, Cause, tf.cause), base, Epc, tf.epc),
              base, EntryHi, tf.entryHi), base, BadVAddr, tf.badVAddr), base, SaveSomeCallSlots, tfB)
         == StoreFields(c, m, base, SaveSomeSlots, tf)
  {
    SaveSomeHead(c, m, base, tf, tfA);
    SaveSomeTail(c, m, base, [Gpr(Sp)] + SaveSomeArgSlots, tf, tfB);
    SaveSomeParts();
  }

  /** `STORE k0, TF_SP(sp)` with `k0` the pre-trap `sp`, then the argument
    * registers: the first eight slots of `SAVE_SOME`. */
  lemma SaveSomeHead(c: Config, m: map<int, Word>, base: Word, tf: TrapFrame, tfA: TrapFrame)
    requires forall r: RegNum :: r != Sp && r != K0 && r != K1 ==> tfA.gpr[r] == tf.gpr[r]
    ensures StoreFields(c, Store(c, m, base, Gpr(Sp), tf.gpr[Sp]), base, SaveSomeArgSlots, tfA)
         == StoreFields(c, m, base, [Gpr(Sp)] + SaveSomeArgSlots, tf)
  {
    assert Store(c, m, base, Gpr(Sp), tf.gpr[Sp]) == StoreFields(c, m, base, [Gpr(Sp)], tf);
    forall f | f in SaveSomeArgSlots
      ensures tfA.Get(f) == tf.Get(f)
    {
      assert f.Gpr? && (f.r == Zero || V0 <= f.r <= A3);
    }
    StoreFieldsContinue(c, m, base, [Gpr(Sp)], SaveSomeArgSlots, tf, tfA);
  }

  /** The CP0 stores and the last five register stores of `SAVE_SOME`
    * continue a run of stores of `tf`. */
  lemma SaveSomeTail(c: Config, m: map<int, Word>, base: Word, done: seq<Field>, tf: TrapFrame, tfB: TrapFrame)
    requires forall r: RegNum :: r != Sp && r != K0 && r != K1 && r != V1 ==> tfB.gpr[r] == tf.gpr[r]
    ensures StoreFields(c, Store(c, Store(c, Store(c, Store(c, Store(c,
              StoreFields(c, m, base, done, tf),
              base, Status, tf.status), base, Cause, tf.cause), base, Epc, tf.epc),
              base, EntryHi, tf.entryHi), base, BadVAddr, tf.badVAddr), base, SaveSomeCallSlots, tfB)
         == StoreFields(c, m, base, done + SaveSomeCp0Slots + SaveSomeCallSlots, tf)
  {
    SaveSomeCp0Run(c, StoreFields(c, m, base, done, tf), base, tf);
    StoreFieldsAppend(c, m, base, done, SaveSomeCp0Slots, tf);
    forall f | f in SaveSomeCallSlots
      ensures tfB.Get(f) == tf.Get(f)
    {
      assert f.Gpr? && (f.r == T0 || f.r == T1 || f.r == T9 || f.r == Gp || f.r == Ra);
    }
    StoreFieldsContinue(c, m, base, done + SaveSomeCp0Slots, SaveSomeCallSlots, tf, tfB);
  }

  lemma SaveTempParts()
    ensures [Gpr(T2), Gpr(T3), Gpr(T4)] + [Hi] + [Gpr(T5), Gpr(T6), Gpr(T7), Gpr(T8)] + [Lo] == SaveTempSlots
  {
  }

  lemma SaveSomeParts()
    ensures [Gpr(Sp)] + SaveSomeArgSlots + SaveSomeCp0Slots + SaveSomeCallSlots == SaveSomeSlots
  {
  }

  /** The five CP0 stores of `SAVE_SOME`, each of the value `v1` was just
    * loaded with, are one run of stores of `tf`. */
  lemma SaveSomeCp0Run(c: Config, m: map<int, Word>, base: Word, tf: TrapFrame)
    ensures Store(c, Store(c, Store(c, Store(c, Store(c, m,
              base, Status, tf.status), base, Cause, tf.cause), base, Epc, tf.epc),
              base, EntryHi, tf.entryHi), base, BadVAddr, tf.badVAddr)
         == StoreFields(c, m, base, SaveSomeCp0Slots, tf)
  {
    var fs := SaveSomeCp0Slots;
    assert fs[1..] == [Cause, Epc, EntryHi, BadVAddr];
    assert fs[1..][1..] == [Epc, EntryHi, BadVAddr];
    assert fs[1..][1..][1..] == [EntryHi, BadVAddr];
    assert fs[1..][1..][1..][1..] == [BadVAddr];
    assert fs[1..][1..][1..][1..][1..] == [];
  }

  /** The stores of `SAVE_TEMP` one instruction at a time: `t2`..`t4`,
    * `hi` through `v1`, `t5`..`t8`, `lo` through `v1`. They are one run of
    * stores of the entry state `tf`. */
  lemma SaveTempSteps(c: Config, m: map<int, Word>, base: Word, tf: TrapFrame, tfA: TrapFrame, tfB: TrapFrame)
    requires forall r: RegNum :: r != V1 ==> tfA.gpr[r] == tf.gpr[r] && tfB.gpr[r] == tf.gpr[r]
    ensures Store(c, StoreFields(c, Store(c,
              StoreFields(c, m, base, [Gpr(T2), Gpr(T3), Gpr(T4)], tfA), base, Hi, tf.hi),
              base, [Gpr(T5), Gpr(T6), Gpr(T7), Gpr(T8)], tfB), base, Lo, tf.lo)
         == StoreFields(c, m, base, SaveTempSlots, tf)
  {
    var first, second := [Gpr(T2), Gpr(T3), Gpr(T4)], [Gpr(T5), Gpr(T6), Gpr(T7), Gpr(T8)];
    forall f | f in first
      ensures tfA.Get(f) == tf.Get(f)
    {
      assert f.Gpr? && T2 <= f.r <= T4;
    }
    StoreFieldsContinue(c, m, base, [], first, tf, tfA);
    assert [] + first == first;
    StoreFieldsSnoc(c, m, base, first, Hi, tf);
    forall f | f in second
      ensures tfB.Get(f) == tf.Get(f)
    {
      assert f.Gpr? && (T5 <= f.r <= T7 || f.r == T8);
    }
    StoreFieldsContinue(c, m, base, first + [Hi], second, tf, tfB);
    StoreFieldsSnoc(c, m, base, first + [Hi] + second, Lo, tf);
    SaveTempParts();
  }

  // The registers each restore macro loads, apart from the scratch uses.

  predicate RestoredByTemp(r: RegNum) { T2 <= r <= T7 || r == T8 }
  predicate RestoredByStatic(r: RegNum) { S0 <= r <= S7 || r == S8 }
  predicate RestoredBySome(r: RegNum) { V0 <= r <= T1 || r == T9 || r == Gp || r == Ra }

  /** `RESTORE_ALL` reloads every register except `zero`, `k0` and `k1`:
    * `RESTORE_TEMP`, `RESTORE_STATIC`, `RESTORE_AT` and `RESTORE_SOME`
    * between them cover all of them but `sp`, each register once, and
    * `RESTORE_SP` reloads `sp`. */
  lemma RestoreAllCoverage(r: RegNum)
    ensures (RestoredByTemp(r) || RestoredByStatic(r) || r == At || RestoredBySome(r))
        <==> r != Zero && r != K0 && r != K1 && r != Sp
    ensures RestoredByTemp(r) ==> !RestoredByStatic(r) && r != At && !RestoredBySome(r)
    ensures RestoredByStatic(r) ==> r != At && !RestoredBySome(r)
    ensures RestoredBySome(r) ==> r != At
  {
    if r < 8 {
    } else if r < 16 {
    } else if r < 24 {
    } else {
    }
  }

  /** The register effect of `RESTORE_SOME`'s three parts taken together:
    * `g1` after the Status part, which changes only `a0`, `v0` and `v1`;
    * `g2` after the CP0 part; `g3` after the final loads. Each register
    * `RESTORE_SOME` restores ends up with its slot of the frame at `base`,
    * every other register keeps its value. */
  lemma SomeRegsReloaded(c: Config, m: map<int, Word>, base: Word, g0: RegFile, g1: RegFile, g2: RegFile, g3: RegFile)
    requires forall r: RegNum :: r != A0 && r != V0 && r != V1 ==> g1[r] == g0[r]
    requires g2 == g1[Ra := LoadSlot(c, m, base, Gpr(Ra))][Gp := LoadSlot(c, m, base, Gpr(Gp))]
                     [V1 := LoadSlot(c, m, base, EntryHi)]
    requires g3 == g2[T9 := LoadSlot(c, m, base, Gpr(T9))][T0 := LoadSlot(c, m, base, Gpr(T0))]
                     [T1 := LoadSlot(c, m, base, Gpr(T1))][A3 := LoadSlot(c, m, base, Gpr(A3))]
                     [A2 := LoadSlot(c, m, base, Gpr(A2))][A1 := LoadSlot(c, m, base, Gpr(A1))]
                     [A0 := LoadSlot(c, m, base, Gpr(A0))][V1 := LoadSlot(c, m, base, Gpr(V1))]
                     [V0 := LoadSlot(c, m, base, Gpr(V0))]
    ensures forall r: RegNum :: g3[r] == if RestoredBySome(r) then LoadSlot(c, m, base, Gpr(r)) else g0[r]
  {
  }

  /** The register effect of `RESTORE_TEMP`, `RESTORE_STATIC`,
    * `RESTORE_AT` and `RESTORE_SOME` in sequence, from `g0` through `g4`,
    * all loading from the frame at `base`: every register but `zero`,
    * `k0`, `k1` and `sp` ends up with its slot. */
  lemma AllRegsReloaded(c: Config, m: map<int, Word>, base: Word,
                        g0: RegFile, g1: RegFile, g2: RegFile, g3: RegFile, g4: RegFile)
    requires forall r: RegNum :: g1[r] == if RestoredByTemp(r) then LoadSlot(c, m, base, Gpr(r)) else g0[r]
    requires forall r: RegNum :: g2[r] == if RestoredByStatic(r) then LoadSlot(c, m, base, Gpr(r)) else g1[r]
    requires g3 == g2[At := LoadSlot(c, m, base, Gpr(At))]
    requires forall r: RegNum :: g4[r] == if RestoredBySome(r) then LoadSlot(c, m, base, Gpr(r)) else g3[r]
    ensures forall r: RegNum :: g4[r] == if r != Zero && r != K0 && r != K1 && r != Sp
                                       then LoadSlot(c, m, base, Gpr(r)) else g0[r]
  {
    forall r: RegNum
      ensures g4[r] == if r != Zero && r != K0 && r != K1 && r != Sp then LoadSlot(c, m, base, Gpr(r)) else g0[r]
    {
      RestoreAllCoverage(r);
    }
  }

  /** What `RESTORE_ALL` loads from a frame `SAVE_ALL` has just filled
    * from `tf`: the values of `tf`, in every register but `k0` and `k1`
    * and in `lo`, `hi`, EPC, Cause, EntryHi and the saved Status. */
  lemma SaveThenRestore(c: Config, m0: map<int, Word>, base: Word, tf: TrapFrame, m1: map<int, Word>,
                        g0: RegFile, g: RegFile, lo: Word, hi: Word, epc: Word, cause: Word, entryHi: Word)
    requires ValidConfig(c)
    requires m1 == StoreFields(c, m0, base, SaveAllSlots(), tf)
    requires forall r: RegNum :: g[r] == if r != Zero && r != K0 && r != K1 then LoadSlot(c, m1, base, Gpr(r)) else g0[r]
    requires lo == LoadSlot(c, m1, base, Lo) && hi == LoadSlot(c, m1, base, Hi)
    requires epc == LoadSlot(c, m1, base, Epc) && cause == LoadSlot(c, m1, base, Cause)
    requires entryHi == LoadSlot(c, m1, base, EntryHi)
    ensures forall r: RegNum :: r != Zero && r != K0 && r != K1 ==> g[r] == tf.gpr[r]
    ensures lo == tf.lo && hi == tf.hi && epc == tf.epc && cause == tf.cause && entryHi == tf.entryHi
    ensures LoadSlot(c, m1, base, Status) == tf.status
  {
    forall r: RegNum | r != Zero && r != K0 && r != K1
      ensures g[r] == tf.gpr[r]
    {
      SaveAllReadsBack(c, m0, base, tf, Gpr(r));
    }
    SaveAllReadsBack(c, m0, base, tf, Lo);
    SaveAllReadsBack(c, m0, base, tf, Hi);
    SaveAllReadsBack(c, m0, base, tf, Epc);
    SaveAllReadsBack(c, m0, base, tf, Cause);
    SaveAllReadsBack(c, m0, base, tf, EntryHi);
    SaveAllReadsBack(c, m0, base, tf, Status);
  }

  /** One CPU: its registers, its CP0 state, memory and the `kernelsp`
    * table. `cpuid` is the number the `cpuid` macro yields on this CPU and
    * `cpuidScratch` what that macro leaves in its second register (`None`
    * when it leaves it intact); the macro itself is not part of this
    * model. */
  class Machine {
    const cfg: Config
    const cpuid: Word
    const cpuidScratch: Option<Word>

    /** General-purpose registers, by number; register 0 reads as zero. */
    var gpr: RegFile
    var lo: Word
    var hi: Word
    var status: Word
    var cause: Word
    var badVAddr: Word
    var epc: Word
    var entryHi: Word
    /** Memory, one word per byte address at which a word was stored. */
    var mem: map<int, Word>
    /** The `kernelsp` table, by byte offset. */
    var kernelsp: map<Word, Word>
    /** Set by `eret`. */
    var returned: bool
    /** Every value written to Status with `mtc0`, oldest first. */
    ghost var statusWrites: seq<Word>

    ghost predicate Valid()
      reads this`gpr
    {
      ValidConfig(cfg) && gpr[Zero] == 0
    }

    constructor (cfg: Config, cpuid: Word, cpuidScratch: Option<Word>)
      requires ValidConfig(cfg)
      ensures Valid()
      ensures this.cfg == cfg && this.cpuid == cpuid && this.cpuidScratch == cpuidScratch
      ensures forall r: RegNum :: gpr[r] == 0
      ensures lo == 0 && hi == 0
      ensures status == 0 && cause == 0 && badVAddr == 0 && epc == 0 && entryHi == 0
      ensures mem == map[] && kernelsp == map[] && !returned && statusWrites == []
    {
      this.cfg := cfg;
      this.cpuid := cpuid;
      this.cpuidScratch := cpuidScratch;
      gpr := seq(32, _ => 0);
      lo, hi := 0, 0;
      status, cause, badVAddr, epc, entryHi := 0, 0, 0, 0, 0;
      mem, kernelsp := map[], map[];
      returned := false;
      statusWrites := [];
    }

    /** The registers as a `struct trapframe` would record them. */
    function Live(): TrapFrame
      reads this`gpr, this`lo, this`hi, this`status, this`cause, this`badVAddr, this`epc, this`entryHi
    {
      TrapFrame(gpr, lo, hi, status, cause, badVAddr, epc, entryHi)
    }

    /** The word in slot `f` of the frame `sp` points to. */
    function Slot(f: Field): Word
      reads this`gpr, this`mem
    {
      LoadSlot(cfg, mem, gpr[Sp], f)
    }

    /** What the `cpuid` macro leaves in its second register when it held `v`. */
    function AfterCpuid(v: Word): Word {
      if cpuidScratch.Some? then cpuidScratch.value else v
    }

    /** `cpuid dst, tmp`. */
    method Cpuid(dst: RegNum, tmp: RegNum)
      requires Valid() && dst != Zero && tmp != Zero && dst != tmp
      modifies this`gpr
      ensures Valid()
      ensures gpr[dst] == cpuid && gpr[tmp] == AfterCpuid(old(gpr[tmp]))
      ensures forall r: RegNum :: r != dst && r != tmp ==> gpr[r] == old(gpr[r])
    {
      if cpuidScratch.Some? {
        gpr := gpr[tmp := cpuidScratch.value];
      }
      gpr := gpr[dst := cpuid];
    }

    /** `get_saved_sp`: `k1` receives this CPU's entry of `kernelsp`. */
    method GetSavedSp()
      requires Valid()
      modifies this`gpr
      ensures Valid()
      ensures gpr[K0] == CpuOffset(cfg, cpuid)
      ensures gpr[K1] == Load(old(kernelsp), CpuOffset(cfg, cpuid))
      ensures forall r: RegNum :: r != K0 && r != K1 ==> gpr[r] == old(gpr[r])
    {
      Cpuid(K0, K1);
      gpr := gpr[K0 := ShiftLeft(cfg, gpr[K0], cfg.wordShift)];
      gpr := gpr[K1 := Load(kernelsp, gpr[K0])];
    }

    /** `set_saved_sp stackp temp`: stores `stackp` into this CPU's entry
      * of `kernelsp` and into no other entry. The value stored is the one
      * `stackp` holds after the `cpuid` macro, which is the caller's value
      * only when `cpuid` leaves `stackp` intact. */
    method SetSavedSp(stackp: RegNum, temp: RegNum)
      requires Valid() && stackp != Zero && temp != Zero && stackp != temp
      modifies this`gpr, this`kernelsp
      ensures Valid()
      ensures kernelsp == old(kernelsp)[CpuOffset(cfg, cpuid) := AfterCpuid(old(gpr[stackp]))]
      ensures gpr[stackp] == AfterCpuid(old(gpr[stackp])) && gpr[temp] == CpuOffset(cfg, cpuid)
      ensures forall r: RegNum :: r != stackp && r != temp ==> gpr[r] == old(gpr[r])
    {
      Cpuid(temp, stackp);
      gpr := gpr[temp := ShiftLeft(cfg, gpr[temp], cfg.wordShift)];
      kernelsp := kernelsp[gpr[temp] := gpr[stackp]];
    }

    /** The first half of `SAVE_SOME`: choose the stack and allocate a
      * frame below it. `k0` ends up holding the pre-trap `sp` and `k1` the
      * top of the chosen stack. */
    method AllocateFrame()
      requires Valid()
      modifies this`gpr
      ensures Valid()
      ensures gpr[Sp] == FrameBase(cfg, StackTop(cfg, old(status), old(gpr[Sp]), old(kernelsp), cpuid))
      ensures gpr[K0] == old(gpr[Sp])
      ensures gpr[K1] == StackTop(cfg, old(status), old(gpr[Sp]), old(kernelsp), cpuid)
      ensures forall r: RegNum :: r != Sp && r != K0 && r != K1 ==> gpr[r] == old(gpr[r])
    {
      gpr := gpr[K0 := And(status, cfg.stKsu)];
      // `beqz k0` with `move k1, sp` in its delay slot, which runs on both paths.
      gpr := gpr[K1 := gpr[Sp]];
      if gpr[K0] != 0 {
        GetSavedSp();
      }
      gpr := gpr[K0 := gpr[Sp]];
      gpr := gpr[Sp := FrameBase(cfg, gpr[K1])];
    }

    /** `SAVE_SOME`: allocate the frame, then save the pre-trap `sp`,
      * `zero`, `v0`, `v1`, `a0`..`a3`, Status, Cause, EPC, EntryHi,
      * BadVAddr, `t0`, `t1`, `t9`, `gp` and `ra` into it. */
    method SaveSome()
      requires Valid()
      modifies this`gpr, this`mem
      ensures Valid()
      ensures gpr[Sp] == FrameBase(cfg, StackTop(cfg, old(status), old(gpr[Sp]), old(kernelsp), cpuid))
      ensures gpr[K0] == old(gpr[Sp])
      ensures gpr[K1] == StackTop(cfg, old(status), old(gpr[Sp]), old(kernelsp), cpuid)
      ensures gpr[V1] == badVAddr
      ensures forall r: RegNum :: r != Sp && r != K0 && r != K1 && r != V1 ==> gpr[r] == old(gpr[r])
      ensures mem == StoreFields(cfg, old(mem), gpr[Sp], SaveSomeSlots, old(Live()))
      ensures SameButScratch(old(Live()), Live())
      ensures Slot(Gpr(Sp)) == old(gpr[Sp]) && Slot(Gpr(Zero)) == 0
    {
      AllocateFrame();
      ghost var tfA := Live();
      // `k0` holds the pre-trap `sp`.
      mem := Store(cfg, mem, gpr[Sp], Gpr(Sp), gpr[K0]);
      mem := StoreFields(cfg, mem, gpr[Sp], SaveSomeArgSlots, Live());
      SaveCp0();
      mem := StoreFields(cfg, mem, gpr[Sp], SaveSomeCallSlots, Live());
      SaveSomeSteps(cfg, old(mem), gpr[Sp], old(Live()), tfA, Live());
      SaveSomeRecordsSpAndZero(cfg, old(mem), gpr[Sp], old(Live()));
    }

    /** The CP0 part of `SAVE_SOME`: Status, Cause, EPC, EntryHi and
      * BadVAddr, each read into `v1` and stored to its slot. */
    method SaveCp0()
      requires Valid()
      modifies this`gpr, this`mem
      ensures Valid()
      ensures gpr == old(gpr)[V1 := badVAddr]
      ensures mem == Store(cfg, Store(cfg, Store(cfg, Store(cfg, Store(cfg, old(mem),
                       gpr[Sp], Status, status), gpr[Sp], Cause, cause), gpr[Sp], Epc, epc),
                       gpr[Sp], EntryHi, entryHi), gpr[Sp], BadVAddr, badVAddr)
    {
      var v := status;
      gpr := gpr[V1 := v];
      mem := Store(cfg, mem, gpr[Sp], Status, gpr[V1]);
      v := cause;
      gpr := gpr[V1 := v];
      mem := Store(cfg, mem, gpr[Sp], Cause, gpr[V1]);
      v := epc;
      gpr := gpr[V1 := v];
      mem := Store(cfg, mem, gpr[Sp], Epc, gpr[V1]);
      v := entryHi;
      gpr := gpr[V1 := v];
      mem := Store(cfg, mem, gpr[Sp], EntryHi, gpr[V1]);
      v := badVAddr;
      gpr := gpr[V1 := v];
      mem := Store(cfg, mem, gpr[Sp], BadVAddr, gpr[V1]);
    }

    /** `SAVE_AT`. */
    method SaveAt()
      requires Valid()
      modifies this`mem
      ensures Valid()
      ensures mem == StoreFields(cfg, old(mem), gpr[Sp], SaveAtSlots, Live())
    {
      mem := StoreFields(cfg, mem, gpr[Sp], SaveAtSlots, Live());
    }

    /** `SAVE_TEMP`: `t2`..`t8`, and `hi` and `lo` through `v1`. */
    method SaveTemp()
      requires Valid()
      modifies this`gpr, this`mem
      ensures Valid()
      ensures mem == StoreFields(cfg, old(mem), old(gpr[Sp]), SaveTempSlots, old(Live()))
      ensures gpr == old(gpr)[V1 := lo]
      ensures SameButScratch(old(Live()), Live())
    {
      var v := hi;
      gpr := gpr[V1 := v];
      ghost var tfA := Live();
      mem := StoreFields(cfg, mem, gpr[Sp], [Gpr(T2), Gpr(T3), Gpr(T4)], Live());
      mem := Store(cfg, mem, gpr[Sp], Hi, gpr[V1]);
      v := lo;
      gpr := gpr[V1 := v];
      mem := StoreFields(cfg, mem, gpr[Sp], [Gpr(T5), Gpr(T6), Gpr(T7), Gpr(T8)], Live());
      mem := Store(cfg, mem, gpr[Sp], Lo, gpr[V1]);
      SaveTempSteps(cfg, old(mem), gpr[Sp], old(Live()), tfA, Live());
    }

    /** `SAVE_STATIC`: `s0`..`s8`. */
    method SaveStatic()
      requires Valid()
      modifies this`mem
      ensures Valid()
      ensures mem == StoreFields(cfg, old(mem), gpr[Sp], SaveStaticSlots, Live())
    {
      mem := StoreFields(cfg, mem, gpr[Sp], SaveStaticSlots, Live());
    }

    /** `SAVE_ALL`: `SAVE_SOME`, `SAVE_AT`, `SAVE_TEMP`, `SAVE_STATIC`. The
      * frame receives every register and CP0 value as it was at trap
      * entry, in every slot but those of `k0` and `k1`. */
    method SaveAll()
      requires Valid()
      modifies this`gpr, this`mem
      ensures Valid()
      ensures gpr[Sp] == FrameBase(cfg, StackTop(cfg, old(status), old(gpr[Sp]), old(kernelsp), cpuid))
      ensures gpr[K0] == old(gpr[Sp])
      ensures gpr[K1] == StackTop(cfg, old(status), old(gpr[Sp]), old(kernelsp), cpuid)
      ensures gpr[V1] == lo
      ensures SameButScratch(old(Live()), Live())
      ensures mem == StoreFields(cfg, old(mem), gpr[Sp], SaveAllSlots(), old(Live()))
    {
      SaveSome();
      ghost var tf1 := Live();
      SaveAt();
      ghost var tf2 := Live();
      SaveTemp();
      ghost var tf3 := Live();
      SaveStatic();
      SameButScratchTransitive(old(Live()), tf1, tf3);
      SaveAllStores(cfg, old(mem), gpr[Sp], old(Live()), tf1, tf2, tf3);
    }

    /** `RESTORE_TEMP`: `hi` and `lo` pass through `t8`, which is reloaded
      * last. */
    method RestoreTemp()
      requires Valid()
      modifies this`gpr, this`lo, this`hi
      ensures Valid()
      ensures hi == LoadSlot(cfg, mem, old(gpr[Sp]), Hi) && lo == LoadSlot(cfg, mem, old(gpr[Sp]), Lo)
      ensures gpr[Sp] == old(gpr[Sp])
      ensures forall r: RegNum :: gpr[r] == if RestoredByTemp(r) then LoadSlot(cfg, mem, old(gpr[Sp]), Gpr(r)) else old(gpr[r])
    {
      gpr := gpr[T8 := LoadSlot(cfg, mem, gpr[Sp], Hi)];
      gpr := gpr[T2 := LoadSlot(cfg, mem, gpr[Sp], Gpr(T2))];
      gpr := gpr[T3 := LoadSlot(cfg, mem, gpr[Sp], Gpr(T3))];
      gpr := gpr[T4 := LoadSlot(cfg, mem, gpr[Sp], Gpr(T4))];
      hi := gpr[T8];
      gpr := gpr[T8 := LoadSlot(cfg, mem, gpr[Sp], Lo)];
      gpr := gpr[T5 := LoadSlot(cfg, mem, gpr[Sp], Gpr(T5))];
      gpr := gpr[T6 := LoadSlot(cfg, mem, gpr[Sp], Gpr(T6))];
      gpr := gpr[T7 := LoadSlot(cfg, mem, gpr[Sp], Gpr(T7))];
      lo := gpr[T8];
      gpr := gpr[T8 := LoadSlot(cfg, mem, gpr[Sp], Gpr(T8))];
    }

    /** `RESTORE_STATIC`: `s0`..`s8`. */
    method RestoreStatic()
      requires Valid()
      modifies this`gpr
      ensures Valid()
      ensures gpr[Sp] == old(gpr[Sp])
      ensures forall r: RegNum :: gpr[r] == if RestoredByStatic(r) then LoadSlot(cfg, mem, old(gpr[Sp]), Gpr(r)) else old(gpr[r])
    {
      gpr := gpr[S0 := LoadSlot(cfg, mem, gpr[Sp], Gpr(S0))];
      gpr := gpr[S1 := LoadSlot(cfg, mem, gpr[Sp], Gpr(S1))];
      gpr := gpr[S2 := LoadSlot(cfg, mem, gpr[Sp], Gpr(S2))];
      gpr := gpr[S3 := LoadSlot(cfg, mem, gpr[Sp], Gpr(S3))];
      gpr := gpr[S4 := LoadSlot(cfg, mem, gpr[Sp], Gpr(S4))];
      gpr := gpr[S5 := LoadSlot(cfg, mem, gpr[Sp], Gpr(S5))];
      gpr := gpr[S6 := LoadSlot(cfg, mem, gpr[Sp], Gpr(S6))];
      gpr := gpr[S7 := LoadSlot(cfg, mem, gpr[Sp], Gpr(S7))];
      gpr := gpr[S8 := LoadSlot(cfg, mem, gpr[Sp], Gpr(S8))];
    }

    /** `RESTORE_AT`. */
    method RestoreAt()
      requires Valid()
      modifies this`gpr
      ensures Valid()
      ensures gpr == old(gpr)[At := LoadSlot(cfg, mem, old(gpr[Sp]), Gpr(At))]
    {
      gpr := gpr[At := LoadSlot(cfg, mem, gpr[Sp], Gpr(At))];
    }

    /** The Status part of `RESTORE_SOME`. Status is first written with
      * the live value less its `ST_EXCM` bits, then with the merge of the
      * live IM bits into the saved value; `a0`, `v0` and `v1` are left
      * holding intermediate values. */
    method RestoreStatus()
      requires Valid()
      modifies this`gpr, this`status, this`statusWrites
      ensures Valid()
      ensures status == MergeStatus(cfg, SafeStatus(cfg, old(status)), LoadSlot(cfg, mem, old(gpr[Sp]), Status))
      ensures statusWrites == old(statusWrites) + [SafeStatus(cfg, old(status)), status]
      ensures gpr[V0] == status && gpr[Sp] == old(gpr[Sp])
      ensures forall r: RegNum :: r != A0 && r != V0 && r != V1 ==> gpr[r] == old(gpr[r])
    {
      // `a0`, `v0` and `v1` are worked on as locals and written back at the end.
      var a0, v1 := status, IM_MASK;
      a0 := Or(a0, cfg.stExcm);
      a0 := Xor(a0, cfg.stExcm);
      status := a0;
      statusWrites := statusWrites + [status];
      a0 := And(a0, v1);
      var v0 := LoadSlot(cfg, mem, gpr[Sp], Status);
      v1 := Nor(cfg, gpr[Zero], v1);
      v0 := And(v0, v1);
      v0 := Or(v0, a0);
      status := v0;
      statusWrites := statusWrites + [status];
      gpr := gpr[A0 := a0][V1 := v1][V0 := v0];
    }

    /** The CP0 part of `RESTORE_SOME`: EPC and Cause through `v1`, then
      * `ra` and `gp`, then EntryHi through `v1`. */
    method RestoreCp0()
      requires Valid()
      modifies this`gpr, this`epc, this`cause, this`entryHi
      ensures Valid()
      ensures epc == LoadSlot(cfg, mem, old(gpr[Sp]), Epc)
      ensures cause == LoadSlot(cfg, mem, old(gpr[Sp]), Cause)
      ensures entryHi == LoadSlot(cfg, mem, old(gpr[Sp]), EntryHi)
      ensures gpr == old(gpr)[Ra := LoadSlot(cfg, mem, old(gpr[Sp]), Gpr(Ra))]
                             [Gp := LoadSlot(cfg, mem, old(gpr[Sp]), Gpr(Gp))]
                             [V1 := entryHi]
    {
      gpr := gpr[V1 := LoadSlot(cfg, mem, gpr[Sp], Epc)];
      epc := gpr[V1];
      gpr := gpr[V1 := LoadSlot(cfg, mem, gpr[Sp], Cause)];
      cause := gpr[V1];
      gpr := gpr[Ra := LoadSlot(cfg, mem, gpr[Sp], Gpr(Ra))];
      gpr := gpr[Gp := LoadSlot(cfg, mem, gpr[Sp], Gpr(Gp))];
      gpr := gpr[V1 := LoadSlot(cfg, mem, gpr[Sp], EntryHi)];
      entryHi := gpr[V1];
    }

    /** The last loads of `RESTORE_SOME`: `t9`, `t0`, `t1`, `a3`..`a0`,
      * `v1` and `v0`, which overwrite every scratch value. */
    method RestoreArgs()
      requires Valid()
      modifies this`gpr
      ensures Valid()
      ensures gpr == old(gpr)[T9 := LoadSlot(cfg, mem, old(gpr[Sp]), Gpr(T9))]
                             [T0 := LoadSlot(cfg, mem, old(gpr[Sp]), Gpr(T0))]
                             [T1 := LoadSlot(cfg, mem, old(gpr[Sp]), Gpr(T1))]
                             [A3 := LoadSlot(cfg, mem, old(gpr[Sp]), Gpr(A3))]
                             [A2 := LoadSlot(cfg, mem, old(gpr[Sp]), Gpr(A2))]
                             [A1 := LoadSlot(cfg, mem, old(gpr[Sp]), Gpr(A1))]
                             [A0 := LoadSlot(cfg, mem, old(gpr[Sp]), Gpr(A0))]
                             [V1 := LoadSlot(cfg, mem, old(gpr[Sp]), Gpr(V1))]
                             [V0 := LoadSlot(cfg, mem, old(gpr[Sp]), Gpr(V0))]
    {
      gpr := gpr[T9 := LoadSlot(cfg, mem, gpr[Sp], Gpr(T9))];
      gpr := gpr[T0 := LoadSlot(cfg, mem, gpr[Sp], Gpr(T0))];
      gpr := gpr[T1 := LoadSlot(cfg, mem, gpr[Sp], Gpr(T1))];
      gpr := gpr[A3 := LoadSlot(cfg, mem, gpr[Sp], Gpr(A3))];
      gpr := gpr[A2 := LoadSlot(cfg, mem, gpr[Sp], Gpr(A2))];
      gpr := gpr[A1 := LoadSlot(cfg, mem, gpr[Sp], Gpr(A1))];
      gpr := gpr[A0 := LoadSlot(cfg, mem, gpr[Sp], Gpr(A0))];
      gpr := gpr[V1 := LoadSlot(cfg, mem, gpr[Sp], Gpr(V1))];
      gpr := gpr[V0 := LoadSlot(cfg, mem, gpr[Sp], Gpr(V0))];
    }

    /** `RESTORE_SOME`: Status, then EPC, Cause and EntryHi through `v1`,
      * then `ra`, `gp`, `t9`, `t0`, `t1`, `a3`..`a0`, `v1` and `v0`. Every
      * scratch register is reloaded from the frame at the end. */
    method RestoreSome()
      requires Valid()
      modifies this`gpr, this`status, this`statusWrites, this`epc, this`cause, this`entryHi
      ensures Valid()
      ensures status == MergeStatus(cfg, SafeStatus(cfg, old(status)), LoadSlot(cfg, mem, old(gpr[Sp]), Status))
      ensures statusWrites == old(statusWrites) + [SafeStatus(cfg, old(status)), status]
      ensures epc == LoadSlot(cfg, mem, old(gpr[Sp]), Epc)
      ensures cause == LoadSlot(cfg, mem, old(gpr[Sp]), Cause)
      ensures entryHi == LoadSlot(cfg, mem, old(gpr[Sp]), EntryHi)
      ensures gpr[Sp] == old(gpr[Sp])
      ensures forall r: RegNum :: gpr[r] == if RestoredBySome(r) then LoadSlot(cfg, mem, old(gpr[Sp]), Gpr(r)) else old(gpr[r])
    {
      ghost var g0 := gpr;
      RestoreStatus();
      ghost var g1 := gpr;
      RestoreCp0();
      ghost var g2 := gpr;
      RestoreArgs();
      SomeRegsReloaded(cfg, mem, g0[Sp], g0, g1, g2, gpr);
    }

    /** `RESTORE_SP`: `sp` is reloaded last, since every earlier load
      * addresses the frame through it. */
    method RestoreSp()
      requires Valid()
      modifies this`gpr
      ensures Valid()
      ensures gpr == old(gpr)[Sp := LoadSlot(cfg, mem, old(gpr[Sp]), Gpr(Sp))]
    {
      gpr := gpr[Sp := LoadSlot(cfg, mem, gpr[Sp], Gpr(Sp))];
    }

    /** `RESTORE_SP_AND_RET`: `RESTORE_SP`, then `eret`. */
    method RestoreSpAndRet()
      requires Valid()
      modifies this`gpr, this`returned
      ensures Valid()
      ensures gpr == old(gpr)[Sp := LoadSlot(cfg, mem, old(gpr[Sp]), Gpr(Sp))]
      ensures returned
    {
      RestoreSp();
      returned := true;
    }

    /** `RESTORE_TEMP`, `RESTORE_STATIC`, `RESTORE_AT` and `RESTORE_SOME`:
      * the part `RESTORE_ALL` and `RESTORE_ALL_AND_RET` share. Every
      * register but `zero`, `k0`, `k1` and `sp` is reloaded from the frame,
      * and `sp` still points to it. */
    method RestoreRegs()
      requires Valid()
      modifies this`gpr, this`lo, this`hi, this`status, this`statusWrites, this`epc, this`cause, this`entryHi
      ensures Valid()
      ensures forall r: RegNum :: gpr[r] == if r != Zero && r != K0 && r != K1 && r != Sp
                                          then LoadSlot(cfg, mem, old(gpr[Sp]), Gpr(r)) else old(gpr[r])
      ensures lo == LoadSlot(cfg, mem, old(gpr[Sp]), Lo) && hi == LoadSlot(cfg, mem, old(gpr[Sp]), Hi)
      ensures epc == LoadSlot(cfg, mem, old(gpr[Sp]), Epc)
      ensures cause == LoadSlot(cfg, mem, old(gpr[Sp]), Cause)
      ensures entryHi == LoadSlot(cfg, mem, old(gpr[Sp]), EntryHi)
      ensures status == MergeStatus(cfg, SafeStatus(cfg, old(status)), LoadSlot(cfg, mem, old(gpr[Sp]), Status))
      ensures statusWrites == old(statusWrites) + [SafeStatus(cfg, old(status)), status]
    {
      ghost var g0 := gpr;
      RestoreTemp();
      ghost var g1 := gpr;
      RestoreStatic();
      ghost var g2 := gpr;
      RestoreAt();
      ghost var g3 := gpr;
      RestoreSome();
      AllRegsReloaded(cfg, mem, g0[Sp], g0, g1, g2, g3, gpr);
    }

    /** `RESTORE_ALL`: every register but `zero`, `k0` and `k1`, and `lo`,
      * `hi`, EPC, Cause and EntryHi, come from the frame `sp` pointed to
      * on entry; Status is the merge of the live IM bits into the saved
      * value. Memory and BadVAddr are not written. */
    method RestoreAll()
      requires Valid()
      modifies this`gpr, this`lo, this`hi, this`status, this`statusWrites, this`epc, this`cause, this`entryHi
      ensures Valid()
      ensures forall r: RegNum :: gpr[r] == if r != Zero && r != K0 && r != K1
                                          then LoadSlot(cfg, mem, old(gpr[Sp]), Gpr(r)) else old(gpr[r])
      ensures lo == LoadSlot(cfg, mem, old(gpr[Sp]), Lo) && hi == LoadSlot(cfg, mem, old(gpr[Sp]), Hi)
      ensures epc == LoadSlot(cfg, mem, old(gpr[Sp]), Epc)
      ensures cause == LoadSlot(cfg, mem, old(gpr[Sp]), Cause)
      ensures entryHi == LoadSlot(cfg, mem, old(gpr[Sp]), EntryHi)
      ensures status == MergeStatus(cfg, SafeStatus(cfg, old(status)), LoadSlot(cfg, mem, old(gpr[Sp]), Status))
      ensures statusWrites == old(statusWrites) + [SafeStatus(cfg, old(status)), status]
    {
      RestoreRegs();
      RestoreSp();
    }

    /** `RESTORE_ALL_AND_RET`: `RESTORE_ALL` with `RESTORE_SP_AND_RET` in
      * place of `RESTORE_SP`. */
    method RestoreAllAndRet()
      requires Valid()
      modifies this`gpr, this`lo, this`hi, this`status, this`statusWrites, this`epc, this`cause, this`entryHi, this`returned
      ensures Valid()
      ensures forall r: RegNum :: gpr[r] == if r != Zero && r != K0 && r != K1
                                          then LoadSlot(cfg, mem, old(gpr[Sp]), Gpr(r)) else old(gpr[r])
      ensures lo == LoadSlot(cfg, mem, old(gpr[Sp]), Lo) && hi == LoadSlot(cfg, mem, old(gpr[Sp]), Hi)
      ensures epc == LoadSlot(cfg, mem, old(gpr[Sp]), Epc)
      ensures cause == LoadSlot(cfg, mem, old(gpr[Sp]), Cause)
      ensures entryHi == LoadSlot(cfg, mem, old(gpr[Sp]), EntryHi)
      ensures status == MergeStatus(cfg, SafeStatus(cfg, old(status)), LoadSlot(cfg, mem, old(gpr[Sp]), Status))
      ensures statusWrites == old(statusWrites) + [SafeStatus(cfg, old(status)), status]
      ensures returned
    {
      RestoreRegs();
      RestoreSpAndRet();
    }

    /** A trap whose handler changes nothing: `SAVE_ALL` then
      * `RESTORE_ALL` gives back every register but `k0` and `k1`, and
      * `lo`, `hi`, EPC, Cause and EntryHi. Status comes back as the merge
      * of its own IM bits into itself, which is the original value when
      * `ST_EXCM` has no bit in the IM field. */
    method SaveRestoreRoundTrip()
      requires Valid()
      modifies this`gpr, this`mem, this`lo, this`hi, this`status, this`statusWrites, this`epc, this`cause, this`entryHi
      ensures Valid()
      ensures forall r: RegNum :: r != K0 && r != K1 ==> gpr[r] == old(gpr[r])
      ensures lo == old(lo) && hi == old(hi)
      ensures epc == old(epc) && cause == old(cause) && entryHi == old(entryHi)
      ensures status == MergeStatus(cfg, SafeStatus(cfg, old(status)), old(status))
      ensures Fits(cfg, old(status)) && And(cfg.stExcm, IM_MASK) == 0 ==> status == old(status)
    {
      SaveAll();
      ghost var base, g1 := gpr[Sp], gpr;
      RestoreAll();
      SaveThenRestore(cfg, old(mem), base, old(Live()), mem, g1, gpr, lo, hi, epc, cause, entryHi);
      if Fits(cfg, old(status)) && And(cfg.stExcm, IM_MASK) == 0 {
        MergeOfOwnStatus(cfg, old(status));
      }
    }

    /** `set_saved_sp sp, temp` then `get_saved_sp`: `k1` receives the
      * stack pointer that was saved, or the value the `cpuid` macro leaves
      * in `sp` when it does not leave it intact. */
    method SavedSpRoundTrip(temp: RegNum)
      requires Valid() && temp != Zero && temp != Sp
      modifies this`gpr, this`kernelsp
      ensures Valid()
      ensures gpr[K1] == AfterCpuid(old(gpr[Sp]))
      ensures cpuidScratch.None? ==> gpr[K1] == old(gpr[Sp])
    {
      SetSavedSp(Sp, temp);
      GetSavedSp();
    }
  }
}
