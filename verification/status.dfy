/**
 * How `RESTORE_SOME` rebuilds the CP0 Status register: first a safe
 * intermediate value with the `ST_EXCM` bits cleared, then a masked merge
 * that keeps bits 8..15 (the interrupt mask IM7..IM0) from the live
 * register and takes every other bit from the saved trap frame.
 *
 * The mask is the literal 0xff00. On MIPS32 the KX/SX/UX bits are bits
 * 7..5, so they come from the saved value, not the live one.
 */
module StatusMerge {
  import opened Words

  /** The value loaded with `LI v1, 0xff00`. */
  const IM_MASK: Word := 0xff00

  /** 0xff00 selects exactly Status bits 8..15. */
  lemma ImMaskBits(i: nat)
    ensures Bit(IM_MASK, i) <==> 8 <= i < 16
  {
    assert Pow2(8) == 0x100;
    assert IM_MASK == (Pow2(8) - 1) * Pow2(8);
    BitShifted(Pow2(8) - 1, 8, i);
    if 8 <= i {
      BitOfOnes(8, i - 8);
    }
  }

  /** `ori a0, ST_EXCM` then `xori a0, ST_EXCM` applied to the live Status. */
  function SafeStatus(c: Config, live: Word): Word {
    Xor(Or(live, c.stExcm), c.stExcm)
  }

  /** The intermediate Status has every `ST_EXCM` bit clear and every other
    * bit of the live value, since `(x | m) ^ m == x & ~m`. */
  lemma SafeStatusBits(c: Config, live: Word, i: nat)
    ensures Bit(SafeStatus(c, live), i) <==> Bit(live, i) && !Bit(c.stExcm, i)
  {
    BitXor(Or(live, c.stExcm), c.stExcm, i);
    BitOr(live, c.stExcm, i);
  }

  /** The final Status: `and a0, v1`, `nor v1, zero, v1`, `and v0, v1`,
    * `or v0, a0` with `a0` the current Status, `v1` = 0xff00 and `v0` the
    * saved Status. */
  function MergeStatus(c: Config, current: Word, saved: Word): Word {
    var a0 := And(current, IM_MASK);
    var v1 := Nor(c, 0, IM_MASK);
    Or(And(saved, v1), a0)
  }

  /** Bit by bit: the IM bits of the merged value are those of `current`;
    * every other bit of the register width is that of `saved`. */
  lemma MergeStatusBits(c: Config, current: Word, saved: Word, i: nat)
    requires ValidConfig(c)
    ensures Bit(MergeStatus(c, current, saved), i)
        <==> if 8 <= i < 16 then Bit(current, i) else i < Width(c) && Bit(saved, i)
  {
    var v1 := Nor(c, 0, IM_MASK);
    BitOr(And(saved, v1), And(current, IM_MASK), i);
    BitAnd(saved, v1, i);
    BitAnd(current, IM_MASK, i);
    BitNor(c, 0, IM_MASK, i);
    BitOfZero(i);
    ImMaskBits(i);
  }

  /** The IM bits of the merged value are those of the current Status. */
  lemma MergeKeepsCurrentImBits(c: Config, current: Word, saved: Word)
    requires ValidConfig(c)
    ensures And(MergeStatus(c, current, saved), IM_MASK) == And(current, IM_MASK)
  {
    var r := MergeStatus(c, current, saved);
    forall i: nat
      ensures Bit(And(r, IM_MASK), i) <==> Bit(And(current, IM_MASK), i)
    {
      MergeStatusBits(c, current, saved, i);
      BitAnd(r, IM_MASK, i);
      BitAnd(current, IM_MASK, i);
      ImMaskBits(i);
    }
    BitsDetermine(And(r, IM_MASK), And(current, IM_MASK));
  }

  /** Every other bit of the register width comes from the saved Status;
    * swapping the roles of the two sides would break this. */
  lemma MergeTakesOtherBitsFromSaved(c: Config, current: Word, saved: Word)
    requires ValidConfig(c)
    ensures And(MergeStatus(c, current, saved), Nor(c, 0, IM_MASK)) == And(saved, Nor(c, 0, IM_MASK))
  {
    var r := MergeStatus(c, current, saved);
    var others := Nor(c, 0, IM_MASK);
    forall i: nat
      ensures Bit(And(r, others), i) <==> Bit(And(saved, others), i)
    {
      MergeStatusBits(c, current, saved, i);
      BitAnd(r, others, i);
      BitAnd(saved, others, i);
      BitNor(c, 0, IM_MASK, i);
      BitOfZero(i);
      ImMaskBits(i);
    }
    BitsDetermine(And(r, others), And(saved, others));
  }

  /** The full Status formula of `RESTORE_SOME`, bit by bit:
    * `((live & ~ST_EXCM) & 0xff00) | (saved & ~0xff00)` at register width. */
  lemma RestoredStatusBits(c: Config, live: Word, saved: Word, i: nat)
    requires ValidConfig(c)
    ensures Bit(MergeStatus(c, SafeStatus(c, live), saved), i)
        <==> if 8 <= i < 16 then Bit(live, i) && !Bit(c.stExcm, i) else i < Width(c) && Bit(saved, i)
  {
    MergeStatusBits(c, SafeStatus(c, live), saved, i);
    SafeStatusBits(c, live, i);
  }

  /** When `ST_EXCM` has no bit in the IM field and the live and saved
    * values agree, the merge gives the saved value back unchanged. */
  lemma MergeOfOwnStatus(c: Config, s: Word)
    requires ValidConfig(c) && Fits(c, s)
    requires And(c.stExcm, IM_MASK) == 0
    ensures MergeStatus(c, SafeStatus(c, s), s) == s
  {
    var r := MergeStatus(c, SafeStatus(c, s), s);
    forall i: nat
      ensures Bit(r, i) <==> Bit(s, i)
    {
      RestoredStatusBits(c, s, s, i);
      BitAnd(c.stExcm, IM_MASK, i);
      BitOfZero(i);
      ImMaskBits(i);
      if Width(c) <= i {
        FitsHasNoHighBits(c, s, i);
      }
    }
    BitsDetermine(r, s);
  }
}
