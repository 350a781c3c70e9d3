/**
 * Machine words, the bitwise instructions the trap macros use, and the
 * build parameters they depend on.
 *
 * A register or memory word is an unsigned number. `LONGSIZE` fixes the
 * register width, `8 * LONGSIZE` bits; the instructions whose result can
 * carry bits past that width (subtraction, shifts, `nor`) are reduced
 * modulo `2^(8 * LONGSIZE)`. `and`, `or` and `xor` are defined bit by bit
 * on numbers, and `Bit(x, i)` is bit `i` of `x`: every property of them
 * below is proved bit by bit and then lifted with `BitsDetermine`.
 */
module Words {
  import Layout

  type Word = nat

  /** Values the macros take from headers that are not part of this model:
    * `LONGSIZE`, `WORD_SHIFT`, and the Status masks `ST_KSU` and `ST_EXCM`. */
  datatype Config = Config(longSize: nat, wordShift: nat, stKsu: Word, stExcm: Word)

  /** `LONGSIZE` is 4 or 8, the shift amount fits the shift instruction, and
    * both masks fit the 16-bit zero-extended immediate of `andi`/`ori`/`xori`. */
  predicate ValidConfig(c: Config) {
    && Layout.ValidLongSize(c.longSize)
    && c.wordShift < Width(c)
    && c.stKsu < 0x1_0000
    && c.stExcm < 0x1_0000
  }

  /** The number of bits in a register. */
  function Width(c: Config): nat {
    8 * c.longSize
  }

  function Pow2(n: nat): (p: nat)
    ensures p > 0
  {
    if n == 0 then 1 else 2 * Pow2(n - 1)
  }

  /** `2^Width(c)`: register values and addresses wrap modulo this. */
  function Modulus(c: Config): (m: nat)
    ensures m > 0
  {
    if c.longSize == 4 then 0x1_0000_0000 else 0x1_0000_0000_0000_0000
  }

  lemma ModulusIsPow2(c: Config)
    requires ValidConfig(c)
    ensures Modulus(c) == Pow2(Width(c))
  {
    assert Pow2(8) == 0x100;
    Pow2Add(8, 8);
    assert Pow2(16) == 0x1_0000;
    Pow2Add(16, 16);
    assert Pow2(32) == 0x1_0000_0000;
    if c.longSize == 8 {
      Pow2Add(32, 32);
    }
  }

  lemma {:induction false} Pow2Add(a: nat, b: nat)
    ensures Pow2(a + b) == Pow2(a) * Pow2(b)
    decreases a
  {
    if a > 0 {
      Pow2Add(a - 1, b);
    }
  }

  /** `w` is representable in a register. */
  predicate Fits(c: Config, w: Word) {
    w < Modulus(c)
  }

  /** The register-width result of an arithmetic instruction whose exact
    * result is `x`: two's-complement wrap-around. */
  function Wrap(c: Config, x: int): (r: Word)
    ensures Fits(c, r)
  {
    x % Modulus(c)
  }

  /** `SLL`: `x` shifted left by `n` bit positions, bits past the register
    * width dropped. */
  function ShiftLeft(c: Config, x: Word, n: nat): Word {
    Wrap(c, x * Pow2(n))
  }

  /** Bit `i` of `x`. */
  predicate Bit(x: nat, i: nat)
    decreases i
  {
    if i == 0 then x % 2 == 1 else Bit(x / 2, i - 1)
  }

  /** `and`. */
  function And(x: Word, y: Word): Word
    decreases x
  {
    if x == 0 then 0 else 2 * And(x / 2, y / 2) + (if x % 2 == 1 && y % 2 == 1 then 1 else 0)
  }

  /** `or`. */
  function Or(x: Word, y: Word): Word
    decreases x
  {
    if x == 0 then y else 2 * Or(x / 2, y / 2) + (if x % 2 == 1 || y % 2 == 1 then 1 else 0)
  }

  /** `xor`. */
  function Xor(x: Word, y: Word): Word
    decreases x
  {
    if x == 0 then y else 2 * Xor(x / 2, y / 2) + (if x % 2 != y % 2 then 1 else 0)
  }

  /** The low `n` bits of `x`, each inverted. */
  function Complement(x: Word, n: nat): Word
    decreases n
  {
    if n == 0 then 0 else 2 * Complement(x / 2, n - 1) + (if x % 2 == 1 then 0 else 1)
  }

  /** `nor`: every bit of the register set in neither operand. */
  function Nor(c: Config, x: Word, y: Word): Word {
    Complement(Or(x, y), Width(c))
  }

  // Bit by bit.

  lemma {:induction false} BitOfZero(i: nat)
    ensures !Bit(0, i)
  {
    if i > 0 {
      BitOfZero(i - 1);
    }
  }

  lemma {:induction false} BitAnd(x: Word, y: Word, i: nat)
    ensures Bit(And(x, y), i) <==> Bit(x, i) && Bit(y, i)
    decreases x
  {
    if x == 0 {
      BitOfZero(i);
    } else if i > 0 {
      BitAnd(x / 2, y / 2, i - 1);
    }
  }

  lemma {:induction false} BitOr(x: Word, y: Word, i: nat)
    ensures Bit(Or(x, y), i) <==> Bit(x, i) || Bit(y, i)
    decreases x
  {
    if x == 0 {
      BitOfZero(i);
    } else if i > 0 {
      BitOr(x / 2, y / 2, i - 1);
    }
  }

  lemma {:induction false} BitXor(x: Word, y: Word, i: nat)
    ensures Bit(Xor(x, y), i) <==> Bit(x, i) != Bit(y, i)
    decreases x
  {
    if x == 0 {
      BitOfZero(i);
    } else if i > 0 {
      BitXor(x / 2, y / 2, i - 1);
    }
  }

  lemma {:induction false} BitComplement(x: Word, n: nat, i: nat)
    ensures Bit(Complement(x, n), i) <==> i < n && !Bit(x, i)
    decreases n
  {
    if n == 0 {
      BitOfZero(i);
    } else if i > 0 {
      BitComplement(x / 2, n - 1, i - 1);
    }
  }

  lemma BitNor(c: Config, x: Word, y: Word, i: nat)
    ensures Bit(Nor(c, x, y), i) <==> i < Width(c) && !Bit(x, i) && !Bit(y, i)
  {
    BitComplement(Or(x, y), Width(c), i);
    BitOr(x, y, i);
  }

  /** A number is determined by its bits. */
  lemma {:induction false} BitsDetermine(x: nat, y: nat)
    requires forall i: nat :: Bit(x, i) <==> Bit(y, i)
    ensures x == y
    decreases x + y
  {
    if x != 0 || y != 0 {
      assert Bit(x, 0) <==> Bit(y, 0);
      forall i: nat
        ensures Bit(x / 2, i) <==> Bit(y / 2, i)
      {
        assert Bit(x, i + 1) <==> Bit(y, i + 1);
      }
      BitsDetermine(x / 2, y / 2);
    }
  }

  /** A number below `2^n` has no bit at or above `n`. */
  lemma {:induction false} BitAbove(x: nat, n: nat, i: nat)
    requires x < Pow2(n) && n <= i
    ensures !Bit(x, i)
    decreases n
  {
    if n == 0 {
      BitOfZero(i);
    } else {
      BitAbove(x / 2, n - 1, i - 1);
    }
  }

  /** A register value has no bit at or above the register width. */
  lemma FitsHasNoHighBits(c: Config, x: Word, i: nat)
    requires ValidConfig(c) && Fits(c, x) && Width(c) <= i
    ensures !Bit(x, i)
  {
    ModulusIsPow2(c);
    BitAbove(x, Width(c), i);
  }

  /** Bit `i + k` of `x * 2^k` is bit `i` of `x`; its low `k` bits are 0. */
  lemma {:induction false} BitShifted(x: nat, k: nat, i: nat)
    ensures Bit(x * Pow2(k), i) <==> k <= i && Bit(x, i - k)
    decreases k
  {
    if k > 0 {
      var y := x * Pow2(k - 1);
      assert x * Pow2(k) == 2 * y;
      if i == 0 {
      } else {
        assert (2 * y) / 2 == y;
        BitShifted(x, k - 1, i - 1);
      }
    }
  }

  /** `2^k - 1` has exactly its low `k` bits set. */
  lemma {:induction false} BitOfOnes(k: nat, i: nat)
    ensures Bit(Pow2(k) - 1, i) <==> i < k
    decreases k
  {
    if k == 0 {
      BitOfZero(i);
    } else if i > 0 {
      assert (Pow2(k) - 1) / 2 == Pow2(k - 1) - 1;
      BitOfOnes(k - 1, i - 1);
    }
  }
}
