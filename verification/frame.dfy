/**
 * Stack memory as the trap-frame macros see it: word stores and loads at
 * `TF_X(sp)`, with the register-width address arithmetic of the CPU.
 *
 * Memory is a map from byte address to the word stored there; an address
 * never written reads as 0. A run of `STORE` instructions into one frame
 * is a list of writes applied in order.
 */
module Frame {
  import opened Layout
  import opened Words

  /** A word read from memory or from the `kernelsp` table; a location
    * never written reads as 0. */
  function Load<K>(m: map<K, Word>, k: K): Word {
    if k in m then m[k] else 0
  }

  /** The byte address `TF_X(base)` of slot `f` of a frame at `base`. */
  function SlotAddr(c: Config, base: Word, f: Field): (a: int)
    ensures 0 <= a < Modulus(c)
  {
    (base % Modulus(c) + Offset(c.longSize, f)) % Modulus(c)
  }

  lemma ModOnce(m: int, x: int)
    requires 0 <= x < 2 * m
    ensures x % m == if x < m then x else x - m
  {
  }

  /** Adding two different offsets below the modulus to the same address
    * gives different addresses modulo it. */
  lemma ModularOffsetsDistinct(m: int, b: int, i: int, j: int)
    requires 0 <= b < m && 0 <= i < m && 0 <= j < m && i != j
    ensures (b + i) % m != (b + j) % m
  {
    ModOnce(m, b + i);
    ModOnce(m, b + j);
  }

  /** Two different slots have different offsets, both below the
    * address-space size. */
  lemma OffsetsBelowModulus(c: Config, f: Field, g: Field)
    requires ValidConfig(c) && f != g
    ensures Offset(c.longSize, f) != Offset(c.longSize, g)
    ensures Offset(c.longSize, f) < Modulus(c) && Offset(c.longSize, g) < Modulus(c)
  {
    SlotsDisjoint(c.longSize, f, g);
    SlotInsideFrame(c.longSize, f);
    SlotInsideFrame(c.longSize, g);
    assert TfSize(c.longSize) <= 312;
  }

  /** Different fields of one frame are at different addresses, even when
    * the frame wraps around the top of the address space. */
  lemma SlotAddrInjective(c: Config, base: Word, f: Field, g: Field)
    requires ValidConfig(c)
    requires f != g
    ensures SlotAddr(c, base, f) != SlotAddr(c, base, g)
  {
    OffsetsBelowModulus(c, f, g);
    var m := Modulus(c);
    ModularOffsetsDistinct(m, base % m, Offset(c.longSize, f), Offset(c.longSize, g));
  }

  /** `a` is the address of some slot of the frame at `base`. */
  ghost predicate InFrame(c: Config, base: Word, a: int) {
    exists f: Field :: a == SlotAddr(c, base, f)
  }

  /** The 32 general-purpose registers, by number. */
  type RegFile = r: seq<Word> | |r| == 32 witness seq(32, _ => 0)

  /** `struct trapframe`: one word per member. */
  datatype TrapFrame = TrapFrame(
    gpr: RegFile, lo: Word, hi: Word,
    status: Word, cause: Word, badVAddr: Word, epc: Word, entryHi: Word)
  {
    /** The member `f` names. */
    function Get(f: Field): Word {
      match f
      case Gpr(r) => gpr[r]
      case Lo => lo
      case Hi => hi
      case Status => status
      case Cause => cause
      case BadVAddr => badVAddr
      case Epc => epc
      case EntryHi => entryHi
    }
  }

  /** `LOAD rt, TF_X(base)`. */
  function LoadSlot(c: Config, m: map<int, Word>, base: Word, f: Field): Word {
    Load(m, SlotAddr(c, base, f))
  }

  /** `STORE rt, TF_X(base)` with `v` the value of `rt`. */
  function Store(c: Config, m: map<int, Word>, base: Word, f: Field, v: Word): map<int, Word> {
    m[SlotAddr(c, base, f) := v]
  }

  /** Memory after `STORE`s into the frame at `base` of the members `fs` of
    * `tf`, in the order listed. */
  function StoreFields(c: Config, m: map<int, Word>, base: Word, fs: seq<Field>, tf: TrapFrame): map<int, Word>
    decreases |fs|
  {
    if fs == [] then m
    else StoreFields(c, Store(c, m, base, fs[0], tf.Get(fs[0])), base, fs[1..], tf)
  }

  /** After the stores, a slot that was stored to holds the member of `tf`
    * it names; every other slot holds what it held before. */
  lemma {:induction false} StoreFieldsSlot(c: Config, m: map<int, Word>, base: Word, fs: seq<Field>, tf: TrapFrame, f: Field)
    requires ValidConfig(c)
    ensures LoadSlot(c, StoreFields(c, m, base, fs, tf), base, f)
         == if f in fs then tf.Get(f) else LoadSlot(c, m, base, f)
    decreases |fs|
  {
    if fs != [] {
      var m1 := Store(c, m, base, fs[0], tf.Get(fs[0]));
      StoreFieldsSlot(c, m1, base, fs[1..], tf, f);
      assert f in fs <==> f == fs[0] || f in fs[1..];
      if fs[0] != f {
        SlotAddrInjective(c, base, fs[0], f);
      }
    }
  }

  /** Stores into a frame change no word outside it. */
  lemma {:induction false} StoreFieldsOutside(c: Config, m: map<int, Word>, base: Word, fs: seq<Field>, tf: TrapFrame, a: int)
    requires !InFrame(c, base, a)
    ensures Load(StoreFields(c, m, base, fs, tf), a) == Load(m, a)
    decreases |fs|
  {
    if fs != [] {
      var m1 := Store(c, m, base, fs[0], tf.Get(fs[0]));
      StoreFieldsOutside(c, m1, base, fs[1..], tf, a);
      assert a != SlotAddr(c, base, fs[0]);
    }
  }

  /** Only the members stored matter: two frames that agree on them leave
    * the same memory. */
  lemma {:induction false} StoreFieldsAgree(c: Config, m: map<int, Word>, base: Word, fs: seq<Field>, tf: TrapFrame, tf': TrapFrame)
    requires forall f :: f in fs ==> tf.Get(f) == tf'.Get(f)
    ensures StoreFields(c, m, base, fs, tf) == StoreFields(c, m, base, fs, tf')
    decreases |fs|
  {
    if fs != [] {
      assert fs[0] in fs;
      StoreFieldsAgree(c, Store(c, m, base, fs[0], tf.Get(fs[0])), base, fs[1..], tf, tf');
    }
  }

  /** Two runs of stores into one frame are one run of both lists. */
  lemma {:induction false} StoreFieldsAppend(c: Config, m: map<int, Word>, base: Word, fs: seq<Field>, gs: seq<Field>, tf: TrapFrame)
    ensures StoreFields(c, StoreFields(c, m, base, fs, tf), base, gs, tf) == StoreFields(c, m, base, fs + gs, tf)
    decreases |fs|
  {
    if fs == [] {
      assert fs + gs == gs;
    } else {
      assert (fs + gs)[0] == fs[0] && (fs + gs)[1..] == fs[1..] + gs;
      StoreFieldsAppend(c, Store(c, m, base, fs[0], tf.Get(fs[0])), base, fs[1..], gs, tf);
    }
  }

  /** One more store of the member a slot names extends a run of stores by
    * that slot. */
  lemma StoreFieldsSnoc(c: Config, m: map<int, Word>, base: Word, fs: seq<Field>, f: Field, tf: TrapFrame)
    ensures Store(c, StoreFields(c, m, base, fs, tf), base, f, tf.Get(f)) == StoreFields(c, m, base, fs + [f], tf)
  {
    StoreFieldsAppend(c, m, base, fs, [f], tf);
    assert [f][1..] == [];
  }

  /** Stores of `gs` from `tf'` continue a run of stores of `fs` from `tf`
    * when the two agree on the members of `gs`. */
  lemma StoreFieldsContinue(c: Config, m: map<int, Word>, base: Word, fs: seq<Field>, gs: seq<Field>,
                            tf: TrapFrame, tf': TrapFrame)
    requires forall f :: f in gs ==> tf'.Get(f) == tf.Get(f)
    ensures StoreFields(c, StoreFields(c, m, base, fs, tf), base, gs, tf')
         == StoreFields(c, m, base, fs + gs, tf)
  {
    StoreFieldsAgree(c, StoreFields(c, m, base, fs, tf), base, gs, tf', tf);
    StoreFieldsAppend(c, m, base, fs, gs, tf);
  }

  lemma MulBounds(l: int, n: int)
    requires l > 0
    ensures n >= 1 ==> l * n >= l
    ensures n <= -1 ==> l * n <= -l
  {
    if n >= 1 {
      assert l * n == l * (n - 1) + l;
    } else if n <= -1 {
      assert l * n == l * (n + 1) - l;
    }
  }

  lemma MultipleMod(l: int, k: int)
    requires l > 0
    ensures (l * k) % l == 0
  {
    var q, r := (l * k) / l, (l * k) % l;
    assert l * (k - q) == r by {
      assert l * k == l * q + r;
    }
    MulBounds(l, k - q);
  }

  /** Reducing a multiple of `l` modulo a multiple of `l` leaves a
    * multiple of `l`. */
  lemma ModOfMultiple(x: int, m: int, l: int)
    requires 0 < l && 0 < m && x % l == 0 && m % l == 0
    ensures (x % m) % l == 0
  {
    var q, a, b := x / m, x / l, m / l;
    assert x == l * a && m == l * b;
    assert x % m == l * (a - b * q) by {
      assert x % m == x - m * q;
      assert m * q == l * (b * q);
    }
    MultipleMod(l, a - b * q);
  }

  /** Every slot of a frame whose base is `LONGSIZE`-aligned is
    * `LONGSIZE`-aligned, also when the frame wraps around: the `LOAD`s and
    * `STORE`s of the macros are aligned word accesses. */
  lemma SlotAddrAligned(c: Config, base: Word, f: Field)
    requires ValidConfig(c) && base % c.longSize == 0
    ensures SlotAddr(c, base, f) % c.longSize == 0
  {
    var l, m := c.longSize, Modulus(c);
    assert m % l == 0;
    ModOfMultiple(base, m, l);
    var x := base % m + Offset(l, f);
    assert x % l == 0 by {
      var a, b := (base % m) / l, Index(f);
      assert base % m == l * a;
      assert Offset(l, f) == l * b;
      assert x == l * (a + b);
      MultipleMod(l, a + b);
    }
    ModOfMultiple(x, m, l);
  }
}
