/**
 * The trap-frame layout of the MIPS kernel: the word-sized members of
 * `struct trapframe` and the hand-written `TF_*` byte offsets that the
 * assembly macros use to address them.
 *
 * `LONGSIZE` (4 on MIPS32, 8 on MIPS64) is a parameter `longSize`.
 */
module Layout {

  /** `TF_MEMBERS`: the number of word-sized members of a trap frame. */
  const TF_MEMBERS: nat := 39

  /** A general-purpose register number. */
  type RegNum = r: nat | r < 32

  // Architectural numbers of the general-purpose registers, by their o32 names.
  const Zero: RegNum := 0
  const At: RegNum := 1
  const V0: RegNum := 2
  const V1: RegNum := 3
  const A0: RegNum := 4
  const A1: RegNum := 5
  const A2: RegNum := 6
  const A3: RegNum := 7
  const T0: RegNum := 8
  const T1: RegNum := 9
  const T2: RegNum := 10
  const T3: RegNum := 11
  const T4: RegNum := 12
  const T5: RegNum := 13
  const T6: RegNum := 14
  const T7: RegNum := 15
  const S0: RegNum := 16
  const S1: RegNum := 17
  const S2: RegNum := 18
  const S3: RegNum := 19
  const S4: RegNum := 20
  const S5: RegNum := 21
  const S6: RegNum := 22
  const S7: RegNum := 23
  const T8: RegNum := 24
  const T9: RegNum := 25
  const K0: RegNum := 26
  const K1: RegNum := 27
  const Gp: RegNum := 28
  const Sp: RegNum := 29
  const S8: RegNum := 30
  const Ra: RegNum := 31

  /** One member of a trap frame. */
  datatype Field =
    | Gpr(r: RegNum)
    | Lo
    | Hi
    | Status
    | Cause
    | BadVAddr
    | Epc
    | EntryHi

  predicate ValidLongSize(longSize: nat) {
    longSize == 4 || longSize == 8
  }

  /** The slot number `k` of a field, as in `TF_X = k * LONGSIZE`. */
  function Index(f: Field): (k: nat)
    ensures k < TF_MEMBERS
    ensures f.Gpr? <==> k < 32
    ensures f.Gpr? ==> k == f.r
  {
    match f
    case Gpr(r) => r
    case Lo => 0x20
    case Hi => 0x21
    case Status => 0x22
    case Cause => 0x23
    case BadVAddr => 0x24
    case Epc => 0x25
    case EntryHi => 0x26
  }

  /** The byte offset `TF_X` of a field. */
  function Offset(longSize: nat, f: Field): nat {
    Index(f) * longSize
  }

  /** `TF_SIZE`: the number of bytes a trap frame occupies. */
  function TfSize(longSize: nat): nat {
    TF_MEMBERS * longSize
  }

  /** Distinct fields have distinct slot numbers. */
  lemma IndexInjective(f: Field, g: Field)
    requires Index(f) == Index(g)
    ensures f == g
  {
  }

  /** Every slot is word aligned and lies wholly inside the frame. */
  lemma SlotInsideFrame(longSize: nat, f: Field)
    requires ValidLongSize(longSize)
    ensures Offset(longSize, f) % longSize == 0
    ensures Offset(longSize, f) + longSize <= TfSize(longSize)
  {
  }

  /** Two different fields never share a byte. */
  lemma SlotsDisjoint(longSize: nat, f: Field, g: Field)
    requires ValidLongSize(longSize)
    requires f != g
    ensures Offset(longSize, f) + longSize <= Offset(longSize, g)
         || Offset(longSize, g) + longSize <= Offset(longSize, f)
  {
    var i, j := Index(f), Index(g);
    if i == j {
      IndexInjective(f, g);
    } else if i < j {
      assert (i + 1) * longSize <= j * longSize;
    } else {
      assert (j + 1) * longSize <= i * longSize;
    }
  }

  /** The members of `struct trapframe` in declaration order:
    * `gpr[0..31]`, `lo`, `hi`, `cp0_status`, `cp0_cause`,
    * `cp0_badvaddr`, `cp0_epc`, `cp0_entryhi`. */
  function StructOrder(): (fields: seq<Field>)
    ensures |fields| == TF_MEMBERS
  {
    GprsFrom(0) + [Lo, Hi, Status, Cause, BadVAddr, Epc, EntryHi]
  }

  /** The register slots `gpr[n..31]`. */
  function GprsFrom(n: nat): (fields: seq<Field>)
    requires n <= 32
    ensures |fields| == 32 - n
    ensures forall k :: 0 <= k < |fields| ==> fields[k] == Gpr(n + k)
    decreases 32 - n
  {
    if n == 32 then [] else [Gpr(n)] + GprsFrom(n + 1)
  }

  /** The byte offset a C compiler gives member `f` of a structure whose
    * members are `fields`, each `size` bytes wide and `size`-aligned
    * (so no padding is inserted): the total size of the members before it.
    * `None` when `f` is not a member. */
  function CLayoutOffset(fields: seq<Field>, f: Field, size: nat): Option<nat> {
    if fields == [] then None
    else if fields[0] == f then Some(0)
    else
      match CLayoutOffset(fields[1..], f, size)
      case None => None
      case Some(o) => Some(o + size)
  }

  datatype Option<T> = None | Some(value: T)

  /** A member found at position `k`, with no earlier occurrence, sits at
    * byte `k * size`. */
  lemma {:induction false} CLayoutAtPosition(fields: seq<Field>, k: nat, size: nat)
    requires k < |fields|
    requires forall j :: 0 <= j < k ==> fields[j] != fields[k]
    ensures CLayoutOffset(fields, fields[k], size) == Some(k * size)
  {
    if k > 0 {
      var rest := fields[1..];
      assert rest[k - 1] == fields[k];
      CLayoutAtPosition(rest, k - 1, size);
      assert (k - 1) * size + size == k * size;
    }
  }

  /** The struct's member at position `k` is the field whose slot number is
    * `k`: the `TF_*` numbering follows the declaration order. */
  lemma StructOrderFollowsIndex(k: nat)
    requires k < TF_MEMBERS
    ensures Index(StructOrder()[k]) == k
  {
    var s := StructOrder();
    if k < 32 {
      assert s[k] == GprsFrom(0)[k];
    }
  }

  /** The C layout of `struct trapframe` with every member `size` bytes
    * wide: member `f` sits at `Index(f) * size`. */
  lemma StructLayout(size: nat, f: Field)
    ensures CLayoutOffset(StructOrder(), f, size) == Some(Index(f) * size)
  {
    var s := StructOrder();
    var k := Index(f);
    StructOrderFollowsIndex(k);
    IndexInjective(s[k], f);
    forall j | 0 <= j < k
      ensures s[j] != s[k]
    {
      StructOrderFollowsIndex(j);
    }
    CLayoutAtPosition(s, k, size);
  }

  /** The binary contract: for every field, the offset the C compiler
    * gives the member of `struct trapframe` equals the hand-written
    * `TF_*` constant, and `sizeof(struct trapframe)` equals `TF_SIZE`,
    * when `unsigned long` is `LONGSIZE` bytes wide. */
  lemma StructLayoutMatchesOffsets(longSize: nat, f: Field)
    requires ValidLongSize(longSize)
    ensures CLayoutOffset(StructOrder(), f, longSize) == Some(Offset(longSize, f))
    ensures |StructOrder()| * longSize == TfSize(longSize)
  {
    StructLayout(longSize, f);
  }

  /** The `TF_*` constants agree with the C layout for every field exactly
    * when `unsigned long` is `LONGSIZE` bytes wide. `LONGSIZE` follows the
    * instruction set, not the C ABI: a 32-bit-long ABI on a MIPS64 build
    * breaks the agreement. */
  lemma StructLayoutNeedsLongSizeMembers(longSize: nat, size: nat)
    requires ValidLongSize(longSize)
    ensures (forall f :: CLayoutOffset(StructOrder(), f, size) == Some(Offset(longSize, f)))
        <==> size == longSize
  {
    if size == longSize {
      forall f
        ensures CLayoutOffset(StructOrder(), f, size) == Some(Offset(longSize, f))
      {
        StructLayoutMatchesOffsets(longSize, f);
      }
    } else {
      StructLayout(size, Gpr(At));
      assert Index(Gpr(At)) == 1;
      assert CLayoutOffset(StructOrder(), Gpr(At), size) != Some(Offset(longSize, Gpr(At)));
    }
  }
}
