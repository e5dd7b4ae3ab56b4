/** Bitmap blocks: finding, setting and clearing bits, and the inode numbers they hand out. */
module Bitmaps {

  const BLK: nat := 1024
  const BPB: nat := 8192            // bits per block

  type Block = seq<nat>

  ghost predicate IsBlock(b: Block) {
    |b| == BLK && forall i | 0 <= i < BLK :: b[i] < 256
  }

  function P(j: nat): nat {
    if j == 0 then 1 else 2 * P(j - 1)
  }

  /** Bit j of x. */
  predicate Bit(x: nat, j: nat) {
    if j == 0 then x % 2 == 1 else Bit(x / 2, j - 1)
  }

  /** A `char` assigned to a `uint`: the sign is extended to 32 bits. */
  function Extended(x: nat): nat {
    if x >= 128 then x + 0xFFFF_FF00 else x
  }

  lemma {:induction false} HighBits(x: nat, c: nat, n: nat, j: nat)
    requires j < n
    ensures Bit(x + P(n) * c, j) == Bit(x, j)
  {
    var t := P(n - 1) * c;
    assert P(n) * c == 2 * t by { Doubled(P(n - 1), c); }
    EvenMore(x, t);
    if j > 0 { HighBits(x / 2, c, n - 1, j - 1); }
  }

  lemma Doubled(a: nat, c: nat)
    ensures 2 * a * c == 2 * (a * c)
  {
  }

  lemma EvenMore(x: nat, t: nat)
    ensures (x + 2 * t) % 2 == x % 2 && (x + 2 * t) / 2 == x / 2 + t
  {
  }

  lemma ExtendedBit(x: nat, j: nat)
    requires j < 8
    ensures Bit(Extended(x), j) == Bit(x, j)
  {
    assert P(8) == 256;
    HighBits(x, 0xFF_FFFF, 8, j);
  }

  ghost predicate Ones(x: nat, n: nat) {
    n == 0 || (x % 2 == 1 && Ones(x / 2, n - 1))
  }

  lemma {:induction false} OnesValue(x: nat, n: nat)
    requires x < P(n)
    ensures Ones(x, n) <==> x == P(n) - 1
  {
    if n > 0 { OnesValue(x / 2, n - 1); }
  }

  lemma {:induction false} OnesBit(x: nat, n: nat, j: nat)
    requires Ones(x, n) && j < n
    ensures Bit(x, j)
  {
    if j > 0 { OnesBit(x / 2, n - 1, j - 1); }
  }

  /** The least clear bit below n of a number that is not all ones. */
  lemma {:induction false} ClearBitBelow(x: nat, n: nat) returns (j: nat)
    requires !Ones(x, n)
    ensures j < n && !Bit(x, j)
  {
    if x % 2 == 0 {
      j := 0;
    } else {
      var k := ClearBitBelow(x / 2, n - 1);
      j := k + 1;
    }
  }

  /** Only the byte whose sign-extended complement is zero has all its bits set. */
  lemma FullByte(x: nat)
    requires x < 256
    ensures Extended(x) == 0xFFFF_FFFF <==> forall j: nat | j < 8 :: Bit(x, j)
  {
    assert P(8) == 256;
    OnesValue(x, 8);
    if Ones(x, 8) {
      forall j: nat | j < 8 ensures Bit(x, j) { OnesBit(x, 8, j); }
    } else {
      var j := ClearBitBelow(x, 8);
    }
  }

  /** Bit n of a bitmap. */
  predicate BitAt(b: Block, n: nat)
    requires n / 8 < |b|
  {
    Bit(b[n / 8], n % 8)
  }

  const WEIGHT: seq<nat> := [1, 2, 4, 8, 16, 32, 64, 128]

  /** Bit n of the bitmap counts 1 << n % 8 in byte n / 8. */
  ghost predicate Set(b: Block, n: nat)
    requires n / 8 < |b|
  {
    b[n / 8] / WEIGHT[n % 8] % 2 == 1
  }

  lemma {:induction false} BitIs(x: nat, j: nat)
    requires j < 8
    ensures P(j) == WEIGHT[j] && (Bit(x, j) <==> x / WEIGHT[j] % 2 == 1)
  {
    if j > 0 {
      BitIs(x / 2, j - 1);
      Halved(x, WEIGHT[j - 1]);
    }
  }

  lemma Halved(x: nat, w: nat)
    requires w in WEIGHT && w < 128
    ensures x / 2 / w == x / (2 * w)
  {
    assert w == 1 || w == 2 || w == 4 || w == 8 || w == 16 || w == 32 || w == 64;
  }

  lemma SetIs(b: Block, n: nat)
    requires n / 8 < |b|
    ensures BitAt(b, n) <==> Set(b, n)
  {
    BitIs(b[n / 8], n % 8);
  }

  /** `find_bit`: the least clear bit, or -1 if all are set. */
  method FindBit(b: Block) returns (r: int)
    requires IsBlock(b)
    ensures -1 <= r < BPB
    ensures r >= 0 ==> !BitAt(b, r)
    ensures forall n: nat | n < (if r < 0 then BPB else r) :: BitAt(b, n)
    ensures r >= 0 ==> !Set(b, r)
    ensures forall n: nat | n < (if r < 0 then BPB else r) :: Set(b, n)
  {
    hide Set;
    forall n: nat | n < BPB ensures BitAt(b, n) <==> Set(b, n) { SetIs(b, n); }
    var i := 0;
    while i < BLK
      invariant i <= BLK
      invariant forall n: nat | n < 8 * i :: BitAt(b, n)
    {
      var byte := Extended(b[i]);
      assert P(8) == 256;
      OnesValue(b[i], 8);
      if byte == 0xFFFF_FFFF {
        forall n: nat | n < 8 * (i + 1) ensures BitAt(b, n) {
          if n >= 8 * i { OnesBit(b[i], 8, n % 8); }
        }
      } else {
        var j := 0;
        while j < 8
          invariant j <= 8
          invariant forall n: nat | n < 8 * i + j :: BitAt(b, n)
        {
          ExtendedBit(b[i], j);
          assert (8 * i + j) / 8 == i && (8 * i + j) % 8 == j;
          if !Bit(byte, j) {
            return i * 8 + j;
          }
          j := j + 1;
        }
      }
      i := i + 1;
    }
    r := -1;
  }

  // ---------------------------------------------------------------- setting and clearing

  /** `b[n/8] |= 1 << (n%8)` on a clear bit. */
  function SetBit(b: Block, n: nat): Block
    requires n / 8 < |b|
  {
    b[n / 8 := b[n / 8] + P(n % 8)]
  }

  /** `b[n/8] &= ~(1 << (n%8))` on a set bit. */
  function ClearBit(b: Block, n: nat): Block
    requires n / 8 < |b| && b[n / 8] >= P(n % 8)
  {
    b[n / 8 := b[n / 8] - P(n % 8)]
  }

  lemma HalfBelow(x: nat, n: nat)
    requires n > 0
    ensures x < P(n) <==> x / 2 < P(n - 1)
  {
  }

  lemma OneMore(x: nat)
    requires x % 2 == 0
    ensures (x + 1) / 2 == x / 2 && (x + 1) % 2 == 1
  {
  }

  lemma {:induction false} ByteSet(x: nat, j: nat, k: nat, n: nat)
    requires j < n && x < P(n) && !Bit(x, j)
    ensures x + P(j) < P(n)
    ensures Bit(x + P(j), k) == (k == j || Bit(x, k))
  {
    HalfBelow(x, n);
    if j == 0 {
      OneMore(x);
      if n > 1 { HalfBelow(x + 1, n); }
    } else {
      ByteSet(x / 2, j - 1, if k > 0 then k - 1 else 0, n - 1);
      EvenMore(x, P(j - 1));
      HalfBelow(x + P(j), n);
    }
  }

  lemma {:induction false} ByteClear(x: nat, j: nat, k: nat)
    requires Bit(x, j)
    ensures x >= P(j)
    ensures Bit(x - P(j), k) == (k != j && Bit(x, k))
  {
    if j == 0 {
      assert (x - 1) / 2 == x / 2;
    } else {
      ByteClear(x / 2, j - 1, if k > 0 then k - 1 else 0);
      assert (x - P(j)) / 2 == x / 2 - P(j - 1);
    }
  }

  /** Setting a clear bit changes that bit alone. */
  lemma SetBitAt(b: Block, n: nat)
    requires IsBlock(b) && n < BPB && !BitAt(b, n)
    ensures IsBlock(SetBit(b, n))
    ensures forall m: nat | m < BPB :: BitAt(SetBit(b, n), m) == (m == n || BitAt(b, m))
  {
    assert P(8) == 256;
    ByteSet(b[n / 8], n % 8, 0, 8);
    forall m: nat | m < BPB ensures BitAt(SetBit(b, n), m) == (m == n || BitAt(b, m)) {
      if m / 8 == n / 8 { ByteSet(b[n / 8], n % 8, m % 8, 8); }
    }
  }

  lemma ClearBitAt(b: Block, n: nat)
    requires IsBlock(b) && n < BPB && BitAt(b, n)
    ensures b[n / 8] >= P(n % 8)
    ensures IsBlock(ClearBit(b, n))
    ensures forall m: nat | m < BPB :: BitAt(ClearBit(b, n), m) == (m != n && BitAt(b, m))
  {
    ByteClear(b[n / 8], n % 8, 0);
    forall m: nat | m < BPB ensures BitAt(ClearBit(b, n), m) == (m != n && BitAt(b, m)) {
      if m / 8 == n / 8 { ByteClear(b[n / 8], n % 8, m % 8); }
    }
  }

  /** The numbers marked in a bitmap. */
  ghost function Marked(b: Block): set<nat>
    requires IsBlock(b)
  {
    set n: nat | n < BPB && BitAt(b, n)
  }

  /** Freeing a number just allocated restores the block, byte for byte. */
  lemma ClearAfterSet(b: Block, n: nat)
    requires IsBlock(b) && n < BPB && !BitAt(b, n)
    ensures IsBlock(SetBit(b, n)) && BitAt(SetBit(b, n), n) && SetBit(b, n)[n / 8] >= P(n % 8)
    ensures ClearBit(SetBit(b, n), n) == b
  {
    SetBitAt(b, n);
  }

  /** The inode bitmap of a mounted file system with `max` inodes, in one block. */
  class InodeMap {
    var bits: Block
    const max: nat

    ghost predicate Valid()
      reads this
    {
      IsBlock(bits) && max <= BPB
    }

    constructor (bits: Block, max: nat)
      requires IsBlock(bits) && max <= BPB
      ensures Valid() && this.bits == bits && this.max == max
    {
      this.bits := bits;
      this.max := max;
    }

    /** `ialloc`: the least unmarked number.  With no bit free the routine reads the same,
        still busy, block again and never returns (`ok` false). */
    method IAlloc() returns (ok: bool, ino: nat)
      requires Valid()
      modifies this`bits
      ensures Valid() && ino < BPB
      ensures ok <==> exists n: nat :: n < BPB && n !in Marked(old(bits))
      ensures !ok ==> bits == old(bits)
      ensures ok ==> ino !in Marked(old(bits)) && forall n: nat | n < ino :: n in Marked(old(bits))
      ensures ok ==> !Set(old(bits), ino) && forall n: nat | n < ino :: Set(old(bits), n)
      ensures ok ==> bits == old(bits)[ino / 8 := old(bits)[ino / 8] + WEIGHT[ino % 8]]
      ensures ok ==> Marked(bits) == Marked(old(bits)) + {ino} && !BitAt(old(bits), ino) && bits == SetBit(old(bits), ino)
    {
      var r := FindBit(bits);
      if r < 0 {
        return false, 0;
      }
      ok, ino := true, r;
      assert ino !in Marked(bits);
      SetBitAt(bits, ino);
      BitIs(bits[ino / 8], ino % 8);
      bits := bits[ino / 8 := bits[ino / 8] + P(ino % 8)];
    }

    /** `ifree`: panics (`ok` false) on a number out of range or not marked. */
    method IFree(ino: nat) returns (ok: bool)
      requires Valid()
      modifies this`bits
      ensures Valid()
      ensures ok <==> 0 < ino < max && ino in Marked(old(bits))
      ensures !ok ==> bits == old(bits)
      ensures ok <==> 0 < ino < max && Set(old(bits), ino)
      ensures ok ==> old(bits)[ino / 8] >= WEIGHT[ino % 8] && bits == old(bits)[ino / 8 := old(bits)[ino / 8] - WEIGHT[ino % 8]]
      ensures ok ==> Marked(bits) == Marked(old(bits)) - {ino}
      ensures ok ==> old(bits)[ino / 8] >= P(ino % 8) && bits == ClearBit(old(bits), ino)
    {
      if ino < max { SetIs(bits, ino); }
      if ino <= 0 || ino >= max || !Bit(bits[ino / 8], ino % 8) {
        return false;
      }
      ClearBitAt(bits, ino);
      BitIs(bits[ino / 8], ino % 8);
      bits := bits[ino / 8 := bits[ino / 8] - P(ino % 8)];
      ok := true;
    }
  }

  /** The number that `ialloc` takes. */
  ghost predicate LeastFree(marks: set<nat>, n: nat) {
    n < BPB && n !in marks && forall i: nat | i < n :: i in marks
  }

  /** Allocating a number and freeing it again: the bitmap is as it was, unless the number is
      0 or not below `max`, for which the free panics. */
  method AllocThenFree(m: InodeMap) returns (ok: bool)
    requires m.Valid()
    modifies m
    ensures ok <==> exists n: nat :: LeastFree(Marked(old(m.bits)), n) && 0 < n < m.max
    ensures ok || (forall n: nat | n < BPB :: n in Marked(old(m.bits))) ==> m.bits == old(m.bits)
    ensures forall n: nat | LeastFree(Marked(old(m.bits)), n) && !(0 < n < m.max) ::
              !BitAt(old(m.bits), n) && m.bits == SetBit(old(m.bits), n)
  {
    hide BitAt;
    var ino;
    ok, ino := m.IAlloc();
    if ok {
      assert LeastFree(Marked(old(m.bits)), ino);
      OnlyLeast(Marked(old(m.bits)), ino);
      ClearAfterSet(old(m.bits), ino);
      ok := m.IFree(ino);
    }
  }

  lemma OnlyLeast(marks: set<nat>, n: nat)
    requires LeastFree(marks, n)
    ensures forall k: nat | LeastFree(marks, k) :: k == n
  {
  }

  // ---------------------------------------------------------------- runs

  datatype MapOp = Alloc | Free(ino: nat)

  /** The operation returns: `ialloc` finds a number, `ifree` does not panic. */
  ghost predicate Works(marks: set<nat>, max: nat, op: MapOp) {
    match op
    case Alloc => exists n: nat :: LeastFree(marks, n)
    case Free(ino) => 0 < ino < max && ino in marks
  }

  /** What it does to the set of numbers in use. */
  ghost predicate Does(marks: set<nat>, op: MapOp, ino: nat, marks': set<nat>) {
    match op
    case Alloc => LeastFree(marks, ino) && marks' == marks + {ino}
    case Free(n) => ino == n && marks' == marks - {n}
  }

  ghost predicate MapRan(max: nat, ops: seq<MapOp>, given: seq<nat>, marks: seq<set<nat>>) {
    && |given| <= |ops| && |marks| == |given| + 1
    && forall i | 0 <= i < |given| :: Works(marks[i], max, ops[i]) && Does(marks[i], ops[i], given[i], marks[i + 1])
  }

  /** A number is handed out a second time only after it was freed. */
  lemma {:induction false} StillMarked(max: nat, ops: seq<MapOp>, given: seq<nat>, marks: seq<set<nat>>, i: nat, j: nat)
    requires MapRan(max, ops, given, marks) && i < j <= |given| && ops[i] == Alloc
    requires forall k | i < k < j :: ops[k] != Free(given[i])
    ensures given[i] in marks[j]
  {
    hide Works, LeastFree;
    assert Does(marks[j - 1], ops[j - 1], given[j - 1], marks[j - 1 + 1]);
    if i + 1 < j { StillMarked(max, ops, given, marks, i, j - 1); }
  }

  /** Any sequence of allocations and frees acts on the set of numbers in use, which the
      bitmap shows; it ends early exactly at an allocation with none left or a free that
      panics; and no number is given to two owners at a time. */
  method RunMap(m: InodeMap, ops: seq<MapOp>) returns (given: seq<nat>, ghost marks: seq<set<nat>>)
    requires m.Valid()
    modifies m
    ensures m.Valid() && MapRan(m.max, ops, given, marks)
    ensures marks[0] == Marked(old(m.bits)) && marks[|given|] == Marked(m.bits)
    ensures |given| < |ops| ==> !Works(marks[|given|], m.max, ops[|given|])
    ensures forall i: nat, j: nat | i < j < |given| && ops[i] == ops[j] == Alloc && given[i] == given[j] ::
              exists k: nat :: i < k < j && ops[k] == Free(given[i])
  {
    hide BitAt, LeastFree, IsBlock, Marked;
    given, marks := [], [Marked(m.bits)];
    while |given| < |ops|
      invariant |given| <= |ops| && m.Valid() && MapRan(m.max, ops, given, marks)
      invariant marks[0] == Marked(old(m.bits)) && marks[|given|] == Marked(m.bits)
      decreases |ops| - |given|
    {
      var ok, ino := MapStep(m, ops[|given|]);
      if !ok {
        break;
      }
      given, marks := given + [ino], marks + [Marked(m.bits)];
    }
    forall i: nat, j: nat | i < j < |given| && ops[i] == ops[j] == Alloc && given[i] == given[j]
      ensures exists k: nat :: i < k < j && ops[k] == Free(given[i])
    {
      assert Does(marks[j], ops[j], given[j], marks[j + 1]);
      NotLeast(marks[j], given[j]);
      if forall k | i < k < j :: ops[k] != Free(given[i]) {
        StillMarked(m.max, ops, given, marks, i, j);
      }
    }
  }

  lemma NotLeast(marks: set<nat>, n: nat)
    ensures n in marks ==> !LeastFree(marks, n)
  {
  }

  method MapStep(m: InodeMap, op: MapOp) returns (ok: bool, ino: nat)
    requires m.Valid()
    modifies m
    ensures m.Valid() && (ok <==> Works(Marked(old(m.bits)), m.max, op))
    ensures !ok ==> m.bits == old(m.bits)
    ensures ok ==> Does(Marked(old(m.bits)), op, ino, Marked(m.bits))
  {
    hide BitAt;
    match op {
      case Alloc =>
        ok, ino := m.IAlloc();
        assert ok ==> LeastFree(Marked(old(m.bits)), ino);
      case Free(n) =>
        ok := m.IFree(n);
        ino := n;
    }
  }
}
