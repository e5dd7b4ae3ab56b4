/** Block maps of files: nine zone numbers in the inode, of which the eighth names a block
    of 512 zone numbers and the ninth a block of 512 such blocks. */
module BlockMap {
  import opened Bitmaps

  const NIND: nat := 512            // zone numbers per block
  const MAXBLOCKS: nat := 7 + NIND + NIND * NIND

  datatype Inode = Inode(size: nat, zone: seq<nat>, dir: bool)

  /** The part of a mounted file system that block maps live in: the blocks of the disk, the
      inodes in use, the first data zone and the block that holds the zone bitmap. */
  datatype Fs = Fs(disk: seq<Block>, inode: map<nat, Inode>, zone0: nat, zmap: nat)

  /** A place where a zone number is kept. */
  datatype Path =
    | Root(ino: nat, i: nat)              // i_zone[i]
    | Ind(ino: nat, j: nat)               // entry j of block i_zone[7]
    | Mid(ino: nat, j: nat)               // entry j of block i_zone[8]
    | Dbl(ino: nat, j: nat, k: nat)       // entry k of that block

  // ---------------------------------------------------------------- zone numbers in blocks

  /** Two bytes read as a signed 16-bit number. */
  function Short(lo: nat, hi: nat): int {
    if lo + 256 * hi >= 0x8000 then lo + 256 * hi - 0x1_0000 else lo + 256 * hi
  }

  function Entry(b: Block, j: nat): int {
    if 2 * j + 1 < |b| then Short(b[2 * j], b[2 * j + 1]) else 0
  }

  function PutEntry(b: Block, j: nat, z: nat): Block
    requires 2 * j + 1 < |b|
  {
    b[2 * j := z % 256][2 * j + 1 := z / 256]
  }

  lemma PutEntryAt(b: Block, j: nat, z: nat, k: nat)
    requires IsBlock(b) && j < NIND && z < 0x8000
    ensures IsBlock(PutEntry(b, j, z))
    ensures Entry(PutEntry(b, j, z), k) == if k == j then z else Entry(b, k)
  {
  }

  // ---------------------------------------------------------------- the tree

  function Parent(p: Path): Path
    requires !p.Root?
  {
    match p
    case Ind(ino, _) => Root(ino, 7)
    case Mid(ino, _) => Root(ino, 8)
    case Dbl(ino, j, _) => Mid(ino, j)
  }

  function Slot(p: Path): nat {
    match p
    case Root(_, i) => i
    case Ind(_, j) => j
    case Mid(_, j) => j
    case Dbl(_, _, k) => k
  }

  predicate IsIndex(p: Path) {
    p.Mid? || (p.Root? && (p.i == 7 || p.i == 8))
  }

  function Depth(p: Path): nat {
    match p
    case Root(_, _) => 0
    case Dbl(_, _, _) => 2
    case _ => 1
  }

  function BlockAt(fs: Fs, z: int): Block {
    if 0 <= z < |fs.disk| then fs.disk[z] else []
  }

  /** The zone number kept at p; 0 where there is none. */
  function ZoneAt(fs: Fs, p: Path): int
    decreases Depth(p)
  {
    if p.Root? then (if p.ino in fs.inode && p.i < |fs.inode[p.ino].zone| then fs.inode[p.ino].zone[p.i] else 0)
    else
      var z := ZoneAt(fs, Parent(p));
      if z == 0 || Slot(p) >= NIND then 0 else Entry(BlockAt(fs, z), Slot(p))
  }

  ghost predicate Shape(fs: Fs) {
    && (forall b | 0 <= b < |fs.disk| :: IsBlock(fs.disk[b]))
    && (forall ino | ino in fs.inode :: |fs.inode[ino].zone| == 9)
    && 2 <= fs.zmap < fs.zone0 && fs.zone0 + BPB <= 0x8000 && fs.zmap < |fs.disk|
  }

  ghost predicate InUse(fs: Fs, z: int)
    requires Shape(fs)
  {
    fs.zone0 <= z < fs.zone0 + BPB && z < |fs.disk| && BitAt(fs.disk[fs.zmap], z - fs.zone0)
  }

  /** Every zone that a block map reaches is marked in the bitmap, and reached once only. */
  ghost predicate Tree(fs: Fs) {
    && Shape(fs)
    && (forall p :: ZoneAt(fs, p) == 0 || InUse(fs, ZoneAt(fs, p)))
    && (forall p, q | ZoneAt(fs, p) != 0 && ZoneAt(fs, p) == ZoneAt(fs, q) :: p == q)
    && (forall n: nat | n < BPB && !BitAt(fs.disk[fs.zmap], n) :: fs.zone0 + n < |fs.disk|)
  }

  // ---------------------------------------------------------------- writing blocks

  /** A write to a block that no map uses as an index changes no map. */
  lemma {:induction false} WriteBlock(fs: Fs, b: nat, blk: Block, q: Path)
    requires b < |fs.disk| && forall p | IsIndex(p) :: ZoneAt(fs, p) != b
    ensures ZoneAt(fs.(disk := fs.disk[b := blk]), q) == ZoneAt(fs, q)
    decreases Depth(q)
  {
    if !q.Root? {
      WriteBlock(fs, b, blk, Parent(q));
      assert IsIndex(Parent(q));
    }
  }

  /** Entering zone z at p. */
  function Place(fs: Fs, p: Path, z: nat): Fs
    requires p.Root? ==> p.ino in fs.inode && p.i < |fs.inode[p.ino].zone|
    requires !p.Root? ==> 0 <= ZoneAt(fs, Parent(p)) < |fs.disk| && 2 * Slot(p) + 1 < |fs.disk[ZoneAt(fs, Parent(p))]|
  {
    if p.Root? then
      var ip := fs.inode[p.ino];
      fs.(inode := fs.inode[p.ino := ip.(zone := ip.zone[p.i := z])])
    else
      var b := ZoneAt(fs, Parent(p));
      fs.(disk := fs.disk[b := PutEntry(fs.disk[b], Slot(p), z)])
  }

  /** p is a place in the map of an existing file whose index blocks are there. */
  ghost predicate Open(fs: Fs, p: Path) {
    && p.ino in fs.inode && Slot(p) < (if p.Root? then 9 else NIND)
    && (!p.Root? ==> ZoneAt(fs, Parent(p)) != 0)
  }

  /** z is a zone that no map reaches yet; an index block has to be cleared. */
  ghost predicate Fresh(fs: Fs, p: Path, z: nat)
    requires Shape(fs)
  {
    && InUse(fs, z) && z != 0
    && (forall q :: ZoneAt(fs, q) != z)
    && (IsIndex(p) ==> forall k: nat :: Entry(fs.disk[z], k) == 0)
  }

  lemma CanPlace(fs: Fs, p: Path)
    requires Tree(fs) && Open(fs, p)
    ensures p.Root? ==> p.ino in fs.inode && p.i < |fs.inode[p.ino].zone|
    ensures !p.Root? ==> 0 <= ZoneAt(fs, Parent(p)) < |fs.disk| && 2 * Slot(p) + 1 < |fs.disk[ZoneAt(fs, Parent(p))]|
  {
  }

  /** Entering a fresh zone at a free place changes that place alone, in all maps. */
  lemma {:induction false} PlaceZone(fs: Fs, p: Path, z: nat, q: Path)
    requires Tree(fs) && Open(fs, p) && ZoneAt(fs, p) == 0 && Fresh(fs, p, z)
    ensures p.Root? ==> p.ino in fs.inode && p.i < |fs.inode[p.ino].zone|
    ensures !p.Root? ==> 0 <= ZoneAt(fs, Parent(p)) < |fs.disk| && 2 * Slot(p) + 1 < |fs.disk[ZoneAt(fs, Parent(p))]|
    ensures ZoneAt(Place(fs, p, z), q) == if q == p then z else ZoneAt(fs, q)
    decreases Depth(q)
  {
    CanPlace(fs, p);
    var fs' := Place(fs, p, z);
    if !q.Root? {
      PlaceZone(fs, p, z, Parent(q));
      if Parent(q) == p {
        assert BlockAt(fs', z) == fs.disk[z];
      } else if ZoneAt(fs, Parent(q)) != 0 && !p.Root? && ZoneAt(fs, Parent(q)) == ZoneAt(fs, Parent(p)) {
        PutEntryAt(fs.disk[ZoneAt(fs, Parent(p))], Slot(p), z, Slot(q));
      }
    }
  }

  // ---------------------------------------------------------------- allocating a zone

  function ZeroBlock(): (b: Block)
    ensures IsBlock(b) && forall i | 0 <= i < BLK :: b[i] == 0
  {
    seq(BLK, _ => 0)
  }

  /** `balloc` marks bit n of the bitmap; `bzero` clears the zone if it becomes an index. */
  function TakeZone(fs: Fs, n: nat, index: bool): Fs
    requires fs.zmap < |fs.disk| && n / 8 < |fs.disk[fs.zmap]| && fs.zone0 + n < |fs.disk|
  {
    var d := fs.disk[fs.zmap := SetBit(fs.disk[fs.zmap], n)];
    fs.(disk := if index then d[fs.zone0 + n := ZeroBlock()] else d)
  }

  ghost predicate CanAlloc(fs: Fs, n: nat) {
    Tree(fs) && n < BPB && !BitAt(fs.disk[fs.zmap], n)
  }

  /** No map reaches the bitmap or the zone about to be allocated. */
  lemma Unreached(fs: Fs, n: nat, q: Path)
    requires CanAlloc(fs, n)
    ensures fs.zone0 + n < |fs.disk| && fs.zmap != fs.zone0 + n
    ensures ZoneAt(fs, q) != fs.zmap && ZoneAt(fs, q) != fs.zone0 + n
  {
    assert ZoneAt(fs, q) == 0 || InUse(fs, ZoneAt(fs, q));
  }

  lemma TakeZoneMaps(fs: Fs, n: nat, index: bool, q: Path)
    requires CanAlloc(fs, n) && fs.zone0 + n < |fs.disk|
    ensures ZoneAt(TakeZone(fs, n, index), q) == ZoneAt(fs, q)
  {
    hide ZoneAt;
    forall p | IsIndex(p) ensures ZoneAt(fs, p) != fs.zmap && ZoneAt(fs, p) != fs.zone0 + n { Unreached(fs, n, p); }
    var bits := SetBit(fs.disk[fs.zmap], n);
    forall p ensures ZoneAt(fs.(disk := fs.disk[fs.zmap := bits]), p) == ZoneAt(fs, p) { WriteBlock(fs, fs.zmap, bits, p); }
    if index {
      WriteBlock(fs.(disk := fs.disk[fs.zmap := bits]), fs.zone0 + n, ZeroBlock(), q);
    }
  }

  lemma TakeZoneShape(fs: Fs, n: nat, index: bool)
    requires CanAlloc(fs, n) && fs.zone0 + n < |fs.disk| && fs.zmap != fs.zone0 + n
    ensures Shape(TakeZone(fs, n, index))
    ensures forall m: nat | m < BPB :: BitAt(TakeZone(fs, n, index).disk[fs.zmap], m) == (m == n || BitAt(fs.disk[fs.zmap], m))
  {
    SetBitAt(fs.disk[fs.zmap], n);
  }

  lemma TakeZoneTree(fs: Fs, n: nat, p: Path)
    requires CanAlloc(fs, n)
    ensures fs.zmap < |fs.disk| && n / 8 < |fs.disk[fs.zmap]| && fs.zone0 + n < |fs.disk|
    ensures var fs1 := TakeZone(fs, n, IsIndex(p));
            Tree(fs1) && Fresh(fs1, p, fs.zone0 + n) && forall q :: ZoneAt(fs1, q) == ZoneAt(fs, q)
  {
    hide ZoneAt;
    Unreached(fs, n, p);
    var fs1 := TakeZone(fs, n, IsIndex(p));
    TakeZoneShape(fs, n, IsIndex(p));
    forall q ensures ZoneAt(fs1, q) == ZoneAt(fs, q) && ZoneAt(fs1, q) != fs.zone0 + n {
      TakeZoneMaps(fs, n, IsIndex(p), q);
      Unreached(fs, n, q);
    }
    assert Tree(fs1) by { TreeKept(fs, fs1); }
  }

  /** More marks and the same maps. */
  lemma TreeKept(fs: Fs, fs1: Fs)
    requires Tree(fs) && Shape(fs1) && |fs1.disk| == |fs.disk| && fs1.zone0 == fs.zone0 && fs1.zmap == fs.zmap
    requires forall m: nat | m < BPB && BitAt(fs.disk[fs.zmap], m) :: BitAt(fs1.disk[fs.zmap], m)
    requires forall q :: ZoneAt(fs1, q) == ZoneAt(fs, q)
    ensures Tree(fs1)
  {
    hide ZoneAt;
    forall p ensures ZoneAt(fs1, p) == 0 || InUse(fs1, ZoneAt(fs1, p)) { assert ZoneAt(fs1, p) == ZoneAt(fs, p); }
    forall p, q | ZoneAt(fs1, p) != 0 && ZoneAt(fs1, p) == ZoneAt(fs1, q) ensures p == q {
      assert ZoneAt(fs1, p) == ZoneAt(fs, p) && ZoneAt(fs1, q) == ZoneAt(fs, q);
    }
  }

  lemma PlaceTree(fs: Fs, p: Path, z: nat)
    requires Tree(fs) && Open(fs, p) && ZoneAt(fs, p) == 0 && Fresh(fs, p, z)
    ensures p.Root? ==> p.ino in fs.inode && p.i < |fs.inode[p.ino].zone|
    ensures !p.Root? ==> 0 <= ZoneAt(fs, Parent(p)) < |fs.disk| && 2 * Slot(p) + 1 < |fs.disk[ZoneAt(fs, Parent(p))]|
    ensures Tree(Place(fs, p, z)) && forall q :: ZoneAt(Place(fs, p, z), q) == if q == p then z else ZoneAt(fs, q)
  {
    hide ZoneAt;
    CanPlace(fs, p);
    var fs' := Place(fs, p, z);
    forall q ensures ZoneAt(fs', q) == if q == p then z else ZoneAt(fs, q) { PlaceZone(fs, p, z, q); }
    assert Shape(fs') && fs'.disk[fs.zmap] == fs.disk[fs.zmap] by { PlaceShape(fs, p, z); }
    forall q ensures ZoneAt(fs', q) == 0 || InUse(fs', ZoneAt(fs', q)) { assert ZoneAt(fs, q) == 0 || InUse(fs, ZoneAt(fs, q)); }
    forall q, q' | ZoneAt(fs', q) != 0 && ZoneAt(fs', q) == ZoneAt(fs', q') ensures q == q' {
      assert ZoneAt(fs', q) == (if q == p then z else ZoneAt(fs, q)) && ZoneAt(fs', q') == (if q' == p then z else ZoneAt(fs, q'));
    }
  }

  lemma PlaceShape(fs: Fs, p: Path, z: nat)
    requires Tree(fs) && Open(fs, p) && z < 0x8000
    ensures p.Root? ==> p.ino in fs.inode && p.i < |fs.inode[p.ino].zone|
    ensures !p.Root? ==> 0 <= ZoneAt(fs, Parent(p)) < |fs.disk| && 2 * Slot(p) + 1 < |fs.disk[ZoneAt(fs, Parent(p))]|
    ensures var fs' := Place(fs, p, z); Shape(fs') && fs'.disk[fs.zmap] == fs.disk[fs.zmap] && |fs'.disk| == |fs.disk|
  {
    CanPlace(fs, p);
    if !p.Root? {
      var b := ZoneAt(fs, Parent(p));
      assert InUse(fs, b);
      PutEntryAt(fs.disk[b], Slot(p), z, 0);
    }
  }

  // ---------------------------------------------------------------- one allocation step of bmap

  ghost function AllocAt(fs: Fs, n: nat, p: Path): Fs
    requires CanAlloc(fs, n) && Open(fs, p) && ZoneAt(fs, p) == 0
  {
    TakeZoneTree(fs, n, p);
    var fs1 := TakeZone(fs, n, IsIndex(p));
    CanPlace(fs1, p);
    Place(fs1, p, fs.zone0 + n)
  }

  /** The maps grow by at most index blocks and the data block at target; data stays put. */
  ghost predicate Grows(fs: Fs, fs': Fs, target: Path) {
    && |fs'.disk| == |fs.disk| && fs'.zone0 == fs.zone0 && fs'.zmap == fs.zmap && fs'.inode.Keys == fs.inode.Keys
    && (forall ino | ino in fs.inode :: fs'.inode[ino].size == fs.inode[ino].size && fs'.inode[ino].dir == fs.inode[ino].dir)
    && (forall q | ZoneAt(fs, q) != 0 :: ZoneAt(fs', q) == ZoneAt(fs, q))
    && (forall q | !IsIndex(q) && q != target :: ZoneAt(fs', q) == ZoneAt(fs, q))
    && (forall q | !IsIndex(q) && ZoneAt(fs, q) != 0 :: BlockAt(fs', ZoneAt(fs, q)) == BlockAt(fs, ZoneAt(fs, q)))
  }

  lemma GrowsTrans(fs: Fs, fs1: Fs, fs2: Fs, target: Path)
    requires Grows(fs, fs1, target) && Grows(fs1, fs2, target)
    ensures Grows(fs, fs2, target)
  {
  }

  lemma AllocAtData(fs: Fs, fs1: Fs, fs': Fs, n: nat, p: Path, q: Path)
    requires CanAlloc(fs, n) && Tree(fs1) && Open(fs1, p) && fs.zone0 + n < |fs.disk|
    requires fs1 == TakeZone(fs, n, IsIndex(p)) && forall q :: ZoneAt(fs1, q) == ZoneAt(fs, q)
    requires p.Root? ==> p.ino in fs1.inode && p.i < |fs1.inode[p.ino].zone|
    requires !p.Root? ==> 0 <= ZoneAt(fs1, Parent(p)) < |fs1.disk| && 2 * Slot(p) + 1 < |fs1.disk[ZoneAt(fs1, Parent(p))]|
    requires fs' == Place(fs1, p, fs.zone0 + n) && !IsIndex(q) && ZoneAt(fs, q) != 0
    ensures BlockAt(fs', ZoneAt(fs, q)) == BlockAt(fs, ZoneAt(fs, q))
  {
    hide ZoneAt;
    Unreached(fs, n, q);
    DataElsewhere(fs1, p, q);
  }

  lemma AllocAtTree(fs: Fs, n: nat, p: Path, target: Path)
    requires CanAlloc(fs, n) && Open(fs, p) && ZoneAt(fs, p) == 0 && (IsIndex(p) || p == target)
    ensures Tree(AllocAt(fs, n, p)) && Grows(fs, AllocAt(fs, n, p), target)
    ensures ZoneAt(AllocAt(fs, n, p), p) == fs.zone0 + n
  {
    hide ZoneAt, BlockAt, Tree, Fresh;
    var z := fs.zone0 + n;
    TakeZoneTree(fs, n, p);
    var fs1 := TakeZone(fs, n, IsIndex(p));
    PlaceTree(fs1, p, z);
    var fs' := AllocAt(fs, n, p);
    forall q | !IsIndex(q) && ZoneAt(fs, q) != 0 ensures BlockAt(fs', ZoneAt(fs, q)) == BlockAt(fs, ZoneAt(fs, q)) {
      AllocAtData(fs, fs1, fs', n, p, q);
    }
    forall q ensures ZoneAt(fs', q) == if q == p then z else ZoneAt(fs, q) { assert ZoneAt(fs1, q) == ZoneAt(fs, q); }
  }

  /** A data block is not the index block that an entry is written to. */
  lemma DataElsewhere(fs: Fs, p: Path, q: Path)
    requires Tree(fs) && ZoneAt(fs, q) != 0 && !IsIndex(q)
    ensures !p.Root? ==> ZoneAt(fs, Parent(p)) != ZoneAt(fs, q)
  {
    if !p.Root? { assert IsIndex(Parent(p)); }
  }

  // ---------------------------------------------------------------- lookup by block number

  function DataPath(ino: nat, nr: nat): Path {
    if nr < 7 then Root(ino, nr)
    else if nr < 7 + NIND then Ind(ino, nr - 7)
    else Dbl(ino, (nr - 7 - NIND) / NIND, (nr - 7 - NIND) % NIND)
  }

  /** The zone of block nr of a file, 0 for a hole. */
  function Lookup(fs: Fs, ino: nat, nr: nat): int {
    ZoneAt(fs, DataPath(ino, nr))
  }

  /** Different blocks have different places, none of them an index. */
  lemma DataPaths(ino: nat, nr: nat, ino': nat, nr': nat)
    ensures !IsIndex(DataPath(ino, nr))
    ensures DataPath(ino, nr) == DataPath(ino', nr') ==> ino == ino' && nr == nr'
  {
  }
}
