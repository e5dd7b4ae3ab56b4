/** What a block map says in the inode and in the bytes of the disk, written out without the
    places of BlockMap: an independent reading of the tables that `bmap` walks. */
module MapBytes {
  import opened Bitmaps
  import opened BlockMap
  import opened FileBytes

  /** Bytes 2j and 2j + 1 of disk block b, as a signed little-endian short, are z. */
  ghost predicate WordIs(fs: Fs, b: int, j: nat, z: int) {
    && 0 <= b < |fs.disk| && 2 * j + 1 < |fs.disk[b]|
    && var w: int := fs.disk[b][2 * j] + 256 * fs.disk[b][2 * j + 1];
       z == if w < 32768 then w else w - 65536
  }

  /** The same through a block of block numbers. */
  ghost predicate WordBehind(fs: Fs, b: int, j: nat, k: nat, z: int) {
    exists m :: WordIs(fs, b, j, m) && if m == 0 then z == 0 else WordIs(fs, m, k, z)
  }

  /** The zone of block nr of a file, 0 for none: seven direct slots, 512 numbers in the block of
      slot 7, and 512 times 512 behind the block of slot 8. */
  ghost predicate BlockKept(fs: Fs, ino: nat, nr: nat, z: int) {
    ino in fs.inode && |fs.inode[ino].zone| == 9 &&
    var zone := fs.inode[ino].zone;
    if nr < 7 then z == zone[nr]
    else if nr < 519 then (if zone[7] == 0 then z == 0 else WordIs(fs, zone[7], nr - 7, z))
    else if zone[8] == 0 then z == 0
    else WordBehind(fs, zone[8], (nr - 519) / 512, (nr - 519) % 512, z)
  }

  /** Byte o of a file is x: block numbers have 16 bits. */
  ghost predicate ByteKept(fs: Fs, ino: nat, o: nat, x: nat) {
    exists z :: BlockKept(fs, ino, o / 1024 % 65536, z) && 0 < z < |fs.disk| && |fs.disk[z]| == 1024 && x == fs.disk[z][o % 1024]
  }

  lemma WordEntry(fs: Fs, b: int, j: nat, z: int)
    requires Shape(fs) && 0 <= b < |fs.disk| && j < NIND
    ensures WordIs(fs, b, j, z) <==> z == Entry(BlockAt(fs, b), j)
  {
  }

  /** An index block that a map reaches is on the disk. */
  lemma ZoneOnDisk(fs: Fs, p: Path)
    requires Tree(fs)
    ensures ZoneAt(fs, p) != 0 ==> 0 < ZoneAt(fs, p) < |fs.disk| && IsBlock(fs.disk[ZoneAt(fs, p)])
  {
    hide ZoneAt, BitAt;
  }

  lemma InodeSlot(fs: Fs, ino: nat, i: nat)
    requires Shape(fs) && ino in fs.inode && i < 9
    ensures ZoneAt(fs, Root(ino, i)) == fs.inode[ino].zone[i]
  {
  }

  lemma BelowIs(fs: Fs, p: Path)
    requires Tree(fs) && !p.Root? && Slot(p) < NIND
    ensures ZoneAt(fs, Parent(p)) == 0 ==> ZoneAt(fs, p) == 0
    ensures ZoneAt(fs, Parent(p)) != 0 ==>
              forall z :: WordIs(fs, ZoneAt(fs, Parent(p)), Slot(p), z) <==> z == ZoneAt(fs, p)
  {
    ZoneOnDisk(fs, Parent(p));
    hide Tree;
    if ZoneAt(fs, Parent(p)) != 0 {
      assert Shape(fs);
      forall z { WordEntry(fs, ZoneAt(fs, Parent(p)), Slot(p), z); }
    }
  }

  lemma BehindIs(fs: Fs, ino: nat, j: nat, k: nat, z: int)
    requires Tree(fs) && ino in fs.inode && j < NIND && k < NIND && fs.inode[ino].zone[8] != 0
    ensures WordBehind(fs, fs.inode[ino].zone[8], j, k, z) <==> z == ZoneAt(fs, Dbl(ino, j, k))
  {
    InodeSlot(fs, ino, 8);
    BelowIs(fs, Mid(ino, j));
    BelowIs(fs, Dbl(ino, j, k));
    hide ZoneAt, Tree, WordIs;
    assert WordIs(fs, fs.inode[ino].zone[8], j, ZoneAt(fs, Mid(ino, j)));
  }

  /** The lookup through the places of BlockMap reads exactly these bytes. */
  lemma LookupIs(fs: Fs, ino: nat, nr: nat, z: int)
    requires Tree(fs) && ino in fs.inode && nr < 65536
    ensures BlockKept(fs, ino, nr, z) <==> z == Lookup(fs, ino, nr)
  {
    assert Shape(fs);
    hide ZoneAt, Tree, WordIs, WordBehind;
    if nr < 7 {
      InodeSlot(fs, ino, nr);
    } else if nr < 519 {
      InodeSlot(fs, ino, 7);
      BelowIs(fs, Ind(ino, nr - 7));
    } else {
      var j, k := (nr - 519) / 512, (nr - 519) % 512;
      InodeSlot(fs, ino, 8);
      BelowIs(fs, Mid(ino, j));
      BelowIs(fs, Dbl(ino, j, k));
      if fs.inode[ino].zone[8] != 0 { BehindIs(fs, ino, j, k, z); }
    }
  }

  lemma ByteIs(fs: Fs, ino: nat, o: nat, x: nat)
    requires Tree(fs) && ino in fs.inode
    ensures ByteKept(fs, ino, o, x) <==> Lookup(fs, ino, Block16(o)) != 0 && x == Reached(fs, ino, o)
  {
    var z := Lookup(fs, ino, Block16(o));
    forall y { LookupIs(fs, ino, Block16(o), y); }
    ZoneOnDisk(fs, DataPath(ino, Block16(o)));
    hide Tree, ZoneAt, BlockKept;
    assert BlockKept(fs, ino, Block16(o), z);
  }

  /** A map that grows by one block keeps what the bytes say about every other block of every
      file. */
  lemma GrowsKeeps(fs: Fs, fs': Fs, ino: nat, nr: nat, i: nat, n: nat, z: int)
    requires Tree(fs) && Tree(fs') && Grows(fs, fs', DataPath(ino, nr)) && i in fs.inode && n < 65536
    requires i != ino || n != nr
    ensures BlockKept(fs, i, n, z) <==> BlockKept(fs', i, n, z)
  {
    DataPaths(i, n, ino, nr);
    LookupIs(fs, i, n, z);
    LookupIs(fs', i, n, z);
    hide Tree, ZoneAt, BlockKept, DataPath;
  }

  // ---------------------------------------------------------------- reading and writing

  lemma ReadBytes(fs: Fs, ino: nat, off: nat, buf: seq<nat>)
    requires Tree(fs) && ino in fs.inode
    requires forall o: nat | off <= o < off + |buf| :: Lookup(fs, ino, Block16(o)) != 0
    requires forall i | 0 <= i < |buf| :: buf[i] == ZoneByte(fs, Lookup(fs, ino, Block16(off + i)), (off + i) % BLK)
    ensures forall i | 0 <= i < |buf| :: ByteKept(fs, ino, off + i, buf[i])
  {
    hide Tree, Lookup, ZoneByte, ByteKept, Block16;
    forall i | 0 <= i < |buf| ensures ByteKept(fs, ino, off + i, buf[i]) {
      ByteIs(fs, ino, off + i, buf[i]);
    }
  }

  lemma HoleIs(fs: Fs, ino: nat, o: nat)
    requires Tree(fs) && ino in fs.inode
    ensures BlockKept(fs, ino, o / 1024 % 65536, 0) <==> Lookup(fs, ino, Block16(o)) == 0
  {
    LookupIs(fs, ino, Block16(o), 0);
  }

  /** One of cnt bytes of a file from off on is in a hole. */
  ghost predicate Holed(fs: Fs, ino: nat, off: nat, cnt: nat)
    requires ino in fs.inode
  {
    exists o: nat :: off <= o < off + cnt && o < fs.inode[ino].size && BlockKept(fs, ino, o / 1024 % 65536, 0)
  }

  lemma HoleIn(fs: Fs, ino: nat, off: nat, cnt: nat)
    requires Tree(fs) && ino in fs.inode && off <= fs.inode[ino].size
    ensures (exists o: nat :: off <= o < off + Available(fs.inode[ino].size, off, cnt) && Lookup(fs, ino, Block16(o)) == 0) <==>
            Holed(fs, ino, off, cnt)
  {
    hide Tree, Lookup, Block16, BlockKept;
    forall o: nat ensures BlockKept(fs, ino, o / 1024 % 65536, 0) <==> Lookup(fs, ino, Block16(o)) == 0 { HoleIs(fs, ino, o); }
  }

  lemma Below16(o: nat)
    requires o < SPAN16
    ensures Block16(o) == o / BLK
  {
  }

  /** A byte that was there and that the write did not reach. */
  lemma ByteStays(fs0: Fs, fs: Fs, fs': Fs, ino: nat, off: nat, data: seq<nat>, size: nat, i: nat, o: nat, x: nat)
    requires Tree(fs0) && Kept(fs0, fs, ino) && Resized(fs, fs', ino, size) && Landed(fs0, fs', ino, off, data, |data|)
    requires i in fs0.inode && o < SPAN16 && (i != ino || !Hit(o, off, |data|)) && ByteKept(fs0, i, o, x)
    ensures ByteKept(fs', i, o, x)
  {
    SizeChange(fs, fs', ino, size);
    ByteIs(fs0, i, o, x);
    ByteIs(fs', i, o, x);
    Below16(o);
    hide Tree, ZoneAt, ByteKept, ZoneByte, Block16, DataPath, Hit;
    assert Lookup(fs', i, o / BLK) == Lookup(fs, i, o / BLK) == Lookup(fs0, i, o / BLK);
    assert ByteAt(fs', i, o) == ByteAt(fs, i, o);
  }

  /** The bytes written are on the disk, later ones over earlier ones, and every other byte of
      every file is where it was. */
  lemma WrittenBytes(fs0: Fs, fs: Fs, fs': Fs, ino: nat, off: nat, data: seq<nat>, size: nat)
    requires Tree(fs0) && Kept(fs0, fs, ino) && Resized(fs, fs', ino, size) && Landed(fs0, fs', ino, off, data, |data|)
    ensures forall i | 0 <= i < |data| && |data| <= i + SPAN16 :: ByteKept(fs', ino, off + i, data[i])
    ensures forall i, o: nat, x: nat | i in fs0.inode && o < SPAN16 && (i != ino || !Hit(o, off, |data|)) && ByteKept(fs0, i, o, x) ::
              ByteKept(fs', i, o, x)
  {
    SizeChange(fs, fs', ino, size);
    hide Tree, ZoneAt, Lookup, ByteKept, Reached, Block16, Hit, ByteAt;
    forall i | 0 <= i < |data| && |data| <= i + SPAN16 ensures ByteKept(fs', ino, off + i, data[i]) {
      ByteIs(fs', ino, off + i, data[i]);
    }
    forall i, o: nat, x: nat | i in fs0.inode && o < SPAN16 && (i != ino || !Hit(o, off, |data|)) && ByteKept(fs0, i, o, x)
      ensures ByteKept(fs', i, o, x)
    {
      ByteStays(fs0, fs, fs', ino, off, data, size, i, o, x);
    }
  }
}
