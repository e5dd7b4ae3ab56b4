/** Files as byte sequences, and what the steps of `writei` do to them. */
module FileBytes {
  import opened Bitmaps
  import opened BlockMap

  const MAX_FILESIZ: nat := MAXBLOCKS * BLK

  /** Byte k of zone z. */
  function ZoneByte(fs: Fs, z: int, k: nat): nat {
    if z != 0 && k < |BlockAt(fs, z)| then BlockAt(fs, z)[k] else 0
  }

  /** Byte o of a file; holes read as zero. */
  function ByteAt(fs: Fs, ino: nat, o: nat): nat {
    ZoneByte(fs, Lookup(fs, ino, o / BLK), o % BLK)
  }

  /** The block that `bmap` looks at for byte o: block numbers are passed in 16 bits. */
  function Block16(o: nat): nat { (o / BLK) % 0x1_0000 }

  ghost function Contents(fs: Fs, ino: nat): seq<nat>
    requires ino in fs.inode
  {
    seq(fs.inode[ino].size, o requires o >= 0 => ByteAt(fs, ino, o))
  }

  /** The file has no holes. */
  ghost predicate Gapless(fs: Fs, ino: nat) {
    ino in fs.inode && forall nr: nat | nr * BLK < fs.inode[ino].size :: Lookup(fs, ino, nr) != 0
  }

  // ---------------------------------------------------------------- at most 8192 blocks

  lemma {:induction false} Pigeonhole(zs: seq<int>, lo: int, n: nat)
    requires forall i | 0 <= i < |zs| :: lo <= zs[i] < lo + n
    requires forall i, j | 0 <= i < j < |zs| :: zs[i] != zs[j]
    ensures |zs| <= n
  {
    if |zs| == 0 {
      return;
    }
    assert lo <= zs[0] < lo + n;
    if k :| 0 <= k < |zs| && zs[k] == lo + n - 1 {
      Pigeonhole(zs[..k] + zs[k + 1..], lo, n - 1);
    } else {
      Pigeonhole(zs, lo, n - 1);
    }
  }

  /** A file whose first n blocks are there has at most one per bit of the bitmap block, so
      that its block numbers fit in 16 bits. */
  lemma FewBlocks(fs: Fs, ino: nat, n: nat)
    requires Tree(fs) && forall nr: nat | nr < n :: Lookup(fs, ino, nr) != 0
    ensures n <= BPB
  {
    hide ZoneAt, DataPath;
    var zs := seq(n, nr requires nr >= 0 => Lookup(fs, ino, nr));
    forall i | 0 <= i < |zs| ensures fs.zone0 <= zs[i] < fs.zone0 + BPB {
      assert InUse(fs, Lookup(fs, ino, i));
    }
    forall i, j | 0 <= i < j < |zs| ensures zs[i] != zs[j] {
      DataPaths(ino, i, ino, j);
      assert Lookup(fs, ino, i) != 0 && DataPath(ino, i) != DataPath(ino, j);
    }
    Pigeonhole(zs, fs.zone0, BPB);
  }

  // ---------------------------------------------------------------- data blocks

  /** Overwriting the data block of (ino, nr) keeps the maps and every other data block. */
  lemma DataWrite(fs: Fs, ino: nat, nr: nat, blk: Block)
    requires Tree(fs) && Lookup(fs, ino, nr) != 0 && IsBlock(blk)
    ensures 0 <= Lookup(fs, ino, nr) < |fs.disk|
    ensures var fs' := fs.(disk := fs.disk[Lookup(fs, ino, nr) := blk]);
            && Tree(fs') && (forall q :: ZoneAt(fs', q) == ZoneAt(fs, q))
            && (forall i: nat, n: nat | (i != ino || n != nr) && Lookup(fs, i, n) != 0 ::
                  BlockAt(fs', Lookup(fs, i, n)) == BlockAt(fs, Lookup(fs, i, n)))
  {
    hide ZoneAt;
    var d := DataPath(ino, nr);
    var z := Lookup(fs, ino, nr);
    assert InUse(fs, ZoneAt(fs, d));
    var fs' := fs.(disk := fs.disk[z := blk]);
    forall p | IsIndex(p) ensures ZoneAt(fs, p) != z {
      DataPaths(ino, nr, ino, nr);
      assert p != d;
    }
    forall q ensures ZoneAt(fs', q) == ZoneAt(fs, q) { WriteBlock(fs, z, blk, q); }
    TreeKept(fs, fs');
    forall i: nat, n: nat | (i != ino || n != nr) && Lookup(fs, i, n) != 0
      ensures BlockAt(fs', Lookup(fs, i, n)) == BlockAt(fs, Lookup(fs, i, n))
    {
      DataPaths(ino, nr, i, n);
      assert ZoneAt(fs, DataPath(i, n)) != ZoneAt(fs, d);
    }
  }

  // ---------------------------------------------------------------- what a write leaves alone

  /** fs differs from fs0 at most in the data of file ino and in what its map has gained. */
  ghost predicate Kept(fs0: Fs, fs: Fs, ino: nat) {
    && Tree(fs) && fs.inode.Keys == fs0.inode.Keys
    && (forall i | i in fs0.inode :: fs.inode[i].size == fs0.inode[i].size && fs.inode[i].dir == fs0.inode[i].dir)
    && (forall i: nat, nr: nat | i != ino || Lookup(fs0, i, nr) != 0 :: Lookup(fs, i, nr) == Lookup(fs0, i, nr))
    && (forall i: nat, o: nat | i != ino :: ByteAt(fs, i, o) == ByteAt(fs0, i, o))
  }

  /** Mapping a block moves no byte. */
  lemma KeptMap(fs0: Fs, fs: Fs, fs': Fs, ino: nat, nr: nat)
    requires Kept(fs0, fs, ino) && Tree(fs') && Grows(fs, fs', DataPath(ino, nr))
    ensures Kept(fs0, fs', ino)
    ensures forall n: nat | Lookup(fs, ino, n) != 0 :: Lookup(fs', ino, n) == Lookup(fs, ino, n)
    ensures forall o: nat | Lookup(fs, ino, o / BLK) != 0 :: ByteAt(fs', ino, o) == ByteAt(fs, ino, o)
  {
    hide ZoneAt, Tree, DataPath;
    forall i: nat, n: nat | i != ino || Lookup(fs0, i, n) != 0 ensures Lookup(fs', i, n) == Lookup(fs0, i, n) {
      DataPaths(i, n, ino, nr);
      assert Lookup(fs, i, n) == Lookup(fs0, i, n);
    }
    forall i: nat, o: nat | i != ino ensures ByteAt(fs', i, o) == ByteAt(fs0, i, o) {
      DataPaths(i, o / BLK, ino, nr);
      assert ByteAt(fs, i, o) == ByteAt(fs0, i, o);
    }
    forall o: nat | Lookup(fs, ino, o / BLK) != 0 ensures ByteAt(fs', ino, o) == ByteAt(fs, ino, o) {
      DataPaths(ino, o / BLK, ino, nr);
    }
  }

  lemma DataBlock(fs: Fs, ino: nat, nr: nat)
    requires Tree(fs) && Lookup(fs, ino, nr) != 0
    ensures 0 <= Lookup(fs, ino, nr) < |fs.disk| && IsBlock(fs.disk[Lookup(fs, ino, nr)])
  {
    assert InUse(fs, ZoneAt(fs, DataPath(ino, nr)));
  }

  lemma KeptWrite(fs0: Fs, fs: Fs, ino: nat, nr: nat, blk: Block)
    requires Kept(fs0, fs, ino) && Lookup(fs, ino, nr) != 0 && IsBlock(blk)
    ensures 0 <= Lookup(fs, ino, nr) < |fs.disk|
    ensures var fs' := fs.(disk := fs.disk[Lookup(fs, ino, nr) := blk]);
            && Kept(fs0, fs', ino)
            && (forall n: nat :: Lookup(fs', ino, n) == Lookup(fs, ino, n))
            && (forall o: nat | o / BLK != nr :: ByteAt(fs', ino, o) == ByteAt(fs, ino, o))
            && (forall k: nat | k < BLK :: ZoneByte(fs', Lookup(fs, ino, nr), k) == blk[k])
  {
    hide ZoneAt, Tree, DataPath;
    DataWrite(fs, ino, nr, blk);
    var fs' := fs.(disk := fs.disk[Lookup(fs, ino, nr) := blk]);
    forall i: nat, n: nat ensures Lookup(fs', i, n) == Lookup(fs, i, n) { }
    forall i: nat, o: nat | i != ino || o / BLK != nr ensures ByteAt(fs', i, o) == ByteAt(fs, i, o) {
      assert Lookup(fs', i, o / BLK) == Lookup(fs, i, o / BLK);
    }
  }

  // ---------------------------------------------------------------- progress of a write

  /** The first `tot` bytes of `data` have been written to file ino from offset `off` on; its
      other bytes are as they were in fs0. */
  ghost predicate Wrote(fs0: Fs, fs: Fs, ino: nat, off: nat, data: seq<nat>, tot: nat) {
    && tot <= |data|
    && (forall o: nat | off <= o < off + tot :: Lookup(fs, ino, o / BLK) != 0 && ByteAt(fs, ino, o) == data[o - off])
    && (forall o: nat | !(off <= o < off + tot) && Lookup(fs0, ino, o / BLK) != 0 ::
          ByteAt(fs, ino, o) == ByteAt(fs0, ino, o))
  }

  /** Block blk with `part` copied in at offset o. */
  function Patched(blk: Block, o: nat, part: seq<nat>): Block
    requires o + |part| <= |blk|
  {
    blk[..o] + part + blk[o + |part|..]
  }

  lemma PatchedIsBlock(blk: Block, o: nat, data: seq<nat>, tot: nat, m: nat)
    requires IsBlock(blk) && o + m <= BLK && tot + m <= |data| && forall i | 0 <= i < |data| :: data[i] < 256
    ensures IsBlock(Patched(blk, o, data[tot..tot + m]))
    ensures forall k: nat | k < BLK :: Patched(blk, o, data[tot..tot + m])[k] == if o <= k < o + m then data[tot + k - o] else blk[k]
  {
  }

  // ---------------------------------------------------------------- where the bytes land

  const SPAN16: nat := 0x1_0000 * BLK   // where 16-bit block numbers end

  /** The byte that an access to offset o reaches. */
  function Reached(fs: Fs, ino: nat, o: nat): nat {
    ZoneByte(fs, Lookup(fs, ino, Block16(o)), o % BLK)
  }

  /** Offset q is reached by one of the offsets from off up to off + n. */
  predicate Hit(q: nat, off: nat, n: nat) {
    (q - off) % SPAN16 < n
  }

  /** The first `tot` bytes of `data` have been written, each where its 16-bit block number
      leads, later ones over earlier ones; what was not reached is as it was in fs0. */
  ghost predicate Landed(fs0: Fs, fs: Fs, ino: nat, off: nat, data: seq<nat>, tot: nat) {
    && tot <= |data|
    && (forall o: nat | off <= o < off + tot && off + tot <= o + SPAN16 ::
          Lookup(fs, ino, Block16(o)) != 0 && Reached(fs, ino, o) == data[o - off])
    && (forall q: nat | Lookup(fs0, ino, q / BLK) != 0 && (q >= SPAN16 || !Hit(q, off, tot)) ::
          ByteAt(fs, ino, q) == ByteAt(fs0, ino, q))
  }

  lemma LandedMap(fs0: Fs, fs: Fs, fs': Fs, ino: nat, off: nat, data: seq<nat>, tot: nat, nr: nat)
    requires Kept(fs0, fs, ino) && Landed(fs0, fs, ino, off, data, tot)
    requires Tree(fs') && Grows(fs, fs', DataPath(ino, nr))
    ensures Landed(fs0, fs', ino, off, data, tot)
  {
    hide ZoneAt, Tree, DataPath, Lookup, Grows, Hit, ZoneByte;
    KeptMap(fs0, fs, fs', ino, nr);
    forall o: nat | off <= o < off + tot && off + tot <= o + SPAN16
      ensures Lookup(fs', ino, Block16(o)) != 0 && Reached(fs', ino, o) == data[o - off]
    {
      Position(o);
      assert ByteAt(fs', ino, o % SPAN16) == ByteAt(fs, ino, o % SPAN16);
    }
  }

  /** Block number and offset of an access are those of the position modulo 64 MB. */
  lemma Position(o: nat)
    ensures (o % SPAN16) / BLK == Block16(o) && (o % SPAN16) % BLK == o % BLK
  {
    var q, x := o / BLK, o % BLK;
    var a, b := q / 0x1_0000, q % 0x1_0000;
    assert o == SPAN16 * a + (BLK * b + x);
    InSpan(a, BLK * b + x);
    InBlock(b, x);
  }

  lemma InSpan(a: nat, y: nat)
    requires y < SPAN16
    ensures (SPAN16 * a + y) % SPAN16 == y
  {
  }

  lemma InBlock(b: nat, x: nat)
    requires x < BLK
    ensures (BLK * b + x) / BLK == b && (BLK * b + x) % BLK == x
  {
  }

  /** A run of bytes within a block does not reach the bytes less than 64 MB before it. */
  lemma RunMisses(o: nat, e: nat, m: nat)
    requires o < e && e + m <= o + SPAN16 && e % BLK + m <= BLK
    ensures !(Block16(o) == Block16(e) && e % BLK <= o % BLK < e % BLK + m)
  {
    Position(o);
    Position(e);
  }

  lemma RunHits(q: nat, off: nat, tot: nat, m: nat)
    requires q < SPAN16 && (off + tot) % BLK + m <= BLK && q / BLK == Block16(off + tot)
    requires (off + tot) % BLK <= q % BLK < (off + tot) % BLK + m
    ensures Hit(q, off, tot + m)
  {
    var e := off + tot;
    Position(e);
    assert q == e % SPAN16 + (q % BLK - e % BLK);
    ShiftHit(q, off, tot, q % BLK - e % BLK);
  }

  lemma ShiftHit(q: nat, off: nat, tot: nat, i: nat)
    requires q == (off + tot) % SPAN16 + i && i < BLK
    ensures Hit(q, off, tot + i + 1)
  {
    var k := (off + tot) / SPAN16;
    assert q - off == tot + i - k * SPAN16;
    ModBelow(tot + i, k);
  }

  lemma ModBelow(x: nat, k: nat)
    ensures (x - k * SPAN16) % SPAN16 <= x
  {
    if k > 0 { ModBelow(x, k - 1); }
  }

  /** What a run of bytes copied into the block of offset e changes. */
  lemma RunReached(fs: Fs, fs': Fs, ino: nat, e: nat, part: seq<nat>, o: nat)
    requires e % BLK + |part| <= BLK
    requires forall n: nat :: Lookup(fs', ino, n) == Lookup(fs, ino, n)
    requires forall x: nat | x / BLK != Block16(e) :: ByteAt(fs', ino, x) == ByteAt(fs, ino, x)
    requires forall k: nat | k < BLK :: ZoneByte(fs', Lookup(fs, ino, Block16(e)), k) ==
               if e % BLK <= k < e % BLK + |part| then part[k - e % BLK] else ZoneByte(fs, Lookup(fs, ino, Block16(e)), k)
    ensures Reached(fs', ino, o) == if Block16(o) == Block16(e) && e % BLK <= o % BLK < e % BLK + |part|
                                    then part[o % BLK - e % BLK] else Reached(fs, ino, o)
    ensures ByteAt(fs', ino, o) == if o / BLK == Block16(e) && e % BLK <= o % BLK < e % BLK + |part|
                                   then part[o % BLK - e % BLK] else ByteAt(fs, ino, o)
  {
    hide Lookup, ZoneByte;
    Position(o);
    if Block16(o) != Block16(e) { assert ByteAt(fs', ino, o % SPAN16) == ByteAt(fs, ino, o % SPAN16); }
  }

  /** Copying a run of bytes that stays within one block. */
  lemma LandedData(fs0: Fs, fs: Fs, ino: nat, off: nat, data: seq<nat>, tot: nat, m: nat)
    requires Kept(fs0, fs, ino) && Landed(fs0, fs, ino, off, data, tot) && tot + m <= |data|
    requires (off + tot) % BLK + m <= BLK && forall i | 0 <= i < |data| :: data[i] < 256
    requires Lookup(fs, ino, Block16(off + tot)) != 0
    ensures var z := Lookup(fs, ino, Block16(off + tot));
            && 0 <= z < |fs.disk| && |fs.disk[z]| == BLK
            && Landed(fs0, fs.(disk := fs.disk[z := Patched(fs.disk[z], (off + tot) % BLK, data[tot..tot + m])]),
                      ino, off, data, tot + m)
  {
    hide ZoneAt, Tree, DataPath, Lookup, ZoneByte, Patched, Kept, Hit, Reached, ByteAt, Block16;
    var e, part := off + tot, data[tot..tot + m];
    var nr := Block16(e);
    var z := Lookup(fs, ino, nr);
    KeptTree(fs0, fs, ino);
    DataBlock(fs, ino, nr);
    PatchedIsBlock(fs.disk[z], e % BLK, data, tot, m);
    var blk := Patched(fs.disk[z], e % BLK, part);
    KeptWrite(fs0, fs, ino, nr, blk);
    var fs' := fs.(disk := fs.disk[z := blk]);
    forall k: nat | k < BLK
      ensures ZoneByte(fs', z, k) == if e % BLK <= k < e % BLK + |part| then part[k - e % BLK] else ZoneByte(fs, z, k)
    {
      ZoneByteOf(fs, z, k);
      assert ZoneByte(fs', z, k) == blk[k];
    }
    forall o: nat | off <= o < off + tot + m && off + tot + m <= o + SPAN16
      ensures Lookup(fs', ino, Block16(o)) != 0 && Reached(fs', ino, o) == data[o - off]
    {
      RunReached(fs, fs', ino, e, part, o);
      if o < e { RunMisses(o, e, m); } else { WithinRun(o, e, m); }
    }
    forall q: nat | Lookup(fs0, ino, q / BLK) != 0 && (q >= SPAN16 || !Hit(q, off, tot + m))
      ensures ByteAt(fs', ino, q) == ByteAt(fs0, ino, q)
    {
      RunReached(fs, fs', ino, e, part, q);
      if q < SPAN16 {
        HitGrows(q, off, tot, m);
        if q / BLK == nr && e % BLK <= q % BLK < e % BLK + m { RunHits(q, off, tot, m); }
      } else {
        BeyondSpan(q, e);
      }
    }
  }

  lemma WithinRun(o: nat, e: nat, m: nat)
    requires e <= o < e + m && e % BLK + m <= BLK
    ensures Block16(o) == Block16(e) && o % BLK == e % BLK + (o - e)
  {
  }

  lemma HitGrows(q: nat, off: nat, tot: nat, m: nat)
    ensures Hit(q, off, tot) ==> Hit(q, off, tot + m)
  {
  }

  lemma BeyondSpan(q: nat, e: nat)
    requires q >= SPAN16
    ensures q / BLK != Block16(e)
  {
  }

  /** Below 64 MB the bytes land where they belong. */
  lemma LandedWrote(fs0: Fs, fs: Fs, ino: nat, off: nat, data: seq<nat>, tot: nat)
    requires Landed(fs0, fs, ino, off, data, tot) && off + tot <= SPAN16
    ensures Wrote(fs0, fs, ino, off, data, tot)
  {
    hide Lookup, ZoneByte;
    forall o: nat | off <= o < off + tot ensures Lookup(fs, ino, o / BLK) != 0 && ByteAt(fs, ino, o) == data[o - off] {
      assert Block16(o) == o / BLK;
      assert Reached(fs, ino, o) == data[o - off];
    }
    forall o: nat | !(off <= o < off + tot) && Lookup(fs0, ino, o / BLK) != 0
      ensures ByteAt(fs, ino, o) == ByteAt(fs0, ino, o)
    {
      if o < SPAN16 { NotHit(o, off, tot); }
    }
  }

  lemma NotHit(q: nat, off: nat, n: nat)
    requires q < SPAN16 && off + n <= SPAN16 && !(off <= q < off + n)
    ensures !Hit(q, off, n)
  {
    if q < off { assert (q - off) % SPAN16 == q - off + SPAN16; }
  }

  lemma KeptTree(fs0: Fs, fs: Fs, ino: nat)
    requires Kept(fs0, fs, ino)
    ensures Tree(fs) && fs.inode.Keys == fs0.inode.Keys
  {
  }

  lemma KeptZero(fs0: Fs, fs: Fs, ino: nat, nr: nat)
    requires Kept(fs0, fs, ino)
    ensures Lookup(fs, ino, nr) == 0 ==> Lookup(fs0, ino, nr) == 0
  {
  }

  lemma ZoneByteOf(fs: Fs, z: int, k: nat)
    requires z != 0 && 0 <= z < |fs.disk| && k < |fs.disk[z]|
    ensures ZoneByte(fs, z, k) == fs.disk[z][k]
  {
  }

  /** As long as the file has no holes the block written next has a number that fits in 16 bits. */
  lemma NextBlockFits(fs0: Fs, fs: Fs, ino: nat, off: nat, data: seq<nat>, tot: nat)
    requires Kept(fs0, fs, ino) && Wrote(fs0, fs, ino, off, data, tot)
    requires Gapless(fs0, ino) && off <= fs0.inode[ino].size
    ensures (off + tot) / BLK <= BPB
  {
    hide ZoneAt, DataPath, ZoneByte;
    forall nr: nat | nr < (off + tot) / BLK ensures Lookup(fs, ino, nr) != 0 {
      if nr * BLK < fs0.inode[ino].size {
        assert Lookup(fs0, ino, nr) != 0;
      } else {
        assert (nr * BLK) / BLK == nr;
      }
    }
    FewBlocks(fs, ino, (off + tot) / BLK);
  }

  // ---------------------------------------------------------------- the finished write

  /** s with data put over it from off on. */
  function Spliced(s: seq<nat>, off: nat, data: seq<nat>): seq<nat>
    requires off <= |s|
  {
    s[..off] + data + (if off + |data| < |s| then s[off + |data|..] else [])
  }

  function Max(a: nat, b: nat): nat { if a < b then b else a }

  lemma SplicedGapless(fs0: Fs, fs: Fs, fs': Fs, ino: nat, off: nat, data: seq<nat>)
    requires Kept(fs0, fs, ino) && Wrote(fs0, fs, ino, off, data, |data|)
    requires Gapless(fs0, ino) && off <= fs0.inode[ino].size
    requires Resized(fs, fs', ino, Max(fs0.inode[ino].size, off + |data|))
    ensures Gapless(fs', ino)
  {
    SizeChange(fs, fs', ino, Max(fs0.inode[ino].size, off + |data|));
    hide ZoneAt, Tree, DataPath, ZoneByte, ByteAt;
    forall nr: nat | nr * BLK < fs'.inode[ino].size ensures Lookup(fs', ino, nr) != 0 {
      assert (nr * BLK) / BLK == nr;
      assert Lookup(fs', ino, nr) == Lookup(fs, ino, nr);
      if nr * BLK < fs0.inode[ino].size { assert Lookup(fs0, ino, nr) != 0; }
    }
  }

  /** Setting the size, after which the file is the spliced sequence. */
  lemma SplicedContents(fs0: Fs, fs: Fs, fs': Fs, ino: nat, off: nat, data: seq<nat>)
    requires Kept(fs0, fs, ino) && Wrote(fs0, fs, ino, off, data, |data|)
    requires Gapless(fs0, ino) && off <= fs0.inode[ino].size
    requires Resized(fs, fs', ino, Max(fs0.inode[ino].size, off + |data|))
    ensures Gapless(fs', ino) && Contents(fs', ino) == Spliced(Contents(fs0, ino), off, data)
  {
    hide ZoneAt, Tree, DataPath, ZoneByte, Lookup;
    SizeChange(fs, fs', ino, Max(fs0.inode[ino].size, off + |data|));
    SplicedGapless(fs0, fs, fs', ino, off, data);
    var c, d := Contents(fs', ino), Spliced(Contents(fs0, ino), off, data);
    assert |c| == |d|;
    forall o | 0 <= o < |c| ensures c[o] == d[o] {
      assert ByteAt(fs', ino, o) == ByteAt(fs, ino, o);
      if !(off <= o < off + |data|) {
        assert (o / BLK) * BLK <= o < fs0.inode[ino].size;
        assert Lookup(fs0, ino, o / BLK) != 0;
      }
    }
  }

  /** Every other file is the byte sequence that it was, holes included. */
  ghost predicate OthersKept(fs0: Fs, fs: Fs, ino: nat) {
    && fs.inode.Keys == fs0.inode.Keys
    && (forall i | i in fs0.inode :: fs.inode[i].dir == fs0.inode[i].dir)
    && forall i | i in fs0.inode && i != ino ::
         Contents(fs, i) == Contents(fs0, i) && (Gapless(fs0, i) ==> Gapless(fs, i))
  }

  lemma OthersAreKept(fs0: Fs, fs: Fs, fs': Fs, ino: nat, size: nat)
    requires Kept(fs0, fs, ino) && Resized(fs, fs', ino, size)
    ensures OthersKept(fs0, fs', ino)
  {
    SizeChange(fs, fs', ino, size);
    hide ZoneAt, Tree, DataPath, ZoneByte;
    forall i | i in fs0.inode && i != ino
      ensures Contents(fs', i) == Contents(fs0, i) && (Gapless(fs0, i) ==> Gapless(fs', i))
    {
      forall o: nat ensures ByteAt(fs', i, o) == ByteAt(fs0, i, o) {
        assert ByteAt(fs', i, o) == ByteAt(fs, i, o);
      }
      forall nr: nat ensures Lookup(fs', i, nr) == Lookup(fs0, i, nr) {
        assert Lookup(fs', i, nr) == Lookup(fs, i, nr);
      }
    }
  }

  ghost predicate Resized(fs: Fs, fs': Fs, ino: nat, size: nat) {
    ino in fs.inode && fs' == fs.(inode := fs.inode[ino := fs.inode[ino].(size := size)])
  }

  /** The maps do not depend on the sizes. */
  lemma SizeChange(fs: Fs, fs': Fs, ino: nat, size: nat)
    requires Tree(fs) && Resized(fs, fs', ino, size)
    ensures Tree(fs') && forall q :: ZoneAt(fs', q) == ZoneAt(fs, q)
    ensures forall i: nat, o: nat :: ByteAt(fs', i, o) == ByteAt(fs, i, o)
  {
    forall q ensures ZoneAt(fs', q) == ZoneAt(fs, q) { SizeFree(fs, fs', ino, size, q); }
    TreeKept(fs, fs');
  }

  lemma {:induction false} SizeFree(fs: Fs, fs': Fs, ino: nat, size: nat, q: Path)
    requires Resized(fs, fs', ino, size)
    ensures ZoneAt(fs', q) == ZoneAt(fs, q)
    decreases Depth(q)
  {
    if !q.Root? { SizeFree(fs, fs', ino, size, Parent(q)); }
  }

  // ---------------------------------------------------------------- the loops of readi and writei

  function Min(a: nat, b: nat): nat { if a < b then a else b }

  /** The number of bytes that a read of cnt bytes at off finds. */
  function Available(size: nat, off: nat, cnt: nat): nat
    requires off <= size
  {
    if off + cnt > size then size - off else cnt
  }

  /** A run of bytes within one block. */
  lemma RunBytes(fs: Fs, ino: nat, off: nat, m: nat)
    requires off % BLK + m <= BLK && Lookup(fs, ino, Block16(off)) != 0
    requires var z := Lookup(fs, ino, Block16(off)); 0 <= z < |fs.disk| && |fs.disk[z]| == BLK
    ensures forall o: nat | off <= o < off + m :: Block16(o) == Block16(off) && o % BLK == off % BLK + (o - off)
    ensures forall k: nat | k < BLK :: ZoneByte(fs, Lookup(fs, ino, Block16(off)), k) == fs.disk[Lookup(fs, ino, Block16(off))][k]
  {
    hide Lookup;
    forall o: nat | off <= o < off + m ensures o / BLK == off / BLK && o % BLK == off % BLK + (o - off) { }
  }

  /** In a file without holes block numbers fit in 16 bits. */
  lemma GaplessMapped(fs: Fs, ino: nat, o: nat)
    requires Tree(fs)
    ensures Gapless(fs, ino) && o < fs.inode[ino].size ==> Block16(o) == o / BLK && Lookup(fs, ino, o / BLK) != 0
  {
    hide ZoneAt, DataPath, Tree, Lookup;
    if Gapless(fs, ino) && o < fs.inode[ino].size {
      forall nr: nat | nr < o / BLK + 1 ensures Lookup(fs, ino, nr) != 0 { assert nr * BLK <= o; }
      FewBlocks(fs, ino, o / BLK + 1);
    }
  }

  lemma GaplessRead(fs: Fs, ino: nat, off: nat, buf: seq<nat>)
    requires Tree(fs) && ino in fs.inode && off + |buf| <= fs.inode[ino].size
    requires forall i | 0 <= i < |buf| :: buf[i] == ZoneByte(fs, Lookup(fs, ino, Block16(off + i)), (off + i) % BLK)
    ensures Gapless(fs, ino) ==> buf == Contents(fs, ino)[off..off + |buf|]
  {
    hide Tree, Lookup, Gapless, ZoneByte, Block16;
    var c := Contents(fs, ino);
    if Gapless(fs, ino) {
      forall i | 0 <= i < |buf| ensures buf[i] == c[off..off + |buf|][i] {
        GaplessMapped(fs, ino, off + i);
        assert c[off + i] == ByteAt(fs, ino, off + i);
      }
    }
  }

  /** The number of bytes that a write of cnt bytes at off takes. */
  function Accepted(off: nat, cnt: nat): nat
    requires off <= MAX_FILESIZ
  {
    if off + cnt > MAX_FILESIZ then MAX_FILESIZ - off else cnt
  }

  function NewSize(size: nat, off: nat, n: nat): nat {
    if n > 0 && off + n > size then off + n else size
  }

  /** A write that starts within a file without holes. */
  ghost predicate Plain(fs: Fs, ino: nat, off: nat) {
    Gapless(fs, ino) && off <= fs.inode[ino].size
  }

  lemma StartWrite(fs: Fs, ino: nat, off: nat, data: seq<nat>)
    requires Tree(fs)
    ensures Kept(fs, fs, ino) && Landed(fs, fs, ino, off, data, 0) && (Plain(fs, ino, off) ==> off <= SPAN16)
  {
    hide Lookup, Tree;
    if Plain(fs, ino, off) && off > 0 {
      GaplessMapped(fs, ino, off - 1);
      FewBlocks(fs, ino, (off - 1) / BLK);
    }
  }

  /** A plain write stays far below 64 MB. */
  lemma StaysBelow(fs0: Fs, fs: Fs, ino: nat, off: nat, data: seq<nat>, tot: nat, m: nat)
    requires Kept(fs0, fs, ino) && Landed(fs0, fs, ino, off, data, tot) && (off + tot) % BLK + m <= BLK
    requires Plain(fs0, ino, off) ==> off + tot <= SPAN16
    ensures Plain(fs0, ino, off) ==> off + tot + m <= SPAN16
  {
    hide Kept, Landed, Wrote, Gapless;
    if Plain(fs0, ino, off) {
      LandedWrote(fs0, fs, ino, off, data, tot);
      NextBlockFits(fs0, fs, ino, off, data, tot);
    }
  }

  lemma Prefix(data: seq<nat>, cnt: nat, tot: nat, m: nat)
    requires tot + m <= cnt <= |data|
    ensures data[..cnt][tot..tot + m] == data[tot..tot + m]
  {
  }

  /** One round of the loop of `writei`: map a block, then copy a run of bytes into it. */
  lemma WriteRun(fs0: Fs, fs1: Fs, fs2: Fs, ino: nat, off: nat, data: seq<nat>, tot: nat, m: nat)
    requires Kept(fs0, fs1, ino) && Landed(fs0, fs1, ino, off, data, tot)
    requires tot + m <= |data| && forall i | 0 <= i < |data| :: data[i] < 256
    requires Tree(fs2) && Grows(fs1, fs2, DataPath(ino, Block16(off + tot)))
    requires Lookup(fs2, ino, Block16(off + tot)) != 0 && (off + tot) % BLK + m <= BLK
    ensures var z := Lookup(fs2, ino, Block16(off + tot));
            && 0 <= z < |fs2.disk| && |fs2.disk[z]| == BLK
            && var fs3 := fs2.(disk := fs2.disk[z := Patched(fs2.disk[z], (off + tot) % BLK, data[tot..tot + m])]);
               Kept(fs0, fs3, ino) && Landed(fs0, fs3, ino, off, data, tot + m)
  {
    hide Kept, Landed, Tree, Grows, Lookup, Block16, DataPath, Patched;
    var nr := Block16(off + tot);
    KeptMap(fs0, fs1, fs2, ino, nr);
    DataBlock(fs2, ino, nr);
    var z := Lookup(fs2, ino, nr);
    PatchedIsBlock(fs2.disk[z], (off + tot) % BLK, data, tot, m);
    KeptWrite(fs0, fs2, ino, nr, Patched(fs2.disk[z], (off + tot) % BLK, data[tot..tot + m]));
    LandedMap(fs0, fs1, fs2, ino, off, data, tot, nr);
    LandedData(fs0, fs2, ino, off, data, tot, m);
  }

  /** `writei` ends by raising the size. */
  lemma EndWrite(fs0: Fs, fs: Fs, ino: nat, off: nat, data: seq<nat>)
    requires Kept(fs0, fs, ino) && ino in fs0.inode && ino in fs.inode && Landed(fs0, fs, ino, off, data, |data|)
    requires Plain(fs0, ino, off) ==> off + |data| <= SPAN16
    ensures var size := NewSize(fs0.inode[ino].size, off, |data|);
            var fs' := fs.(inode := fs.inode[ino := fs.inode[ino].(size := size)]);
            && fs.inode[ino].size == fs0.inode[ino].size
            && Tree(fs') && OthersKept(fs0, fs', ino) && Landed(fs0, fs', ino, off, data, |data|)
            && (Plain(fs0, ino, off) ==> Gapless(fs', ino) && Contents(fs', ino) == Spliced(Contents(fs0, ino), off, data))
  {
    hide Tree, Gapless, Contents, Spliced, OthersKept, ZoneAt, DataPath, ZoneByte, Hit, Wrote;
    var size := NewSize(fs0.inode[ino].size, off, |data|);
    var fs' := fs.(inode := fs.inode[ino := fs.inode[ino].(size := size)]);
    SizeChange(fs, fs', ino, size);
    OthersAreKept(fs0, fs, fs', ino, size);
    assert forall nr: nat :: Lookup(fs', ino, nr) == Lookup(fs, ino, nr);
    LandedSame(fs0, fs, fs', ino, off, data, |data|);
    if Plain(fs0, ino, off) {
      LandedWrote(fs0, fs, ino, off, data, |data|);
      SplicedContents(fs0, fs, fs', ino, off, data);
    }
  }

  lemma LandedSame(fs0: Fs, fs: Fs, fs': Fs, ino: nat, off: nat, data: seq<nat>, tot: nat)
    requires Landed(fs0, fs, ino, off, data, tot) && fs'.disk == fs.disk
    requires forall nr: nat :: Lookup(fs', ino, nr) == Lookup(fs, ino, nr)
    ensures Landed(fs0, fs', ino, off, data, tot)
  {
    hide Lookup, Hit;
    forall o: nat ensures Reached(fs', ino, o) == Reached(fs, ino, o) && ByteAt(fs', ino, o) == ByteAt(fs, ino, o) { }
  }
}
