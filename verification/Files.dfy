/** `balloc`, `bmap`, `readi` and `writei` on the blocks of a mounted file system. */
module Files {
  import opened Bitmaps
  import opened BlockMap
  import opened FileBytes
  import opened MapBytes

  datatype Mapped = Zone(z: int) | Hang | BadBlock

  /** What `readi` comes to: Hole is a block that is not there, for which the source clears
      memory at an address it has not set. */
  datatype Read = Bytes(data: seq<nat>) | TooBig | Hole

  /** What `writei` comes to: Underflow is a count that wrapped when it was cut to the largest
      file size, so that the source runs past the caller's buffer. */
  datatype Write = Count(n: nat) | Wrapped | Underflow | Full

  class FileSystem {
    var disk: seq<Block>
    var inode: map<nat, Inode>
    const zone0: nat
    const zmap: nat

    /** A mounted file system. */
    constructor (disk: seq<Block>, inode: map<nat, Inode>, zone0: nat, zmap: nat)
      requires Tree(Fs(disk, inode, zone0, zmap))
      ensures Valid() && St() == Fs(disk, inode, zone0, zmap)
    {
      this.disk, this.inode, this.zone0, this.zmap := disk, inode, zone0, zmap;
    }

    ghost function St(): Fs
      reads this
    {
      Fs(disk, inode, zone0, zmap)
    }

    ghost predicate Valid()
      reads this
    {
      Tree(St())
    }

    /** Every bit of the zone bitmap is set: `balloc` never returns. */
    ghost predicate NoZones()
      reads this
    {
      zmap < |disk| && |disk[zmap]| == BLK && forall n: nat | n < BPB :: BitAt(disk[zmap], n)
    }

    // -------------------------------------------------------------- alloc.c

    /** `balloc`: mark the least free zone. */
    method BAlloc() returns (ok: bool, z: nat)
      requires Valid()
      modifies this`disk
      ensures !ok ==> NoZones()
      ensures ok ==> zone0 <= z && CanAlloc(old(St()), z - zone0) && z < |old(disk)|
      ensures ok ==> forall n: nat | n < z - zone0 :: BitAt(old(disk)[zmap], n)
      ensures ok ==> St() == TakeZone(old(St()), z - zone0, false)
      ensures ok ==>
                && 0 <= (z - zone0) / 8 < |old(disk)[zmap]| && !Set(old(disk)[zmap], z - zone0)
                && (forall n: nat | n < z - zone0 :: Set(old(disk)[zmap], n))
                && disk == old(disk)[zmap := old(disk)[zmap][(z - zone0) / 8 := old(disk)[zmap][(z - zone0) / 8] + WEIGHT[(z - zone0) % 8]]]
    {
      hide Set;
      var r := FindBit(disk[zmap]);
      if r < 0 {
        return false, 0;
      }
      z := zone0 + r;
      BitIs(disk[zmap][r / 8], r % 8);
      disk := disk[zmap := SetBit(disk[zmap], r)];
      ok := true;
    }

    /** `bzero`. */
    method BZero(z: nat)
      requires z < |disk|
      modifies this`disk
      ensures disk == old(disk)[z := ZeroBlock()]
    {
      disk := disk[z := ZeroBlock()];
    }

    /** A new zone for place p: `balloc`, and `bzero` if it is to hold zone numbers. */
    method NewZone(p: Path) returns (ok: bool, z: nat)
      requires Valid()
      modifies this`disk
      ensures !ok ==> NoZones()
      ensures ok ==> zone0 <= z && CanAlloc(old(St()), z - zone0) && z < |old(disk)|
      ensures ok ==> St() == TakeZone(old(St()), z - zone0, IsIndex(p))
    {
      ok, z := BAlloc();
      if ok && IsIndex(p) {
        BZero(z);
      }
    }

    // -------------------------------------------------------------- bmap.c

    /** The zone number in slot i of the inode, allocated if need be. */
    method RootZone(ino: nat, i: nat, creat: bool, ghost target: Path) returns (ok: bool, z: int)
      requires Valid() && ino in inode && i < 9
      requires IsIndex(Root(ino, i)) || target == Root(ino, i)
      modifies this`disk, this`inode
      ensures !ok ==> creat && NoZones() && ZoneAt(old(St()), Root(ino, i)) == 0
      ensures ok ==> Valid() && Grows(old(St()), St(), target) && z == ZoneAt(St(), Root(ino, i)) && (creat ==> z != 0)
      ensures ok && (!creat || ZoneAt(old(St()), Root(ino, i)) != 0) ==> St() == old(St())
    {
      hide Grows, Tree, ZoneAt, TakeZone, CanAlloc, AllocAt;
      ok := true;
      ghost var fs := St();
      GrowsSame(fs, target);
      RootAt(fs, ino, i);
      if inode[ino].zone[i] == 0 && creat {
        var y;
        ok, y := NewZone(Root(ino, i));
        if !ok {
          return ok, 0;
        }
        AllocAtTree(fs, y - zone0, Root(ino, i), target);
        AllocAtRoot(fs, y - zone0, ino, i);
        inode := inode[ino := inode[ino].(zone := inode[ino].zone[i := y])];
      }
      z := inode[ino].zone[i];
    }

    /** The zone number at place p of an index block b, allocated if need be. */
    method EntryZone(p: Path, b: int, creat: bool, ghost target: Path) returns (ok: bool, z: int)
      requires Valid() && Open(St(), p) && !p.Root? && b == ZoneAt(St(), Parent(p))
      requires IsIndex(p) || target == p
      modifies this`disk
      ensures !ok ==> creat && NoZones() && ZoneAt(old(St()), p) == 0
      ensures ok ==> Valid() && Grows(old(St()), St(), target) && z == ZoneAt(St(), p) && (creat ==> z != 0)
      ensures ok && (!creat || ZoneAt(old(St()), p) != 0) ==> St() == old(St())
    {
      hide Grows, Tree, ZoneAt, Entry, PutEntry, TakeZone, CanAlloc, AllocAt;
      ok := true;
      ghost var fs := St();
      GrowsSame(fs, target);
      EntryAt(fs, p);
      z := Entry(disk[b], Slot(p));
      if z == 0 && creat {
        var y;
        ok, y := NewZone(p);
        if !ok {
          return;
        }
        AllocAtTree(fs, y - zone0, p, target);
        AllocAtEntry(fs, y - zone0, p);
        disk := disk[b := PutEntry(disk[b], Slot(p), y)];
        z := y;
      }
    }

    /** `bmap`: the zone of block nr of a file (a 16-bit number), extending the file's map if
        `creat` is set. */
    method Bmap(ino: nat, nr: nat, creat: bool) returns (r: Mapped)
      requires Valid() && ino in inode
      modifies this`disk, this`inode
      ensures r == BadBlock <==> nr % 0x1_0000 > old(inode)[ino].size / BLK && !creat
      ensures r == BadBlock ==> St() == old(St())
      ensures r == Hang ==> creat && NoZones() && Lookup(old(St()), ino, nr % 0x1_0000) == 0
      ensures r == Hang ==> BlockKept(old(St()), ino, nr % 65536, 0)
      ensures r.Zone? ==> Valid() && Grows(old(St()), St(), DataPath(ino, nr % 0x1_0000))
      ensures r.Zone? ==> r.z == Lookup(St(), ino, nr % 0x1_0000) && (creat ==> r.z != 0)
      ensures r.Zone? ==> BlockKept(St(), ino, nr % 65536, r.z)
      ensures r.Zone? ==> forall i: nat, n: nat, z | i in old(inode) && n < 65536 && (i != ino || n != nr % 65536) ::
                            BlockKept(old(St()), i, n, z) <==> BlockKept(St(), i, n, z)
      ensures r.Zone? && (!creat || Lookup(old(St()), ino, nr % 0x1_0000) != 0) ==> St() == old(St())
      ensures r.Zone? && (!creat || !BlockKept(old(St()), ino, nr % 65536, 0)) ==> St() == old(St())
    {
      hide Grows, Tree, ZoneAt, BlockKept, Lookup, DataPath;
      var n := nr % 0x1_0000;
      LookupIs(St(), ino, n, 0);
      if n > MAXBLOCKS || (n > inode[ino].size / BLK && !creat) {
        return BadBlock;
      }
      r := Walk(ino, n, creat);
      if r.Zone? {
        GrowsKeys(old(St()), St(), DataPath(ino, n));
        LookupIs(St(), ino, n, r.z);
        forall i: nat, m: nat, z | i in old(inode) && m < 65536 && (i != ino || m != n)
          ensures BlockKept(old(St()), i, m, z) <==> BlockKept(St(), i, m, z)
        {
          GrowsKeeps(old(St()), St(), ino, n, i, m, z);
        }
      }
    }

    /** `bmap` once the number has been checked: the direct slots and the indirect block. */
    method Walk(ino: nat, nr: nat, creat: bool) returns (r: Mapped)
      requires Valid() && ino in inode && nr < 0x1_0000
      modifies this`disk, this`inode
      ensures r != BadBlock && (r == Hang ==> creat && NoZones() && Lookup(old(St()), ino, nr) == 0)
      ensures r.Zone? ==> Valid() && Grows(old(St()), St(), DataPath(ino, nr))
      ensures r.Zone? ==> r.z == Lookup(St(), ino, nr) && (creat ==> r.z != 0)
      ensures r.Zone? && (!creat || Lookup(old(St()), ino, nr) != 0) ==> St() == old(St())
    {
      hide Grows, Tree, ZoneAt;
      var n := nr;
      ghost var fs, target := St(), DataPath(ino, n);
      if n < 7 {
        var ok, z := RootZone(ino, n, creat, target);
        return if ok then Zone(z) else Hang;
      }
      n := n - 7;
      if n < NIND {
        var p := Ind(ino, n);
        ParentZero(fs, p);
        var ok, b := RootZone(ino, 7, creat, target);
        if !ok {
          return Hang;
        }
        if b == 0 {
          return Zone(0);
        }
        ghost var fs1 := St();
        GrowsKeys(fs, fs1, target);
        GrowsZero(fs, fs1, target, p);
        var z;
        ok, z := EntryZone(p, b, creat, target);
        if !ok {
          return Hang;
        }
        GrowsTrans(fs, fs1, St(), target);
        return Zone(z);
      }
      n := n - NIND;
      r := DoubleZone(ino, n / NIND, n % NIND, creat);
    }

    /** `bmap`, the double indirect case. */
    method DoubleZone(ino: nat, j: nat, k: nat, creat: bool) returns (r: Mapped)
      requires Valid() && ino in inode && j < NIND && k < NIND
      modifies this`disk, this`inode
      ensures r != BadBlock && (r == Hang ==> creat && NoZones() && ZoneAt(old(St()), Dbl(ino, j, k)) == 0)
      ensures r.Zone? ==> Valid() && Grows(old(St()), St(), Dbl(ino, j, k))
      ensures r.Zone? ==> r.z == ZoneAt(St(), Dbl(ino, j, k)) && (creat ==> r.z != 0)
      ensures r.Zone? && (!creat || ZoneAt(old(St()), Dbl(ino, j, k)) != 0) ==> St() == old(St())
    {
      hide Grows, Tree, ZoneAt;
      ghost var fs := St();
      var p, q := Mid(ino, j), Dbl(ino, j, k);
      ParentZero(fs, p);
      ParentZero(fs, q);
      var ok, b := RootZone(ino, 8, creat, q);
      if !ok {
        return Hang;
      }
      ghost var fs1 := St();
      ParentZero(fs1, p);
      ParentZero(fs1, q);
      if b == 0 {
        return Zone(0);
      }
      GrowsKeys(fs, fs1, q);
      GrowsZero(fs, fs1, q, p);
      var m;
      ok, m := EntryZone(p, b, creat, q);
      if !ok {
        return Hang;
      }
      ghost var fs2 := St();
      ParentZero(fs2, q);
      GrowsTrans(fs, fs1, fs2, q);
      if m == 0 {
        return Zone(0);
      }
      GrowsKeys(fs, fs2, q);
      GrowsZero(fs, fs2, q, q);
      var z;
      ok, z := EntryZone(q, m, creat, q);
      if !ok {
        return Hang;
      }
      GrowsTrans(fs, fs2, St(), q);
      return Zone(z);
    }

    // -------------------------------------------------------------- rdwri.c

    /** `readi`, offsets and counts being 32-bit numbers. */
    method ReadI(ino: nat, off0: nat, cnt0: nat) returns (r: Read)
      requires Valid() && ino in inode && off0 < 0x1_0000_0000 && cnt0 < 0x1_0000_0000
      modifies this`disk, this`inode
      ensures St() == old(St())
      ensures r == TooBig <==> off0 > inode[ino].size || off0 + cnt0 >= 0x1_0000_0000
      ensures r == Hole <==>
                r != TooBig && exists o: nat :: off0 <= o < off0 + Available(inode[ino].size, off0, cnt0) && Lookup(St(), ino, Block16(o)) == 0
      ensures r.Bytes? ==> |r.data| == Available(inode[ino].size, off0, cnt0)
      ensures r.Bytes? ==> forall i | 0 <= i < |r.data| :: r.data[i] == ZoneByte(St(), Lookup(St(), ino, Block16(off0 + i)), (off0 + i) % BLK)
      ensures r == Hole <==> r != TooBig && Holed(St(), ino, off0, cnt0)
      ensures r.Bytes? ==> forall i | 0 <= i < |r.data| :: ByteKept(St(), ino, off0 + i, r.data[i])
      ensures r != TooBig && Gapless(St(), ino)
              ==> r == Bytes(Contents(St(), ino)[off0..off0 + Available(inode[ino].size, off0, cnt0)])
    {
      hide Tree, Lookup, Grows, ZoneByte, Gapless, BlockKept, ByteKept, Holed;
      var off, cnt := off0, cnt0;
      if off > inode[ino].size || (off + cnt) % 0x1_0000_0000 < off {
        return TooBig;
      }
      if off + cnt > inode[ino].size {
        cnt := inode[ino].size - off;
      }
      ghost var fs := St();
      HoleIn(fs, ino, off0, cnt0);
      var buf: seq<nat> := [];
      var tot := 0;
      while tot < cnt
        invariant tot <= cnt == Available(fs.inode[ino].size, off0, cnt0) && off == off0 + tot && |buf| == tot && St() == fs
        invariant forall o: nat | off0 <= o < off :: Lookup(fs, ino, Block16(o)) != 0
        invariant forall i | 0 <= i < tot :: buf[i] == ZoneByte(fs, Lookup(fs, ino, Block16(off0 + i)), (off0 + i) % BLK)
      {
        var m := Min(cnt - tot, BLK - off % BLK);
        var bn := Bmap(ino, off / BLK, false);
        if bn.z == 0 {
          GaplessMapped(fs, ino, off);
          assert Lookup(St(), ino, Block16(off)) == 0;
          return Hole;
        }
        DataBlock(fs, ino, Block16(off));
        RunBytes(fs, ino, off, m);
        buf := buf + disk[bn.z][off % BLK..off % BLK + m];
        tot, off := tot + m, off + m;
      }
      r := Bytes(buf);
      GaplessRead(fs, ino, off0, buf);
      ReadBytes(fs, ino, off0, buf);
    }

    /** `writei`. Block numbers reach `bmap` in 16 bits; they fit below 64 MB, and in every file
        without holes. */
    method WriteI(ino: nat, off0: nat, data: seq<nat>) returns (r: Write)
      requires Valid() && ino in inode && off0 < 0x1_0000_0000 && |data| < 0x1_0000_0000
      requires forall i | 0 <= i < |data| :: data[i] < 256
      modifies this`disk, this`inode
      ensures r == Wrapped <==> off0 + |data| >= 0x1_0000_0000
      ensures r == Underflow <==> off0 + |data| < 0x1_0000_0000 && off0 > MAX_FILESIZ
      ensures r == Wrapped || r == Underflow ==> St() == old(St())
      ensures r == Full ==> NoZones() && off0 <= MAX_FILESIZ
      ensures r == Full ==>
                exists o: nat :: off0 <= o < off0 + Accepted(off0, |data|) && Lookup(old(St()), ino, Block16(o)) == 0
      ensures r.Count? ==> Valid() && OthersKept(old(St()), St(), ino) && r.n == Accepted(off0, |data|)
      ensures r.Count? ==> inode[ino].size == NewSize(old(inode)[ino].size, off0, r.n)
      ensures r.Count? ==> Landed(old(St()), St(), ino, off0, data[..r.n], r.n)
      ensures r.Count? && off0 + r.n <= SPAN16 ==> Wrote(old(St()), St(), ino, off0, data[..r.n], r.n)
      ensures r.Count? ==> forall i | 0 <= i < r.n && r.n <= i + 0x400_0000 :: ByteKept(St(), ino, off0 + i, data[i])
      ensures r.Count? ==>
                forall i, o: nat, x: nat | i in old(inode) && o < 0x400_0000 && (i != ino || (o - off0) % 0x400_0000 >= r.n) && ByteKept(old(St()), i, o, x) ::
                  ByteKept(St(), i, o, x)
      ensures r.Count? && Plain(old(St()), ino, off0)
              ==> && Gapless(St(), ino)
                  && Contents(St(), ino) == Spliced(old(Contents(St(), ino)), off0, data[..r.n])
    {
      hide Tree, Lookup, Grows, Gapless, Kept, Wrote, Landed, Plain, OthersKept, Contents, Spliced, DataPath, ByteKept, BlockKept;
      var off, cnt := off0, |data|;
      if (off + cnt) % 0x1_0000_0000 < off {
        return Wrapped;
      }
      if off > MAX_FILESIZ {
        return Underflow;
      }
      if off + cnt > MAX_FILESIZ {
        cnt := MAX_FILESIZ - off;
      }
      ghost var fs0, part := St(), data[..cnt];
      StartWrite(fs0, ino, off0, part);
      var tot := 0;
      while tot < cnt
        invariant tot <= cnt == |part| && off == off0 + tot
        invariant Kept(fs0, St(), ino) && Landed(fs0, St(), ino, off0, part, tot)
        invariant Plain(fs0, ino, off0) ==> off0 + tot <= SPAN16
      {
        var m := Min(cnt - tot, BLK - off % BLK);
        ghost var fs1 := St();
        KeptTree(fs0, fs1, ino);
        StaysBelow(fs0, fs1, ino, off0, part, tot, m);
        var bn := Bmap(ino, off / BLK, true);
        if bn == Hang {
          KeptZero(fs0, fs1, ino, Block16(off));
          return Full;
        }
        WriteRun(fs0, fs1, St(), ino, off0, part, tot, m);
        Prefix(data, cnt, tot, m);
        disk := disk[bn.z := Patched(disk[bn.z], off % BLK, data[tot..tot + m])];
        tot, off := tot + m, off + m;
      }
      ghost var fs := St();
      KeptTree(fs0, fs, ino);
      EndWrite(fs0, fs, ino, off0, part);
      assert inode[ino := inode[ino].(size := inode[ino].size)] == inode;
      if cnt > 0 && off > inode[ino].size {
        inode := inode[ino := inode[ino].(size := off)];
      }
      WrittenBytes(fs0, fs, St(), ino, off0, part, inode[ino].size);
      if off0 + cnt <= SPAN16 { LandedWrote(fs0, St(), ino, off0, part, cnt); }
      r := Count(cnt);
    }
  }

  lemma EntryAt(fs: Fs, p: Path)
    requires Tree(fs) && Open(fs, p) && !p.Root?
    ensures 0 <= ZoneAt(fs, Parent(p)) < |fs.disk| && 2 * Slot(p) + 1 < |fs.disk[ZoneAt(fs, Parent(p))]|
    ensures ZoneAt(fs, p) == Entry(fs.disk[ZoneAt(fs, Parent(p))], Slot(p))
  {
    CanPlace(fs, p);
  }

  lemma AllocAtEntry(fs: Fs, n: nat, p: Path)
    requires CanAlloc(fs, n) && Open(fs, p) && !p.Root? && ZoneAt(fs, p) == 0
    ensures 0 < fs.zone0 && fs.zmap < |fs.disk| && n / 8 < |fs.disk[fs.zmap]| && fs.zone0 + n < |fs.disk|
    ensures var fs1, b := TakeZone(fs, n, IsIndex(p)), ZoneAt(fs, Parent(p));
            && 0 <= b < |fs1.disk| && 2 * Slot(p) + 1 < |fs1.disk[b]|
            && AllocAt(fs, n, p) == fs1.(disk := fs1.disk[b := PutEntry(fs1.disk[b], Slot(p), fs.zone0 + n)])
  {
    hide ZoneAt, PutEntry, Fresh;
    TakeZoneTree(fs, n, p);
    CanPlace(TakeZone(fs, n, IsIndex(p)), p);
  }

  lemma GrowsSame(fs: Fs, target: Path)
    ensures Grows(fs, fs, target)
  {
  }

  /** Nothing hangs off an index block that is not there. */
  lemma ParentZero(fs: Fs, p: Path)
    requires !p.Root?
    ensures ZoneAt(fs, Parent(p)) == 0 ==> ZoneAt(fs, p) == 0
  {
  }

  lemma GrowsZero(fs: Fs, fs': Fs, target: Path, p: Path)
    requires Grows(fs, fs', target)
    ensures ZoneAt(fs', p) == 0 ==> ZoneAt(fs, p) == 0
  {
  }

  lemma RootAt(fs: Fs, ino: nat, i: nat)
    requires Tree(fs) && ino in fs.inode && i < 9
    ensures |fs.inode[ino].zone| == 9 && ZoneAt(fs, Root(ino, i)) == fs.inode[ino].zone[i]
  {
  }

  lemma AllocAtRoot(fs: Fs, n: nat, ino: nat, i: nat)
    requires CanAlloc(fs, n) && ino in fs.inode && i < 9 && ZoneAt(fs, Root(ino, i)) == 0
    ensures 0 < fs.zone0 && fs.zmap < |fs.disk| && n / 8 < |fs.disk[fs.zmap]| && fs.zone0 + n < |fs.disk|
    ensures var fs1 := TakeZone(fs, n, IsIndex(Root(ino, i)));
            && fs1.inode == fs.inode && |fs.inode[ino].zone| == 9
            && AllocAt(fs, n, Root(ino, i)) ==
                 fs1.(inode := fs.inode[ino := fs.inode[ino].(zone := fs.inode[ino].zone[i := fs.zone0 + n])])
  {
    hide ZoneAt, Fresh;
    TakeZoneTree(fs, n, Root(ino, i));
  }

  lemma GrowsKeys(fs: Fs, fs': Fs, target: Path)
    requires Grows(fs, fs', target)
    ensures fs'.inode.Keys == fs.inode.Keys
  {
  }
}
