/** `find_entry`, `unlink_entry` and `link_entry` on directory files. */
module Namei {
  import opened Bitmaps
  import opened BlockMap
  import opened Directory
  import opened DirectoryBytes
  import opened FileBytes
  import opened Files
  import opened MapBytes

  /** A directory file: whole entries, no holes. */
  ghost predicate IsDir(fs: Fs, dip: nat) {
    dip in fs.inode && Gapless(fs, dip) && fs.inode[dip].size % ENTRY == 0
  }

  ghost function EntriesOf(fs: Fs, dip: nat): seq<Dirent>
    requires dip in fs.inode
  {
    Entries(Contents(fs, dip))
  }

  /** Entry 32 i + j of the file is the j-th in block i. */
  lemma BlockEntries(fs: Fs, dip: nat, i: nat, j: nat)
    requires Tree(fs) && IsDir(fs, dip) && j < 32 && BLK * i + ENTRY * j + ENTRY <= fs.inode[dip].size
    ensures 32 * i + j < |EntriesOf(fs, dip)| && Lookup(fs, dip, i) != 0
    ensures 0 <= Lookup(fs, dip, i) < |fs.disk| && IsBlock(fs.disk[Lookup(fs, dip, i)])
    ensures EntriesOf(fs, dip)[32 * i + j] == Decode(fs.disk[Lookup(fs, dip, i)][ENTRY * j..ENTRY * j + ENTRY])
  {
    hide Tree, Lookup;
    assert Lookup(fs, dip, i) != 0;
    DataBlock(fs, dip, i);
    var c := Contents(fs, dip);
    var e, b := EntryBytes(c, 32 * i + j), fs.disk[Lookup(fs, dip, i)][ENTRY * j..ENTRY * j + ENTRY];
    forall o | 0 <= o < ENTRY ensures e[o] == b[o] {
      var at := BLK * i + ENTRY * j + o;
      assert at / BLK == i && at % BLK == ENTRY * j + o;
      assert c[at] == ByteAt(fs, dip, at);
    }
    assert e == b;
  }

  /** The first of the n entries in a block that has the name, n if there is none. */
  method ScanBlock(blk: Block, n: nat, name: Name) returns (j: nat)
    requires IsBlock(blk) && n <= 32
    ensures j <= n
    ensures j < n ==> Decode(blk[ENTRY * j..ENTRY * j + ENTRY]).name == name
    ensures forall k | 0 <= k < j :: Decode(blk[ENTRY * k..ENTRY * k + ENTRY]).name != name
  {
    j := 0;
    while j < n
      invariant j <= n
      invariant forall k | 0 <= k < j :: Decode(blk[ENTRY * k..ENTRY * k + ENTRY]).name != name
    {
      if Decode(blk[ENTRY * j..ENTRY * j + ENTRY]).name == name {
        return;
      }
      j := j + 1;
    }
  }

  /** A directory has at most one block per bit of the zone bitmap. */
  lemma DirSize(fs: Fs, dip: nat)
    requires Tree(fs) && IsDir(fs, dip)
    ensures fs.inode[dip].size <= BPB * BLK
  {
    hide Tree, Lookup;
    if fs.inode[dip].size > 0 {
      GaplessMapped(fs, dip, fs.inode[dip].size - 1);
      var n := (fs.inode[dip].size - 1) / BLK + 1;
      forall nr: nat | nr < n ensures Lookup(fs, dip, nr) != 0 { assert nr * BLK < fs.inode[dip].size; }
      FewBlocks(fs, dip, n);
    }
  }

  /** The number of entries of a directory in its i-th block. */
  function InBlock(size: nat, i: nat): nat {
    if size < BLK * i then 0 else Min(32, (size - BLK * i) / ENTRY)
  }

  /** The i-th round of the search: the entries 32 i up to 32 i + n of the directory. */
  method ScanAt(sys: FileSystem, dip: nat, i: nat, name: Name) returns (z: int, n: nat, j: nat)
    requires sys.Valid() && IsDir(sys.St(), dip) && i <= sys.inode[dip].size / BLK
    modifies sys`disk, sys`inode
    ensures sys.St() == old(sys.St())
    ensures j <= n == InBlock(sys.inode[dip].size, i) && 32 * i + n <= |EntriesOf(sys.St(), dip)|
    ensures j < n ==> EntriesOf(sys.St(), dip)[32 * i + j].name == name && z == Lookup(sys.St(), dip, i)
    ensures forall k | 32 * i <= k < 32 * i + j :: EntriesOf(sys.St(), dip)[k].name != name
  {
    hide Tree, Lookup, Grows, Gapless, Contents, Decode, EntriesOf;
    ghost var fs := sys.St();
    ghost var es := EntriesOf(fs, dip);
    DirSize(fs, dip);
    DirLength(fs, dip);
    var bn := sys.Bmap(dip, i, false);
    n := InBlock(sys.inode[dip].size, i);
    z, j := bn.z, 0;
    if n > 0 {
      BlockEntries(fs, dip, i, 0);
      j := ScanBlock(sys.disk[z], n, name);
      forall k: nat | k < n ensures es[32 * i + k] == Decode(fs.disk[z][ENTRY * k..ENTRY * k + ENTRY]) {
        BlockEntries(fs, dip, i, k);
      }
      forall k | 32 * i <= k < 32 * i + j ensures es[k].name != name {
        var j' := k - 32 * i;
        assert Decode(fs.disk[z][ENTRY * j'..ENTRY * j' + ENTRY]).name != name;
        assert es[32 * i + j'] == es[k];
      }
    }
  }

  /** The search that `find_entry` and `unlink_entry` share: block by block, entry by entry. */
  method Locate(sys: FileSystem, dip: nat, name: Name) returns (found: bool, i: nat, z: int, j: nat)
    requires sys.Valid() && IsDir(sys.St(), dip)
    modifies sys`disk, sys`inode
    ensures sys.St() == old(sys.St())
    ensures var es := EntriesOf(sys.St(), dip);
            if found then
              && j < 32 && BLK * i + ENTRY * j + ENTRY <= sys.inode[dip].size
              && 32 * i + j == First(es, name) < |es| && z == Lookup(sys.St(), dip, i)
            else First(es, name) == |es|
  {
    hide Tree, Lookup, Gapless, Contents, EntriesOf, First;
    ghost var fs := sys.St();
    ghost var es := EntriesOf(fs, dip);
    DirLength(fs, dip);
    i, z, j, found := 0, 0, 0, false;
    while i < sys.inode[dip].size / BLK + 1
      invariant i <= fs.inode[dip].size / BLK + 1 && sys.St() == fs
      invariant forall k | 0 <= k < 32 * i && k < |es| :: es[k].name != name
      decreases fs.inode[dip].size / BLK + 1 - i
    {
      var n;
      z, n, j := ScanAt(sys, dip, i, name);
      if j < n {
        FirstIs(es, name, 32 * i + j);
        return true, i, z, j;
      }
      i := i + 1;
    }
    FirstIs(es, name, |es|);
  }

  lemma DirLength(fs: Fs, dip: nat)
    requires IsDir(fs, dip)
    ensures |EntriesOf(fs, dip)| == fs.inode[dip].size / ENTRY
  {
  }

  lemma FirstIs(es: seq<Dirent>, name: Name, k: nat)
    requires k <= |es| && (k < |es| ==> es[k].name == name) && forall i | 0 <= i < k :: es[i].name != name
    ensures First(es, name) == k
  {
  }

  lemma ContentsLength(fs: Fs, dip: nat)
    requires IsDir(fs, dip)
    ensures |Contents(fs, dip)| == fs.inode[dip].size && |EntriesOf(fs, dip)| == fs.inode[dip].size / ENTRY
  {
  }

  /** Entry k of a directory, in bytes of the disk: 32 bytes, the inode number low byte first,
      then the name and a zero byte if there is room for one. */
  ghost predicate OnDisk(fs: Fs, dip: nat, k: nat, ino: nat, name: Name) {
    && dip in fs.inode && 32 * k + 32 <= fs.inode[dip].size && ino < 65536 && |name| <= 30
    && ByteKept(fs, dip, 32 * k, ino % 256) && ByteKept(fs, dip, 32 * k + 1, ino / 256)
    && (forall i | 0 <= i < |name| :: ByteKept(fs, dip, 32 * k + 2 + i, name[i]) && name[i] != 0)
    && (|name| < 30 ==> ByteKept(fs, dip, 32 * k + 2 + |name|, 0))
  }

  ghost predicate ByteOnly(fs: Fs, ino: nat, o: nat, y: nat) {
    forall x: nat :: ByteKept(fs, ino, o, x) <==> x == y
  }

  lemma EntryByte(fs: Fs, dip: nat, k: nat, i: nat)
    requires Tree(fs) && IsDir(fs, dip) && ENTRY * k + ENTRY <= fs.inode[dip].size && i < ENTRY
    ensures |Contents(fs, dip)| == fs.inode[dip].size && EntryBytes(Contents(fs, dip), k)[i] < 256
    ensures ByteOnly(fs, dip, ENTRY * k + i, EntryBytes(Contents(fs, dip), k)[i])
  {
    hide Tree, Lookup, ByteKept;
    var o := ENTRY * k + i;
    ByteBound(fs, dip, o);
    GaplessMapped(fs, dip, o);
    DirSize(fs, dip);
    Below16(o);
    assert Contents(fs, dip)[o] == ByteAt(fs, dip, o) == Reached(fs, dip, o);
    forall x: nat { ByteIs(fs, dip, o, x); }
  }

  lemma EntryIs(fs: Fs, dip: nat, k: nat, ino: nat, name: Name)
    requires Tree(fs) && IsDir(fs, dip)
    ensures OnDisk(fs, dip, k, ino, name) <==> k < |EntriesOf(fs, dip)| && EntriesOf(fs, dip)[k] == Dirent(ino, name)
  {
    ContentsLength(fs, dip);
    if ENTRY * k + ENTRY <= fs.inode[dip].size {
      hide Tree, IsDir, ByteKept, Contents, EntryBytes, ByteOnly;
      var e := EntryBytes(Contents(fs, dip), k);
      forall i: nat | i < ENTRY
        ensures e[i] < 256 && ByteOnly(fs, dip, ENTRY * k + i, e[i])
      {
        EntryByte(fs, dip, k, i);
      }
      EntryTold(fs, dip, k, e, ino, name);
    }
  }

  lemma EntryTold(fs: Fs, dip: nat, k: nat, e: seq<nat>, ino: nat, name: Name)
    requires dip in fs.inode && 32 * k + 32 <= fs.inode[dip].size && |e| == 32
    requires forall i: nat | i < 32 :: e[i] < 256 && ByteOnly(fs, dip, 32 * k + i, e[i])
    ensures OnDisk(fs, dip, k, ino, name) <==> Decode(e) == Dirent(ino, name)
  {
    hide ByteKept;
    TextIs(e[2..], name);
    assert e[0] < 256 && e[1] < 256;
    assert 32 * k + 0 == 32 * k;
    forall i | 0 <= i < |name| && i < 30 ensures ByteKept(fs, dip, 32 * k + 2 + i, name[i]) <==> e[2..][i] == name[i] {
      assert 32 * k + (2 + i) == 32 * k + 2 + i;
    }
    if |name| < 30 { assert 32 * k + (2 + |name|) == 32 * k + 2 + |name| && e[2..][|name|] == e[2 + |name|]; }
  }

  /** A live entry is 32 such bytes of the directory. */
  lemma LiveOnDisk(fs: Fs, dip: nat, name: Name, ino: nat)
    requires Tree(fs) && IsDir(fs, dip)
    ensures Live(EntriesOf(fs, dip), name, ino) <==> ino != 0 && exists k: nat :: OnDisk(fs, dip, k, ino, name)
  {
    hide Tree, IsDir, EntriesOf, OnDisk;
    forall k: nat { EntryIs(fs, dip, k, ino, name); }
  }

  /** What a search answers: the number in the first entry with the name, 0 if there is none. */
  ghost predicate FoundOnDisk(fs: Fs, dip: nat, name: Name, ino: nat) {
    || (exists k: nat :: OnDisk(fs, dip, k, ino, name) && forall j: nat, i: nat | j < k :: !OnDisk(fs, dip, j, i, name))
    || (ino == 0 && forall k: nat, i: nat :: !OnDisk(fs, dip, k, i, name))
  }

  lemma FindOnDisk(fs: Fs, dip: nat, name: Name)
    requires Tree(fs) && IsDir(fs, dip)
    ensures FoundOnDisk(fs, dip, name, Find(EntriesOf(fs, dip), name))
  {
    hide Tree, Gapless, EntriesOf, OnDisk, First;
    var k := First(EntriesOf(fs, dip), name);
    forall j: nat, i: nat
      ensures OnDisk(fs, dip, j, i, name) <==> j < |EntriesOf(fs, dip)| && EntriesOf(fs, dip)[j] == Dirent(i, name)
    {
      EntryIs(fs, dip, j, i, name);
    }
    if k < |EntriesOf(fs, dip)| {
      assert OnDisk(fs, dip, k, EntriesOf(fs, dip)[k].ino, name);
    }
  }

  /** `find_entry`. */
  method FindEntry(sys: FileSystem, dip: nat, name: Name) returns (ino: nat)
    requires sys.Valid() && dip in sys.inode && (sys.inode[dip].dir ==> IsDir(sys.St(), dip))
    modifies sys`disk, sys`inode
    ensures sys.St() == old(sys.St())
    ensures ino == if sys.inode[dip].dir then Find(EntriesOf(sys.St(), dip), Cut(name)) else 0
    ensures sys.inode[dip].dir ==> FoundOnDisk(sys.St(), dip, if |name| > 12 then name[..12] else name, ino)
  {
    hide Tree, Lookup, Gapless, Contents, FoundOnDisk;
    if !sys.inode[dip].dir {
      return 0;
    }
    ghost var fs := sys.St();
    FindOnDisk(fs, dip, Cut(name));
    var found, i, z, j := Locate(sys, dip, Cut(name));
    if !found {
      return 0;
    }
    BlockEntries(fs, dip, i, j);
    ino := Decode(sys.disk[z][ENTRY * j..ENTRY * j + ENTRY]).ino;
  }

  /** `unlink_entry`. */
  method UnlinkEntry(sys: FileSystem, dip: nat, name: Name) returns (ino: nat)
    requires sys.Valid() && dip in sys.inode && (sys.inode[dip].dir ==> IsDir(sys.St(), dip))
    modifies sys`disk, sys`inode
    ensures sys.Valid() && OthersKept(old(sys.St()), sys.St(), dip)
    ensures ino == if sys.inode[dip].dir then Find(old(EntriesOf(sys.St(), dip)), Cut(name)) else 0
    ensures sys.inode[dip].dir ==> && IsDir(sys.St(), dip)
                                   && EntriesOf(sys.St(), dip) == Unlink(old(EntriesOf(sys.St(), dip)), Cut(name))
    ensures !sys.inode[dip].dir ==> sys.St() == old(sys.St())
  {
    hide Tree, Lookup, Gapless, Contents, OthersKept;
    ghost var fs := sys.St();
    SameKept(fs, dip);
    if !sys.inode[dip].dir {
      return 0;
    }
    var found, i, z, j := Locate(sys, dip, Cut(name));
    if !found {
      return 0;
    }
    BlockEntries(fs, dip, i, j);
    ino := Decode(sys.disk[z][ENTRY * j..ENTRY * j + ENTRY]).ino;
    Erased(fs, dip, i, j);
    sys.disk := sys.disk[z := Patched(sys.disk[z], ENTRY * j, [0, 0])];
  }

  lemma SameKept(fs: Fs, dip: nat)
    ensures OthersKept(fs, fs, dip)
  {
  }

  /** Writing two zero bytes over the inode number of an entry. */
  lemma Erased(fs: Fs, dip: nat, i: nat, j: nat)
    requires Tree(fs) && IsDir(fs, dip) && j < 32 && BLK * i + ENTRY * j + ENTRY <= fs.inode[dip].size
    ensures var z := Lookup(fs, dip, i);
            && 0 <= z < |fs.disk| && |fs.disk[z]| == BLK
            && var fs' := fs.(disk := fs.disk[z := Patched(fs.disk[z], ENTRY * j, [0, 0])]);
               && Tree(fs') && OthersKept(fs, fs', dip) && IsDir(fs', dip) && 32 * i + j < |EntriesOf(fs, dip)|
               && EntriesOf(fs', dip) == EntriesOf(fs, dip)[32 * i + j := Dirent(0, EntriesOf(fs, dip)[32 * i + j].name)]
  {
    hide Tree, Lookup, Contents, Spliced, OthersKept, Kept, Wrote, Grows, ZoneByte, Patched, EntryBytes;
    var off := BLK * i + ENTRY * j;
    BlockEntries(fs, dip, i, j);
    GaplessMapped(fs, dip, off);
    assert off / BLK == i && off % BLK == ENTRY * j;
    StartWrite(fs, dip, off, [0, 0]);
    GrowsSame(fs, DataPath(dip, i));
    WriteRun(fs, fs, fs, dip, off, [0, 0], 0, 2);
    assert [0, 0][0..2] == [0, 0];
    var z := Lookup(fs, dip, i);
    var fs' := fs.(disk := fs.disk[z := Patched(fs.disk[z], ENTRY * j, [0, 0])]);
    EndWrite(fs, fs', dip, off, [0, 0]);
    assert fs'.inode[dip := fs'.inode[dip].(size := fs.inode[dip].size)] == fs'.inode;
    ContentsLength(fs, dip);
    DeadEntry(Contents(fs, dip), 32 * i + j);
  }

  datatype Linked = Done | NotDir | Stuck

  /** `link_entry`; `junk` is what the local variable `de` holds before anything is read. */
  method LinkEntry(sys: FileSystem, dip: nat, name: Name, ino: nat, junk: seq<nat>) returns (r: Linked, ghost stored: Name)
    requires sys.Valid() && dip in sys.inode && (sys.inode[dip].dir ==> IsDir(sys.St(), dip))
    requires IsName(name) && ino < 0x1_0000 && |junk| == ENTRY && forall i | 0 <= i < ENTRY :: junk[i] < 256
    modifies sys`disk, sys`inode
    ensures r == NotDir <==> !old(sys.inode)[dip].dir
    ensures r == NotDir ==> sys.St() == old(sys.St())
    ensures r == Stuck ==> sys.NoZones() && FirstDead(old(EntriesOf(sys.St(), dip))) == |old(EntriesOf(sys.St(), dip))|
    ensures stored == Cut(name) <==> |name| <= NAMELEN
    ensures r == Done ==> && sys.Valid() && OthersKept(old(sys.St()), sys.St(), dip) && IsDir(sys.St(), dip)
                          && sys.inode[dip].dir
                          && EntriesOf(sys.St(), dip) == Link(old(EntriesOf(sys.St(), dip)), stored, ino)
  {
    hide Tree, Lookup, Gapless, Contents, OthersKept, Wrote, Spliced, ZoneByte, Decode, NewEntry, EntryBytes;
    ghost var fs := sys.St();
    NewEntryDecodes(junk, name, ino);
    stored := Decode(NewEntry(junk, name, ino)).name;
    if !sys.inode[dip].dir {
      return NotDir, stored;
    }
    DirSize(fs, dip);
    ContentsLength(fs, dip);
    ghost var c := Contents(fs, dip);
    var de := junk;
    var off := 0;
    ghost var k := 0;
    while off < sys.inode[dip].size
      invariant sys.St() == fs && off == ENTRY * k <= fs.inode[dip].size && |de| == ENTRY
      invariant forall i | 0 <= i < ENTRY :: de[i] < 256
      invariant forall i | 0 <= i < k :: Entries(c)[i].ino != 0
      decreases fs.inode[dip].size - off
    {
      Slots(k, fs.inode[dip].size / ENTRY);
      var got := sys.ReadI(dip, off, ENTRY);
      ReadEntry(fs, dip, k);
      assert got.data == c[ENTRY * k..ENTRY * k + ENTRY];
      de := got.data;
      if DIno(de) == 0 {
        break;
      }
      off := off + ENTRY;
      k := k + 1;
    }
    FirstDeadIs(Entries(c), k);
    NewEntryDecodes(de, name, ino);
    stored := Decode(NewEntry(de, name, ino)).name;
    NewEntryIsBytes(de, name, ino);
    var w := sys.WriteI(dip, off, NewEntry(de, name, ino));
    if w == Full {
      EntryMapped(fs, dip, k);
      return Stuck, stored;
    }
    assert NewEntry(de, name, ino)[..ENTRY] == NewEntry(de, name, ino);
    WholeEntry(c, k, NewEntry(de, name, ino));
    DirKept(fs, sys.St(), dip);
    SplicedSize(c, off, NewEntry(de, name, ino));
    r := Done;
  }

  /** All bytes of an existing entry are in blocks that are there. */
  lemma EntryMapped(fs: Fs, dip: nat, k: nat)
    requires Tree(fs) && IsDir(fs, dip)
    ensures ENTRY * k < fs.inode[dip].size ==>
              forall o: nat | ENTRY * k <= o < ENTRY * k + ENTRY :: Lookup(fs, dip, Block16(o)) != 0
  {
    hide Tree, Lookup, Gapless, Block16;
    if ENTRY * k < fs.inode[dip].size {
      Slots(k, fs.inode[dip].size / ENTRY);
      forall o: nat | ENTRY * k <= o < ENTRY * k + ENTRY ensures Lookup(fs, dip, Block16(o)) != 0 {
        GaplessMapped(fs, dip, o);
      }
    }
  }

  function DIno(de: seq<nat>): nat
    requires |de| == ENTRY
  {
    de[0] + 256 * de[1]
  }

  lemma ReadEntry(fs: Fs, dip: nat, k: nat)
    requires Tree(fs) && IsDir(fs, dip) && ENTRY * k + ENTRY <= fs.inode[dip].size
    ensures var c := Contents(fs, dip);
            && |c| == fs.inode[dip].size && k < |Entries(c)|
            && var e := c[ENTRY * k..ENTRY * k + ENTRY];
               DIno(e) == Entries(c)[k].ino && forall i | 0 <= i < ENTRY :: e[i] < 256
  {
    hide Tree, Lookup;
    var c := Contents(fs, dip);
    var e := EntryBytes(c, k);
    forall i | 0 <= i < ENTRY ensures e[i] < 256 {
      ByteBound(fs, dip, ENTRY * k + i);
    }
  }

  lemma ByteBound(fs: Fs, ino: nat, o: nat)
    requires Tree(fs)
    ensures ByteAt(fs, ino, o) < 256
  {
    hide Lookup;
    if Lookup(fs, ino, o / BLK) != 0 { DataBlock(fs, ino, o / BLK); }
  }

  lemma FirstDeadIs(es: seq<Dirent>, k: nat)
    requires k <= |es| && (k < |es| ==> es[k].ino == 0) && forall i | 0 <= i < k :: es[i].ino != 0
    ensures FirstDead(es) == k
  {
  }

  lemma NewEntryIsBytes(de: seq<nat>, name: Name, ino: nat)
    requires |de| == ENTRY && ino < 0x1_0000 && IsName(name) && forall i | 0 <= i < ENTRY :: de[i] < 256
    ensures forall i | 0 <= i < ENTRY :: NewEntry(de, name, ino)[i] < 256
  {
  }

  lemma DirKept(fs: Fs, fs': Fs, dip: nat)
    requires OthersKept(fs, fs', dip) && dip in fs.inode
    ensures dip in fs'.inode && fs'.inode[dip].dir == fs.inode[dip].dir
  {
  }

  lemma SplicedSize(c: seq<nat>, off: nat, data: seq<nat>)
    requires off <= |c|
    ensures |Spliced(c, off, data)| == if off + |data| > |c| then off + |data| else |c|
  {
  }

  // ---------------------------------------------------------------- link.c

  const DOT: nat := 46

  /** Names that `do_link` and `do_unlink` refuse. */
  predicate BadName(name: Name) {
    |name| == 0 || |name| >= NAMELEN || name == [DOT] || name == [DOT, DOT]
  }

  datatype DirOp = Add(name: Name, ino: nat) | Remove(name: Name)

  /** What an operation does to the map of names; directories cannot be removed. */
  ghost function Applied(m: map<Name, nat>, op: DirOp, dirs: set<nat>): map<Name, nat> {
    if BadName(op.name) then m
    else match op
      case Add(name, ino) => if name in m then m else m[name := ino]
      case Remove(name) => if name in m && m[name] in dirs then m else m - {name}
  }

  ghost predicate OpOk(op: DirOp) {
    IsName(op.name) && (op.Add? ==> 0 < op.ino < 0x1_0000)
  }

  ghost function Dirs(fs: Fs): set<nat> {
    set i | i in fs.inode && fs.inode[i].dir
  }

  /** The entry part of `do_link`. */
  method DoLink(sys: FileSystem, dip: nat, name: Name, ino: nat, junk: seq<nat>, ghost m: map<Name, nat>) returns (ok: bool)
    requires sys.Valid() && IsDir(sys.St(), dip) && sys.inode[dip].dir && Shows(EntriesOf(sys.St(), dip), m)
    requires IsName(name) && 0 < ino < 0x1_0000 && |junk| == ENTRY && forall i | 0 <= i < ENTRY :: junk[i] < 256
    modifies sys`disk, sys`inode
    ensures !ok ==> sys.NoZones()
    ensures ok ==> && sys.Valid() && IsDir(sys.St(), dip) && OthersKept(old(sys.St()), sys.St(), dip)
                   && Shows(EntriesOf(sys.St(), dip), Applied(m, Add(name, ino), Dirs(old(sys.St()))))
    ensures name in m || |name| == 0 || |name| > 11 || name == [46] || name == [46, 46] ==> ok && sys.St() == old(sys.St())
    ensures ok && !(name in m || |name| == 0 || |name| > 11 || name == [46] || name == [46, 46])
            ==> exists k: nat :: OnDisk(sys.St(), dip, k, ino, name)
  {
    hide Tree, OthersKept, Gapless, EntriesOf, Shows, First, FirstDead, Find, Link, Dirs;
    ghost var fs := sys.St();
    SameKept(fs, dip);
    if BadName(name) {
      return true;
    }
    FindShows(EntriesOf(fs, dip), m, name);
    MappedLive(EntriesOf(fs, dip), m, name);
    var was := FindEntry(sys, dip, name);
    if was != 0 {
      return true;
    }
    var r; ghost var stored;
    r, stored := LinkEntry(sys, dip, name, ino, junk);
    LinkShows(EntriesOf(fs, dip), m, name, ino);
    ok := r == Done;
    if ok {
      ShowsLive(EntriesOf(sys.St(), dip), m[name := ino], name);
      LiveOnDisk(sys.St(), dip, name, ino);
    }
  }

  lemma ShowsLive(es: seq<Dirent>, m: map<Name, nat>, name: Name)
    requires Shows(es, m)
    ensures name in m ==> Live(es, name, m[name])
    ensures name !in m ==> forall ino :: !Live(es, name, ino)
  {
  }

  lemma MappedLive(es: seq<Dirent>, m: map<Name, nat>, name: Name)
    requires Shows(es, m)
    ensures name in m ==> m[name] != 0
  {
    assert name in m ==> Live(es, name, m[name]);
  }

  /** The entry part of `do_unlink`: a directory is put back. That cannot fail, since a dead
      entry is there for it. */
  method DoUnlink(sys: FileSystem, dip: nat, name: Name, junk: seq<nat>, ghost m: map<Name, nat>)
    requires sys.Valid() && IsDir(sys.St(), dip) && sys.inode[dip].dir && Shows(EntriesOf(sys.St(), dip), m)
    requires IsName(name) && |junk| == ENTRY && forall i | 0 <= i < ENTRY :: junk[i] < 256
    modifies sys`disk, sys`inode
    ensures sys.Valid() && IsDir(sys.St(), dip) && OthersKept(old(sys.St()), sys.St(), dip)
    ensures Shows(EntriesOf(sys.St(), dip), Applied(m, Remove(name), Dirs(old(sys.St()))))
    ensures |name| == 0 || |name| > 11 || name == [46] || name == [46, 46] ==> sys.St() == old(sys.St())
    ensures name in m && !(|name| == 0 || |name| > 11 || name == [46] || name == [46, 46])
            ==> var dir := m[name] in old(sys.inode) && old(sys.inode)[m[name]].dir;
                if dir then exists k: nat :: OnDisk(sys.St(), dip, k, m[name], name)
                else forall k: nat, i: nat | i != 0 :: !OnDisk(sys.St(), dip, k, i, name)
  {
    hide Tree, OthersKept, Gapless, EntriesOf, Shows, First, FirstDead, Find, Unlink, Link, OnDisk, Live;
    ghost var fs := sys.St();
    ghost var es := EntriesOf(fs, dip);
    SameKept(fs, dip);
    if BadName(name) {
      return;
    }
    FindShows(es, m, name);
    MappedLive(es, m, name);
    UnlinkShows(es, m, name);
    var ino := UnlinkEntry(sys, dip, name);
    ghost var fs1 := sys.St();
    DirKept(fs, fs1, dip);
    DirsKept(fs, fs1, dip);
    if ino == 0 {
      return;
    }
    if ino in sys.inode && sys.inode[ino].dir {
      InoBound(fs, dip, name);
      UnlinkUndone(es, m, name);
      UnlinkLeavesDead(es, name);
      var r; ghost var stored;
      r, stored := LinkEntry(sys, dip, name, ino, junk);
      OthersTrans(fs, fs1, sys.St(), dip);
      ShowsLive(EntriesOf(sys.St(), dip), m, name);
      LiveOnDisk(sys.St(), dip, name, ino);
    } else {
      ShowsLive(EntriesOf(sys.St(), dip), m - {name}, name);
      forall k: nat, i: nat | i != 0 ensures !OnDisk(sys.St(), dip, k, i, name) { LiveOnDisk(sys.St(), dip, name, i); }
    }
  }

  lemma DirsKept(fs: Fs, fs': Fs, dip: nat)
    requires OthersKept(fs, fs', dip)
    ensures Dirs(fs') == Dirs(fs)
  {
  }

  lemma OthersTrans(fs: Fs, fs1: Fs, fs2: Fs, dip: nat)
    requires OthersKept(fs, fs1, dip) && OthersKept(fs1, fs2, dip)
    ensures OthersKept(fs, fs2, dip)
  {
    hide Contents, Gapless;
  }

  lemma UnlinkLeavesDead(es: seq<Dirent>, name: Name)
    ensures Find(es, name) != 0 ==> FirstDead(Unlink(es, name)) < |Unlink(es, name)|
  {
    var k := First(es, name);
    assert k < |es| ==> Unlink(es, name)[k].ino == 0;
  }

  /** Inode numbers in entries have 16 bits. */
  lemma InoBound(fs: Fs, dip: nat, name: Name)
    requires Tree(fs) && IsDir(fs, dip)
    ensures Find(EntriesOf(fs, dip), name) < 0x1_0000
  {
    hide Tree, Gapless, Contents;
    var k := First(EntriesOf(fs, dip), name);
    DirLength(fs, dip);
    if k < |EntriesOf(fs, dip)| {
      Slots(k, |EntriesOf(fs, dip)|);
      ReadEntry(fs, dip, k);
    }
  }

  // ---------------------------------------------------------------- runs

  ghost function Replay(m: map<Name, nat>, ops: seq<DirOp>, dirs: set<nat>): map<Name, nat>
    decreases |ops|
  {
    if ops == [] then m else Replay(Applied(m, ops[0], dirs), ops[1..], dirs)
  }

  /** A directory is a map from names to inode numbers over every run of links and unlinks; a
      run stops short only when the zones run out. */
  method RunNames(sys: FileSystem, dip: nat, ops: seq<DirOp>, junk: seq<nat>, ghost m: map<Name, nat>) returns (all: bool)
    requires sys.Valid() && IsDir(sys.St(), dip) && sys.inode[dip].dir && Shows(EntriesOf(sys.St(), dip), m)
    requires (forall i | 0 <= i < |ops| :: OpOk(ops[i])) && |junk| == ENTRY && forall i | 0 <= i < ENTRY :: junk[i] < 256
    modifies sys`disk, sys`inode
    ensures !all ==> sys.NoZones()
    ensures all ==> && sys.Valid() && IsDir(sys.St(), dip) && OthersKept(old(sys.St()), sys.St(), dip)
                    && Shows(EntriesOf(sys.St(), dip), Replay(m, ops, Dirs(old(sys.St()))))
    decreases |ops|
  {
    hide Tree, OthersKept, Gapless, EntriesOf, Shows, Dirs, Applied;
    ghost var fs := sys.St();
    if ops == [] {
      SameKept(fs, dip);
      return true;
    }
    match ops[0] {
      case Add(name, ino) =>
        all := DoLink(sys, dip, name, ino, junk, m);
        if !all {
          return;
        }
      case Remove(name) =>
        DoUnlink(sys, dip, name, junk, m);
    }
    ghost var fs1 := sys.St();
    DirKept(fs, fs1, dip);
    DirsKept(fs, fs1, dip);
    all := RunNames(sys, dip, ops[1..], junk, Applied(m, ops[0], Dirs(fs)));
    if all { OthersTrans(fs, fs1, sys.St(), dip); }
  }

  /** What `find_entry` answers after any run, for every name of at most 12 bytes. */
  method RunThenFind(sys: FileSystem, dip: nat, ops: seq<DirOp>, name: Name, junk: seq<nat>, ghost m: map<Name, nat>)
    returns (all: bool, ino: nat)
    requires sys.Valid() && IsDir(sys.St(), dip) && sys.inode[dip].dir && Shows(EntriesOf(sys.St(), dip), m)
    requires (forall i | 0 <= i < |ops| :: OpOk(ops[i])) && |junk| == ENTRY && forall i | 0 <= i < ENTRY :: junk[i] < 256
    requires |name| <= NAMELEN
    modifies sys`disk, sys`inode
    ensures !all ==> sys.NoZones()
    ensures all ==> var m' := Replay(m, ops, Dirs(old(sys.St()))); ino == if name in m' then m'[name] else 0
  {
    hide Tree, OthersKept, Gapless, EntriesOf, Shows, Dirs, Applied, Find;
    ghost var fs, dirs := sys.St(), Dirs(sys.St());
    all := RunNames(sys, dip, ops, junk, m);
    if !all {
      return false, 0;
    }
    DirKept(fs, sys.St(), dip);
    FindShows(EntriesOf(sys.St(), dip), Replay(m, ops, dirs), name);
    ino := FindEntry(sys, dip, name);
  }
}
