/** Runs of writes and reads: the files are a map from inode numbers to byte sequences. */
module FileRuns {
  import opened BlockMap
  import opened FileBytes
  import opened Files

  datatype WriteOp = WriteOp(ino: nat, off: nat, data: seq<nat>)

  ghost predicate AllGapless(fs: Fs) {
    forall i | i in fs.inode :: Gapless(fs, i)
  }

  ghost function AllContents(fs: Fs): map<nat, seq<nat>> {
    map i | i in fs.inode :: Contents(fs, i)
  }

  /** A write that starts no further than the end of the file. */
  predicate Fitting(m: map<nat, seq<nat>>, op: WriteOp) {
    && op.ino in m && op.off <= |m[op.ino]| && op.off <= MAX_FILESIZ && op.off + |op.data| < 0x1_0000_0000
    && forall i | 0 <= i < |op.data| :: op.data[i] < 256
  }

  function Applied(m: map<nat, seq<nat>>, op: WriteOp): map<nat, seq<nat>>
    requires Fitting(m, op)
  {
    m[op.ino := Spliced(m[op.ino], op.off, op.data[..Accepted(op.off, |op.data|)])]
  }

  predicate AllFitting(m: map<nat, seq<nat>>, ops: seq<WriteOp>) {
    ops == [] || (Fitting(m, ops[0]) && AllFitting(Applied(m, ops[0]), ops[1..]))
  }

  function Replay(m: map<nat, seq<nat>>, ops: seq<WriteOp>): map<nat, seq<nat>>
    requires AllFitting(m, ops)
  {
    if ops == [] then m else Replay(Applied(m, ops[0]), ops[1..])
  }

  /** One write, seen on the map of all files. */
  lemma OneWrite(fs: Fs, fs': Fs, op: WriteOp)
    requires AllGapless(fs) && Fitting(AllContents(fs), op) && OthersKept(fs, fs', op.ino)
    requires op.ino in fs'.inode && Gapless(fs', op.ino)
    requires Contents(fs', op.ino) == Spliced(Contents(fs, op.ino), op.off, op.data[..Accepted(op.off, |op.data|)])
    ensures AllGapless(fs') && AllContents(fs') == Applied(AllContents(fs), op)
  {
    hide Gapless, Contents, Spliced;
  }

  /** Any run of writes to any files does to the map of files what it does to byte sequences;
      it stops short only when the zones run out. */
  method WriteAll(sys: FileSystem, ops: seq<WriteOp>) returns (all: bool)
    requires sys.Valid() && AllGapless(sys.St()) && AllFitting(AllContents(sys.St()), ops)
    modifies sys`disk, sys`inode
    ensures !all ==> sys.NoZones()
    ensures all ==> && sys.Valid() && AllGapless(sys.St())
                    && AllContents(sys.St()) == Replay(old(AllContents(sys.St())), ops)
    decreases |ops|
  {
    hide Tree, Gapless, Contents, Spliced, OthersKept, Wrote;
    if ops == [] {
      return true;
    }
    var op := ops[0];
    ghost var fs := sys.St();
    assert |AllContents(fs)[op.ino]| == fs.inode[op.ino].size by { ContentsSize(fs, op.ino); }
    assert Gapless(fs, op.ino);
    var r := sys.WriteI(op.ino, op.off, op.data);
    if r == Full {
      return false;
    }
    KeysKept(fs, sys.St(), op.ino);
    OneWrite(fs, sys.St(), op);
    all := WriteAll(sys, ops[1..]);
  }

  lemma ContentsSize(fs: Fs, ino: nat)
    requires ino in fs.inode
    ensures |Contents(fs, ino)| == fs.inode[ino].size
  {
  }

  lemma KeysKept(fs: Fs, fs': Fs, ino: nat)
    requires OthersKept(fs, fs', ino)
    ensures fs'.inode.Keys == fs.inode.Keys
  {
  }

  /** What `readi` returns after a run of writes, for any file and any range. */
  method WriteThenRead(sys: FileSystem, ops: seq<WriteOp>, ino: nat, off: nat, cnt: nat) returns (r: Read, all: bool)
    requires sys.Valid() && AllGapless(sys.St()) && AllFitting(AllContents(sys.St()), ops)
    requires ino in sys.inode && off + cnt < 0x1_0000_0000
    modifies sys`disk, sys`inode
    ensures !all ==> sys.NoZones()
    ensures all ==> var m := Replay(old(AllContents(sys.St())), ops);
                    && ino in m
                    && r == if off > |m[ino]| then TooBig
                            else Bytes(m[ino][off..off + Available(|m[ino]|, off, cnt)])
  {
    hide Tree, Gapless, Contents, Spliced, OthersKept, Wrote, Lookup, ZoneByte;
    all := WriteAll(sys, ops);
    if !all {
      return TooBig, false;
    }
    ghost var m := AllContents(sys.St());
    ReplayKeys(old(AllContents(sys.St())), ops);
    assert ino in m;
    ContentsSize(sys.St(), ino);
    r := sys.ReadI(ino, off, cnt);
  }

  lemma {:induction false} ReplayKeys(m: map<nat, seq<nat>>, ops: seq<WriteOp>)
    requires AllFitting(m, ops)
    ensures Replay(m, ops).Keys == m.Keys
  {
    if ops != [] { ReplayKeys(Applied(m, ops[0]), ops[1..]); }
  }
}
