/** The block cache and the disk driver as a transition system.

    A step is what one process does between two sleeps (the kernel is not preemptive), or
    one disk interrupt.  The free list, the disk queue and the device's list of cached
    buffers are sequences here; `CacheLinks` shows that the linked lists implement them. */
module BufferCache {
  import opened Sequences

  const NBUF: nat := 2048
  const NODEV: nat := 0
  const ROOTDEV: nat := 0x100

  type Block = seq<int>

  datatype Flags = Flags(read: bool, done: bool, error: bool, busy: bool, wanted: bool, dirty: bool, async: bool)

  const CLEAR := Flags(false, false, false, false, false, false, false)
  const BUSY := CLEAR.(busy := true)

  datatype Buf = Buf(flag: Flags, dev: nat, blkno: nat, data: Block)

  /** What a process waits for: `p_chan`. */
  datatype Chan = Awake | OnBuf(b: nat) | OnFree

  /** Where a process is in the cache code. */
  datatype Pc =
    | Idle                                          // outside, holding some buffers
    | Getting(dev: nat, blkno: nat, fetch: bool)    // in getblk; fetch: called from bread
    | Waiting(b: nat)                               // in iowait

  datatype Proc = Proc(pc: Pc, chan: Chan)

  /** The command the drive is executing. */
  datatype Cmd = NoCmd | ReadCmd(blkno: nat) | WriteCmd(blkno: nat, data: Block)

  datatype Sys = Sys(
    buf: seq<Buf>,
    free: seq<nat>,             // free list, oldest first
    queue: seq<nat>,            // disk queue, newest first
    cached: seq<nat>,           // buffers of the device, newest first
    freeWanted: bool,           // B_WANTED of the free list
    active: bool,               // d_active
    cmd: Cmd,
    disk: map<nat, Block>,
    procs: seq<Proc>,
    owner: map<nat, nat>,       // who holds each busy buffer
    edited: set<nat>,           // held buffers changed since they last agreed with the disk
    latest: map<nat, Block>,    // what was last written to each block
    submitted: seq<nat>, completed: seq<nat>)

  predicate Below(q: seq<nat>, n: nat) {
    forall i | 0 <= i < |q| :: q[i] < n
  }

  function At(disk: map<nat, Block>, blkno: nat): Block {
    if blkno in disk then disk[blkno] else []
  }

  // ---------------------------------------------------------------- steps

  function SetFlag(s: Sys, b: nat, f: Flags): Sys
    requires b < |s.buf|
  {
    s.(buf := s.buf[b := s.buf[b].(flag := f)])
  }

  function WokenUp(procs: seq<Proc>, c: Chan): (ps: seq<Proc>)
    ensures |ps| == |procs|
    ensures forall p | 0 <= p < |ps| :: ps[p] == if procs[p].chan == c then procs[p].(chan := Awake) else procs[p]
  {
    seq(|procs|, p requires 0 <= p < |procs| => if procs[p].chan == c then procs[p].(chan := Awake) else procs[p])
  }

  /** q with the first occurrence of b taken out. */
  function Without(q: seq<nat>, b: nat): (r: seq<nat>)
    ensures forall i | 0 <= i < |r| :: r[i] in q
    ensures forall x | x in q && x != b :: x in r
    ensures Distinct(q) ==> Distinct(r) && b !in r
    ensures b !in q ==> r == q
  {
    if q == [] then [] else if q[0] == b then q[1..] else [q[0]] + Without(q[1..], b)
  }

  /** `incore`: the first buffer of the device's list that holds the block. */
  function InCore(s: Sys, dev: nat, blkno: nat, i: nat): (k: nat)
    requires i <= |s.cached| && Below(s.cached, |s.buf|)
    ensures i <= k <= |s.cached|
    ensures k < |s.cached| ==> s.buf[s.cached[k]].dev == dev && s.buf[s.cached[k]].blkno == blkno
    ensures forall j | i <= j < k :: s.buf[s.cached[j]].dev != dev || s.buf[s.cached[j]].blkno != blkno
    decreases |s.cached| - i
  {
    if i == |s.cached| || (s.buf[s.cached[i]].dev == dev && s.buf[s.cached[i]].blkno == blkno) then i
    else InCore(s, dev, blkno, i + 1)
  }

  /** `hd_start`: issue the command of the oldest request. */
  function Start(s: Sys): Sys
    requires s.queue != [] ==> s.queue[|s.queue| - 1] < |s.buf|
  {
    if s.queue == [] then s
    else
      var b := s.buf[s.queue[|s.queue| - 1]];
      s.(active := true, cmd := if b.flag.read then ReadCmd(b.blkno) else WriteCmd(b.blkno, b.data))
  }

  /** `hd_request`: prepend to the queue, and start the drive if it rests. */
  function Request(s: Sys, b: nat): Sys
    requires b < |s.buf| && Below(s.queue, |s.buf|)
  {
    var s1 := s.(queue := [b] + s.queue, submitted := s.submitted + [b]);
    if s.active then s1 else Start(s1)
  }

  predicate Wf(s: Sys) {
    Below(s.free, |s.buf|) && Below(s.queue, |s.buf|) && Below(s.cached, |s.buf|)
  }

  /** Process p now holds buffer b; `bread` goes on to read the block if need be. */
  function Acquired(s: Sys, p: nat, b: nat, fetch: bool): Sys
    requires Wf(s) && p < |s.procs| && b < |s.buf|
  {
    var s1 := s.(owner := s.owner[b := p]);
    if fetch && !s.buf[b].flag.done then
      var s2 := Request(SetFlag(s1, b, s.buf[b].flag.(read := true)), b);
      s2.(procs := s.procs[p := Proc(Waiting(b), OnBuf(b))])
    else
      s1.(procs := s.procs[p := Proc(Idle, Awake)])
  }

  /** `getblk` from its loop label to its next sleep or its return. */
  function Attempt(s: Sys, p: nat, dev: nat, blkno: nat, fetch: bool): Sys
    requires Wf(s) && p < |s.procs|
  {
    var k := InCore(s, dev, blkno, 0);
    if k < |s.cached| then
      var b := s.cached[k];
      if s.buf[b].flag.busy then
        SetFlag(s, b, s.buf[b].flag.(wanted := true)).(procs := s.procs[p := Proc(Getting(dev, blkno, fetch), OnBuf(b))])
      else
        Acquired(Taken(s, b), p, b, fetch)
    else if s.free == [] then
      s.(freeWanted := true, procs := s.procs[p := Proc(Getting(dev, blkno, fetch), OnFree)])
    else
      Acquired(Evicted(s, s.free[0], dev, blkno), p, s.free[0], fetch)
  }

  /** `notavail`: the buffer leaves the free list and is busy. */
  function Taken(s: Sys, b: nat): Sys
    requires b < |s.buf|
  {
    SetFlag(s, b, s.buf[b].flag.(busy := true)).(free := Without(s.free, b))
  }

  /** The buffer taken from the free list changes its identity. */
  function Evicted(s: Sys, b: nat, dev: nat, blkno: nat): Sys
    requires Wf(s) && b < |s.buf| && s.free != []
  {
    s.(buf := s.buf[b := Buf(BUSY, dev, blkno, s.buf[b].data)], free := s.free[1..],
       cached := [b] + Without(s.cached, b))
  }

  /** `bwrite` by the holder. */
  function Written(s: Sys, p: nat, b: nat): Sys
    requires Wf(s) && p < |s.procs| && b < |s.buf|
  {
    var f := s.buf[b].flag;
    var s1 := Request(SetFlag(s, b, f.(read := false, done := false, error := false, dirty := false)), b);
    s1.(latest := s.latest[s.buf[b].blkno := s.buf[b].data],
        procs := if f.async then s.procs else s.procs[p := Proc(Waiting(b), OnBuf(b))])
  }

  /** `brelse` by the holder. */
  function Released(s: Sys, b: nat): Sys
    requires Wf(s) && b < |s.buf|
  {
    var f := s.buf[b].flag;
    var ps := if f.wanted then WokenUp(s.procs, OnBuf(b)) else s.procs;
    s.(procs := if s.freeWanted then WokenUp(ps, OnFree) else ps,
       freeWanted := false,
       buf := s.buf[b := s.buf[b].(dev := if f.error then NODEV else s.buf[b].dev,
                                   flag := f.(wanted := false, busy := false, dirty := false, async := false))],
       free := s.free + [b], owner := s.owner - {b}, edited := s.edited - {b})
  }

  /** `do_hd_intr`: the drive has finished its command. */
  function Interrupted(s: Sys): Sys
    requires Wf(s)
  {
    if !s.active || s.queue == [] then s
    else
      var n := |s.queue| - 1;
      var b := s.queue[n];
      var buf' := s.buf[b].(
        flag := s.buf[b].flag.(done := true, wanted := false),
        data := if s.cmd.ReadCmd? && s.buf[b].flag.read then At(s.disk, s.cmd.blkno) else s.buf[b].data);
      Start(s.(active := false, cmd := NoCmd, queue := s.queue[..n], completed := s.completed + [b],
               buf := s.buf[b := buf'], edited := s.edited - {b},
               disk := if s.cmd.WriteCmd? then s.disk[s.cmd.blkno := s.cmd.data] else s.disk,
               procs := WokenUp(s.procs, OnBuf(b))))
  }

  datatype Step =
    | Begin(p: nat, dev: nat, blkno: nat, fetch: bool)    // call getblk or bread
    | Resume(p: nat)                                      // run again after a wakeup
    | Edit(p: nat, b: nat, data: Block)
    | Write(p: nat, b: nat)
    | Release(p: nat, b: nat)
    | Interrupt

  predicate Holds(s: Sys, p: nat, b: nat) {
    p < |s.procs| && s.procs[p].pc.Idle? && b in s.owner && s.owner[b] == p && b < |s.buf|
  }

  /** A process acts only when awake, on buffers it holds, and keeps the rule that a buffer
      edited in memory is written before it is released. */
  predicate Enabled(s: Sys, step: Step) {
    match step
    case Begin(p, dev, _, _) => p < |s.procs| && s.procs[p].pc.Idle? && ROOTDEV <= dev < ROOTDEV + 0x100
    case Resume(p) => p < |s.procs| && s.procs[p].chan.Awake? && !s.procs[p].pc.Idle?
    case Edit(p, b, _) => Holds(s, p, b)
    case Write(p, b) => Holds(s, p, b)
    case Release(p, b) => Holds(s, p, b) && !(b in s.edited && s.buf[b].flag.done)
    case Interrupt => true
  }

  function Next(s: Sys, step: Step): Sys
    requires Wf(s) && Enabled(s, step)
  {
    match step
    case Begin(p, dev, blkno, fetch) => Attempt(s, p, dev, blkno, fetch)
    case Resume(p) =>
      (match s.procs[p].pc
       case Getting(dev, blkno, fetch) => Attempt(s, p, dev, blkno, fetch)
       case Waiting(b) =>
         if b < |s.buf| && s.buf[b].flag.done then s.(procs := s.procs[p := Proc(Idle, Awake)])
         else s.(procs := s.procs[p := Proc(Waiting(b), OnBuf(b))])
       case Idle => s)
    case Edit(p, b, data) => s.(buf := s.buf[b := s.buf[b].(data := data)], edited := s.edited + {b})
    case Write(p, b) => Written(s, p, b)
    case Release(p, b) => Released(s, b)
    case Interrupt => Interrupted(s)
  }
}
