/** The block cache and the disk driver as they are: buffers chained through `av_*` links,
    which serve either the free list or the disk queue, and `b_*` links, the device's list.
    Every routine is shown to do to the linked lists what `BufferCache` says. */
module CacheLinks {
  import opened BufferCache
  import opened CacheInvariant
  import opened CacheGets
  import opened Rings
  import opened Sequences

  const FREE: nat := NBUF           // node of bfreelist
  const HD: nat := NBUF + 1         // node of hdtab
  const NODES: nat := NBUF + 2

  // ---------------------------------------------------------------- the av links

  /** The free list and the disk queue are well-formed rings without a common buffer. */
  ghost predicate AvLinks(next: seq<nat>, prev: seq<nat>, free: seq<nat>, queue: seq<nat>) {
    && |next| == |prev| == NODES && Below(free, NBUF) && Below(queue, NBUF)
    && Ring(FREE, next, prev, free) && Ring(HD, next, prev, queue)
    && (forall b | b in free :: b !in queue)
  }

  lemma AvTake(next: seq<nat>, prev: seq<nat>, free: seq<nat>, queue: seq<nat>, k: nat)
    requires AvLinks(next, prev, free, queue) && k < |free|
    ensures free[k] < |prev| == |next| && prev[free[k]] < |next| && next[free[k]] < |prev|
    ensures var b := free[k];
            AvLinks(next[prev[b] := next[b]], prev[next[b] := prev[b]], Without(free, b), queue)
  {
    hide Ring, Node, Without;
    RingDelete(FREE, next, prev, free, k);
    assert Distinct(free) by { RingDistinct(FREE, next, prev, free); }
    WithoutAt(free, k);
    NodeMember(FREE, free, k);
    NodeMember(FREE, free, k + 2);
    var b := free[k];
    assert FREE !in queue by { RingDistinct(HD, next, prev, queue); }
    RingFrame(HD, next, prev, next[prev[b] := next[b]], prev[next[b] := prev[b]], queue);
  }

  lemma RingDistinct(h: nat, next: seq<nat>, prev: seq<nat>, q: seq<nat>)
    requires Ring(h, next, prev, q)
    ensures Distinct(q) && h !in q
  {
  }

  lemma AvAppend(next: seq<nat>, prev: seq<nat>, free: seq<nat>, queue: seq<nat>, b: nat)
    requires AvLinks(next, prev, free, queue) && b < NBUF && b !in free && b !in queue
    ensures |prev| == |next| == NODES && prev[FREE] < |next|
    ensures AvLinks(next[b := FREE][prev[FREE] := b], prev[b := prev[FREE]][FREE := b], free + [b], queue)
  {
    RingInsert(FREE, next, prev, free, |free|, b);
    NodeMember(FREE, free, |free|);
    assert free[..|free|] + [b] + free[|free|..] == free + [b];
    var p := prev[FREE];
    assert p == Node(FREE, free, |free|);
    RingFrame(HD, next, prev, next[b := FREE][p := b], prev[b := p][FREE := b], queue);
  }

  lemma AvPush(next: seq<nat>, prev: seq<nat>, free: seq<nat>, queue: seq<nat>, b: nat)
    requires AvLinks(next, prev, free, queue) && b < NBUF && b !in free && b !in queue
    ensures |prev| == |next| == NODES && next[HD] < |next|
    ensures AvLinks(next[b := next[HD]][HD := b], prev[b := HD][next[HD] := b], free, [b] + queue)
  {
    RingInsert(HD, next, prev, queue, 0, b);
    NodeMember(HD, queue, 1);
    assert queue[..0] + [b] + queue[0..] == [b] + queue;
    var n := next[HD];
    RingFrame(FREE, next, prev, next[b := n][HD := b], prev[b := HD][n := b], free);
  }

  lemma AvPop(next: seq<nat>, prev: seq<nat>, free: seq<nat>, queue: seq<nat>)
    requires AvLinks(next, prev, free, queue) && queue != []
    ensures var b := queue[|queue| - 1];
            && |prev| == |next| == NODES && b < NBUF && b == prev[HD] && prev[b] < NODES && next[b] < NODES
            && AvLinks(next[prev[b] := next[b]], prev[next[b] := prev[b]], free, queue[..|queue| - 1])
  {
    var k := |queue| - 1;
    RingDelete(HD, next, prev, queue, k);
    NodeMember(HD, queue, k);
    NodeMember(HD, queue, k + 2);
    assert queue[..k] + queue[k + 1..] == queue[..k];
    var b := queue[k];
    assert prev[Node(HD, queue, k + 2)] == Node(HD, queue, k + 1);
    RingFrame(FREE, next, prev, next[prev[b] := next[b]], prev[next[b] := prev[b]], free);
  }

  lemma AvEmpty(next: seq<nat>, prev: seq<nat>, free: seq<nat>, queue: seq<nat>)
    requires AvLinks(next, prev, free, queue)
    ensures |next| == |prev| == NODES && Below(free, NBUF) && Below(queue, NBUF)
    ensures next[FREE] == FREE <==> free == []
    ensures free != [] ==> next[FREE] == free[0]
    ensures next[HD] == HD <==> queue == []
    ensures queue != [] ==> prev[HD] == queue[|queue| - 1]
  {
    assert next[Node(FREE, free, 0)] == Node(FREE, free, 1);
    assert next[Node(HD, queue, 0)] == Node(HD, queue, 1);
    assert prev[Node(HD, queue, |queue| + 1)] == Node(HD, queue, |queue|);
  }

  // ---------------------------------------------------------------- the b links

  /** The device's list is a well-formed ring; the other buffers are linked to themselves. */
  ghost predicate BLinks(next: seq<nat>, prev: seq<nat>, cached: seq<nat>) {
    && |next| == |prev| == NODES && Below(cached, NBUF) && Ring(HD, next, prev, cached)
    && (forall b: nat | b < NBUF && b !in cached :: next[b] == b && prev[b] == b)
  }

  /** Unlinking b from the list it is on, be it that of the device or its own. */
  lemma BUnlink(next: seq<nat>, prev: seq<nat>, cached: seq<nat>, b: nat)
    requires BLinks(next, prev, cached) && b < NBUF
    ensures |next| == |prev| == NODES && prev[b] < NODES && next[b] < NODES
    ensures var next', prev' := next[prev[b] := next[b]], prev[next[b] := prev[b]];
            && |next'| == |prev'| == NODES && Ring(HD, next', prev', Without(cached, b)) && b !in Without(cached, b)
            && (forall x: nat | x < NBUF && x !in cached && x != b :: next'[x] == x && prev'[x] == x)
  {
    if b in cached {
      var k :| 0 <= k < |cached| && cached[k] == b;
      RingDelete(HD, next, prev, cached, k);
      WithoutAt(cached, k);
      NodeMember(HD, cached, k);
      NodeMember(HD, cached, k + 2);
    } else {
      RingFrame(HD, next, prev, next[b := b], prev[b := b], cached);
    }
  }

  lemma BMove(next: seq<nat>, prev: seq<nat>, cached: seq<nat>, b: nat)
    requires BLinks(next, prev, cached) && b < NBUF
    ensures |next| == |prev| == NODES && prev[b] < NODES && next[b] < NODES
    ensures var n1, p1 := next[prev[b] := next[b]], prev[next[b] := prev[b]];
            && |n1| == |p1| == NODES && n1[HD] < NODES
            && BLinks(n1[b := n1[HD]][HD := b], p1[b := HD][n1[HD] := b], [b] + Without(cached, b))
  {
    hide Ring, Without;
    BUnlink(next, prev, cached, b);
    var n1, p1, q := next[prev[b] := next[b]], prev[next[b] := prev[b]], Without(cached, b);
    RingInsert(HD, n1, p1, q, 0, b);
    NodeMember(HD, q, 1);
    assert q[..0] + [b] + q[0..] == [b] + q;
  }

  lemma BStep(next: seq<nat>, prev: seq<nat>, cached: seq<nat>, i: nat)
    requires BLinks(next, prev, cached) && i <= |cached|
    ensures |next| == NODES && Node(HD, cached, i) < NODES && next[Node(HD, cached, i)] == Node(HD, cached, i + 1)
    ensures Node(HD, cached, i + 1) == HD <==> i == |cached|
    ensures i < |cached| ==> cached[i] < NBUF
  {
    assert next[Node(HD, cached, i)] == Node(HD, cached, i + 1);
    assert i < |cached| ==> cached[i] in cached;
  }

  lemma ActiveQueue(s: Sys)
    requires Inv(s)
    ensures s.active <==> s.queue != []
  {
  }

  class Cache {
    var buf: seq<Buf>
    var avNext: seq<nat>
    var avPrev: seq<nat>
    var bNext: seq<nat>
    var bPrev: seq<nat>
    var freeWanted: bool
    var active: bool
    var cmd: Cmd
    var disk: map<nat, Block>
    var procs: seq<Proc>
    ghost var st: Sys           // the state these links and flags stand for

    /** The fields show the state `st`, with its lists as rings. */
    ghost predicate Shows()
      reads this
    {
      && |buf| == NBUF && buf == st.buf && procs == st.procs && disk == st.disk
      && freeWanted == st.freeWanted && active == st.active && cmd == st.cmd
      && AvLinks(avNext, avPrev, st.free, st.queue) && BLinks(bNext, bPrev, st.cached)
    }

    ghost predicate Valid()
      reads this
    {
      Shows() && Inv(st)
    }

    lemma InBounds()
      requires Shows()
      ensures Wf(st)
    {
    }

    /** `buf_init`: every buffer, linked to itself and without identity, is released in turn. */
    constructor (nproc: nat, platters: map<nat, Block>)
      ensures Valid() && st == Initial(nproc, platters)
    {
      buf := seq(NBUF, _ => Buf(CLEAR, NODEV, 0, []));
      avNext, avPrev := seq(NODES, i => i), seq(NODES, i => i);
      bNext, bPrev := seq(NODES, i => i), seq(NODES, i => i);
      freeWanted, active, cmd, disk := false, false, NoCmd, platters;
      procs := seq(nproc, _ => Proc(Idle, Awake));
      st := Initial(nproc, platters).(free := []);
      new;
      var i := 0;
      while i < NBUF
        invariant i <= NBUF && Shows() && |st.free| == i && forall j | 0 <= j < i :: st.free[j] == j
        invariant st == Initial(nproc, platters).(free := st.free)
        modifies this`avNext, this`avPrev, this`st
      {
        Append(i);
        st := st.(free := st.free + [i]);
        i := i + 1;
      }
      assert st.free == Initial(nproc, platters).free;
      InitialInv(nproc, platters);
    }

    // -------------------------------------------------------------- buf.c, searching

    /** `incore`: follow the `b` links from the device and back to it. */
    method FindInCore(dev: nat, blkno: nat) returns (found: bool, b: nat)
      requires Shows()
      ensures Wf(st)
      ensures found <==> InCore(st, dev, blkno, 0) < |st.cached|
      ensures found ==> b == st.cached[InCore(st, dev, blkno, 0)] && b < NBUF
    {
      hide AvLinks, BLinks;
      InBounds();
      BStep(bNext, bPrev, st.cached, 0);
      b := bNext[HD];
      ghost var i := 0;
      while b != HD
        invariant 0 <= i <= |st.cached| && b == Node(HD, st.cached, i + 1)
        invariant b == HD <==> i == |st.cached|
        invariant InCore(st, dev, blkno, 0) == InCore(st, dev, blkno, i)
        decreases |st.cached| - i
      {
        BStep(bNext, bPrev, st.cached, i);
        if buf[b].dev == dev && buf[b].blkno == blkno {
          return true, b;
        }
        BStep(bNext, bPrev, st.cached, i + 1);
        b := bNext[b];
        i := i + 1;
      }
      found := false;
    }

    /** `wakeup`: make every process runnable that sleeps on c. */
    method Wakeup(c: Chan)
      modifies this`procs
      ensures procs == WokenUp(old(procs), c)
    {
      var i := 0;
      while i < |procs|
        invariant i <= |procs| == |old(procs)|
        invariant forall p | 0 <= p < i :: procs[p] == WokenUp(old(procs), c)[p]
        invariant forall p | i <= p < |procs| :: procs[p] == old(procs)[p]
      {
        if procs[i].chan == c {
          procs := procs[i := procs[i].(chan := Awake)];
        }
        i := i + 1;
      }
    }

    // -------------------------------------------------------------- list surgery

    /** The unlinking part of `notavail`. */
    method Unlink(b: nat)
      requires AvLinks(avNext, avPrev, st.free, st.queue) && b in st.free
      modifies this`avNext, this`avPrev
      ensures AvLinks(avNext, avPrev, Without(st.free, b), st.queue)
    {
      hide AvLinks, Without;
      ghost var k :| 0 <= k < |st.free| && st.free[k] == b;
      AvTake(avNext, avPrev, st.free, st.queue, k);
      var p, n := avPrev[b], avNext[b];
      avNext := avNext[p := n];
      avPrev := avPrev[n := p];
    }

    /** The last part of `brelse`: link b in at the tail of the free list. */
    method Append(b: nat)
      requires AvLinks(avNext, avPrev, st.free, st.queue) && b < NBUF && b !in st.free && b !in st.queue
      modifies this`avNext, this`avPrev
      ensures AvLinks(avNext, avPrev, st.free + [b], st.queue)
    {
      hide AvLinks;
      AvAppend(avNext, avPrev, st.free, st.queue, b);
      var last := avPrev[FREE];
      avNext := avNext[b := FREE];
      avPrev := avPrev[b := last];
      avNext := avNext[last := b];
      avPrev := avPrev[FREE := b];
    }

    /** The first part of `hd_request`: link b in at the head of the disk queue. */
    method Enqueue(b: nat)
      requires AvLinks(avNext, avPrev, st.free, st.queue) && b < NBUF && b !in st.free && b !in st.queue
      modifies this`avNext, this`avPrev
      ensures AvLinks(avNext, avPrev, st.free, [b] + st.queue)
    {
      hide AvLinks;
      AvPush(avNext, avPrev, st.free, st.queue, b);
      var n := avNext[HD];
      avPrev := avPrev[b := HD];
      avNext := avNext[b := n];
      avPrev := avPrev[n := b];
      avNext := avNext[HD := b];
    }

    /** The first part of `do_hd_intr`: unlink the tail of the disk queue. */
    method Dequeue() returns (b: nat)
      requires AvLinks(avNext, avPrev, st.free, st.queue) && st.queue != []
      modifies this`avNext, this`avPrev
      ensures b < NBUF && b == st.queue[|st.queue| - 1]
      ensures AvLinks(avNext, avPrev, st.free, st.queue[..|st.queue| - 1])
    {
      hide AvLinks;
      AvPop(avNext, avPrev, st.free, st.queue);
      b := avPrev[HD];
      var p, n := avPrev[b], avNext[b];
      avNext := avNext[p := n];
      avPrev := avPrev[n := p];
    }

    /** `getblk`: take b from the list it is on and prepend it to the device's list. */
    method Relink(b: nat)
      requires BLinks(bNext, bPrev, st.cached) && b < NBUF
      modifies this`bNext, this`bPrev
      ensures BLinks(bNext, bPrev, [b] + Without(st.cached, b))
    {
      hide BLinks, Without;
      BMove(bNext, bPrev, st.cached, b);
      var p, n := bPrev[b], bNext[b];
      bNext := bNext[p := n];
      bPrev := bPrev[n := p];
      var first := bNext[HD];
      bPrev := bPrev[b := HD];
      bNext := bNext[b := first];
      bPrev := bPrev[first := b];
      bNext := bNext[HD := b];
    }

    // -------------------------------------------------------------- hd.c

    /** `hd_start`: take the tail of the queue and issue its command. */
    method HdStart()
      requires Shows()
      modifies this`active, this`cmd, this`st
      ensures Shows() && Wf(old(st)) && st == Start(old(st))
    {
      hide AvLinks, BLinks, Wf;
      InBounds();
      AvEmpty(avNext, avPrev, st.free, st.queue);
      StartBound(st);
      ghost var s := st;
      st := Start(st);
      if avNext[HD] == HD {
        return;
      }
      var b := avPrev[HD];
      active := true;
      if buf[b].flag.read {
        cmd := ReadCmd(buf[b].blkno);
      } else {
        cmd := WriteCmd(buf[b].blkno, buf[b].data);
      }
    }

    /** `hd_request`: prepend to the queue, start the drive if it rests. */
    method HdRequest(b: nat)
      requires Shows() && b < NBUF && b !in st.free && b !in st.queue
      modifies this`avNext, this`avPrev, this`active, this`cmd, this`st
      ensures Shows() && Wf(old(st)) && st == Request(old(st), b)
    {
      hide AvLinks, BLinks, Wf, Start;
      InBounds();
      Enqueue(b);
      st := st.(queue := [b] + st.queue, submitted := st.submitted + [b]);
      if !active {
        HdStart();
      }
    }

    /** `iodone`. */
    method IoDone(b: nat)
      requires b < |buf|
      modifies this`buf, this`procs
      ensures buf == old(buf)[b := old(buf)[b].(flag := old(buf)[b].flag.(done := true, wanted := false))]
      ensures procs == WokenUp(old(procs), OnBuf(b))
    {
      buf := buf[b := buf[b].(flag := buf[b].flag.(done := true, wanted := false))];
      Wakeup(OnBuf(b));
    }

    /** The transfer the drive was told to make, as seen when it interrupts. */
    method Transfer(b: nat)
      requires b < |buf|
      modifies this`disk, this`buf, this`cmd
      ensures cmd == NoCmd
      ensures disk == if old(cmd).WriteCmd? then old(disk)[old(cmd).blkno := old(cmd).data] else old(disk)
      ensures buf == old(buf)[b := old(buf)[b].(data :=
                if old(cmd).ReadCmd? && old(buf)[b].flag.read then At(old(disk), old(cmd).blkno) else old(buf)[b].data)]
    {
      if cmd.WriteCmd? {
        disk := disk[cmd.blkno := cmd.data];
      } else if cmd.ReadCmd? && buf[b].flag.read {
        buf := buf[b := buf[b].(data := At(disk, cmd.blkno))];
      }
      cmd := NoCmd;
    }

    /** `do_hd_intr`: the drive has finished the command of the buffer at the tail. */
    method DoHdIntr()
      requires Valid()
      modifies this
      ensures Valid() && Wf(old(st)) && st == Interrupted(old(st))
    {
      hide AvLinks, BLinks, Inv, WokenUp, At, Start, Wf;
      InterruptedInv(st);
      ActiveQueue(st);
      if !active {
        return;
      }
      active := false;
      ghost var n := |st.queue| - 1;
      var b := Dequeue();
      Transfer(b);
      ghost var moved := buf[b];
      IoDone(b);
      Overwrite(st.buf, b, moved, buf[b]);
      st := st.(active := false, cmd := NoCmd, queue := st.queue[..n], completed := st.completed + [b], buf := buf,
                edited := st.edited - {b}, disk := disk, procs := procs);
      HdStart();
    }

    // -------------------------------------------------------------- buf.c

    /** `notavail`: unlink from the free list and mark busy. */
    method NotAvail(b: nat)
      requires Shows() && b in st.free && b < NBUF
      modifies this`avNext, this`avPrev, this`buf, this`st
      ensures Shows() && b < |old(st).buf|
      ensures st == SetFlag(old(st), b, old(st).buf[b].flag.(busy := true)).(free := Without(old(st).free, b))
    {
      hide AvLinks, BLinks, Without;
      Unlink(b);
      buf := buf[b := buf[b].(flag := buf[b].flag.(busy := true))];
      st := st.(buf := buf, free := Without(st.free, b));
    }

    /** `getblk`, eviction: the head of the free list becomes the buffer of another block. */
    method Evict(dev: nat, blkno: nat) returns (b: nat)
      requires Shows() && st.free != []
      modifies this`avNext, this`avPrev, this`bNext, this`bPrev, this`buf, this`st
      ensures Shows() && b == old(st).free[0] < NBUF && Wf(old(st)) && st == Evicted(old(st), b, dev, blkno)
    {
      hide AvLinks, BLinks, Wf, Without;
      InBounds();
      AvEmpty(avNext, avPrev, st.free, st.queue);
      b := avNext[FREE];
      WithoutHead(st.free);
      Unlink(b);
      Relink(b);
      buf := buf[b := Buf(BUSY, dev, blkno, buf[b].data)];
      st := Evicted(st, b, dev, blkno);
    }

    /** The rest of `bread` once it has the buffer: read the block unless it is valid. */
    method Acquire(p: nat, b: nat, fetch: bool)
      requires Shows() && p < |procs| && b < NBUF && b !in st.free && b !in st.queue
      modifies this`procs, this`buf, this`avNext, this`avPrev, this`active, this`cmd, this`st
      ensures Shows() && Wf(old(st)) && st == Acquired(old(st), p, b, fetch)
    {
      hide AvLinks, BLinks, Request, Wf;
      InBounds();
      ghost var s := st;
      st := st.(owner := st.owner[b := p]);
      if fetch && !buf[b].flag.done {
        buf := buf[b := buf[b].(flag := buf[b].flag.(read := true))];
        st := st.(buf := buf);
        HdRequest(b);
        procs := procs[p := Proc(Waiting(b), OnBuf(b))];
        st := st.(procs := s.procs[p := Proc(Waiting(b), OnBuf(b))]);
        RequestKeeps(SetFlag(s.(owner := s.owner[b := p]), b, s.buf[b].flag.(read := true)), b);
      } else {
        procs := procs[p := Proc(Idle, Awake)];
        st := st.(procs := procs);
      }
    }

    /** `getblk`, cases 1 and 2: the block is in buffer b. */
    method Hit(p: nat, b: nat, dev: nat, blkno: nat, fetch: bool)
      requires Shows() && p < |procs| && b < NBUF
      requires !buf[b].flag.busy ==> b in st.free && b !in st.queue && b !in Without(st.free, b)
      modifies this
      ensures Shows() && Wf(old(st))
      ensures old(buf)[b].flag.busy ==>
                st == SetFlag(old(st), b, old(buf)[b].flag.(wanted := true)).(
                        procs := old(procs)[p := Proc(Getting(dev, blkno, fetch), OnBuf(b))])
      ensures !old(buf)[b].flag.busy ==>
                var s1 := SetFlag(old(st), b, old(buf)[b].flag.(busy := true)).(free := Without(old(st).free, b));
                Wf(s1) && st == Acquired(s1, p, b, fetch)
    {
      hide AvLinks, BLinks, Acquired, Wf, Without;
      InBounds();
      if buf[b].flag.busy {
        buf := buf[b := buf[b].(flag := buf[b].flag.(wanted := true))];
        procs := procs[p := Proc(Getting(dev, blkno, fetch), OnBuf(b))];
        st := st.(buf := buf, procs := procs);
      } else {
        NotAvail(b);
        InBounds();
        Acquire(p, b, fetch);
      }
    }

    /** `getblk`, cases 3 and 4: the block is not cached. */
    method Miss(p: nat, dev: nat, blkno: nat, fetch: bool)
      requires Shows() && p < |procs|
      requires st.free != [] ==> st.free[0] !in st.queue && st.free[0] !in st.free[1..]
      modifies this
      ensures Shows() && Wf(old(st))
      ensures old(st).free == [] ==>
                st == old(st).(freeWanted := true, procs := old(procs)[p := Proc(Getting(dev, blkno, fetch), OnFree)])
      ensures old(st).free != [] ==>
                var b := old(st).free[0];
                b < |old(st).buf| && Wf(Evicted(old(st), b, dev, blkno)) &&
                st == Acquired(Evicted(old(st), b, dev, blkno), p, b, fetch)
    {
      hide AvLinks, BLinks, Acquired, Wf, Without;
      InBounds();
      AvEmpty(avNext, avPrev, st.free, st.queue);
      if avNext[FREE] == FREE {
        freeWanted := true;
        procs := procs[p := Proc(Getting(dev, blkno, fetch), OnFree)];
        st := st.(freeWanted := true, procs := procs);
      } else {
        var b := Evict(dev, blkno);
        InBounds();
        Acquire(p, b, fetch);
      }
    }

    /** `getblk` (and `bread`, with `fetch`) from the loop label to the next sleep or return. */
    method GetBlk(p: nat, dev: nat, blkno: nat, fetch: bool)
      requires Valid() && p < |procs| && !procs[p].pc.Waiting? && ROOTDEV <= dev < ROOTDEV + 0x100
      modifies this
      ensures Valid() && Wf(old(st)) && st == Attempt(old(st), p, dev, blkno, fetch)
      ensures Asks(st, p, dev, blkno, fetch) || Gets(st, p, dev, blkno, fetch)
    {
      hide AvLinks, BLinks, Inv, Acquired, Wf, Without, Evicted, Asks, Gets;
      InBounds();
      ghost var s := st;
      AttemptGets(s, p, dev, blkno, fetch);
      AttemptInv(s, p, dev, blkno, fetch);
      var found, b := FindInCore(dev, blkno);
      if found {
        if !buf[b].flag.busy { IdleBuffer(s, b); }
        Hit(p, b, dev, blkno, fetch);
      } else {
        if st.free != [] { IdleHead(s); }
        Miss(p, dev, blkno, fetch);
      }
    }

    /** `iowait`, entered again after a wakeup. */
    method IoWait(p: nat)
      requires Valid() && p < |procs| && procs[p].pc.Waiting? && procs[p].chan == Awake
      modifies this`procs, this`st
      ensures Valid() && Wf(old(st)) && st == Next(old(st), Resume(p))
    {
      hide AvLinks, BLinks, Inv, Wf;
      InBounds();
      var b := procs[p].pc.b;
      WaitAgain(st, p, b);
      if !buf[b].flag.done {
        procs := procs[p := Proc(Waiting(b), OnBuf(b))];
      } else {
        procs := procs[p := Proc(Idle, Awake)];
      }
      st := st.(procs := procs);
    }

    /** `bwrite` by the holder p. */
    method BWrite(p: nat, b: nat)
      requires Valid() && Holds(st, p, b)
      modifies this
      ensures Valid() && Wf(old(st)) && st == Written(old(st), p, b)
    {
      hide AvLinks, BLinks, Inv, Request, Wf, Issued;
      InBounds();
      ghost var s := st;
      WrittenInv(s, p, b);
      HeldApart(s, p, b);
      var f := buf[b].flag;
      buf := buf[b := buf[b].(flag := f.(read := false, done := false, error := false, dirty := false))];
      st := st.(buf := buf);
      RequestKeeps(st, b);
      HdRequest(b);
      if !f.async {
        procs := procs[p := Proc(Waiting(b), OnBuf(b))];
      }
      st := st.(latest := s.latest[s.buf[b].blkno := s.buf[b].data], procs := procs);
    }

    /** `brelse`, first part: wake the processes that want b or any buffer. */
    method WakeWaiters(b: nat)
      requires b < |buf|
      modifies this`procs, this`freeWanted
      ensures !freeWanted
      ensures var ps := if buf[b].flag.wanted then WokenUp(old(procs), OnBuf(b)) else old(procs);
              procs == if old(freeWanted) then WokenUp(ps, OnFree) else ps
    {
      if buf[b].flag.wanted {
        Wakeup(OnBuf(b));
      }
      if freeWanted {
        freeWanted := false;
        Wakeup(OnFree);
      }
    }

    /** `brelse` by the holder p. */
    method BRelse(p: nat, b: nat)
      requires Valid() && Holds(st, p, b)
      modifies this
      ensures Valid() && Wf(old(st)) && st == Released(old(st), b)
    {
      hide AvLinks, BLinks, Inv, WokenUp, Wf, Holds;
      ReleasedInv(st, p, b);
      HeldApart(st, p, b);
      WakeWaiters(b);
      var f := buf[b].flag;
      if f.error {
        buf := buf[b := buf[b].(dev := NODEV)];
      }
      Overwrite(st.buf, b, buf[b], buf[b].(flag := f.(wanted := false, busy := false, dirty := false, async := false)));
      buf := buf[b := buf[b].(flag := f.(wanted := false, busy := false, dirty := false, async := false))];
      Append(b);
      st := Released(st, b);
    }
  }

  lemma StartBound(s: Sys)
    requires Wf(s)
    ensures s.queue != [] ==> s.queue[|s.queue| - 1] < |s.buf|
  {
  }

  /** A request touches no process. */
  lemma RequestKeeps(s: Sys, b: nat)
    requires Wf(s) && b < |s.buf|
    ensures Request(s, b).procs == s.procs && Request(s, b).latest == s.latest
  {
  }

  lemma Overwrite(q: seq<Buf>, b: nat, x: Buf, y: Buf)
    requires b < |q|
    ensures q[b := x][b := y] == q[b := y]
  {
  }

  lemma WithoutHead(q: seq<nat>)
    requires q != []
    ensures Without(q, q[0]) == q[1..]
  {
  }

  lemma IdleBuffer(s: Sys, b: nat)
    requires Inv(s) && b < |s.buf| && !s.buf[b].flag.busy
    ensures b in s.free && b !in s.queue && b !in Without(s.free, b)
  {
  }

  lemma IdleHead(s: Sys)
    requires Inv(s) && s.free != []
    ensures s.free[0] !in s.queue && s.free[0] !in s.free[1..] && s.free[0] < |s.buf|
  {
    assert s.free[0] in s.free;
  }

  lemma HeldApart(s: Sys, p: nat, b: nat)
    requires Inv(s) && Holds(s, p, b)
    ensures b < |s.buf| && b !in s.free && b !in s.queue && Wf(s)
  {
    HeldNotQueued(s, p, b);
  }
}
