/** The cache agrees with a flat disk: a block that is read has the contents last written
    to it, whatever hits, evictions and waits come in between. */
module CacheCoherence {
  import opened BufferCache
  import opened CacheInvariant

  ghost predicate PendingWrite(s: Sys, blkno: nat) {
    exists b :: b in s.queue && b < |s.buf| && !s.buf[b].flag.read && s.buf[b].blkno == blkno
  }

  /** The drive ignores the minor device number, so agreement is about one device. */
  ghost predicate OneDevice(s: Sys) {
    && (forall b: nat | b < |s.buf| :: s.buf[b].dev == NODEV || s.buf[b].dev == ROOTDEV)
    && (forall b: nat | b < |s.buf| && b in s.owner :: s.buf[b].dev == ROOTDEV)
    && (forall p: nat | p < |s.procs| && s.procs[p].pc.Getting? :: s.procs[p].pc.dev == ROOTDEV)
  }

  ghost predicate Coherent(s: Sys) {
    && OneDevice(s)
    && (forall b: nat | b < |s.buf| && s.buf[b].dev != NODEV && s.buf[b].flag.done && b !in s.edited ::
          s.buf[b].data == At(s.disk, s.buf[b].blkno))
    && (forall b | b in s.queue && b < |s.buf| && !s.buf[b].flag.read :: At(s.latest, s.buf[b].blkno) == s.buf[b].data)
    && (forall k: nat | !PendingWrite(s, k) :: At(s.latest, k) == At(s.disk, k))
    && (forall p: nat | p < |s.procs| && s.procs[p].pc.Waiting? && s.procs[p].pc.b !in s.queue :: s.procs[p].pc.b !in s.edited)
  }

  // ---------------------------------------------------------------- what the holder of a block reads

  /** No other buffer can hold the block of a held one. */
  lemma SoleBuffer(s: Sys, b: nat, b': nat)
    requires Keyed(s) && OneDevice(s) && b < |s.buf| && b' < |s.buf| && b in s.owner
    requires s.buf[b'].dev != NODEV
    ensures s.buf[b'].blkno == s.buf[b].blkno ==> b' == b
  {
  }

  /** Queued buffers are held. */
  lemma QueuedHeld(s: Sys, b: nat)
    requires Placed(s) && b in s.queue
    ensures b < |s.buf| && b in s.owner
  {
  }

  /** A process that holds a valid, unedited buffer sees what was last written to its block. */
  lemma ReadsLatest(s: Sys, p: nat, b: nat)
    requires Inv(s) && Coherent(s) && Holds(s, p, b) && s.buf[b].flag.done && b !in s.edited
    ensures s.buf[b].data == At(s.latest, s.buf[b].blkno)
  {
    hide Placed, Keyed, Driven, InOrder, NoLostWakeup;
    HeldNotQueued(s, p, b);
    NothingPending(s, b);
  }

  lemma NothingPending(s: Sys, b: nat)
    requires Placed(s) && Keyed(s) && OneDevice(s) && b in s.owner && b < |s.buf| && b !in s.queue
    ensures !PendingWrite(s, s.buf[b].blkno)
  {
    forall b' | b' in s.queue ensures b' < |s.buf| && s.buf[b'].blkno != s.buf[b].blkno {
      QueuedHeld(s, b');
      SoleBuffer(s, b, b');
    }
  }

  // ---------------------------------------------------------------- steps keep the agreement

  /** Queued writes stay queued. */
  lemma PendingStays(s: Sys, s': Sys)
    requires forall x | x in s.queue && x < |s.buf| && !s.buf[x].flag.read ::
               x in s'.queue && x < |s'.buf| && !s'.buf[x].flag.read && s'.buf[x].blkno == s.buf[x].blkno
    ensures forall k: nat :: PendingWrite(s, k) ==> PendingWrite(s', k)
  {
    forall k: nat | PendingWrite(s, k) ensures PendingWrite(s', k) {
      var x :| x in s.queue && x < |s.buf| && !s.buf[x].flag.read && s.buf[x].blkno == k;
      assert x in s'.queue && x < |s'.buf| && !s'.buf[x].flag.read && s'.buf[x].blkno == k;
    }
  }

  /** Steps that move no data and change no identity. */
  lemma SameBlocks(s: Sys, s': Sys)
    requires Coherent(s) && OneDevice(s') && |s'.buf| == |s.buf| && |s'.procs| == |s.procs|
    requires s'.queue == s.queue && s'.disk == s.disk && s'.latest == s.latest && s'.edited == s.edited
    requires forall b: nat | b < |s.buf| ::
               && s'.buf[b].dev == s.buf[b].dev && s'.buf[b].blkno == s.buf[b].blkno && s'.buf[b].data == s.buf[b].data
               && s'.buf[b].flag.done == s.buf[b].flag.done && s'.buf[b].flag.read == s.buf[b].flag.read
    requires forall p: nat | p < |s.procs| && s'.procs[p].pc.Waiting? ::
               s'.procs[p].pc == s.procs[p].pc || s'.procs[p].pc.b in s.queue
    ensures Coherent(s')
  {
    PendingStays(s, s');
  }

  lemma RecycledCoherent(s: Sys, p: nat, blkno: nat)
    requires Placed(s) && Coherent(s) && p < |s.procs| && s.free != []
    ensures Coherent(Recycled(s, p, ROOTDEV, blkno))
  {
    var s', b := Recycled(s, p, ROOTDEV, blkno), s.free[0];
    FreeHead(s);
    PendingStays(s, s');
  }

  lemma IssuedReadCoherent(s: Sys, p: nat, b: nat, f: Flags)
    requires Wf(s) && Coherent(s) && CanIssue(s, p, b, f) && f.read && b !in s.queue
    ensures Coherent(Issued(s, p, b, f))
  {
    hide PendingWrite, At, Below;
    var s' := Issued(s, p, b, f);
    assert forall x :: x in s'.queue <==> x == b || x in s.queue;
    PendingStays(s, s');
  }

  lemma WrittenCoherent(s: Sys, s': Sys, p: nat, b: nat)
    requires Placed(s) && Keyed(s) && Coherent(s) && Holds(s, p, b) && b !in s.queue
    requires |s'.buf| == |s.buf| && s'.buf == s.buf[b := s'.buf[b]]
    requires s'.buf[b] == s.buf[b].(flag := s.buf[b].flag.(read := false, done := false))
    requires s'.queue == [b] + s.queue && s'.procs == s.procs[p := Proc(Waiting(b), OnBuf(b))]
    requires s'.disk == s.disk && s'.edited == s.edited && s'.owner == s.owner
    requires s'.latest == s.latest[s.buf[b].blkno := s.buf[b].data]
    ensures Coherent(s')
  {
    hide Placed, Keyed;
    assert forall x :: x in s'.queue <==> x == b || x in s.queue;
    forall x | x in s'.queue && x < |s'.buf| && !s'.buf[x].flag.read ensures At(s'.latest, s'.buf[x].blkno) == s'.buf[x].data {
      if x != b {
        QueuedHeld(s, x);
        SoleBuffer(s, b, x);
      }
    }
    PendingStays(s, s');
    assert PendingWrite(s', s.buf[b].blkno) by {
      assert b in s'.queue && b < |s'.buf| && !s'.buf[b].flag.read;
    }
  }

  lemma ReleasedCoherent(s: Sys, p: nat, b: nat)
    requires Wf(s) && Keyed(s) && Coherent(s) && Holds(s, p, b) && !(b in s.edited && s.buf[b].flag.done)
    ensures Coherent(Released(s, b))
  {
    var s' := Released(s, b);
    PendingStays(s, s');
  }

  lemma EditCoherent(s: Sys, p: nat, b: nat, data: Block)
    requires Inv(s) && Coherent(s) && Holds(s, p, b) && b !in s.queue
    ensures Coherent(s.(buf := s.buf[b := s.buf[b].(data := data)], edited := s.edited + {b}))
  {
    hide Placed, Keyed, Driven, InOrder;
    var s' := s.(buf := s.buf[b := s.buf[b].(data := data)], edited := s.edited + {b});
    PendingStays(s, s');
    forall q: nat | q < |s.procs| && s.procs[q].pc.Waiting? && s.procs[q].pc.b !in s'.queue ensures s.procs[q].pc.b !in s'.edited {
      assert Minded(s, q);
    }
  }

  /** The transfer that the interrupt completes is the one the drive was told to make. */
  lemma InterruptedCoherent(s: Sys)
    requires Inv(s) && Coherent(s) && s.active
    ensures Wf(s) && Coherent(Interrupted(s))
  {
    hide InOrder, NoLostWakeup;
    var s', n := Interrupted(s), |s.queue| - 1;
    var b := s.queue[n];
    assert b in s.queue;
    QueuedHeld(s, b);
    forall x ensures x in s'.queue <==> x in s.queue && x != b {
      if x in s'.queue { var i :| 0 <= i < n && s'.queue[i] == x; assert s.queue[i] == x; }
      if x in s.queue && x != b { var i :| 0 <= i < |s.queue| && s.queue[i] == x; assert s'.queue[i] == x; }
    }
    InterruptedData(s, s', b);
  }

  lemma InterruptedData(s: Sys, s': Sys, b: nat)
    requires Wf(s) && Keyed(s) && Placed(s) && Coherent(s) && s.active && s.queue != [] && s' == Interrupted(s)
    requires b == s.queue[|s.queue| - 1] && b < |s.buf| && b in s.owner && s.cmd == CmdOf(s.buf[b])
    requires forall x :: x in s'.queue <==> x in s.queue && x != b
    ensures Coherent(s')
  {
    hide Placed, Keyed;
    InterruptedClean(s, s', b);
    forall k: nat | k != s.buf[b].blkno ensures PendingWrite(s, k) ==> PendingWrite(s', k) {
      PendingExcept(s, s', b, k);
    }
    if s.buf[b].flag.read {
      PendingStays(s, s');
    }
  }

  /** Valid buffers agree with the disk after the transfer of b. */
  lemma InterruptedClean(s: Sys, s': Sys, b: nat)
    requires Wf(s) && Keyed(s) && Coherent(s) && s.active && s.queue != [] && s' == Interrupted(s)
    requires b == s.queue[|s.queue| - 1] && b < |s.buf| && b in s.owner && s.cmd == CmdOf(s.buf[b])
    ensures forall x: nat | x < |s'.buf| && s'.buf[x].dev != NODEV && s'.buf[x].flag.done && x !in s'.edited ::
              s'.buf[x].data == At(s'.disk, s'.buf[x].blkno)
  {
    hide Keyed, PendingWrite;
    forall x: nat | x < |s'.buf| && s'.buf[x].dev != NODEV && s'.buf[x].flag.done && x !in s'.edited
      ensures s'.buf[x].data == At(s'.disk, s'.buf[x].blkno)
    {
      if x != b { SoleBuffer(s, b, x); }
    }
  }

  lemma PendingExcept(s: Sys, s': Sys, b: nat, k: nat)
    requires b < |s.buf| == |s'.buf| && k != s.buf[b].blkno
    requires forall x | x in s.queue && x != b :: x in s'.queue
    requires forall x: nat | x < |s.buf| && x != b :: s'.buf[x] == s.buf[x]
    ensures PendingWrite(s, k) ==> PendingWrite(s', k)
  {
    if PendingWrite(s, k) {
      var x :| x in s.queue && x < |s.buf| && !s.buf[x].flag.read && s.buf[x].blkno == k;
      assert x in s'.queue && x < |s'.buf| && !s'.buf[x].flag.read && s'.buf[x].blkno == k;
    }
  }

  // ---------------------------------------------------------------- any step of one device

  predicate UsesRoot(step: Step) {
    step.Begin? ==> step.dev == ROOTDEV
  }

  lemma AcquiredCoherent(s: Sys, g: Sys, s': Sys, p: nat, b: nat, fetch: bool)
    requires Wf(s) && p < |s.procs| && b < |s.buf| && s' == Acquired(s, p, b, fetch)
    requires g == s.(owner := s.owner[b := p], procs := s.procs[p := Proc(Idle, Awake)]) && Inv(g) && Coherent(g)
    ensures Coherent(s')
  {
    hide Inv, Coherent;
    if fetch && !s.buf[b].flag.done {
      var f := s.buf[b].flag.(read := true);
      HeldFree(g, p, b);
      IssuedReadCoherent(g, p, b, f);
      assert s.procs[p := Proc(Idle, Awake)][p := Proc(Waiting(b), OnBuf(b))] == s.procs[p := Proc(Waiting(b), OnBuf(b))];
      assert s' == Issued(g, p, b, f);
    }
  }

  lemma HeldFree(s: Sys, p: nat, b: nat)
    requires Inv(s) && Holds(s, p, b)
    ensures b !in s.queue && Placed(s) && Keyed(s) && Wf(s)
  {
    HeldNotQueued(s, p, b);
  }

  lemma SleepCoherent(s: Sys, s': Sys, p: nat, b: nat, blkno: nat, fetch: bool, c: Chan)
    requires Coherent(s) && p < |s.procs| && b < |s.buf|
    requires |s'.buf| == |s.buf|
    requires s' == SetFlag(s, b, s'.buf[b].flag).(procs := s.procs[p := Proc(Getting(ROOTDEV, blkno, fetch), c)])
    requires s'.buf[b].flag == s.buf[b].flag.(wanted := s'.buf[b].flag.wanted)
    ensures Coherent(s')
  {
    hide PendingWrite;
    SameBlocks(s, s');
  }

  lemma SleepFreeCoherent(s: Sys, p: nat, blkno: nat, fetch: bool)
    requires Coherent(s) && p < |s.procs|
    ensures Coherent(s.(freeWanted := true, procs := s.procs[p := Proc(Getting(ROOTDEV, blkno, fetch), OnFree)]))
  {
    hide PendingWrite;
    SameBlocks(s, s.(freeWanted := true, procs := s.procs[p := Proc(Getting(ROOTDEV, blkno, fetch), OnFree)]));
  }

  lemma GrabbedCoherent(s: Sys, p: nat, b: nat)
    requires Coherent(s) && p < |s.procs| && b < |s.buf| && s.buf[b].dev == ROOTDEV
    ensures Coherent(Grabbed(s, p, b))
  {
    hide PendingWrite;
    SameBlocks(s, Grabbed(s, p, b));
  }

  lemma AttemptCoherent(s: Sys, p: nat, blkno: nat, fetch: bool)
    requires Inv(s) && Coherent(s) && p < |s.procs| && !s.procs[p].pc.Waiting?
    ensures Wf(s) && Coherent(Attempt(s, p, ROOTDEV, blkno, fetch))
  {
    hide Placed, Keyed, Driven, NoLostWakeup, InOrder, Coherent, Acquired, Without;
    WfOf(s);
    var k := InCore(s, ROOTDEV, blkno, 0);
    var s' := Attempt(s, p, ROOTDEV, blkno, fetch);
    if k < |s.cached| {
      var b := s.cached[k];
      if s.buf[b].flag.busy {
        SleepCoherent(s, s', p, b, blkno, fetch, OnBuf(b));
      } else {
        GrabbedInv(s, p, b);
        GrabbedCoherent(s, p, b);
        AcquiredCoherent(Taken(s, b), Grabbed(s, p, b), s', p, b, fetch);
      }
    } else if s.free == [] {
      SleepFreeCoherent(s, p, blkno, fetch);
    } else {
      RecycledInv(s, p, ROOTDEV, blkno);
      RecycledCoherent(s, p, blkno);
      AcquiredCoherent(Evicted(s, s.free[0], ROOTDEV, blkno), Recycled(s, p, ROOTDEV, blkno), s', p, s.free[0], fetch);
    }
  }

  lemma WaitCoherent(s: Sys, p: nat, b: nat, pc: Pc, c: Chan)
    requires Coherent(s) && p < |s.procs| && s.procs[p].pc == Waiting(b) && (pc == Idle || pc == Waiting(b))
    ensures Coherent(s.(procs := s.procs[p := Proc(pc, c)]))
  {
    hide PendingWrite;
    SameBlocks(s, s.(procs := s.procs[p := Proc(pc, c)]));
  }

  lemma WriteCoherent(s: Sys, p: nat, b: nat)
    requires Inv(s) && Coherent(s) && Wf(s) && Holds(s, p, b)
    ensures Coherent(Written(s, p, b))
  {
    hide Placed, Keyed, Driven, NoLostWakeup, InOrder, Coherent;
    HeldFree(s, p, b);
    WrittenInv(s, p, b);
    WrittenCoherent(s, Written(s, p, b), p, b);
  }

  lemma NextCoherent(s: Sys, step: Step)
    requires Inv(s) && Coherent(s) && Enabled(s, step) && UsesRoot(step)
    ensures Wf(s) && Coherent(Next(s, step))
  {
    hide Inv, Coherent, Attempt, Interrupted, Written, Released;
    InvParts(s);
    match step {
      case Begin(p, dev, blkno, fetch) => AttemptCoherent(s, p, blkno, fetch);
      case Resume(p) =>
        match s.procs[p].pc {
          case Getting(dev, blkno, fetch) =>
            RootOnly(s, p);
            AttemptCoherent(s, p, blkno, fetch);
          case Waiting(b) =>
            WaitCoherent(s, p, b, Idle, Awake);
            WaitCoherent(s, p, b, Waiting(b), OnBuf(b));
          case Idle =>
        }
      case Edit(p, b, data) =>
        HeldFree(s, p, b);
        EditCoherent(s, p, b, data);
      case Write(p, b) => WriteCoherent(s, p, b);
      case Release(p, b) => ReleasedCoherent(s, p, b);
      case Interrupt => if s.active { InterruptedCoherent(s); } else { IdleInterrupt(s); }
    }
  }

  lemma InvParts(s: Sys)
    requires Inv(s)
    ensures Wf(s) && Keyed(s) && NoLostWakeup(s)
  {
  }

  lemma RootOnly(s: Sys, p: nat)
    requires Coherent(s) && p < |s.procs| && s.procs[p].pc.Getting?
    ensures s.procs[p].pc.dev == ROOTDEV
  {
  }

  lemma IdleInterrupt(s: Sys)
    requires Wf(s) && !s.active
    ensures Interrupted(s) == s
  {
  }

  // ---------------------------------------------------------------- runs

  /** Over every run from start-up on one device: the cache agrees with the disk. */
  lemma {:induction false} RunCoherent(s: Sys, steps: seq<Step>)
    requires Inv(s) && Coherent(s) && forall i | 0 <= i < |steps| :: UsesRoot(steps[i])
    ensures Coherent(Run(s, steps))
    decreases |steps|
  {
    hide Inv, Coherent, Enabled, Next;
    if steps != [] {
      if Enabled(s, steps[0]) {
        NextInv(s, steps[0]);
        NextCoherent(s, steps[0]);
        RunCoherent(Next(s, steps[0]), steps[1..]);
      } else {
        RunCoherent(s, steps[1..]);
      }
    }
  }

  lemma InitialCoherent(nproc: nat, disk: map<nat, Block>)
    ensures Coherent(Initial(nproc, disk))
  {
  }

  /** Safety of the cache: in every state reachable from start-up each buffer is in one place,
      blocks are cached at most once, the drive serves the queue in order and no wakeup is
      lost; and if only the root device is used, cached blocks agree with the disk. */
  lemma EveryRun(nproc: nat, disk: map<nat, Block>, steps: seq<Step>)
    ensures Inv(Initial(nproc, disk))
    ensures Inv(Run(Initial(nproc, disk), steps))
    ensures (forall i | 0 <= i < |steps| :: UsesRoot(steps[i])) ==> Coherent(Run(Initial(nproc, disk), steps))
  {
    hide Inv, Coherent, Initial;
    InitialInv(nproc, disk);
    InitialCoherent(nproc, disk);
    if forall i | 0 <= i < |steps| :: UsesRoot(steps[i]) {
      RunCoherent(Initial(nproc, disk), steps);
    }
  }

  /** `bread` from getblk's loop label to its return in the same step: the buffer it returns
      holds the block asked for, with the contents last written to it. */
  lemma BreadReturns(s: Sys, s': Sys, p: nat, blkno: nat) returns (b: nat)
    requires Inv(s) && Coherent(s) && Wf(s) && p < |s.procs| && !s.procs[p].pc.Waiting?
    requires s' == Attempt(s, p, ROOTDEV, blkno, true) && |s'.procs| == |s.procs| && s'.procs[p].pc.Idle?
    ensures Holds(s', p, b) && s'.buf[b].dev == ROOTDEV && s'.buf[b].blkno == blkno
    ensures s'.buf[b].flag.done && s'.buf[b].data == At(s'.latest, blkno)
  {
    hide Inv, Coherent, Attempt, InCore;
    b := HitReturns(s, s', p, blkno);
    AttemptInv(s, p, ROOTDEV, blkno, true);
    AttemptCoherent(s, p, blkno, true);
    ReadsLatest(s', p, b);
  }

  /** `bread` returns at once only with a buffer found valid and not busy. */
  lemma HitReturns(s: Sys, s': Sys, p: nat, blkno: nat) returns (b: nat)
    requires Inv(s) && Wf(s) && p < |s.procs|
    requires s' == Attempt(s, p, ROOTDEV, blkno, true) && |s'.procs| == |s.procs| && s'.procs[p].pc.Idle?
    ensures Holds(s', p, b) && s'.buf[b].dev == ROOTDEV && s'.buf[b].blkno == blkno
    ensures s'.buf[b].flag.done && b !in s'.edited
  {
    hide Placed, Keyed, Driven, NoLostWakeup, InOrder, Without, InCore, Acquired, Taken, Evicted, Wf, Below;
    WfOf(s);
    var k := InCore(s, ROOTDEV, blkno, 0);
    if k < |s.cached| {
      CachedBelow(s, k);
      b := s.cached[k];
      FreeNotEdited(s, b);
      TakenWf(s, b);
      if !s.buf[b].flag.busy {
        AcquiredIdle(Taken(s, b), p, b);
        TakenIs(s, b);
      }
    } else {
      b := 0;
      if s.free != [] {
        EvictedIs(s, p, ROOTDEV, blkno);
        AcquiredIdle(Evicted(s, s.free[0], ROOTDEV, blkno), p, s.free[0]);
      }
    }
  }

  lemma CachedBelow(s: Sys, k: nat)
    requires Wf(s) && k < |s.cached|
    ensures s.cached[k] < |s.buf|
  {
  }

  lemma AcquiredIdle(s: Sys, p: nat, b: nat)
    requires Wf(s) && p < |s.procs| && b < |s.buf|
    ensures var s' := Acquired(s, p, b, true);
            && |s'.procs| == |s.procs|
            && (s'.procs[p].pc.Idle? <==> s.buf[b].flag.done)
            && (s.buf[b].flag.done ==> s' == s.(owner := s.owner[b := p], procs := s.procs[p := Proc(Idle, Awake)]))
  {
  }

  lemma TakenIs(s: Sys, b: nat)
    requires b < |s.buf|
    ensures var s' := Taken(s, b);
            |s'.buf| == |s.buf| && s'.buf[b] == s.buf[b].(flag := s.buf[b].flag.(busy := true)) && s'.edited == s.edited
  {
  }

  lemma EvictedIs(s: Sys, p: nat, dev: nat, blkno: nat)
    requires Wf(s) && s.free != [] && p < |s.procs|
    ensures s.free[0] < |s.buf|
    ensures var s' := Evicted(s, s.free[0], dev, blkno);
            Wf(s') && |s'.procs| == |s.procs| && |s'.buf| == |s.buf| && !s'.buf[s.free[0]].flag.done
  {
    RecycledWf(s, p, dev, blkno);
  }

  lemma FreeNotEdited(s: Sys, b: nat)
    requires Placed(s) && b < |s.buf|
    ensures !s.buf[b].flag.busy ==> b !in s.edited
  {
  }

  /** The same when `bread` or `bwrite` returns after waiting for the disk: the buffer is
      valid and its contents are those last written. */
  lemma WaitReturns(s: Sys, p: nat, b: nat)
    requires Inv(s) && Coherent(s) && p < |s.procs| && s.procs[p].pc == Waiting(b) && s.procs[p].chan == Awake
    ensures Wf(s)
    ensures var s' := Next(s, Resume(p));
            s'.procs[p].pc.Idle? ==> Holds(s', p, b) && s'.buf[b].flag.done && s'.buf[b].data == At(s'.latest, s'.buf[b].blkno)
  {
    hide Placed, Keyed, Driven, InOrder, PendingWrite;
    WfOf(s);
    WaitAgain(s, p, b);
    var s' := Next(s, Resume(p));
    if s'.procs[p].pc.Idle? {
      assert Minded(s, p);
      NextCoherent(s, Resume(p));
      ReadsLatest(s', p, b);
    }
  }

  /** The identity of a buffer never changes while it is held. */
  lemma HeldKey(s: Sys, step: Step, b: nat)
    requires Inv(s) && Wf(s) && Enabled(s, step) && b < |s.buf| && b in s.owner
    ensures SameKey(s, Next(s, step), b)
  {
    hide Placed, Keyed, Driven, NoLostWakeup, InOrder, Attempt, Written, Released, Interrupted;
    match step {
      case Begin(p, dev, blkno, fetch) => AttemptKey(s, p, dev, blkno, fetch, b);
      case Resume(p) =>
        if s.procs[p].pc.Getting? {
          AttemptKey(s, p, s.procs[p].pc.dev, s.procs[p].pc.blkno, s.procs[p].pc.fetch, b);
        }
      case Write(p, x) => WrittenInv(s, p, x);
      case Release(p, x) => ReleasedKey(s, x, b);
      case Interrupt => InterruptedKey(s, b);
      case Edit(p, x, data) =>
    }
  }

  ghost predicate SameKey(s: Sys, s': Sys, b: nat) {
    b < |s.buf| == |s'.buf| && s'.buf[b].dev == s.buf[b].dev && s'.buf[b].blkno == s.buf[b].blkno
  }

  lemma AcquiredKey(s: Sys, p: nat, x: nat, fetch: bool, b: nat)
    requires Wf(s) && p < |s.procs| && x < |s.buf| && b < |s.buf|
    ensures SameKey(s, Acquired(s, p, x, fetch), b)
  {
  }

  lemma AttemptKey(s: Sys, p: nat, dev: nat, blkno: nat, fetch: bool, b: nat)
    requires Placed(s) && p < |s.procs| && b < |s.buf| && b in s.owner
    ensures SameKey(s, Attempt(s, p, dev, blkno, fetch), b)
  {
    hide Placed, Acquired, Without, InCore, Evicted, Taken, Below, Wf;
    WfOf(s);
    HeldBusy(s, b);
    var k := InCore(s, dev, blkno, 0);
    if k < |s.cached| {
      CachedBelow(s, k);
      var x := s.cached[k];
      TakenWf(s, x);
      AcquiredKey(Taken(s, x), p, x, fetch, b);
      TakenKey(s, x, b);
    } else if s.free != [] {
      FreeHead(s);
      RecycledWf(s, p, dev, blkno);
      EvictedKey(s, p, dev, blkno, b);
      AcquiredKey(Evicted(s, s.free[0], dev, blkno), p, s.free[0], fetch, b);
    }
  }

  lemma TakenKey(s: Sys, x: nat, b: nat)
    requires x < |s.buf| && b < |s.buf|
    ensures SameKey(s, Taken(s, x), b) && |Taken(s, x).procs| == |s.procs|
  {
  }

  lemma EvictedKey(s: Sys, p: nat, dev: nat, blkno: nat, b: nat)
    requires Wf(s) && s.free != [] && s.free[0] < |s.buf| && b < |s.buf| && b != s.free[0] && p < |s.procs|
    ensures var s' := Evicted(s, s.free[0], dev, blkno); SameKey(s, s', b) && |s'.procs| == |s.procs| && Wf(s')
  {
    RecycledWf(s, p, dev, blkno);
  }

  lemma HeldBusy(s: Sys, b: nat)
    requires Placed(s) && b < |s.buf| && b in s.owner
    ensures s.buf[b].flag.busy
  {
  }

  lemma ReleasedKey(s: Sys, x: nat, b: nat)
    requires Wf(s) && Keyed(s) && x < |s.buf| && b < |s.buf|
    ensures SameKey(s, Released(s, x), b)
  {
  }

  lemma InterruptedKey(s: Sys, b: nat)
    requires Wf(s) && b < |s.buf|
    ensures SameKey(s, Interrupted(s), b)
  {
  }

  // ---------------------------------------------------------------- bread, from its call to its return

  /** Process p is inside a `bread` of the block: looking for a buffer, or waiting for the
      disk with a buffer of that block in its hands. */
  ghost predicate Asking(s: Sys, p: nat, blkno: nat) {
    && p < |s.procs|
    && (s.procs[p].pc == Getting(ROOTDEV, blkno, true) ||
        (s.procs[p].pc.Waiting? && Reserved(s, p, s.procs[p].pc.b, blkno)))
  }

  ghost predicate Reserved(s: Sys, p: nat, b: nat, blkno: nat) {
    b in s.owner && s.owner[b] == p && b < |s.buf| && s.buf[b].dev == ROOTDEV && s.buf[b].blkno == blkno
  }

  /** Process p holds the block, with the contents last written to it. */
  ghost predicate Answered(s: Sys, p: nat, blkno: nat) {
    exists b: nat :: Holds(s, p, b) && Reserved(s, p, b, blkno) && s.buf[b].flag.done && s.buf[b].data == At(s.latest, blkno)
  }

  /** The steps of other processes and of the disk leave p where it is, with its buffers. */
  ghost predicate Untouched(s: Sys, s': Sys, p: nat) {
    && p < |s.procs| == |s'.procs| && s'.procs[p].pc == s.procs[p].pc
    && forall b | b in s.owner && s.owner[b] == p :: b in s'.owner && s'.owner[b] == p
  }

  lemma AcquiredOthers(s: Sys, q: nat, x: nat, fetch: bool, p: nat)
    requires Wf(s) && q < |s.procs| && x < |s.buf| && p < |s.procs| && p != q && x !in s.owner
    ensures Untouched(s, Acquired(s, q, x, fetch), p)
  {
  }

  lemma TakenOwners(s: Sys, x: nat)
    requires x < |s.buf|
    ensures Taken(s, x).owner == s.owner && Taken(s, x).procs == s.procs && |Taken(s, x).buf| == |s.buf|
  {
  }

  lemma EvictedOwners(s: Sys, dev: nat, blkno: nat)
    requires Wf(s) && s.free != [] && s.free[0] < |s.buf|
    ensures var s' := Evicted(s, s.free[0], dev, blkno);
            s'.owner == s.owner && s'.procs == s.procs && |s'.buf| == |s.buf| && s'.buf[s.free[0]].dev == dev && s'.buf[s.free[0]].blkno == blkno
  {
  }

  lemma AttemptOthers(s: Sys, q: nat, dev: nat, blkno: nat, fetch: bool, p: nat)
    requires Placed(s) && q < |s.procs| && p < |s.procs| && p != q
    ensures Wf(s) && Untouched(s, Attempt(s, q, dev, blkno, fetch), p)
  {
    hide Placed, Acquired, Without, InCore, Evicted, Taken, Below, Wf;
    WfOf(s);
    var k := InCore(s, dev, blkno, 0);
    if k < |s.cached| {
      CachedBelow(s, k);
      var x := s.cached[k];
      if !s.buf[x].flag.busy {
        FreeUnowned(s, x);
        TakenWf(s, x);
        TakenOwners(s, x);
        AcquiredOthers(Taken(s, x), q, x, fetch, p);
      }
    } else if s.free != [] {
      FreeHead(s);
      RecycledWf(s, q, dev, blkno);
      EvictedOwners(s, dev, blkno);
      FreeUnowned(s, s.free[0]);
      AcquiredOthers(Evicted(s, s.free[0], dev, blkno), q, s.free[0], fetch, p);
    }
  }

  lemma FreeUnowned(s: Sys, b: nat)
    requires Placed(s) && b < |s.buf|
    ensures !s.buf[b].flag.busy ==> b !in s.owner
  {
  }

  /** A step in which p has no part. */
  predicate ByOthers(step: Step, p: nat) {
    match step
    case Begin(q, _, _, _) => q != p
    case Resume(q) => q != p
    case Edit(q, _, _) => q != p
    case Write(q, _) => q != p
    case Release(q, _) => q != p
    case Interrupt => true
  }

  lemma OthersKeep(s: Sys, step: Step, p: nat)
    requires Inv(s) && Wf(s) && Enabled(s, step) && p < |s.procs| && ByOthers(step, p)
    ensures Untouched(s, Next(s, step), p)
  {
    hide Placed, Keyed, Driven, NoLostWakeup, InOrder, Attempt;
    match step {
      case Begin(q, dev, blkno, fetch) => AttemptOthers(s, q, dev, blkno, fetch, p);
      case Resume(q) =>
        if s.procs[q].pc.Getting? {
          AttemptOthers(s, q, s.procs[q].pc.dev, s.procs[q].pc.blkno, s.procs[q].pc.fetch, p);
        }
      case Edit(_, _, _) =>
      case Write(_, _) =>
      case Release(_, _) =>
      case Interrupt =>
    }
  }

  /** After `getblk` has run up to its next sleep or return, `bread` still asks for the same
      block: if it waits for the disk, the buffer it waits with is that block's. */
  lemma AttemptAsks(s: Sys, p: nat, blkno: nat)
    requires Inv(s) && Wf(s) && p < |s.procs|
    ensures var s' := Attempt(s, p, ROOTDEV, blkno, true);
            |s'.procs| == |s.procs| && (s'.procs[p].pc.Idle? || Asking(s', p, blkno))
  {
    hide Placed, Keyed, Driven, NoLostWakeup, InOrder, Without, InCore, Acquired, Taken, Evicted, Wf, Below;
    WfOf(s);
    var k := InCore(s, ROOTDEV, blkno, 0);
    if k < |s.cached| {
      CachedBelow(s, k);
      var b := s.cached[k];
      if !s.buf[b].flag.busy {
        TakenWf(s, b);
        TakenIs(s, b);
        TakenOwners(s, b);
        AcquiredAsks(Taken(s, b), p, b);
      }
    } else if s.free != [] {
      EvictedIs(s, p, ROOTDEV, blkno);
      EvictedOwners(s, ROOTDEV, blkno);
      AcquiredAsks(Evicted(s, s.free[0], ROOTDEV, blkno), p, s.free[0]);
    }
  }

  lemma AcquiredAsks(s: Sys, p: nat, b: nat)
    requires Wf(s) && p < |s.procs| && b < |s.buf| && s.buf[b].dev == ROOTDEV
    ensures var s' := Acquired(s, p, b, true);
            |s'.procs| == |s.procs| && (s'.procs[p].pc.Idle? || Asking(s', p, s.buf[b].blkno))
  {
  }

  /** `getblk` for p, at the call or after a wakeup. */
  lemma AskOrAnswer(s: Sys, p: nat, blkno: nat)
    requires Inv(s) && Coherent(s) && Wf(s) && p < |s.procs| && !s.procs[p].pc.Waiting?
    ensures var s' := Attempt(s, p, ROOTDEV, blkno, true); Asking(s', p, blkno) || Answered(s', p, blkno)
  {
    hide Inv, Coherent, Attempt, Asking;
    AttemptAsks(s, p, blkno);
    var s' := Attempt(s, p, ROOTDEV, blkno, true);
    if s'.procs[p].pc.Idle? {
      var b := BreadReturns(s, s', p, blkno);
      assert Reserved(s', p, b, blkno);
    }
  }

  /** One step, of anybody, while p is inside `bread`. */
  lemma BreadStep(s: Sys, step: Step, p: nat, blkno: nat)
    requires Inv(s) && Coherent(s) && Wf(s) && Enabled(s, step) && UsesRoot(step) && Asking(s, p, blkno)
    ensures var s' := Next(s, step); Asking(s', p, blkno) || Answered(s', p, blkno)
  {
    hide Inv, Coherent, Attempt, Next;
    if ByOthers(step, p) {
      OthersKeep(s, step, p);
      if s.procs[p].pc.Waiting? { HeldKey(s, step, s.procs[p].pc.b); }
    } else if s.procs[p].pc.Getting? {
      ResumeGetting(s, p);
      AskOrAnswer(s, p, blkno);
    } else {
      WaitStep(s, p, s.procs[p].pc.b, blkno);
    }
  }

  lemma ResumeGetting(s: Sys, p: nat)
    requires Wf(s) && Enabled(s, Resume(p)) && s.procs[p].pc.Getting?
    ensures Next(s, Resume(p)) == Attempt(s, p, s.procs[p].pc.dev, s.procs[p].pc.blkno, s.procs[p].pc.fetch)
  {
  }

  lemma WaitStep(s: Sys, p: nat, b: nat, blkno: nat)
    requires Inv(s) && Coherent(s) && Wf(s) && Enabled(s, Resume(p)) && s.procs[p].pc == Waiting(b) && Reserved(s, p, b, blkno)
    ensures var s' := Next(s, Resume(p)); Asking(s', p, blkno) || Answered(s', p, blkno)
  {
    hide Inv, Coherent, Attempt;
    WaitReturns(s, p, b);
    var s' := Next(s, Resume(p));
    assert Reserved(s', p, b, blkno);
  }

  /** p is inside the cache code after each proper prefix of the steps. */
  ghost predicate Inside(s: Sys, steps: seq<Step>, p: nat)
    requires Inv(s)
  {
    forall j | 0 <= j < |steps| :: var s' := Run(s, steps[..j]); p < |s'.procs| && !s'.procs[p].pc.Idle?
  }

  /** However long the wait and whatever the others do meanwhile, a `bread` that has not
      returned yet still asks for its block, and one that has returned has it. */
  lemma {:induction false} BreadRun(s: Sys, steps: seq<Step>, p: nat, blkno: nat)
    requires Inv(s) && Coherent(s) && (forall i | 0 <= i < |steps| :: UsesRoot(steps[i])) && Inside(s, steps, p)
    requires Asking(s, p, blkno) || Answered(s, p, blkno)
    ensures var s' := Run(s, steps); Asking(s', p, blkno) || Answered(s', p, blkno)
    decreases |steps|
  {
    hide Inv, Coherent, Enabled, Next, Asking, Answered;
    if steps != [] {
      assert steps[..0] == [] && Run(s, steps[..0]) == s;
      AnsweredIdle(s, p, blkno);
      InsideRest(s, steps, p);
      if Enabled(s, steps[0]) {
        NextInv(s, steps[0]);
        NextCoherent(s, steps[0]);
        BreadStep(s, steps[0], p, blkno);
        BreadRun(Next(s, steps[0]), steps[1..], p, blkno);
      } else {
        BreadRun(s, steps[1..], p, blkno);
      }
    }
  }

  lemma AnsweredIdle(s: Sys, p: nat, blkno: nat)
    ensures Answered(s, p, blkno) ==> p < |s.procs| && s.procs[p].pc.Idle?
    ensures Asking(s, p, blkno) ==> p < |s.procs| && !s.procs[p].pc.Idle?
  {
  }

  lemma InsideRest(s: Sys, steps: seq<Step>, p: nat)
    requires Inv(s) && steps != [] && Inside(s, steps, p)
    ensures Wf(s)
    ensures Enabled(s, steps[0]) ==> Inv(Next(s, steps[0])) && Inside(Next(s, steps[0]), steps[1..], p)
    ensures !Enabled(s, steps[0]) ==> Inside(s, steps[1..], p)
  {
    hide Inv, Enabled, Next;
    InvParts(s);
    if Enabled(s, steps[0]) { NextInv(s, steps[0]); }
    forall j | 0 <= j < |steps| - 1
      ensures Run(s, steps[..j + 1]) ==
              if Enabled(s, steps[0]) then Run(Next(s, steps[0]), steps[1..][..j]) else Run(s, steps[1..][..j])
    {
      assert steps[..j + 1][1..] == steps[1..][..j] && steps[..j + 1][0] == steps[0];
    }
  }

  /** `bread` returns what was last written to the block: from any state that the kernel
      reaches on its root device, through any hits, evictions, waits and steps of others, the
      first time the caller is back outside the cache it holds a buffer of the block it asked
      for, valid and with the latest contents. */
  lemma BreadAnswers(nproc: nat, disk: map<nat, Block>, before: seq<Step>, p: nat, blkno: nat, after: seq<Step>)
    requires forall i | 0 <= i < |before| :: UsesRoot(before[i])
    requires forall i | 0 <= i < |after| :: UsesRoot(after[i])
    ensures Inv(Initial(nproc, disk)) && Inv(Run(Initial(nproc, disk), before)) && Wf(Run(Initial(nproc, disk), before))
    ensures var s := Run(Initial(nproc, disk), before);
            Enabled(s, Begin(p, ROOTDEV, blkno, true)) ==>
              var s1 := Next(s, Begin(p, ROOTDEV, blkno, true));
              && Inv(s1)
              && (Inside(s1, after, p) ==>
                    var s' := Run(s1, after);
                    p < |s'.procs| && if s'.procs[p].pc.Idle? then Answered(s', p, blkno) else Asking(s', p, blkno))
  {
    hide Inv, Coherent, Attempt, Asking, Answered, Initial, Inside;
    EveryRun(nproc, disk, before);
    var s := Run(Initial(nproc, disk), before);
    InvParts(s);
    var call := Begin(p, ROOTDEV, blkno, true);
    if Enabled(s, call) {
      NextInv(s, call);
      NextCoherent(s, call);
      AskOrAnswer(s, p, blkno);
      if Inside(Next(s, call), after, p) {
        BreadRun(Next(s, call), after, p, blkno);
        AnsweredIdle(Run(Next(s, call), after), p, blkno);
      }
    }
  }
}
