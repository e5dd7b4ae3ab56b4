/** What every step of the block cache keeps. */
module CacheInvariant {
  import opened BufferCache
  import opened Sequences

  // ---------------------------------------------------------------- the invariant

  /** Each buffer is in exactly one place: on the free list when not busy; otherwise held by
      a process, on the disk queue or not. */
  ghost predicate Placed(s: Sys) {
    && Wf(s) && Distinct(s.free) && Distinct(s.queue)
    && (forall b: nat | b < |s.buf| :: b in s.free <==> !s.buf[b].flag.busy)
    && (forall b: nat | b < |s.buf| :: b in s.owner <==> s.buf[b].flag.busy)
    && (forall b | b in s.queue :: b < |s.buf| && s.buf[b].flag.busy)
    && (forall b | b in s.owner :: b < |s.buf| && s.owner[b] < |s.procs|)
    && (forall b | b in s.edited :: b in s.owner)
  }

  /** At most one buffer holds a given block of a given device, and `incore` can find it. */
  ghost predicate Keyed(s: Sys) {
    && Distinct(s.cached)
    && (forall b: nat | b < |s.buf| :: b in s.cached <==> s.buf[b].dev != NODEV)
    && (forall b: nat, b': nat | b < |s.buf| && b' < |s.buf| && s.buf[b].dev != NODEV &&
          s.buf[b].dev == s.buf[b'].dev && s.buf[b].blkno == s.buf[b'].blkno :: b == b')
    && (forall b: nat | b < |s.buf| :: !s.buf[b].flag.error && !s.buf[b].flag.dirty && !s.buf[b].flag.async)
  }

  ghost function CmdOf(b: Buf): Cmd {
    if b.flag.read then ReadCmd(b.blkno) else WriteCmd(b.blkno, b.data)
  }

  /** The drive works exactly while requests are queued, on the oldest of them. */
  ghost predicate Driven(s: Sys) {
    && (s.active <==> s.queue != [])
    && (forall b | b in s.queue :: b < |s.buf| && !s.buf[b].flag.done)
    && (if s.queue != [] then
          s.queue[|s.queue| - 1] < |s.buf| && s.cmd == CmdOf(s.buf[s.queue[|s.queue| - 1]])
        else s.cmd == NoCmd)
  }

  /** Whoever sleeps will be woken: the wakeup it waits for is still to come. */
  ghost predicate Minded(s: Sys, p: nat)
    requires p < |s.procs|
  {
    var c := s.procs[p].chan;
    match s.procs[p].pc
    case Idle => c == Awake
    case Getting(dev, _, _) =>
      && ROOTDEV <= dev < ROOTDEV + 0x100
      && (c.OnBuf? ==> c.b < |s.buf| && s.buf[c.b].flag.busy && s.buf[c.b].flag.wanted)
      && (c.OnFree? ==> s.free == [] && s.freeWanted)
    case Waiting(b) =>
      && b < |s.buf| && b in s.owner && s.owner[b] == p
      && (c == Awake || (c == OnBuf(b) && b in s.queue))
      && (b in s.queue || s.buf[b].flag.done)
  }

  ghost predicate NoLostWakeup(s: Sys) {
    && (forall p: nat | p < |s.procs| :: Minded(s, p))
    && (forall b | b in s.queue :: b in s.owner && s.owner[b] < |s.procs| && s.procs[s.owner[b]].pc == Waiting(b))
  }

  function Reversed(q: seq<nat>): (r: seq<nat>)
    ensures |r| == |q|
  {
    if q == [] then [] else Reversed(q[1..]) + [q[0]]
  }

  /** Requests complete in the order they were submitted. */
  ghost predicate InOrder(s: Sys) {
    s.submitted == s.completed + Reversed(s.queue)
  }

  ghost predicate Inv(s: Sys) {
    Placed(s) && Keyed(s) && Driven(s) && NoLostWakeup(s) && InOrder(s)
  }

  // ---------------------------------------------------------------- small facts

  lemma {:induction false} ReversedLast(q: seq<nat>)
    requires q != []
    ensures Reversed(q) == [q[|q| - 1]] + Reversed(q[..|q| - 1])
  {
    if |q| > 1 {
      var r, last := q[1..], [q[|q| - 1]];
      ReversedLast(r);
      assert r[..|r| - 1] == q[..|q| - 1][1..];
      assert last + Reversed(r[..|r| - 1]) + [q[0]] == last + (Reversed(r[..|r| - 1]) + [q[0]]);
    }
  }

  lemma InCoreMiss(s: Sys, dev: nat, blkno: nat)
    requires Wf(s) && Keyed(s) && dev != NODEV && InCore(s, dev, blkno, 0) == |s.cached|
    ensures forall b: nat | b < |s.buf| :: s.buf[b].dev != dev || s.buf[b].blkno != blkno
  {
    forall b: nat | b < |s.buf| && s.buf[b].dev == dev ensures s.buf[b].blkno != blkno {
      assert b in s.cached;
      var j :| 0 <= j < |s.cached| && s.cached[j] == b;
    }
  }

  /** Changes of a buffer's WANTED bit and of waiting processes leave the lists alone. */
  ghost predicate SameLists(s: Sys, s': Sys) {
    && |s'.buf| == |s.buf| && |s'.procs| == |s.procs|
    && s'.free == s.free && s'.queue == s.queue && s'.cached == s.cached && s'.owner == s.owner
    && s'.edited <= s.edited && s'.active == s.active && s'.cmd == s.cmd
    && s'.submitted == s.submitted && s'.completed == s.completed
    && forall b: nat | b < |s.buf| :: s'.buf[b] == s.buf[b].(flag := s.buf[b].flag.(wanted := s'.buf[b].flag.wanted))
  }

  lemma SameListsInv(s: Sys, s': Sys)
    requires Inv(s) && SameLists(s, s') && NoLostWakeup(s')
    ensures Inv(s')
  {
    hide NoLostWakeup;
  }

  lemma KeyedSame(s: Sys, s': Sys)
    requires Keyed(s) && s'.cached == s.cached && |s'.buf| == |s.buf|
    requires forall b: nat | b < |s.buf| :: s'.buf[b].dev == s.buf[b].dev && s'.buf[b].blkno == s.buf[b].blkno
    requires forall b: nat | b < |s.buf| ::
               !s'.buf[b].flag.error && !s'.buf[b].flag.dirty && !s'.buf[b].flag.async
    ensures Keyed(s')
  {
  }

  lemma NoErrors(s: Sys)
    requires Keyed(s)
    ensures forall b: nat | b < |s.buf| :: !s.buf[b].flag.error && !s.buf[b].flag.dirty && !s.buf[b].flag.async
  {
  }

  lemma DrivenSame(s: Sys, s': Sys)
    requires Driven(s) && s'.queue == s.queue && s'.active == s.active && s'.cmd == s.cmd && |s'.buf| == |s.buf|
    requires forall b: nat | b in s.queue && b < |s.buf| :: s'.buf[b] == s.buf[b]
    ensures Driven(s')
  {
    if s.queue != [] { assert s.queue[|s.queue| - 1] in s.queue; }
  }

  // ---------------------------------------------------------------- going to sleep

  lemma SleepOnBuf(s: Sys, p: nat, b: nat, dev: nat, blkno: nat, fetch: bool)
    requires Inv(s) && p < |s.procs| && !s.procs[p].pc.Waiting? && b < |s.buf| && s.buf[b].flag.busy
    requires ROOTDEV <= dev < ROOTDEV + 0x100
    ensures Inv(SetFlag(s, b, s.buf[b].flag.(wanted := true)).(procs := s.procs[p := Proc(Getting(dev, blkno, fetch), OnBuf(b))]))
  {
    hide Placed, Keyed, Driven, InOrder;
    var s' := SetFlag(s, b, s.buf[b].flag.(wanted := true)).(procs := s.procs[p := Proc(Getting(dev, blkno, fetch), OnBuf(b))]);
    forall q: nat | q < |s'.procs| ensures Minded(s', q) { assert Minded(s, q); }
    SameListsInv(s, s');
  }

  lemma SleepOnFree(s: Sys, p: nat, dev: nat, blkno: nat, fetch: bool)
    requires Inv(s) && p < |s.procs| && !s.procs[p].pc.Waiting? && s.free == []
    requires ROOTDEV <= dev < ROOTDEV + 0x100
    ensures Inv(s.(freeWanted := true, procs := s.procs[p := Proc(Getting(dev, blkno, fetch), OnFree)]))
  {
    hide Placed, Keyed, Driven, InOrder;
    var s' := s.(freeWanted := true, procs := s.procs[p := Proc(Getting(dev, blkno, fetch), OnFree)]);
    forall q: nat | q < |s'.procs| ensures Minded(s', q) { assert Minded(s, q); }
    SameListsInv(s, s');
  }

  // ---------------------------------------------------------------- taking a buffer

  lemma TakenWf(s: Sys, b: nat)
    requires Wf(s) && b < |s.buf|
    ensures Wf(Taken(s, b)) && |Taken(s, b).procs| == |s.procs| && |Taken(s, b).buf| == |s.buf|
  {
    var r := Without(s.free, b);
    forall i | 0 <= i < |r| ensures r[i] < |s.buf| { assert r[i] in s.free; }
  }

  /** A buffer found in the cache, not busy. */
  ghost function Grabbed(s: Sys, p: nat, b: nat): Sys
    requires b < |s.buf| && p < |s.procs|
  {
    SetFlag(s, b, s.buf[b].flag.(busy := true)).(
      free := Without(s.free, b), owner := s.owner[b := p], procs := s.procs[p := Proc(Idle, Awake)])
  }

  lemma GrabbedPlaced(s: Sys, p: nat, b: nat)
    requires Placed(s) && p < |s.procs| && b < |s.buf| && !s.buf[b].flag.busy
    ensures Placed(Grabbed(s, p, b))
  {
    assert b in s.free;
  }

  lemma GrabbedWakeup(s: Sys, p: nat, b: nat)
    requires Placed(s) && NoLostWakeup(s) && p < |s.procs| && !s.procs[p].pc.Waiting? && b < |s.buf| && !s.buf[b].flag.busy
    ensures NoLostWakeup(Grabbed(s, p, b))
  {
    var s' := Grabbed(s, p, b);
    assert b in s.free;
    forall q: nat | q < |s'.procs| ensures Minded(s', q) { assert Minded(s, q); }
  }

  lemma GrabbedInv(s: Sys, p: nat, b: nat)
    requires Inv(s) && p < |s.procs| && !s.procs[p].pc.Waiting? && b < |s.buf| && !s.buf[b].flag.busy
    ensures Inv(Grabbed(s, p, b))
  {
    hide Placed, NoLostWakeup, Keyed, Driven;
    GrabbedPlaced(s, p, b);
    GrabbedWakeup(s, p, b);
    NotQueued(s, b);
    NoErrors(s);
    KeyedSame(s, Grabbed(s, p, b));
    DrivenSame(s, Grabbed(s, p, b));
  }

  lemma NotQueued(s: Sys, b: nat)
    requires Placed(s) && b < |s.buf| && !s.buf[b].flag.busy
    ensures b !in s.queue && b in s.free
  {
  }

  /** A buffer taken from the free list for another block. */
  ghost function Recycled(s: Sys, p: nat, dev: nat, blkno: nat): Sys
    requires Wf(s) && s.free != [] && p < |s.procs|
  {
    var b := s.free[0];
    Evicted(s, b, dev, blkno).(owner := s.owner[b := p], procs := s.procs[p := Proc(Idle, Awake)])
  }

  lemma RecycledPlaced(s: Sys, p: nat, dev: nat, blkno: nat)
    requires Placed(s) && p < |s.procs| && s.free != []
    ensures Placed(Recycled(s, p, dev, blkno))
  {
    hide Wf, Without, Below;
    var b := s.free[0];
    FreeHead(s);
    RecycledWf(s, p, dev, blkno);
    assert forall x :: x in s.free <==> x == b || x in s.free[1..];
  }

  lemma RecycledWf(s: Sys, p: nat, dev: nat, blkno: nat)
    requires Wf(s) && s.free != [] && p < |s.procs|
    ensures Wf(Recycled(s, p, dev, blkno))
  {
    var b, r := s.free[0], Without(s.cached, s.free[0]);
    forall i | 0 <= i < |r| ensures r[i] < |s.buf| { assert r[i] in s.cached; }
  }

  lemma RecycledKeyed(s: Sys, p: nat, dev: nat, blkno: nat)
    requires Wf(s) && Keyed(s) && p < |s.procs| && s.free != []
    requires dev != NODEV && InCore(s, dev, blkno, 0) == |s.cached|
    ensures Keyed(Recycled(s, p, dev, blkno))
  {
    var s', b := Recycled(s, p, dev, blkno), s.free[0];
    InCoreMiss(s, dev, blkno);
    assert forall x: nat :: x in s'.cached <==> x == b || x in s.cached;
  }

  lemma RecycledWakeup(s: Sys, p: nat, dev: nat, blkno: nat)
    requires Placed(s) && NoLostWakeup(s) && p < |s.procs| && !s.procs[p].pc.Waiting? && s.free != []
    ensures NoLostWakeup(Recycled(s, p, dev, blkno))
  {
    var s' := Recycled(s, p, dev, blkno);
    assert s.free[0] in s.free;
    forall q: nat | q < |s'.procs| ensures Minded(s', q) { assert Minded(s, q); }
  }

  lemma RecycledInv(s: Sys, p: nat, dev: nat, blkno: nat)
    requires Inv(s) && p < |s.procs| && !s.procs[p].pc.Waiting? && s.free != []
    requires ROOTDEV <= dev < ROOTDEV + 0x100 && InCore(s, dev, blkno, 0) == |s.cached|
    ensures Inv(Recycled(s, p, dev, blkno))
  {
    hide Placed, NoLostWakeup, Keyed, Driven;
    WfOf(s);
    RecycledPlaced(s, p, dev, blkno);
    RecycledKeyed(s, p, dev, blkno);
    RecycledWakeup(s, p, dev, blkno);
    FreeHead(s);
    DrivenSame(s, Recycled(s, p, dev, blkno));
  }

  lemma FreeHead(s: Sys)
    requires Placed(s) && s.free != []
    ensures s.free[0] < |s.buf| && s.free[0] !in s.queue && !s.buf[s.free[0]].flag.busy
  {
    assert s.free[0] in s.free;
  }

  // ---------------------------------------------------------------- starting a transfer

  /** The holder p of b queues it with flags f and sleeps until the transfer is done. */
  ghost function Issued(s: Sys, p: nat, b: nat, f: Flags): Sys
    requires Wf(s) && p < |s.procs| && b < |s.buf|
  {
    Request(SetFlag(s, b, f), b).(procs := s.procs[p := Proc(Waiting(b), OnBuf(b))])
  }

  ghost predicate CanIssue(s: Sys, p: nat, b: nat, f: Flags) {
    && Holds(s, p, b)
    && f == s.buf[b].flag.(read := f.read, done := false)
  }

  lemma IssuedPlaced(s: Sys, p: nat, b: nat, f: Flags)
    requires Placed(s) && CanIssue(s, p, b, f) && b !in s.queue
    ensures Placed(Issued(s, p, b, f))
  {
    var s' := Issued(s, p, b, f);
    assert forall x :: x in s'.queue <==> x == b || x in s.queue;
  }

  lemma IssuedDriven(s: Sys, p: nat, b: nat, f: Flags)
    requires Wf(s) && Driven(s) && CanIssue(s, p, b, f) && b !in s.queue
    ensures Driven(Issued(s, p, b, f))
  {
    var s' := Issued(s, p, b, f);
    assert forall x :: x in s'.queue <==> x == b || x in s.queue;
    if s.queue != [] {
      assert s'.queue[|s'.queue| - 1] == s.queue[|s.queue| - 1];
      assert s.queue[|s.queue| - 1] in s.queue;
    }
  }

  lemma IssuedWakeup(s: Sys, p: nat, b: nat, f: Flags)
    requires Wf(s) && NoLostWakeup(s) && CanIssue(s, p, b, f) && b !in s.queue
    ensures NoLostWakeup(Issued(s, p, b, f))
  {
    var s' := Issued(s, p, b, f);
    assert forall x :: x in s'.queue <==> x == b || x in s.queue;
    forall q: nat | q < |s'.procs| ensures Minded(s', q) { assert Minded(s, q); }
  }

  /** A held buffer whose holder is not waiting is not queued. */
  lemma HeldNotQueued(s: Sys, p: nat, b: nat)
    requires NoLostWakeup(s) && Holds(s, p, b)
    ensures b !in s.queue
  {
  }

  lemma IssuedInv(s: Sys, p: nat, b: nat, f: Flags)
    requires Inv(s) && CanIssue(s, p, b, f)
    ensures Inv(Issued(s, p, b, f))
  {
    hide Placed, NoLostWakeup, Driven, Keyed;
    HeldNotQueued(s, p, b);
    WfOf(s);
    NoErrors(s);
    KeyedSame(s, Issued(s, p, b, f));
    IssuedPlaced(s, p, b, f);
    IssuedDriven(s, p, b, f);
    IssuedWakeup(s, p, b, f);
    assert ([b] + s.queue)[1..] == s.queue;
  }

  lemma WfOf(s: Sys)
    requires Placed(s)
    ensures Wf(s)
  {
  }

  // ---------------------------------------------------------------- releasing a buffer

  lemma ReleasedPlaced(s: Sys, p: nat, b: nat)
    requires Placed(s) && Holds(s, p, b) && b !in s.queue
    ensures Placed(Released(s, b))
  {
    var s' := Released(s, b);
    assert forall x :: x in s'.free <==> x == b || x in s.free;
  }

  lemma ReleasedWakeup(s: Sys, p: nat, b: nat)
    requires Wf(s) && NoLostWakeup(s) && Holds(s, p, b) && b !in s.queue
    ensures NoLostWakeup(Released(s, b))
  {
    var s' := Released(s, b);
    forall q: nat | q < |s'.procs| ensures Minded(s', q) { assert Minded(s, q); }
  }

  lemma ReleasedInv(s: Sys, p: nat, b: nat)
    requires Inv(s) && Holds(s, p, b)
    ensures Inv(Released(s, b))
  {
    hide Placed, NoLostWakeup, Keyed, Driven;
    HeldNotQueued(s, p, b);
    WfOf(s);
    ReleasedPlaced(s, p, b);
    ReleasedWakeup(s, p, b);
    NoErrors(s);
    KeyedSame(s, Released(s, b));
    DrivenSame(s, Released(s, b));
  }

  // ---------------------------------------------------------------- the interrupt

  lemma InterruptedPlaced(s: Sys)
    requires Placed(s) && s.active && s.queue != []
    ensures Placed(Interrupted(s))
  {
    var s' := Interrupted(s);
    assert s.queue[|s.queue| - 1] in s.queue;
    assert forall x | x in s'.queue :: x in s.queue;
  }

  lemma InterruptedDriven(s: Sys)
    requires Placed(s) && Driven(s) && s.active && s.queue != []
    ensures Driven(Interrupted(s))
  {
    var s', n := Interrupted(s), |s.queue| - 1;
    assert s.queue[n] in s.queue;
    forall x | x in s'.queue ensures x in s.queue && x != s.queue[n] {
      var i :| 0 <= i < n && s'.queue[i] == x;
    }
    if n > 0 { assert s'.queue[n - 1] in s'.queue; }
  }

  lemma LastGone(q: seq<nat>)
    requires q != [] && Distinct(q)
    ensures forall x: nat :: x in q[..|q| - 1] <==> x in q && x != q[|q| - 1]
  {
  }

  lemma InterruptedParts(s: Sys)
    requires Wf(s) && s.active && s.queue != []
    ensures var s', n, b := Interrupted(s), |s.queue| - 1, s.queue[|s.queue| - 1];
            && s'.queue == s.queue[..n] && s'.free == s.free && s'.freeWanted == s.freeWanted && s'.owner == s.owner
            && s'.procs == WokenUp(s.procs, OnBuf(b)) && |s'.buf| == |s.buf| && s'.buf[b].flag == s.buf[b].flag.(done := true, wanted := false)
            && forall x: nat | x < |s.buf| && x != b :: s'.buf[x] == s.buf[x]
  {
  }

  lemma InterruptedWakeup(s: Sys)
    requires Placed(s) && NoLostWakeup(s) && s.active && s.queue != []
    ensures NoLostWakeup(Interrupted(s))
  {
    hide Interrupted;
    var s', n := Interrupted(s), |s.queue| - 1;
    var b := s.queue[n];
    LastGone(s.queue);
    assert b in s.queue;
    InterruptedParts(s);
    forall q: nat | q < |s'.procs| ensures Minded(s', q) { assert Minded(s, q); }
  }

  lemma InterruptedOrder(s: Sys)
    requires Wf(s) && InOrder(s) && s.active && s.queue != []
    ensures InOrder(Interrupted(s))
  {
    var n := |s.queue| - 1;
    ReversedLast(s.queue);
    assert s.completed + ([s.queue[n]] + Reversed(s.queue[..n])) == s.completed + [s.queue[n]] + Reversed(s.queue[..n]);
  }

  lemma InterruptedKeyed(s: Sys)
    requires Wf(s) && Keyed(s) && s.active && s.queue != []
    ensures Keyed(Interrupted(s))
  {
    hide Keyed;
    NoErrors(s);
    KeyedSame(s, Interrupted(s));
  }

  lemma InterruptedInv(s: Sys)
    requires Inv(s)
    ensures Wf(s) && Inv(Interrupted(s))
  {
    hide Placed, NoLostWakeup, Keyed, InOrder, WokenUp;
    WfOf(s);
    if s.active {
      InterruptedPlaced(s);
      InterruptedDriven(s);
      InterruptedWakeup(s);
      InterruptedKeyed(s);
      InterruptedOrder(s);
    }
  }

  // ---------------------------------------------------------------- any step

  lemma AcquiredInv(s: Sys, g: Sys, s': Sys, p: nat, b: nat, fetch: bool)
    requires Wf(s) && p < |s.procs| && b < |s.buf| && s' == Acquired(s, p, b, fetch)
    requires g == s.(owner := s.owner[b := p], procs := s.procs[p := Proc(Idle, Awake)]) && Inv(g)
    ensures Inv(s')
  {
    hide Inv;
    if fetch && !s.buf[b].flag.done {
      IssuedInv(g, p, b, s.buf[b].flag.(read := true));
      assert s.procs[p := Proc(Idle, Awake)][p := Proc(Waiting(b), OnBuf(b))] == s.procs[p := Proc(Waiting(b), OnBuf(b))];
      assert s' == Issued(g, p, b, s.buf[b].flag.(read := true));
    }
  }

  lemma AttemptInv(s: Sys, p: nat, dev: nat, blkno: nat, fetch: bool)
    requires Inv(s) && p < |s.procs| && !s.procs[p].pc.Waiting? && ROOTDEV <= dev < ROOTDEV + 0x100
    ensures Wf(s) && Inv(Attempt(s, p, dev, blkno, fetch))
  {
    hide Placed, Keyed, Driven, NoLostWakeup, InOrder, Without, Acquired, InCore;
    WfOf(s);
    var k := InCore(s, dev, blkno, 0);
    if k < |s.cached| {
      var b := s.cached[k];
      if s.buf[b].flag.busy {
        SleepOnBuf(s, p, b, dev, blkno, fetch);
      } else {
        GrabbedInv(s, p, b);
        AcquiredInv(Taken(s, b), Grabbed(s, p, b), Attempt(s, p, dev, blkno, fetch), p, b, fetch);
      }
    } else if s.free == [] {
      SleepOnFree(s, p, dev, blkno, fetch);
    } else {
      RecycledInv(s, p, dev, blkno);
      AcquiredInv(Evicted(s, s.free[0], dev, blkno), Recycled(s, p, dev, blkno), Attempt(s, p, dev, blkno, fetch), p, s.free[0], fetch);
    }
  }

  lemma WaitAgain(s: Sys, p: nat, b: nat)
    requires Inv(s) && p < |s.procs| && s.procs[p].pc == Waiting(b)
    ensures b < |s.buf| && (s.buf[b].flag.done <==> b !in s.queue)
    ensures s.buf[b].flag.done ==> Inv(s.(procs := s.procs[p := Proc(Idle, Awake)]))
    ensures !s.buf[b].flag.done ==> Inv(s.(procs := s.procs[p := Proc(Waiting(b), OnBuf(b))]))
  {
    hide Placed, Keyed, InOrder;
    assert Minded(s, p);
    var s' := s.(procs := s.procs[p := if s.buf[b].flag.done then Proc(Idle, Awake) else Proc(Waiting(b), OnBuf(b))]);
    forall q: nat | q < |s'.procs| ensures Minded(s', q) { assert Minded(s, q); }
    SameListsInv(s, s');
  }

  lemma EditInv(s: Sys, p: nat, b: nat, data: Block)
    requires Inv(s) && Holds(s, p, b)
    ensures Inv(s.(buf := s.buf[b := s.buf[b].(data := data)], edited := s.edited + {b}))
  {
    hide Keyed;
    var s' := s.(buf := s.buf[b := s.buf[b].(data := data)], edited := s.edited + {b});
    HeldNotQueued(s, p, b);
    NoErrors(s);
    KeyedSame(s, s');
    DrivenSame(s, s');
    forall q: nat | q < |s'.procs| ensures Minded(s', q) { assert Minded(s, q); }
  }

  lemma WrittenInv(s: Sys, p: nat, b: nat)
    requires Inv(s) && Holds(s, p, b)
    ensures Wf(s) && Inv(Written(s, p, b))
    ensures Written(s, p, b) == Issued(s, p, b, s.buf[b].flag.(read := false, done := false)).(
                                  latest := s.latest[s.buf[b].blkno := s.buf[b].data])
  {
    hide Placed, Driven, NoLostWakeup, InOrder;
    WfOf(s);
    var f := s.buf[b].flag.(read := false, done := false);
    assert f == s.buf[b].flag.(read := false, done := false, error := false, dirty := false);
    var s1 := Issued(s, p, b, f);
    IssuedInv(s, p, b, f);
    LatestFree(s1, s1.(latest := s.latest[s.buf[b].blkno := s.buf[b].data]));
  }

  /** The invariant does not depend on the history variable. */
  lemma LatestFree(s: Sys, s': Sys)
    requires Inv(s) && s' == s.(latest := s'.latest)
    ensures Inv(s')
  {
    forall q: nat | q < |s'.procs| ensures Minded(s', q) { assert Minded(s, q); }
  }

  /** Every step keeps the invariant. */
  lemma NextInv(s: Sys, step: Step)
    requires Inv(s) && Enabled(s, step)
    ensures Wf(s) && Inv(Next(s, step))
  {
    hide Placed, Keyed, Driven, NoLostWakeup, InOrder, Attempt, Written, Released, Interrupted;
    WfOf(s);
    match step {
      case Begin(p, dev, blkno, fetch) => AttemptInv(s, p, dev, blkno, fetch);
      case Resume(p) =>
        match s.procs[p].pc {
          case Getting(dev, blkno, fetch) =>
            GettingDev(s, p);
            AttemptInv(s, p, dev, blkno, fetch);
          case Waiting(b) => WaitAgain(s, p, b);
          case Idle =>
        }
      case Edit(p, b, data) => EditInv(s, p, b, data);
      case Write(p, b) => WrittenInv(s, p, b);
      case Release(p, b) => ReleasedInv(s, p, b);
      case Interrupt => InterruptedInv(s);
    }
  }

  lemma GettingDev(s: Sys, p: nat)
    requires NoLostWakeup(s) && p < |s.procs| && s.procs[p].pc.Getting?
    ensures ROOTDEV <= s.procs[p].pc.dev < ROOTDEV + 0x100
  {
    assert Minded(s, p);
  }

  // ---------------------------------------------------------------- runs

  /** `buf_init`: all buffers free, in order, without identity. */
  function Initial(nproc: nat, disk: map<nat, Block>): Sys {
    Sys(seq(NBUF, _ => Buf(CLEAR, NODEV, 0, [])), seq(NBUF, i => i), [], [], false, false, NoCmd, disk,
        seq(nproc, _ => Proc(Idle, Awake)), map[], {}, disk, [], [])
  }

  lemma InitialInv(nproc: nat, disk: map<nat, Block>)
    ensures Inv(Initial(nproc, disk))
  {
    var s := Initial(nproc, disk);
    forall b: nat | b < |s.buf| ensures b in s.free { assert s.free[b] == b; }
  }

  /** A run: steps that are not enabled when their turn comes are left out. */
  ghost function Run(s: Sys, steps: seq<Step>): Sys
    requires Inv(s)
    ensures Inv(Run(s, steps))
    decreases |steps|
  {
    WfOf(s);
    if steps == [] then s
    else if Enabled(s, steps[0]) then NextInv(s, steps[0]); Run(Next(s, steps[0]), steps[1..])
    else Run(s, steps[1..])
  }
}
