/** `getblk` and `bread` from their call to their return, on every device: what the caller
    gets is the block it asked for; and the buffer that is recycled is the one that has been
    free longest. */
module CacheGets {
  import opened BufferCache
  import opened CacheInvariant
  import opened CacheCoherence
  import opened Sequences

  /** Process p has buffer b in its hands, and it is this block's. */
  ghost predicate Keeps(s: Sys, p: nat, b: nat, dev: nat, blkno: nat) {
    b in s.owner && s.owner[b] == p && b < |s.buf| && s.buf[b].dev == dev && s.buf[b].blkno == blkno && s.buf[b].flag.busy
  }

  /** Process p is inside a call for the block: looking for a buffer or, in `bread` only,
      waiting for the disk with a buffer of the block. */
  ghost predicate Asks(s: Sys, p: nat, dev: nat, blkno: nat, fetch: bool) {
    && p < |s.procs|
    && (s.procs[p].pc == Getting(dev, blkno, fetch) ||
        (fetch && s.procs[p].pc.Waiting? && Keeps(s, p, s.procs[p].pc.b, dev, blkno)))
  }

  /** Process p is back with a busy buffer of the block; after `bread` it is valid. */
  ghost predicate Gets(s: Sys, p: nat, dev: nat, blkno: nat, fetch: bool) {
    exists b: nat :: Holds(s, p, b) && Keeps(s, p, b, dev, blkno) && (fetch ==> s.buf[b].flag.done)
  }

  lemma KeptBusy(s: Sys, p: nat, b: nat)
    requires Inv(s) && b in s.owner && b < |s.buf|
    ensures s.buf[b].flag.busy
  {
    hide Keyed, Driven, NoLostWakeup, InOrder;
    HeldBusy(s, b);
  }

  lemma AcquiredGets(s: Sys, p: nat, b: nat, fetch: bool)
    requires Wf(s) && p < |s.procs| && b < |s.buf| && s.buf[b].flag.busy
    ensures var s' := Acquired(s, p, b, fetch);
            Asks(s', p, s.buf[b].dev, s.buf[b].blkno, fetch) || Gets(s', p, s.buf[b].dev, s.buf[b].blkno, fetch)
  {
    hide Wf;
    var s' := Acquired(s, p, b, fetch);
    assert Keeps(s', p, b, s.buf[b].dev, s.buf[b].blkno);
    assert s'.procs[p].pc.Idle? ==> Holds(s', p, b);
  }

  lemma TakenBusy(s: Sys, b: nat)
    requires b < |s.buf|
    ensures Taken(s, b).buf[b].flag.busy
  {
  }

  lemma EvictedBusy(s: Sys, dev: nat, blkno: nat)
    requires Wf(s) && s.free != [] && s.free[0] < |s.buf|
    ensures Evicted(s, s.free[0], dev, blkno).buf[s.free[0]].flag.busy
  {
  }

  /** `getblk` from its loop label to its next sleep or return. */
  lemma AttemptGets(s: Sys, p: nat, dev: nat, blkno: nat, fetch: bool)
    requires Wf(s) && p < |s.procs|
    ensures var s' := Attempt(s, p, dev, blkno, fetch); Asks(s', p, dev, blkno, fetch) || Gets(s', p, dev, blkno, fetch)
  {
    hide Without, InCore, Acquired, Taken, Evicted, Wf, Below, Gets, Keeps;
    BelowOf(s);
    var k := InCore(s, dev, blkno, 0);
    if k < |s.cached| {
      CachedBelow(s, k);
      var b := s.cached[k];
      if !s.buf[b].flag.busy {
        TakenWf(s, b);
        TakenIs(s, b);
        TakenOwners(s, b);
        TakenBusy(s, b);
        AcquiredGets(Taken(s, b), p, b, fetch);
      }
    } else if s.free != [] {
      EvictedIs(s, p, dev, blkno);
      EvictedOwners(s, dev, blkno);
      EvictedBusy(s, dev, blkno);
      AcquiredGets(Evicted(s, s.free[0], dev, blkno), p, s.free[0], fetch);
    }
  }

  /** One step, of anybody, while p is inside. */
  lemma GetStep(s: Sys, step: Step, p: nat, dev: nat, blkno: nat, fetch: bool)
    requires Inv(s) && Wf(s) && Enabled(s, step) && Asks(s, p, dev, blkno, fetch)
    ensures var s' := Next(s, step); Asks(s', p, dev, blkno, fetch) || Gets(s', p, dev, blkno, fetch)
  {
    hide Inv, Attempt, Next, Gets;
    if ByOthers(step, p) {
      OthersKeep(s, step, p);
      if s.procs[p].pc.Waiting? {
        HeldKey(s, step, s.procs[p].pc.b);
        NextInv(s, step);
        KeptBusy(Next(s, step), p, s.procs[p].pc.b);
      }
    } else if s.procs[p].pc.Getting? {
      ResumeGetting(s, p);
      AttemptGets(s, p, dev, blkno, fetch);
    } else {
      WaitGets(s, p, s.procs[p].pc.b, dev, blkno);
    }
  }

  lemma WaitGets(s: Sys, p: nat, b: nat, dev: nat, blkno: nat)
    requires Wf(s) && Enabled(s, Resume(p)) && s.procs[p].pc == Waiting(b) && Keeps(s, p, b, dev, blkno)
    ensures var s' := Next(s, Resume(p)); Asks(s', p, dev, blkno, true) || Gets(s', p, dev, blkno, true)
  {
    hide Attempt, Wf;
    var s' := Next(s, Resume(p));
    assert Keeps(s', p, b, dev, blkno);
    assert s'.procs[p].pc.Idle? ==> Holds(s', p, b) && s'.buf[b].flag.done;
  }

  lemma {:induction false} GetRun(s: Sys, steps: seq<Step>, p: nat, dev: nat, blkno: nat, fetch: bool)
    requires Inv(s) && Inside(s, steps, p) && (Asks(s, p, dev, blkno, fetch) || Gets(s, p, dev, blkno, fetch))
    ensures var s' := Run(s, steps); Asks(s', p, dev, blkno, fetch) || Gets(s', p, dev, blkno, fetch)
    decreases |steps|
  {
    hide Inv, Enabled, Next, Asks, Gets;
    if steps != [] {
      assert steps[..0] == [] && Run(s, steps[..0]) == s;
      GetsIdle(s, p, dev, blkno, fetch);
      InsideRest(s, steps, p);
      if Enabled(s, steps[0]) {
        NextInv(s, steps[0]);
        GetStep(s, steps[0], p, dev, blkno, fetch);
        GetRun(Next(s, steps[0]), steps[1..], p, dev, blkno, fetch);
      } else {
        GetRun(s, steps[1..], p, dev, blkno, fetch);
      }
    }
  }

  lemma GetsIdle(s: Sys, p: nat, dev: nat, blkno: nat, fetch: bool)
    ensures Gets(s, p, dev, blkno, fetch) ==> p < |s.procs| && s.procs[p].pc.Idle?
    ensures Asks(s, p, dev, blkno, fetch) ==> p < |s.procs| && !s.procs[p].pc.Idle?
  {
  }

  /** `getblk` and `bread`, on any device and from any state that the kernel reaches: through any
      sleeps and steps of others the caller still asks for its block, and the first time it
      is back it holds a busy buffer with exactly that device and block. */
  lemma GetAnswers(nproc: nat, disk: map<nat, Block>, before: seq<Step>, p: nat, dev: nat, blkno: nat, fetch: bool, after: seq<Step>)
    ensures Inv(Initial(nproc, disk)) && Inv(Run(Initial(nproc, disk), before)) && Wf(Run(Initial(nproc, disk), before))
    ensures var s := Run(Initial(nproc, disk), before);
            Enabled(s, Begin(p, dev, blkno, fetch)) ==>
              var s1 := Next(s, Begin(p, dev, blkno, fetch));
              && Inv(s1)
              && (Inside(s1, after, p) ==>
                    var s' := Run(s1, after);
                    p < |s'.procs| && if s'.procs[p].pc.Idle? then Gets(s', p, dev, blkno, fetch) else Asks(s', p, dev, blkno, fetch))
  {
    hide Inv, Attempt, Asks, Gets, Initial, Inside;
    EveryRun(nproc, disk, before);
    var s := Run(Initial(nproc, disk), before);
    InvParts(s);
    var call := Begin(p, dev, blkno, fetch);
    if Enabled(s, call) {
      NextInv(s, call);
      AttemptGets(s, p, dev, blkno, fetch);
      if Inside(Next(s, call), after, p) {
        GetRun(Next(s, call), after, p, dev, blkno, fetch);
        GetsIdle(Run(Next(s, call), after), p, dev, blkno, fetch);
      }
    }
  }

  lemma BelowOf(s: Sys)
    requires Wf(s)
    ensures Below(s.cached, |s.buf|)
  {
  }

  // ---------------------------------------------------------------- the buffer free longest

  /** x comes before y in the free list. */
  ghost predicate Ahead(q: seq<nat>, x: nat, y: nat) {
    exists i: nat, j: nat :: i < j < |q| && q[i] == x && q[j] == y
  }

  lemma {:induction false} AheadWithout(q: seq<nat>, b: nat, x: nat, y: nat)
    requires Ahead(Without(q, b), x, y)
    ensures Ahead(q, x, y)
  {
    if q == [] {
    } else if q[0] == b {
      AheadTail(q, x, y);
    } else {
      var r := Without(q[1..], b);
      var i: nat, j: nat :| i < j < |[q[0]] + r| && ([q[0]] + r)[i] == x && ([q[0]] + r)[j] == y;
      if i == 0 {
        assert y == r[j - 1] && y in q[1..];
        var k :| 0 <= k < |q[1..]| && q[1..][k] == y;
        assert q[0] == x && q[k + 1] == y;
      } else {
        assert r[i - 1] == x && r[j - 1] == y;
        AheadWithout(q[1..], b, x, y);
        AheadTail(q, x, y);
      }
    }
  }

  lemma AheadTail(q: seq<nat>, x: nat, y: nat)
    requires q != [] && Ahead(q[1..], x, y)
    ensures Ahead(q, x, y)
  {
    var i: nat, j: nat :| i < j < |q[1..]| && q[1..][i] == x && q[1..][j] == y;
    assert q[i + 1] == x && q[j + 1] == y;
  }

  lemma AheadAppend(q: seq<nat>, b: nat, x: nat, y: nat)
    requires Ahead(q + [b], x, y) && y in q && Distinct(q + [b])
    ensures Ahead(q, x, y)
  {
    var i: nat, j: nat :| i < j < |q + [b]| && (q + [b])[i] == x && (q + [b])[j] == y;
    var k :| 0 <= k < |q| && q[k] == y;
    assert (q + [b])[k] == y && j == k;
    assert q[i] == x && q[j] == y;
  }

  /** What `getblk` can do to the free list. */
  lemma AttemptFree(s: Sys, p: nat, dev: nat, blkno: nat, fetch: bool)
    requires Wf(s) && p < |s.procs|
    ensures var f := Attempt(s, p, dev, blkno, fetch).free;
            f == s.free || (exists b: nat :: f == Without(s.free, b)) || (s.free != [] && f == s.free[1..])
  {
    hide Without, InCore, Below;
    BelowOf(s);
    var k := InCore(s, dev, blkno, 0);
    var f := Attempt(s, p, dev, blkno, fetch).free;
    if k < |s.cached| {
      CachedBelow(s, k);
      TakenWf(s, s.cached[k]);
      assert f == s.free || f == Without(s.free, s.cached[k]);
    } else if s.free != [] {
      EvictedIs(s, p, dev, blkno);
    }
  }

  lemma AttemptAhead(s: Sys, p: nat, dev: nat, blkno: nat, fetch: bool, x: nat, y: nat)
    requires Wf(s) && p < |s.procs| && Ahead(Attempt(s, p, dev, blkno, fetch).free, x, y)
    ensures Ahead(s.free, x, y)
  {
    hide Ahead, Attempt;
    AttemptFree(s, p, dev, blkno, fetch);
    var f := Attempt(s, p, dev, blkno, fetch).free;
    if f != s.free {
      if s.free != [] && f == s.free[1..] {
        AheadTail(s.free, x, y);
      } else {
        var b: nat :| f == Without(s.free, b);
        AheadWithout(s.free, b, x, y);
      }
    }
  }

  /** Every step keeps the order of the free list, and puts what it frees at the end. */
  lemma StepAhead(s: Sys, step: Step, x: nat, y: nat)
    requires Inv(s) && Wf(s) && Enabled(s, step) && Ahead(Next(s, step).free, x, y) && y in s.free
    ensures Ahead(s.free, x, y)
  {
    hide Inv, Attempt, Ahead, Placed;
    match step {
      case Begin(p, dev, blkno, fetch) => AttemptAhead(s, p, dev, blkno, fetch, x, y);
      case Resume(p) =>
        if s.procs[p].pc.Getting? {
          AttemptAhead(s, p, s.procs[p].pc.dev, s.procs[p].pc.blkno, s.procs[p].pc.fetch, x, y);
        }
      case Release(p, b) =>
        NextInv(s, step);
        FreeDistinct(Next(s, step));
        AheadAppend(s.free, b, x, y);
      case Edit(_, _, _) =>
      case Write(_, _) =>
      case Interrupt =>
    }
  }

  lemma FreeDistinct(s: Sys)
    requires Inv(s)
    ensures Distinct(s.free)
  {
  }

  /** The state after the first k steps. */
  ghost function StateAt(s: Sys, steps: seq<Step>, k: nat): (s': Sys)
    requires Inv(s) && k <= |steps|
    ensures Inv(s')
  {
    Run(s, steps[..k])
  }

  lemma {:induction false} RunMore(s: Sys, steps: seq<Step>, step: Step)
    requires Inv(s)
    ensures Inv(Run(s, steps)) && Wf(Run(s, steps))
    ensures Run(s, steps + [step]) == var s' := Run(s, steps); if Enabled(s', step) then Next(s', step) else s'
    decreases |steps|
  {
    hide Inv, Enabled, Next;
    InvParts(s);
    InvParts(Run(s, steps));
    if steps == [] {
      assert ([] + [step])[0] == step && ([] + [step])[1..] == [];
      if Enabled(s, step) { NextInv(s, step); }
    } else {
      assert (steps + [step])[0] == steps[0] && (steps + [step])[1..] == steps[1..] + [step];
      if Enabled(s, steps[0]) {
        NextInv(s, steps[0]);
        RunMore(Next(s, steps[0]), steps[1..], step);
      } else {
        RunMore(s, steps[1..], step);
      }
    }
  }

  /** Buffer b has been free since after step i. */
  ghost predicate FreeSince(s: Sys, steps: seq<Step>, i: nat, b: nat)
    requires Inv(s) && i <= |steps|
  {
    forall k: nat | i <= k <= |steps| :: b in StateAt(s, steps, k).free
  }

  /** A buffer further ahead has been free at least as long. */
  lemma {:induction false} AheadLonger(s: Sys, steps: seq<Step>, i: nat, n: nat, x: nat, y: nat)
    requires Inv(s) && i <= n <= |steps| && Ahead(StateAt(s, steps, n).free, x, y)
    requires forall k: nat | i <= k <= n :: y in StateAt(s, steps, k).free
    ensures forall k: nat | i <= k <= n :: x in StateAt(s, steps, k).free
    decreases n
  {
    hide Inv, Run, Ahead, Next, Enabled;
    AheadIn(StateAt(s, steps, n).free, x, y);
    if i < n {
      var m: nat := n - 1;
      assert steps[..n] == steps[..m] + [steps[m]];
      RunMore(s, steps[..m], steps[m]);
      assert y in StateAt(s, steps, m).free;
      if Enabled(StateAt(s, steps, m), steps[m]) { StepAhead(StateAt(s, steps, m), steps[m], x, y); }
      AheadLonger(s, steps, i, m, x, y);
    }
  }

  lemma AheadIn(q: seq<nat>, x: nat, y: nat)
    requires Ahead(q, x, y)
    ensures x in q && y in q
  {
  }

  /** The first of the free list has been free at least as long as any other. */
  lemma HeadLongest(s: Sys, steps: seq<Step>, i: nat, y: nat)
    requires Inv(s) && i <= |steps| && Run(s, steps).free != [] && y in Run(s, steps).free && FreeSince(s, steps, i, y)
    ensures FreeSince(s, steps, i, Run(s, steps).free[0])
  {
    hide Inv, Run;
    assert steps[..|steps|] == steps;
    var q := StateAt(s, steps, |steps|).free;
    var j :| 0 <= j < |q| && q[j] == y;
    if j > 0 {
      assert Ahead(q, q[0], y);
      AheadLonger(s, steps, i, |steps|, q[0], y);
    }
  }

  /** `getblk` of a block that is not cached: the buffer it recycles has been free at least as
      long as every other free buffer. */
  lemma RecyclesOldest(nproc: nat, disk: map<nat, Block>, steps: seq<Step>, i: nat, y: nat, p: nat, dev: nat, blkno: nat, fetch: bool)
    returns (b: nat)
    requires i <= |steps|
    ensures Inv(Initial(nproc, disk)) && Wf(Run(Initial(nproc, disk), steps))
    ensures var s := Run(Initial(nproc, disk), steps);
            Enabled(s, Begin(p, dev, blkno, fetch)) && s.free != [] &&
            (forall x: nat | x < |s.buf| :: s.buf[x].dev != dev || s.buf[x].blkno != blkno) ==>
              && b in s.free && b !in Next(s, Begin(p, dev, blkno, fetch)).free
              && Keeps(Next(s, Begin(p, dev, blkno, fetch)), p, b, dev, blkno)
              && (y in s.free && FreeSince(Initial(nproc, disk), steps, i, y) ==> FreeSince(Initial(nproc, disk), steps, i, b))
  {
    hide Inv, Initial, FreeSince, Attempt, Keeps, Run, Wf;
    var s0 := Initial(nproc, disk);
    EveryRun(nproc, disk, steps);
    var s := Run(s0, steps);
    InvParts(s);
    b := if s.free == [] then 0 else s.free[0];
    if Enabled(s, Begin(p, dev, blkno, fetch)) && s.free != [] && forall x: nat | x < |s.buf| :: s.buf[x].dev != dev || s.buf[x].blkno != blkno {
      MissTakes(s, p, dev, blkno, fetch);
      if y in s.free && FreeSince(s0, steps, i, y) { HeadLongest(s0, steps, i, y); }
    }
  }

  lemma MissTakes(s: Sys, p: nat, dev: nat, blkno: nat, fetch: bool)
    requires Inv(s) && Wf(s) && p < |s.procs| && s.free != []
    requires forall x: nat | x < |s.buf| :: s.buf[x].dev != dev || s.buf[x].blkno != blkno
    ensures var s' := Attempt(s, p, dev, blkno, fetch); s.free[0] !in s'.free && Keeps(s', p, s.free[0], dev, blkno)
  {
    hide Placed, Keyed, Driven, NoLostWakeup, InOrder, Without, InCore, Taken, Wf, Below;
    BelowOf(s);
    FreeDistinct(s);
    var k := InCore(s, dev, blkno, 0);
    if k < |s.cached| { CachedBelow(s, k); }
    EvictedIs(s, p, dev, blkno);
    EvictedOwners(s, dev, blkno);
  }
}
