/** Every step keeps the process tree; every exit status is delivered once. */
module ProcRuns {
  import opened Options
  import opened ProcTree
  import opened Params

  // ---------------------------------------------------------------- tables that differ little

  /** t' has the same processes, with the same addresses and numbers. */
  ghost predicate SameIds(t: Table, t': Table) {
    && |t'| == |t|
    && forall i: nat | i < |t| :: t'[i].Some? == t[i].Some? &&
         (t[i].Some? ==> t'[i].value.addr == t[i].value.addr && t'[i].value.pid == t[i].value.pid)
  }

  lemma SameIdsNumbered(t: Table, t': Table)
    requires Numbered(t) && SameIds(t, t')
    ensures Numbered(t')
  {
    forall i: nat ensures Live(t', i) <==> Live(t, i) { }
  }

  /** One process changes, keeping its parent and not turning into a zombie. */
  ghost predicate Moved(t: Table, t': Table, i: nat) {
    && Live(t, i) && |t'| == |t| && t' == t[i := t'[i]] && t'[i].Some? && SameIds(t, t')
    && t'[i].value.ppid == t[i].value.ppid && !Zombie(t, i) && !Zombie(t', i)
  }

  lemma MovedParented(t: Table, t': Table, i: nat)
    requires Parented(t) && Moved(t, t', i)
    ensures Parented(t')
  {
    forall j: nat ensures Live(t', j) <==> Live(t, j) { }
    forall j: nat ensures Zombie(t', j) <==> Zombie(t, j) { }
    forall j: nat | Live(t, j) ensures t'[j].value.ppid == t[j].value.ppid { }
  }

  /** ... and is not put to sleep in `do_waitpid`, nor changes its group there. */
  lemma MovedNoneMissed(t: Table, t': Table, i: nat)
    requires NoneMissed(t) && Moved(t, t', i) && !(Asleep(t'[i].value) && t'[i].value.waiting.Some?)
    ensures NoneMissed(t')
  {
    forall q: nat, j: nat | Live(t', q) && Asleep(t'[q].value) && t'[q].value.waiting.Some?
      ensures !Reapable(t', q, t'[q].value.waiting.value, j)
    {
      assert q != i && Live(t, q) && t'[q] == t[q];
      assert !Reapable(t, q, t[q].value.waiting.value, j);
    }
  }

  lemma MovedInv(st: Sys, st': Sys, i: nat)
    requires Inv(st) && st'.cu == st.cu && Moved(st.proc, st'.proc, i)
    requires var p := st'.proc[i].value; !(Asleep(p) && p.waiting.Some?) && (Asleep(p) ==> p.chan != 0 && !ProcAddr(p.chan))
    ensures Inv(st')
  {
    hide ProcAddr;
    SameIdsNumbered(st.proc, st'.proc);
    MovedParented(st.proc, st'.proc, i);
    MovedNoneMissed(st.proc, st'.proc, i);
  }

  // ---------------------------------------------------------------- wakeup

  /** `wakeup` revives a zombie exactly if it is given channel 0. */
  lemma WokenZombies(t: Table, chan: nat)
    requires Channelled(t)
    ensures (forall i: nat :: Zombie(Woken(t, chan), i) <==> Zombie(t, i)) <==> chan != 0 || forall i: nat :: !Zombie(t, i)
  {
    forall i: nat ensures Zombie(Woken(t, chan), i) <==> Zombie(t, i) && chan != 0 { }
  }

  lemma WokenKeeps(t: Table, chan: nat)
    requires Numbered(t) && Channelled(t) && chan != 0
    ensures var t' := Woken(t, chan); SameIds(t, t') && Numbered(t') && Channelled(t')
    ensures var t' := Woken(t, chan);
            forall i: nat | Live(t, i) :: t'[i].value.ppid == t[i].value.ppid && (Zombie(t', i) <==> Zombie(t, i))
  {
    hide ProcAddr;
    SameIdsNumbered(t, Woken(t, chan));
  }

  lemma WokenParented(t: Table, chan: nat)
    requires Numbered(t) && Channelled(t) && Parented(t) && chan != 0
    ensures Parented(Woken(t, chan))
  {
    WokenKeeps(t, chan);
    var t' := Woken(t, chan);
    forall j: nat ensures Live(t', j) <==> Live(t, j) { }
    forall j: nat ensures Zombie(t', j) <==> Zombie(t, j) { }
  }

  lemma WokenNoneMissed(t: Table, chan: nat)
    requires Numbered(t) && Channelled(t) && NoneMissed(t) && chan != 0
    ensures NoneMissed(Woken(t, chan))
  {
    var t' := Woken(t, chan);
    WokenKeeps(t, chan);
    forall q: nat, j: nat | Live(t', q) && Asleep(t'[q].value) && t'[q].value.waiting.Some?
      ensures !Reapable(t', q, t'[q].value.waiting.value, j)
    {
      assert Live(t, q) && t'[q] == t[q];
      assert !Reapable(t, q, t[q].value.waiting.value, j);
    }
  }

  // ---------------------------------------------------------------- exit

  /** The table after the zombie has given its children away and before anyone is told. */
  ghost function Silent(t: Table, cu: nat, ret: int): Table
    requires Live(t, cu)
  {
    Adopted(t[cu := Some(Dead(t[cu].value, ret))], cu, t[cu].value.pid)
  }

  lemma SilentAt(t: Table, cu: nat, ret: int, i: nat)
    requires Live(t, cu) && cu >= 2 && Numbered(t) && Parented(t)
    ensures var t' := Silent(t, cu, ret);
            && (Live(t', i) <==> Live(t, i)) && (Zombie(t', i) <==> Zombie(t, i) || i == cu)
            && (Live(t, i) ==> t'[i].value.ppid == (if i != cu && t[i].value.ppid == cu then 1 else t[i].value.ppid))
            && (Live(t, i) && i != cu ==> t'[i].value == t[i].value.(ppid := t'[i].value.ppid))
  {
  }

  lemma SilentKeeps(t: Table, cu: nat, ret: int)
    requires Live(t, cu) && cu >= 2 && Numbered(t) && Parented(t) && Channelled(t) && t[cu].value.waiting == None
    ensures var t' := Silent(t, cu, ret); SameIds(t, t') && Numbered(t') && Parented(t') && Channelled(t')
  {
    hide ProcAddr;
    var t' := Silent(t, cu, ret);
    assert SameIds(t, t');
    SameIdsNumbered(t, t');
    forall i: nat
      ensures (Live(t', i) <==> Live(t, i)) && (Zombie(t', i) <==> Zombie(t, i) || i == cu)
      ensures Live(t, i) ==> t'[i].value.ppid == (if i != cu && t[i].value.ppid == cu then 1 else t[i].value.ppid)
    {
      SilentAt(t, cu, ret, i);
    }
  }

  /** Whoever still sleeps in `do_waitpid` after the wakeups is neither process 1 nor the
      parent of the process that exited. */
  lemma ExitedNoneMissed(t: Table, cu: nat, ret: int)
    requires Live(t, cu) && cu >= 2 && Numbered(t) && Parented(t) && Channelled(t) && NoneMissed(t)
    requires t[cu].value.waiting == None
    ensures NoneMissed(Exited(t, cu, ret))
  {
    hide ProcAddr, Matches;
    var t1, t' := Silent(t, cu, ret), Exited(t, cu, ret);
    SilentKeeps(t, cu, ret);
    var a, b := AddrOf(t1, t[cu].value.ppid), AddrOf(Woken(t1, AddrOf(t1, t[cu].value.ppid)), 1);
    ExitChannels(t, cu, ret);
    WokenKeeps(t1, a);
    WokenKeeps(Woken(t1, a), b);
    forall q: nat, j: nat | Live(t', q) && Asleep(t'[q].value) && t'[q].value.waiting.Some?
      ensures !Reapable(t', q, t'[q].value.waiting.value, j)
    {
      StillAsleep(t, cu, ret, q);
      SilentAt(t, cu, ret, q);
      SilentAt(t, cu, ret, j);
      assert !Reapable(t, q, t[q].value.waiting.value, j);
      UnmatchedStays(t, cu, ret, q, j);
    }
  }

  /** `do_exit` wakes the addresses of its parent and of process 1, never channel 0. */
  lemma ExitChannels(t: Table, cu: nat, ret: int)
    requires Live(t, cu) && cu >= 2 && Numbered(t) && Parented(t) && Channelled(t) && t[cu].value.waiting == None
    ensures var t1 := Silent(t, cu, ret);
            var t2 := Woken(t1, AddrOf(t1, t[cu].value.ppid));
            && t[cu].value.ppid != cu && Live(t, t[cu].value.ppid) && Live(t, 1)
            && AddrOf(t1, t[cu].value.ppid) == t[t[cu].value.ppid].value.addr > 0
            && AddrOf(t2, 1) == t[1].value.addr > 0
  {
    hide ProcAddr;
    SilentKeeps(t, cu, ret);
    AddrPositive(t, t[cu].value.ppid);
    AddrPositive(t, 1);
  }

  lemma AddrPositive(t: Table, i: nat)
    requires Numbered(t) && Live(t, i)
    ensures t[i].value.addr > 0
  {
  }

  lemma StillAsleep(t: Table, cu: nat, ret: int, q: nat)
    requires Live(t, cu) && cu >= 2 && Numbered(t) && Parented(t) && Channelled(t) && t[cu].value.waiting == None
    requires var t' := Exited(t, cu, ret); Live(t', q) && Asleep(t'[q].value) && t'[q].value.waiting.Some?
    ensures q != 1 && q != cu && q != t[cu].value.ppid
    ensures Live(t, q) && Exited(t, cu, ret)[q] == Silent(t, cu, ret)[q] && Asleep(t[q].value)
  {
    hide ProcAddr;
    ExitChannels(t, cu, ret);
    SilentKeeps(t, cu, ret);
    SilentAt(t, cu, ret, q);
    var t1 := Silent(t, cu, ret);
    var a := AddrOf(t1, t[cu].value.ppid);
    WokenKeeps(t1, a);
    WokenKeeps(Woken(t1, a), AddrOf(Woken(t1, a), 1));
    assert t1[q].value.chan == t1[q].value.addr;
  }

  lemma UnmatchedStays(t: Table, cu: nat, ret: int, q: nat, j: nat)
    requires Live(t, cu) && cu >= 2 && Numbered(t) && Parented(t) && Channelled(t) && t[cu].value.waiting == None
    requires Live(t, q) && q != 1 && q != cu && q != t[cu].value.ppid && t[q].value.waiting.Some?
    requires Exited(t, cu, ret)[q] == Silent(t, cu, ret)[q] && !Reapable(t, q, t[q].value.waiting.value, j)
    ensures var t' := Exited(t, cu, ret); Live(t', q) && t'[q].value.waiting.Some? && !Reapable(t', q, t'[q].value.waiting.value, j)
  {
    hide ProcAddr;
    ExitChannels(t, cu, ret);
    SilentKeeps(t, cu, ret);
    SilentAt(t, cu, ret, q);
    SilentAt(t, cu, ret, j);
    var t1 := Silent(t, cu, ret);
    var a := AddrOf(t1, t[cu].value.ppid);
    WokenKeeps(t1, a);
    WokenKeeps(Woken(t1, a), AddrOf(Woken(t1, a), 1));
  }

  lemma ExitInv(st: Sys, ret: int)
    requires Inv(st) && Enabled(st, Exit(ret))
    ensures Inv(Next(st, Exit(ret)))
    ensures forall i: nat :: Zombie(Next(st, Exit(ret)).proc, i) <==> Zombie(st.proc, i) || i == st.cu
  {
    hide ProcAddr, Matches;
    var t, cu := st.proc, st.cu;
    ExitChannels(t, cu, ret);
    SilentKeeps(t, cu, ret);
    var t1 := Silent(t, cu, ret);
    var a := AddrOf(t1, t[cu].value.ppid);
    WokenKeeps(t1, a);
    WokenParented(t1, a);
    var t2 := Woken(t1, a);
    WokenKeeps(t2, AddrOf(t2, 1));
    WokenParented(t2, AddrOf(t2, 1));
    ExitedNoneMissed(t, cu, ret);
    forall i: nat ensures Zombie(Exited(t, cu, ret), i) <==> Zombie(t, i) || i == cu { SilentAt(t, cu, ret, i); }
  }

  // ---------------------------------------------------------------- the other steps

  /** t' has one process more, nr, which is no zombie and waits for nothing. */
  ghost predicate Added(t: Table, t': Table, nr: nat) {
    && !Live(t, nr) && Live(t', nr) && !Zombie(t', nr) && !Asleep(t'[nr].value)
    && forall i: nat :: (Live(t', i) <==> Live(t, i) || i == nr) && (Live(t, i) ==> t'[i] == t[i]) && (Zombie(t', i) <==> Zombie(t, i))
  }

  lemma AddedNumbered(t: Table, t': Table, nr: nat)
    requires Numbered(t) && Added(t, t', nr) && t'[nr].value.pid == nr && ProcAddr(t'[nr].value.addr)
    requires forall i: nat | Live(t, i) :: t[i].value.addr != t'[nr].value.addr
    ensures Numbered(t')
  {
    hide ProcAddr, Zombie;
  }

  lemma AddedParented(t: Table, t': Table, nr: nat, cu: nat)
    requires Parented(t) && Added(t, t', nr) && Live(t, cu) && !Zombie(t, cu) && t'[nr].value.ppid == cu
    requires nr > 1 ==> Live(t, 1)
    ensures Parented(t')
  {
    assert Live(t, 0) && (cu > 0 ==> Live(t, 1));
    assert nr != 0 && (nr == 1 ==> cu == 0);
    forall i: nat | Live(t', i) ensures Live(t', t'[i].value.ppid) && !Zombie(t', t'[i].value.ppid) {
      assert i != nr ==> Live(t, i) && Live(t, t[i].value.ppid);
    }
  }

  lemma AddedChannelled(t: Table, t': Table, nr: nat)
    requires Channelled(t) && Added(t, t', nr)
    ensures Channelled(t')
  {
    hide ProcAddr;
  }

  lemma AddedNoneMissed(t: Table, t': Table, nr: nat)
    requires NoneMissed(t) && Added(t, t', nr)
    ensures NoneMissed(t')
  {
    hide Matches;
    forall q: nat, j: nat | Live(t', q) && Asleep(t'[q].value) && t'[q].value.waiting.Some?
      ensures !Reapable(t', q, t'[q].value.waiting.value, j)
    {
      assert Zombie(t', j) <==> Zombie(t, j);
      assert Live(t, q) && !Reapable(t, q, t[q].value.waiting.value, j);
    }
  }

  lemma PidAt(t: Table, i: nat)
    requires Numbered(t) && Live(t, i)
    ensures t[i].value.pid == i
  {
  }

  lemma ForkInv(st: Sys, addr: nat, junk: nat)
    requires Inv(st) && Enabled(st, Fork(addr, junk))
    ensures Inv(Next(st, Fork(addr, junk)))
    ensures forall i: nat :: Zombie(Next(st, Fork(addr, junk)).proc, i) <==> Zombie(st.proc, i)
  {
    hide ProcAddr, Matches, Numbered, Parented, Channelled, NoneMissed;
    var t, nr := st.proc, FirstFree(st.proc);
    var t' := Forked(t, st.cu, addr, junk);
    assert Added(t, t', nr);
    AddedNumbered(t, t', nr);
    PidAt(t, st.cu);
    AddedParented(t, t', nr, st.cu);
    AddedChannelled(t, t', nr);
    AddedNoneMissed(t, t', nr);
  }

  /** t' has lost zombie i, and cu has come back from `do_waitpid`. */
  ghost predicate Reaped(t: Table, t': Table, cu: nat, i: nat) {
    && Zombie(t, i) && Live(t, cu) && cu != i && Live(t', cu) && t'[cu].value == Back(t[cu].value)
    && forall j: nat :: (Live(t', j) <==> Live(t, j) && j != i) && (j != cu && j != i && Live(t, j) ==> t'[j] == t[j])
  }

  lemma ReapedZombies(t: Table, t': Table, cu: nat, i: nat)
    requires Reaped(t, t', cu, i)
    ensures forall j: nat :: Zombie(t', j) <==> Zombie(t, j) && j != i
  {
    forall j: nat ensures Zombie(t', j) <==> Zombie(t, j) && j != i { assert Live(t', j) <==> Live(t, j) && j != i; }
  }

  lemma ReapedNumbered(t: Table, t': Table, cu: nat, i: nat)
    requires Numbered(t) && Reaped(t, t', cu, i)
    ensures Numbered(t')
  {
    hide ProcAddr, Zombie;
  }

  lemma ReapedParented(t: Table, t': Table, cu: nat, i: nat)
    requires Parented(t) && Reaped(t, t', cu, i)
    ensures Parented(t')
  {
    hide Zombie;
    ReapedZombies(t, t', cu, i);
    forall j: nat | Live(t', j)
      ensures Live(t', t'[j].value.ppid) && !Zombie(t', t'[j].value.ppid) && (j > 0 ==> Live(t', 1) && t'[j].value.ppid != j)
    {
      ReapedParent(t, t', cu, i, j);
    }
    ReapedParent(t, t', cu, i, 0);
    assert Live(t', 1) ==> Live(t, 1) && t'[1].value.ppid == t[1].value.ppid;
  }

  lemma ReapedParent(t: Table, t': Table, cu: nat, i: nat, j: nat)
    requires Parented(t) && Reaped(t, t', cu, i) && Live(t, j)
    ensures i > 1
    ensures Live(t', j) ==> var q := t'[j].value.ppid;
              q == t[j].value.ppid && Live(t', q) && Live(t, q) && !Zombie(t, q) && (j > 0 ==> Live(t', 1) && q != j)
  {
    assert !Zombie(t, 0) && !Zombie(t, 1);
    assert Live(t, t[j].value.ppid) && !Zombie(t, t[j].value.ppid);
  }

  lemma ReapedChannelled(t: Table, t': Table, cu: nat, i: nat)
    requires Channelled(t) && Reaped(t, t', cu, i) && !Asleep(t[cu].value)
    ensures Channelled(t')
  {
    hide ProcAddr, Zombie;
  }

  lemma ReapedNoneMissed(t: Table, t': Table, cu: nat, i: nat)
    requires NoneMissed(t) && Reaped(t, t', cu, i)
    ensures NoneMissed(t')
  {
    ReapedZombies(t, t', cu, i);
    hide Zombie;
    forall q: nat, j: nat | Live(t', q) && Asleep(t'[q].value) && t'[q].value.waiting.Some?
      ensures !Reapable(t', q, t'[q].value.waiting.value, j)
    {
      assert q != cu && Live(t, q) && t'[q] == t[q] && !Reapable(t, q, t[q].value.waiting.value, j);
      assert Live(t', j) ==> Live(t, j);
    }
  }

  lemma ReapInv(st: Sys, arg: int, i: nat)
    requires Inv(st) && Enabled(st, Reap(arg, i))
    ensures Inv(Next(st, Reap(arg, i)))
    ensures forall j: nat :: Zombie(Next(st, Reap(arg, i)).proc, j) <==> Zombie(st.proc, j) && j != i
  {
    hide ProcAddr, Matches, Numbered, Parented, Channelled, NoneMissed;
    var t, cu, t' := st.proc, st.cu, Next(st, Reap(arg, i)).proc;
    assert Reaped(t, t', cu, i);
    ReapedZombies(t, t', cu, i);
    ReapedNumbered(t, t', cu, i);
    ReapedParented(t, t', cu, i);
    ReapedChannelled(t, t', cu, i);
    ReapedNoneMissed(t, t', cu, i);
  }

  lemma RestInv(st: Sys, arg: int)
    requires Inv(st) && Enabled(st, Rest(arg))
    ensures Inv(Next(st, Rest(arg)))
  {
    hide ProcAddr;
    var t, cu, t' := st.proc, st.cu, Next(st, Rest(arg)).proc;
    assert Moved(t, t', cu);
    SameIdsNumbered(t, t');
    MovedParented(t, t', cu);
    assert t[cu].value.addr > 0 by { AddrPositive(t, cu); }
    forall q: nat, j: nat | Live(t', q) && Asleep(t'[q].value) && t'[q].value.waiting.Some?
      ensures !Reapable(t', q, t'[q].value.waiting.value, j)
    {
      if q == cu {
        assert !Reapable(t, cu, arg, j);
      } else {
        assert Live(t, q) && !Reapable(t, q, t[q].value.waiting.value, j);
      }
    }
  }

  lemma WakeInv(st: Sys, chan: nat)
    requires Inv(st) && chan != 0
    ensures Inv(st.(proc := Woken(st.proc, chan)))
    ensures forall i: nat :: Zombie(Woken(st.proc, chan), i) <==> Zombie(st.proc, i)
  {
    hide ProcAddr, Matches;
    WokenKeeps(st.proc, chan);
    WokenParented(st.proc, chan);
    WokenNoneMissed(st.proc, chan);
  }

  /** Every step keeps the invariant. */
  lemma NextInv(st: Sys, s: Step)
    requires Inv(st) && Enabled(st, s)
    ensures Inv(Next(st, s))
  {
    hide ProcAddr, Matches, Parented, Channelled, NoneMissed, Numbered;
    var t, cu, st' := st.proc, st.cu, Next(st, s);
    match s {
      case Fork(addr, junk) => ForkInv(st, addr, junk);
      case Exit(ret) => ExitInv(st, ret);
      case Reap(arg, i) => ReapInv(st, arg, i);
      case GiveUp(arg) => MovedInv(st, st', cu);
      case Rest(arg) => RestInv(st, arg);
      case SleepOn(chan, deep) => MovedInv(st, st', cu);
      case Wake(chan) => WakeInv(st, chan);
      case Signal(pid) => if st' != st { MovedInv(st, st', pid); }
      case SetGroup => MovedInv(st, st', cu);
      case Switch(to) =>
    }
  }

  // ---------------------------------------------------------------- zombies

  /** A zombie stays one, with its status, until its parent reaps it. */
  lemma ZombieStep(st: Sys, s: Step, i: nat)
    requires Inv(st) && Enabled(st, s) && Zombie(st.proc, i)
    ensures var t' := Next(st, s).proc;
            if s.Reap? && s.i == i then t'[i].None? && st.cu == st.proc[i].value.ppid
            else Zombie(t', i) && t'[i].value.ret == st.proc[i].value.ret && t'[i].value.addr == st.proc[i].value.addr
  {
    hide ProcAddr, Parented, NoneMissed;
    var t, cu := st.proc, st.cu;
    assert t[i].value.chan == 0;
    assert t[cu].value.pid == cu;
    match s {
      case Exit(ret) =>
        ExitKeepsZombie(st, ret, i);
      case _ =>
    }
  }

  lemma ExitKeepsZombie(st: Sys, ret: int, i: nat)
    requires Inv(st) && Enabled(st, Exit(ret)) && Zombie(st.proc, i)
    ensures var t' := Exited(st.proc, st.cu, ret);
            Zombie(t', i) && t'[i].value.ret == st.proc[i].value.ret && t'[i].value.addr == st.proc[i].value.addr
  {
    hide ProcAddr, NoneMissed;
    ExitChannels(st.proc, st.cu, ret);
    SilentAt(st.proc, st.cu, ret, i);
  }

  /** Only `do_exit` makes a zombie, of the current process. */
  lemma ZombieOrigin(st: Sys, s: Step, i: nat)
    requires Inv(st) && Enabled(st, s) && !Zombie(st.proc, i) && Zombie(Next(st, s).proc, i)
    ensures s.Exit? && i == st.cu && Next(st, s).proc[i].value.ret == AsChar(s.ret)
  {
    hide ProcAddr, NoneMissed, Numbered, Parented, Channelled, Matches, Woken, Exited, Forked;
    match s {
      case Exit(ret) =>
        ExitInv(st, ret);
        ExitStatus(st, ret);
      case Fork(addr, junk) => ForkInv(st, addr, junk);
      case Reap(arg, j) => ReapInv(st, arg, j);
      case Wake(chan) => WakeInv(st, chan);
      case _ =>
    }
  }

  /** The zombie holds the low 8 bits of its status. */
  lemma ExitStatus(st: Sys, ret: int)
    requires Inv(st) && Enabled(st, Exit(ret))
    ensures Live(Next(st, Exit(ret)).proc, st.cu) && Next(st, Exit(ret)).proc[st.cu].value.ret == AsChar(ret)
  {
    hide ProcAddr, NoneMissed, Matches;
    ExitChannels(st.proc, st.cu, ret);
  }

  // ---------------------------------------------------------------- runs

  datatype Event = Gone(ret: int) | Told(ret: int, parent: nat)

  /** What happens to slot i in a step. */
  ghost function Events(st: Sys, s: Step, i: nat): seq<Event>
    requires Enabled(st, s)
  {
    match s
    case Exit(ret) => if i == st.cu then [Gone(AsChar(ret))] else []
    case Reap(_, j) => if i == j then [Told(st.proc[i].value.ret, st.cu)] else []
    case _ => []
  }

  /** Exits and reapings alternate, each reaping with the status of the exit before it;
      `open` is the status not yet told. */
  ghost predicate Paired(es: seq<Event>, open: Option<int>)
    decreases |es|
  {
    if es == [] then open == None
    else match es[|es| - 1]
      case Gone(ret) => open == Some(ret) && Paired(es[..|es| - 1], None)
      case Told(ret, _) => open == None && Paired(es[..|es| - 1], Some(ret))
  }

  ghost function Open(t: Table, i: nat): Option<int> {
    if Zombie(t, i) then Some(t[i].value.ret) else None
  }

  ghost predicate Legal(st: Sys, steps: seq<Step>)
    decreases |steps|
  {
    steps == [] || (Enabled(st, steps[0]) && Legal(Next(st, steps[0]), steps[1..]))
  }

  ghost function After(st: Sys, steps: seq<Step>): Sys
    requires Legal(st, steps)
    decreases |steps|
  {
    if steps == [] then st else After(Next(st, steps[0]), steps[1..])
  }

  ghost function History(st: Sys, steps: seq<Step>, i: nat): seq<Event>
    requires Legal(st, steps)
    decreases |steps|
  {
    if steps == [] then [] else Events(st, steps[0], i) + History(Next(st, steps[0]), steps[1..], i)
  }

  lemma EventsPaired(st: Sys, s: Step, i: nat, es: seq<Event>)
    requires Inv(st) && Enabled(st, s) && Paired(es, Open(st.proc, i))
    ensures Paired(es + Events(st, s, i), Open(Next(st, s).proc, i))
  {
    hide Inv, Enabled, Next;
    var t, t', ev := st.proc, Next(st, s).proc, Events(st, s, i);
    if Zombie(t, i) { ZombieStep(st, s, i); } else if Zombie(t', i) { ZombieOrigin(st, s, i); }
    NotBoth(st, s, i);
    assert es + [] == es;
    if ev != [] { assert (es + ev)[..|es|] == es; }
  }

  lemma NotBoth(st: Sys, s: Step, i: nat)
    requires Inv(st) && Enabled(st, s)
    ensures s.Reap? && s.i == i ==> Zombie(st.proc, i)
    ensures s.Exit? && st.cu == i ==> !Zombie(st.proc, i) && Zombie(Next(st, s).proc, i)
  {
    if s.Exit? { ExitInv(st, s.ret); }
  }

  /** In every run, for every slot: each exit status is told once, in order, to the process
      that is the parent at that time; what has not been told is that of a zombie. */
  lemma {:induction false} RunPaired(st: Sys, steps: seq<Step>, i: nat, es: seq<Event>)
    requires Inv(st) && Legal(st, steps) && Paired(es, Open(st.proc, i))
    ensures Inv(After(st, steps)) && Paired(es + History(st, steps, i), Open(After(st, steps).proc, i))
    decreases |steps|
  {
    hide Inv, Enabled, Next, Paired, Open, Events;
    if steps == [] {
      assert es + [] == es;
    } else {
      var ev := Events(st, steps[0], i);
      NextInv(st, steps[0]);
      EventsPaired(st, steps[0], i, es);
      RunPaired(Next(st, steps[0]), steps[1..], i, es + ev);
      assert es + (ev + History(Next(st, steps[0]), steps[1..], i)) == es + ev + History(Next(st, steps[0]), steps[1..], i);
    }
  }

  /** The table that `proc0_init` leaves. */
  function Boot(): Sys {
    Sys([Some(Proc(1, 0, 0, 0, SRun, 0, 0, None))] + seq(NPROC - 1, _ => None), 0)
  }

  lemma EveryRun(steps: seq<Step>, i: nat)
    requires Legal(Boot(), steps)
    ensures Inv(After(Boot(), steps)) && Paired(History(Boot(), steps, i), Open(After(Boot(), steps).proc, i))
  {
    hide Legal, After, History;
    assert Inv(Boot()) && Paired([], Open(Boot().proc, i));
    RunPaired(Boot(), steps, i, []);
    assert [] + History(Boot(), steps, i) == History(Boot(), steps, i);
  }
}
