/** `find_pid`, `kspawn`, `do_exit`, `do_waitpid`, `wakeup`, `sleep` and `sigsend` on the
    process table. */
module ProcTable {
  import opened Options
  import opened ProcTree
  import opened ProcRuns
  import opened Params

  const NSIG: int := 32
  const SIGKILL: int := 9

  /** How a round of `do_waitpid` ends. */
  datatype Waited = Child(pid: nat, status: int) | Nobody | Sleeping

  class Processes {
    var proc: Table
    var cu: nat

    ghost function St(): Sys
      reads this
    {
      Sys(proc, cu)
    }

    /** `proc0_init`. */
    constructor ()
      ensures St() == Boot() && Inv(St())
    {
      cu := 0;
      proc := [Some(Proc(1, 0, 0, 0, SRun, 0, 0, None))] + seq(NPROC - 1, _ => None);
      new;
      EveryRun([], 0);
    }

    /** `find_pid`: the first free slot, 0 if there is none. */
    method FindPid() returns (nr: nat)
      requires Live(proc, 0)
      ensures nr == if FirstFree(proc) < |proc| then FirstFree(proc) else 0
    {
      nr := 0;
      while nr < |proc|
        invariant nr <= |proc| && forall i: nat | i < nr :: Live(proc, i)
      {
        if proc[nr].None? {
          FirstFreeIs(proc, nr);
          return;
        }
        nr := nr + 1;
      }
      FirstFreeIs(proc, nr);
      return 0;
    }

    /** `kspawn`, the process table part; a full table is a panic. */
    method KSpawn(addr: nat, junk: nat) returns (ok: bool, nr: nat)
      requires Inv(St()) && Free(St()) && ProcAddr(addr) && forall i: nat | Live(proc, i) :: proc[i].value.addr != addr
      modifies this`proc
      ensures ok <==> FirstFree(old(proc)) < |old(proc)|
      ensures !ok ==> proc == old(proc)
      ensures ok ==> Inv(St()) && St() == Next(old(St()), Fork(addr, junk))
      ensures ok ==> nr != 0 && !Live(old(proc), nr) && Live(proc, nr) && forall i: nat | i < nr :: Live(old(proc), i)
      ensures ok ==> var p, me := proc[nr].value, old(proc)[cu].value;
                p.pid == nr && p.ppid == cu && p.pgrp == me.pgrp && p.stat == SRun && p.addr == addr && p.waiting == None
      ensures ok ==> |proc| == |old(proc)| && forall i: nat | i < |proc| && i != nr :: proc[i] == old(proc)[i]
    {
      hide Inv;
      Rooted(St());
      nr := FindPid();
      if nr == 0 {
        return false, 0;
      }
      NextInv(St(), Fork(addr, junk));
      var p := proc[cu].value;
      proc := proc[nr := Some(Proc(addr, nr, p.pid, p.pgrp, SRun, junk, 0, None))];
      ok := true;
    }

    /** `wakeup`. */
    method Wakeup(chan: nat)
      modifies this`proc
      ensures proc == Woken(old(proc), chan)
      ensures forall i: nat | Live(old(proc), i) && old(proc)[i].value.chan == chan ::
                Live(proc, i) && proc[i].value == old(proc)[i].value.(chan := 0, stat := SRun)
      ensures |proc| == |old(proc)|
      ensures forall i: nat | i < |proc| && !(Live(old(proc), i) && old(proc)[i].value.chan == chan) :: proc[i] == old(proc)[i]
    {
      var i := 0;
      while i < |proc|
        invariant i <= |proc| == |old(proc)|
        invariant forall j: nat | j < |proc| :: proc[j] == if j < i then WokenProc(old(proc)[j], chan) else old(proc)[j]
      {
        if proc[i].Some? && proc[i].value.chan == chan {
          proc := proc[i := Some(SetRun(proc[i].value))];
        }
        i := i + 1;
      }
    }

    /** `do_exit`, after the files, directories and memory are released. */
    method DoExit(ret: int)
      requires Inv(St()) && Enabled(St(), Exit(ret))
      modifies this`proc
      ensures Inv(St()) && St() == Next(old(St()), Exit(ret))
      ensures Live(proc, cu) && var me := proc[cu].value;
                -128 <= me.ret < 128 && (me.ret - ret) % 256 == 0 && me == old(proc)[cu].value.(ret := me.ret, chan := 0, stat := SZomb)
      ensures forall i: nat :: Live(proc, i) <==> Live(old(proc), i)
      ensures Live(old(proc), 1) && Live(old(proc), old(proc)[cu].value.ppid)
      ensures forall i: nat | Live(old(proc), i) && i != cu ::
                var was, now, heir := old(proc)[i].value, proc[i].value, old(proc)[cu].value.ppid;
                var woken := was.chan == old(proc)[heir].value.addr || was.chan == old(proc)[1].value.addr;
                now == was.(ppid := if was.ppid == cu then 1 else was.ppid,
                            chan := if woken then 0 else was.chan, stat := if woken then SRun else was.stat)
    {
      hide Inv, NoneMissed, Exited, AsChar;
      NextInv(St(), Exit(ret));
      ExitFields(St(), ret);
      var me := proc[cu].value;
      proc := proc[cu := Some(me.(ret := AsChar(ret), chan := 0, stat := SZomb))];
      ghost var t := proc;
      ghost var t0 := old(proc);
      var nr := 1;
      while nr < |proc|
        invariant 1 <= nr && |proc| == |t|
        invariant forall j: nat | j < |proc| ::
                    proc[j] == if 0 < j < nr && j != cu then Reparent(t[j], me.pid) else t[j]
      {
        if proc[nr].Some? && nr != cu && proc[nr].value.ppid == me.pid {
          proc := proc[nr := Some(proc[nr].value.(ppid := 1))];
        }
        nr := nr + 1;
      }
      assert proc == Adopted(t, cu, me.pid);
      Wakeup(AddrOf(proc, me.ppid));
      Wakeup(AddrOf(proc, 1));
      ExitedIs(t0, cu, ret);
    }

    /** One round of `do_waitpid`: reap the first zombie looked for, or give up, or sleep. */
    method WaitRound(arg: int, nohang: bool) returns (r: Waited)
      requires Inv(St()) && Waits(St(), arg)
      modifies this`proc
      ensures Inv(St())
      ensures r.Child? <==> exists j: nat :: Reapable(old(proc), cu, arg, j)
      ensures r.Child? ==> && Enabled(old(St()), Reap(arg, r.pid)) && St() == Next(old(St()), Reap(arg, r.pid))
                           && r.status == old(proc)[r.pid].value.ret && old(proc)[r.pid].value.ppid == cu
      ensures r == Nobody ==> nohang && Enabled(old(St()), GiveUp(arg)) && St() == Next(old(St()), GiveUp(arg))
      ensures r == Sleeping ==> !nohang && Enabled(old(St()), Rest(arg)) && St() == Next(old(St()), Rest(arg))
      ensures r.Child? ==> 0 < r.pid < |old(proc)| && r.pid != cu && old(proc)[r.pid].Some? && old(proc)[cu].Some?
      ensures r.Child? ==> var p := old(proc)[r.pid].value;
                && p.stat == SZomb && p.ppid == cu && r.status == p.ret
                && (arg > 0 ==> r.pid == arg) && (arg == 0 ==> p.pgrp == old(proc)[cu].value.pgrp) && (arg < -1 ==> p.pgrp == cu)
      ensures forall j: nat | 0 < j < |old(proc)| && j != cu && old(proc)[j].Some? && old(proc)[cu].Some? ::
                var p := old(proc)[j].value;
                && p.stat == SZomb && p.ppid == cu
                && (arg > 0 ==> j == arg) && (arg == 0 ==> p.pgrp == old(proc)[cu].value.pgrp) && (arg < -1 ==> p.pgrp == cu)
                ==> r.Child? && r.pid <= j
      ensures |proc| == |old(proc)| && forall i: nat | i < |proc| && i != cu && !(r.Child? && i == r.pid) :: proc[i] == old(proc)[i]
      ensures r.Child? ==> proc[r.pid] == None
    {
      hide Inv, Matches;
      Rooted(St());
      forall j: nat { LookedFor(St(), arg, j); }
      var q := proc[cu].value;
      var nr := 1;
      while nr < |proc|
        invariant 1 <= nr && proc == old(proc)
        invariant forall j: nat | j < nr :: !Reapable(proc, cu, arg, j)
      {
        if proc[nr].Some? && nr != cu && Wanted(q, proc[nr].value, arg) && proc[nr].value.stat == SZomb {
          Named(St(), nr);
          NextInv(St(), Reap(arg, nr));
          var p := proc[nr].value;
          proc := proc[p.pid := None];
          proc := proc[cu := Some(Back(q))];
          return Child(p.pid, p.ret);
        }
        nr := nr + 1;
      }
      if nohang {
        NextInv(St(), GiveUp(arg));
        proc := proc[cu := Some(Back(q))];
        return Nobody;
      }
      NextInv(St(), Rest(arg));
      proc := proc[cu := Some(q.(waiting := Some(arg), chan := q.addr, stat := SWait))];
      return Sleeping;
    }

    /** `sleep` on a resource. */
    method Sleep(chan: nat, pri: int)
      requires Inv(St()) && Enabled(St(), SleepOn(chan, pri < 0))
      modifies this`proc
      ensures Inv(St()) && St() == Next(old(St()), SleepOn(chan, pri < 0))
      ensures Live(old(proc), cu) &&
                proc == old(proc)[cu := Some(old(proc)[cu].value.(chan := chan, stat := if pri < 0 then SSleep else SWait))]
    {
      NextInv(St(), SleepOn(chan, pri < 0));
      if pri < 0 {
        proc := proc[cu := Some(proc[cu].value.(chan := chan, stat := SSleep))];
      } else {
        proc := proc[cu := Some(proc[cu].value.(chan := chan, stat := SWait))];
      }
    }

    /** `sigsend`, as far as it moves processes. `permitted`: the sender may signal this
        process; `ignored`: its handler is SIG_IGN. */
    method SigSend(pid: nat, n: int, permitted: bool, ignored: bool) returns (ok: bool)
      requires Inv(St())
      modifies this`proc
      ensures ok <==> pid != 0 && Live(old(proc), pid) && 0 <= n < NSIG && permitted && (ignored ==> n == SIGKILL)
      ensures Inv(St()) && St() == if ok then Next(old(St()), Signal(pid)) else old(St())
      ensures forall i: nat :: Zombie(proc, i) <==> Zombie(old(proc), i)
      ensures |proc| == |old(proc)| && forall i: nat | i < |proc| ::
                proc[i] == if ok && i == pid && old(proc)[i].Some? && old(proc)[i].value.stat == SWait
                           then Some(old(proc)[i].value.(chan := 0, stat := SRun)) else old(proc)[i]
    {
      hide Inv;
      NextInv(St(), Signal(pid));
      if pid == 0 || pid >= |proc| || proc[pid].None? || n < 0 || n >= NSIG {
        return false;
      }
      if !permitted {
        return false;
      }
      if ignored && n != SIGKILL {
        return false;
      }
      if proc[pid].value.stat == SWait {
        proc := proc[pid := Some(SetRun(proc[pid].value))];
      }
      ok := true;
    }
  }

  /** The conditions of `do_waitpid`, in its order. */
  predicate Wanted(q: Proc, p: Proc, arg: int)
    ensures Wanted(q, p, arg) <==> Matches(q, p, arg)
    ensures Wanted(q, p, arg) <==>
              && p.ppid == q.pid && (arg > 0 ==> p.pid == arg) && (arg == 0 ==> p.pgrp == q.pgrp) && (arg < -1 ==> p.pgrp == q.pid)
  {
    if arg < -1 then !(p.ppid != q.pid || p.pgrp != q.pid)
    else if arg == -1 then p.ppid == q.pid
    else if arg == 0 then !(p.ppid != q.pid || p.pgrp != q.pgrp)
    else !(p.ppid != q.pid || p.pid != arg)
  }

  /** Who `do_waitpid` looks for, by the fields of the table. */
  lemma LookedFor(st: Sys, arg: int, j: nat)
    requires Inv(st)
    ensures Reapable(st.proc, st.cu, arg, j) <==>
              && 0 < j < |st.proc| && j != st.cu && st.proc[j].Some? && st.proc[j].value.stat == SZomb && st.proc[j].value.ppid == st.cu
              && (arg > 0 ==> j == arg) && (arg == 0 ==> st.proc[j].value.pgrp == st.proc[st.cu].value.pgrp)
              && (arg < -1 ==> st.proc[j].value.pgrp == st.cu)
  {
    hide Inv;
    Rooted(st);
    if Live(st.proc, j) { Named(st, j); }
  }

  /** The table after an exit, by its fields. */
  lemma ExitFields(st: Sys, ret: int)
    requires Inv(st) && Enabled(st, Exit(ret))
    ensures var t, t', cu := st.proc, Exited(st.proc, st.cu, ret), st.cu;
            && Live(t, 1) && Live(t, t[cu].value.ppid) && |t'| == |t| && (forall i: nat :: Live(t', i) <==> Live(t, i))
            && var me := t'[cu].value;
               -128 <= me.ret < 128 && (me.ret - ret) % 256 == 0 && me == t[cu].value.(ret := me.ret, chan := 0, stat := SZomb)
    ensures var t, t', cu := st.proc, Exited(st.proc, st.cu, ret), st.cu;
            forall i: nat | Live(t, i) && i != cu ::
              var was, now, heir := t[i].value, t'[i].value, t[cu].value.ppid;
              var woken := was.chan == t[heir].value.addr || was.chan == t[1].value.addr;
              now == was.(ppid := if was.ppid == cu then 1 else was.ppid,
                          chan := if woken then 0 else was.chan, stat := if woken then SRun else was.stat)
  {
    var t, cu := st.proc, st.cu;
    ExitChannels(t, cu, ret);
    Rooted(st);
    Unparented(st);
    SelfNumbered(st);
    hide Inv, Numbered, Parented, Channelled, NoneMissed, AsChar, ProcAddr, Exited, Woken, Adopted, AddrOf, Silent;
    var heir := t[cu].value.ppid;
    ExitedSelf(t, cu, ret, t[heir].value.addr, t[1].value.addr);
    forall i: nat | Live(t, i) && i != cu
      ensures ExitedOther(t, Exited(t, cu, ret), cu, t[heir].value.addr, t[1].value.addr, i)
    {
      ExitedAt(t, cu, ret, t[heir].value.addr, t[1].value.addr, i);
    }
  }

  lemma SelfNumbered(st: Sys)
    requires Inv(st)
    ensures st.proc[st.cu].value.pid == st.cu
  {
    hide Parented, Channelled, NoneMissed, ProcAddr;
  }

  /** Slot i after the exit of cu, when a and b are the addresses of its parent and of process 1. */
  ghost predicate ExitedOther(t: Table, t': Table, cu: nat, a: nat, b: nat, i: nat) {
    Live(t, i) && Live(t', i) &&
    var was := t[i].value;
    var woken := was.chan == a || was.chan == b;
    t'[i].value == was.(ppid := if was.ppid == cu then 1 else was.ppid,
                        chan := if woken then 0 else was.chan, stat := if woken then SRun else was.stat)
  }

  lemma ExitedAt(t: Table, cu: nat, ret: int, a: nat, b: nat, i: nat)
    requires Live(t, cu) && t[cu].value.pid == cu && Live(t, i) && i != cu && (i == 0 ==> t[0].value.ppid != cu) && a > 0 && b > 0
    requires var t1 := Silent(t, cu, ret); AddrOf(t1, t[cu].value.ppid) == a && AddrOf(Woken(t1, a), 1) == b
    ensures ExitedOther(t, Exited(t, cu, ret), cu, a, b, i)
  {
    hide AddrOf, AsChar;
  }

  lemma ExitedSelf(t: Table, cu: nat, ret: int, a: nat, b: nat)
    requires Live(t, cu) && a > 0 && b > 0
    requires var t1 := Silent(t, cu, ret); AddrOf(t1, t[cu].value.ppid) == a && AddrOf(Woken(t1, a), 1) == b
    ensures var t' := Exited(t, cu, ret);
            && |t'| == |t| && (forall i: nat :: Live(t', i) <==> Live(t, i))
            && var me := t'[cu].value;
               -128 <= me.ret < 128 && (me.ret - ret) % 256 == 0 && me == t[cu].value.(ret := me.ret, chan := 0, stat := SZomb)
  {
    hide AddrOf, AsChar;
    InByte(ret);
  }

  /** Process 0 is nobody's child but its own. */
  lemma Unparented(st: Sys)
    requires Inv(st)
    ensures st.proc[0].Some? && st.proc[0].value.ppid == 0
  {
  }

  /** The value that a char keeps. */
  lemma InByte(n: int)
    ensures -128 <= AsChar(n) < 128 && (AsChar(n) - n) % 256 == 0
  {
  }

  lemma ExitedIs(t: Table, cu: nat, ret: int)
    requires Live(t, cu)
    ensures var p := t[cu].value; var t1 := Adopted(t[cu := Some(Dead(p, ret))], cu, p.pid);
            var t2 := Woken(t1, AddrOf(t1, p.ppid));
            Exited(t, cu, ret) == Woken(t2, AddrOf(t2, 1))
  {
  }

  lemma FirstFreeIs(t: Table, k: nat)
    requires k <= |t| && (k < |t| ==> t[k].None?) && forall i: nat | i < k :: Live(t, i)
    ensures FirstFree(t) == k
  {
    var f := FirstFree(t);
    assert f < k ==> Live(t, f);
    assert k < f ==> Live(t, k);
  }

  lemma Rooted(st: Sys)
    requires Inv(st)
    ensures Live(st.proc, 0) && Live(st.proc, st.cu) && st.proc[st.cu].value.pid == st.cu
  {
  }

  lemma Named(st: Sys, i: nat)
    requires Inv(st) && Live(st.proc, i)
    ensures st.proc[i].value.pid == i
  {
  }
}
