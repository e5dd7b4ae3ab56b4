/** The process table: fork, exit, wait, sleep and wakeup as steps of a transition system. */
module ProcTree {
  import opened Options

  datatype Stat = SSleep | SWait | SRun | SZomb

  /** A process. addr: where its struct proc is; waiting: the argument of the `do_waitpid` it
      is in, if any. */
  datatype Proc = Proc(addr: nat, pid: nat, ppid: nat, pgrp: nat, stat: Stat, chan: nat, ret: int, waiting: Option<int>)

  type Table = seq<Option<Proc>>

  datatype Sys = Sys(proc: Table, cu: nat)

  predicate Live(t: Table, i: nat) {
    i < |t| && t[i].Some?
  }

  predicate Zombie(t: Table, i: nat) {
    Live(t, i) && t[i].value.stat == SZomb
  }

  predicate Asleep(p: Proc) {
    p.stat == SSleep || p.stat == SWait
  }

  /** The addresses that struct procs can have: pages, or proc0. No other wait channel is one. */
  predicate ProcAddr(a: nat) {
    a > 0 && (a % 4096 == 0 || a == 1)
  }

  // ---------------------------------------------------------------- sched.c

  function SetRun(p: Proc): Proc {
    p.(chan := 0, stat := SRun)
  }

  function WokenProc(o: Option<Proc>, chan: nat): Option<Proc> {
    if o.Some? && o.value.chan == chan then Some(SetRun(o.value)) else o
  }

  function Woken(t: Table, chan: nat): (t': Table)
    ensures |t'| == |t| && forall i: nat | i < |t| :: t'[i] == WokenProc(t[i], chan)
  {
    seq(|t|, i requires 0 <= i < |t| => WokenProc(t[i], chan))
  }

  // ---------------------------------------------------------------- fork.c

  /** The first free slot, |t| if there is none. */
  function FirstFree(t: Table): (k: nat)
    ensures k <= |t| && (k < |t| ==> t[k].None?) && forall i: nat | i < k :: Live(t, i)
  {
    if t == [] then 0
    else if t[0].None? then 0
    else
      var k := FirstFree(t[1..]);
      assert forall i: nat | 0 < i <= k :: Live(t[1..], i - 1) && t[i] == t[1..][i - 1];
      k + 1
  }

  /** `kspawn`: p_chan is not set and holds what was in the page. */
  function Child(p: Proc, nr: nat, addr: nat, junk: nat): Proc {
    Proc(addr, nr, p.pid, p.pgrp, SRun, junk, 0, None)
  }

  function Forked(t: Table, cu: nat, addr: nat, junk: nat): Table
    requires Live(t, cu) && FirstFree(t) < |t|
  {
    t[FirstFree(t) := Some(Child(t[cu].value, FirstFree(t), addr, junk))]
  }

  // ---------------------------------------------------------------- exit.c

  /** The value of an int kept in a char. */
  function AsChar(n: int): int {
    if n % 256 < 128 then n % 256 else n % 256 - 256
  }

  function Reparent(o: Option<Proc>, pid: nat): Option<Proc> {
    if o.Some? && o.value.ppid == pid then Some(o.value.(ppid := 1)) else o
  }

  function Adopted(t: Table, cu: nat, pid: nat): (t': Table)
    ensures |t'| == |t| && forall i: nat | i < |t| :: t'[i] == if i == 0 || i == cu then t[i] else Reparent(t[i], pid)
  {
    seq(|t|, i requires 0 <= i < |t| => if i == 0 || i == cu then t[i] else Reparent(t[i], pid))
  }

  function AddrOf(t: Table, i: nat): nat {
    if Live(t, i) then t[i].value.addr else 0
  }

  function Dead(p: Proc, ret: int): Proc {
    p.(ret := AsChar(ret), chan := 0, stat := SZomb)
  }

  /** `do_exit`, once the resources are released. */
  function Exited(t: Table, cu: nat, ret: int): Table
    requires Live(t, cu)
  {
    var p := t[cu].value;
    var t1 := Adopted(t[cu := Some(Dead(p, ret))], cu, p.pid);
    var t2 := Woken(t1, AddrOf(t1, p.ppid));
    Woken(t2, AddrOf(t2, 1))
  }

  // ---------------------------------------------------------------- wait.c

  /** Whether process p is one that `do_waitpid(arg)` of process q looks for. For arg < -1 the
      group is compared with q's own pid. */
  predicate Matches(q: Proc, p: Proc, arg: int) {
    && p.ppid == q.pid
    && (arg < -1 ==> p.pgrp == q.pid)
    && (arg == 0 ==> p.pgrp == q.pgrp)
    && (arg > 0 ==> p.pid == arg)
  }

  predicate Reapable(t: Table, cu: nat, arg: int, i: nat)
    requires Live(t, cu)
  {
    i != 0 && i != cu && Zombie(t, i) && Matches(t[cu].value, t[i].value, arg)
  }

  /** The process stops waiting, or goes to sleep on its own address. */
  function Back(p: Proc): Proc { p.(waiting := None) }

  function Resting(p: Proc, arg: int): Proc { p.(waiting := Some(arg), chan := p.addr, stat := SWait) }

  // ---------------------------------------------------------------- steps

  datatype Step =
    | Fork(addr: nat, junk: nat)
    | Exit(ret: int)
    | Reap(arg: int, i: nat)              // do_waitpid finds zombie i
    | GiveUp(arg: int)                    // do_waitpid finds none and WNOHANG is set
    | Rest(arg: int)                      // do_waitpid finds none and sleeps
    | SleepOn(chan: nat, deep: bool)      // sleep on some other resource
    | Wake(chan: nat)                     // wakeup of such a channel
    | Signal(pid: nat)                    // sigsend
    | SetGroup                            // setpgrp
    | Switch(to: nat)

  /** The current process is running and is not inside `do_waitpid` with another argument. */
  ghost predicate Acts(st: Sys) {
    Live(st.proc, st.cu) && st.proc[st.cu].value.stat == SRun
  }

  ghost predicate Free(st: Sys) {
    Acts(st) && st.proc[st.cu].value.waiting == None
  }

  ghost predicate Waits(st: Sys, arg: int) {
    Acts(st) && st.cu != 0 && (st.proc[st.cu].value.waiting == None || st.proc[st.cu].value.waiting == Some(arg))
  }

  /** Processes 0 and 1 never exit; process 0 never sleeps. */
  ghost predicate Enabled(st: Sys, s: Step) {
    match s
    case Fork(addr, junk) =>
      && Free(st) && FirstFree(st.proc) < |st.proc| && ProcAddr(addr)
      && forall i: nat | Live(st.proc, i) :: st.proc[i].value.addr != addr
    case Exit(ret) => Free(st) && st.cu >= 2
    case Reap(arg, i) =>
      Waits(st, arg) && Reapable(st.proc, st.cu, arg, i) && forall j: nat | j < i :: !Reapable(st.proc, st.cu, arg, j)
    case GiveUp(arg) => Waits(st, arg) && forall j: nat :: !Reapable(st.proc, st.cu, arg, j)
    case Rest(arg) => Waits(st, arg) && forall j: nat :: !Reapable(st.proc, st.cu, arg, j)
    case SleepOn(chan, deep) => Free(st) && st.cu != 0 && chan > 0 && !ProcAddr(chan)
    case Wake(chan) => chan > 0 && !ProcAddr(chan)
    case Signal(pid) => true
    case SetGroup => Free(st)
    case Switch(to) => Live(st.proc, to) && (st.proc[to].value.stat == SRun || to == 0)
  }

  ghost function Next(st: Sys, s: Step): Sys
    requires Enabled(st, s)
  {
    var t, cu := st.proc, st.cu;
    match s
    case Fork(addr, junk) => st.(proc := Forked(t, cu, addr, junk))
    case Exit(ret) => st.(proc := Exited(t, cu, ret))
    case Reap(arg, i) => st.(proc := t[i := None][cu := Some(Back(t[cu].value))])
    case GiveUp(arg) => st.(proc := t[cu := Some(Back(t[cu].value))])
    case Rest(arg) => st.(proc := t[cu := Some(Resting(t[cu].value, arg))])
    case SleepOn(chan, deep) => st.(proc := t[cu := Some(t[cu].value.(chan := chan, stat := if deep then SSleep else SWait))])
    case Wake(chan) => st.(proc := Woken(t, chan))
    case Signal(pid) => st.(proc := Signalled(t, pid))
    case SetGroup => st.(proc := t[cu := Some(t[cu].value.(pgrp := t[cu].value.pid))])
    case Switch(to) => st.(cu := to)
  }

  /** `sigsend`, as far as it moves processes. */
  function Signalled(t: Table, pid: nat): Table {
    if pid != 0 && Live(t, pid) && t[pid].value.stat == SWait then t[pid := Some(SetRun(t[pid].value))] else t
  }

  // ---------------------------------------------------------------- the invariant

  ghost predicate Numbered(t: Table) {
    && (forall i: nat | Live(t, i) :: t[i].value.pid == i && ProcAddr(t[i].value.addr))
    && (forall i: nat, j: nat | Live(t, i) && Live(t, j) && t[i].value.addr == t[j].value.addr :: i == j)
  }

  /** Every parent is there and is no zombie; so is process 1 once there is any other. */
  ghost predicate Parented(t: Table) {
    && (forall i: nat | Live(t, i) :: Live(t, t[i].value.ppid) && !Zombie(t, t[i].value.ppid))
    && (forall i: nat | Live(t, i) && i > 0 :: Live(t, 1) && t[i].value.ppid != i)
    && (Live(t, 1) ==> t[1].value.ppid == 0)
    && Live(t, 0) && t[0].value.ppid == 0 && !Zombie(t, 0) && !Zombie(t, 1)
  }

  /** Zombies wait for nothing; whoever sleeps on a process sleeps on itself, in `do_waitpid`. */
  ghost predicate Channelled(t: Table) {
    forall i: nat | Live(t, i) ::
      var p := t[i].value;
      && (p.stat == SZomb ==> p.chan == 0 && p.waiting == None)
      && (Asleep(p) ==> p.chan != 0 && (ProcAddr(p.chan) ==> p.chan == p.addr && p.waiting.Some?))
      && (Asleep(p) && p.waiting.Some? ==> p.chan == p.addr)
  }

  /** No process sleeps in `do_waitpid` while there is a child for it to reap. */
  ghost predicate NoneMissed(t: Table) {
    forall q: nat, i: nat | Live(t, q) && Asleep(t[q].value) && t[q].value.waiting.Some? ::
      !Reapable(t, q, t[q].value.waiting.value, i)
  }

  ghost predicate Inv(st: Sys) {
    Live(st.proc, st.cu) && Numbered(st.proc) && Parented(st.proc) && Channelled(st.proc) && NoneMissed(st.proc)
  }
}
