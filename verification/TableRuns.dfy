/** Whole runs of the calls on files and inodes: whatever processes do, every counter is the
    number of references, until the first call that goes wrong in one of the stated ways. */
module TableRuns {
  import opened Ledgers
  import opened Options
  import opened RefTables
  import opened OpenFiles
  import opened Params

  /** What the current process does; n says which of its inodes in hand is meant. */
  datatype Op =
    | Get(dev: nat, num: nat, n: nat)                   // iget, by namei
    | Drop(n: nat)                                      // iput of it
    | Open(n: nat)
    | Close(fd: int)
    | Dup(fd: int, outside: bool)
    | Dup2(fd: int, newfd: int, outside: bool)
    | SetFd(fd: int, arg: nat)
    | Init(n: nat)
    | ChDir(n: nat)
    | ChRoot(n: nat)
    | Exec(n: nat)
    | Fork(child: nat)
    | Exit
    | Reap(p: nat)
    | Switch(p: nat)

  datatype Snap = Snap(m: Tabs, cu: nat, flags: map<nat, seq<nat>>)

  ghost function Shot(t: Tables): Snap
    reads t
  {
    Snap(t.St(), t.cu, t.fdflag)
  }

  ghost predicate SnapOk(x: Snap) {
    Inv(x.m) && x.cu in x.m.user && FlagsOk(x.flags, x.m.user.Keys) && Paired(x.m.user)
  }

  /** A process has both directories or none. */
  ghost predicate Paired(u: Users) {
    forall p | p in u :: u[p].wdir.Some? <==> u[p].iroot.Some?
  }

  /** The operations that can be asked for. */
  ghost predicate Askable(x: Snap, op: Op) {
    match op
    case Get(dev, num, n) => num != 0 && n < NHELD && Held(x.cu, n) !in x.m.il
    case Drop(n) => Held(x.cu, n) in x.m.il
    case Open(n) => Held(x.cu, n) in x.m.il
    case Init(n) => Held(x.cu, n) in x.m.il && x.cu in x.m.user && x.m.user[x.cu].wdir == None && x.m.user[x.cu].iroot == None
    case ChDir(n) => Held(x.cu, n) in x.m.il
    case ChRoot(n) => Held(x.cu, n) in x.m.il
    case Exec(n) => Held(x.cu, n) in x.m.il
    case Fork(child) => child !in x.m.user && child < NPROC
    case Exit => forall n :: Held(x.cu, n) !in x.m.il
    case Reap(p) => p in x.m.user && p != x.cu && x.m.user[p] == Nobody() && forall n :: Held(p, n) !in x.m.il
    case Switch(p) => p in x.m.user
    case _ => true
  }

  ghost predicate Full(x: Snap) {
    forall i | 0 <= i < NOFILE :: Named(x.m.user, Fd(x.cu, i)).Some?
  }

  /** How often the file that descriptor fd names is counted. */
  ghost function CountOf(x: Snap, fd: nat): int
    requires SnapOk(x)
  {
    if Fd(x.cu, fd) in x.m.fl then x.m.fCount[x.m.fl[Fd(x.cu, fd)]] else 0
  }

  /** ... and its inode. */
  ghost function InodeCountOf(x: Snap, fd: nat): int
    requires SnapOk(x)
  {
    if Fd(x.cu, fd) in x.m.il then x.m.iCount[x.m.il[Fd(x.cu, fd)]] else 0
  }

  /** The calls that go wrong: the file table is full, a count passes 127, a descriptor out of
      range is believed, a directory that is not there is put, the last reference is closed
      before it is copied. */
  ghost predicate Breaks(x: Snap, files: nat, op: Op)
    requires SnapOk(x)
  {
    Askable(x, op) && match op
      case Open(_) => !Full(x) && forall k | 0 <= k < NFILE :: x.m.fCount[k] > 0
      case Close(fd) => fd == NOFILE && InTable(x.flags[x.cu][0], files)
      case Dup(fd, outside) =>
        fd < NOFILE && Found(x.m.user[x.cu], fd, outside) && !Full(x) && (fd < 0 || CountOf(x, fd) == 127)
      case Dup2(fd, newfd, outside) =>
        && fd < NOFILE && Found(x.m.user[x.cu], fd, outside)
        && (fd < 0 || newfd < 0 || newfd >= NOFILE ||
            if fd == newfd then InodeCountOf(x, fd) < 2
            else Named(x.m.user, Fd(x.cu, newfd)) != Named(x.m.user, Fd(x.cu, fd)) && CountOf(x, fd) == 127)
      case ChDir(_) => x.m.user[x.cu].wdir == None
      case ChRoot(_) => x.m.user[x.cu].iroot == None
      case Fork(_) => !Fits(x.m.fCount, x.m.user[x.cu].ofile)
      case Exit => x.m.user[x.cu].iroot == None
      case _ => false
  }

  /** The inodes that processes have in hand are the same, but for those in `gone`. */
  ghost predicate HandsBut(m: Tabs, m': Tabs, gone: set<Ref>) {
    forall r: Ref | r.Held? :: Look(m'.il, r) == if r in gone then None else Look(m.il, r)
  }

  /** fd is the least free descriptor of the current process. */
  ghost predicate LeastFd(x: Snap, fd: nat) {
    && fd < NOFILE && Place(x.m.user, Fd(x.cu, fd)) && Named(x.m.user, Fd(x.cu, fd)) == None
    && forall i: nat | i < fd :: Named(x.m.user, Fd(x.cu, i)).Some?
  }

  ghost predicate LeastFile(m: Tabs, k: nat) {
    k < |m.fCount| && m.fCount[k] == 0 && forall i | 0 <= i < k :: m.fCount[i] != 0
  }

  /** The references of all processes become u, with the same files on the same inodes. */
  ghost predicate Turns(x: Snap, x': Snap, u: Users, gone: set<Ref>) {
    x'.m.user == u && HandsBut(x.m, x'.m, gone) && Slots(x.m, x'.m)
  }

  ghost predicate Unmoved(x: Snap, x': Snap) {
    x'.cu == x.cu && x'.flags == x.flags
  }

  /** What an operation does to the references; the counters follow, as `SnapOk` says. */
  ghost predicate Does(x: Snap, op: Op, x': Snap)
    requires SnapOk(x)
  {
    var m, m', cu := x.m, x'.m, x.cu;
    if !Askable(x, op) then x' == x
    else match op
      case Get(dev, num, n) =>
        && Unmoved(x, x') && m'.user == m.user && m'.fl == m.fl && m'.fIno == m.fIno
        && |m.iNum| == |m.iDev| == |m'.iNum| == |m'.iDev| == NINODE
        && (forall s | 0 <= s < NINODE && m.iNum[s] != 0 :: m'.iDev[s] == m.iDev[s] && m'.iNum[s] == m.iNum[s])
        && (if Held(cu, n) in m'.il then
              var s := m'.il[Held(cu, n)];
              m'.il == m.il[Held(cu, n) := s] && s < NINODE && m'.iDev[s] == dev && m'.iNum[s] == num
            else m' == m && (InCore(m, dev, num) || forall s | 0 <= s < |m.iCount| :: m.iCount[s] > 0))
      case Drop(n) => Unmoved(x, x') && Turns(x, x', m.user, {Held(cu, n)})
      case Open(n) =>
        if Full(x) then Unmoved(x, x') && Turns(x, x', m.user, {Held(cu, n)})
        else exists fd: nat, k: nat ::
               && LeastFd(x, fd) && LeastFile(m, k) && OpenedAt(m, m', Fd(cu, fd), k, Held(cu, n))
               && x'.cu == cu && x'.flags == Flagged(x.flags, cu, fd, CLOEXEC)
      case Close(fd) =>
        Unmoved(x, x') && Turns(x, x', if 0 <= fd < NOFILE then Put(m.user, Fd(cu, fd), None) else m.user, {})
      case Dup(fd, outside) =>
        && Unmoved(x, x')
        && if fd >= NOFILE || !Found(m.user[cu], fd, outside) || Full(x) then m' == m
           else exists newfd: nat :: LeastFd(x, newfd) && fd >= 0 && Turns(x, x', Put(m.user, Fd(cu, newfd), Named(m.user, Fd(cu, fd))), {})
      case Dup2(fd, newfd, outside) =>
        && Unmoved(x, x')
        && if fd >= NOFILE || !Found(m.user[cu], fd, outside) then m' == m
           else 0 <= fd && 0 <= newfd < NOFILE && Turns(x, x', Put(m.user, Fd(cu, newfd), Named(m.user, Fd(cu, fd))), {})
      case SetFd(fd, arg) =>
        && m' == m && x'.cu == cu
        && x'.flags == if 0 <= fd < NOFILE && Named(m.user, Fd(cu, fd)).Some? then Flagged(x.flags, cu, fd, arg) else x.flags
      case Init(n) =>
        var s := Some(m.il[Held(cu, n)]);
        Unmoved(x, x') && Turns(x, x', m.user[cu := m.user[cu].(wdir := s, iroot := s)], {Held(cu, n)})
      case ChDir(n) =>
        Unmoved(x, x') && Turns(x, x', m.user[cu := m.user[cu].(wdir := Some(m.il[Held(cu, n)]))], {Held(cu, n)})
      case ChRoot(n) =>
        Unmoved(x, x') && Turns(x, x', m.user[cu := m.user[cu].(iroot := Some(m.il[Held(cu, n)]))], {Held(cu, n)})
      case Exec(n) =>
        var s := Some(m.il[Held(cu, n)]);
        var u := m.user[cu].(areas := [s, s, None, None, None], ofile := Unflagged(m.user[cu].ofile, x.flags[cu], NOFILE));
        Unmoved(x, x') && Turns(x, x', m.user[cu := u], {Held(cu, n)})
      case Fork(child) =>
        x'.cu == cu && x'.flags == x.flags[child := x.flags[cu]] && Turns(x, x', m.user[child := m.user[cu]], {})
      case Exit => Unmoved(x, x') && Turns(x, x', m.user[cu := Nobody()], {})
      case Reap(p) => x'.cu == cu && x'.flags == x.flags - {p} && m' == m.(user := m.user - {p})
      case Switch(p) => m' == m && x'.flags == x.flags && x'.cu == p
  }

  ghost predicate InCore(m: Tabs, dev: nat, num: nat) {
    exists s :: 0 <= s < |m.iDev| && s < |m.iNum| && m.iDev[s] == dev && m.iNum[s] == num
  }

  /** `got` are the inodes that the processes have in hand. */
  ghost predicate InHand(il: map<Ref, nat>, got: map<Ref, nat>) {
    && (forall r | r in got :: r.Held?)
    && forall r: Ref | r.Held? :: Look(got, r) == Look(il, r)
  }

  ghost predicate Good(t: Tables, got: map<Ref, nat>)
    reads t
  {
    t.Valid() && Paired(t.user) && InHand(t.il, got)
  }

  lemma InHandKept(il: map<Ref, nat>, il': map<Ref, nat>, got: map<Ref, nat>)
    requires InHand(il, got) && forall r: Ref | r.Held? :: Look(il', r) == Look(il, r)
    ensures InHand(il', got)
  {
  }

  lemma InHandAt(il: map<Ref, nat>, got: map<Ref, nat>, h: Ref)
    requires InHand(il, got) && h.Held?
    ensures h in got <==> h in il
    ensures h in got ==> got[h] == il[h]
  {
    assert Look(got, h) == Look(il, h);
  }

  lemma InHandGone(il: map<Ref, nat>, il': map<Ref, nat>, got: map<Ref, nat>, h: Ref)
    requires InHand(il, got) && h.Held? && forall r: Ref | r.Held? :: Look(il', r) == if r == h then None else Look(il, r)
    ensures InHand(il', got - {h})
  {
  }

  lemma NoneInHand(il: map<Ref, nat>, got: map<Ref, nat>, p: nat)
    requires InHand(il, got)
    ensures (forall r | r in got :: r.p != p) <==> forall n :: Held(p, n) !in il
  {
    forall n ensures Held(p, n) in got <==> Held(p, n) in il { InHandAt(il, got, Held(p, n)); }
    forall r | r in got && r.p == p ensures r == Held(p, r.n) { }
  }

  method StepGet(t: Tables, got: map<Ref, nat>, dev: nat, num: nat, n: nat) returns (got': map<Ref, nat>)
    requires Good(t, got)
    modifies t
    ensures Good(t, got') && SnapOk(old(Shot(t))) && Does(old(Shot(t)), Get(dev, num, n), Shot(t))
  {
    hide Inv, Look, Shape;
    got' := got;
    ShapeOf(t.St());
    ShapeFacts(t.St(), t.cu);
    InHandAt(t.il, got, Held(t.cu, n));
    if num != 0 && n < NHELD && Held(t.cu, n) !in got {
      var r := t.IGet(dev, num, n);
      if r.Inode? {
        got' := got[Held(t.cu, n) := r.s];
        InHandMore(old(t.il), got, Held(t.cu, n), r.s);
      }
    }
  }

  lemma InHandMore(il: map<Ref, nat>, got: map<Ref, nat>, h: Ref, s: nat)
    requires InHand(il, got) && h.Held?
    ensures InHand(il[h := s], got[h := s])
  {
    forall r: Ref | r.Held? ensures Look(got[h := s], r) == Look(il[h := s], r) { assert Look(got, r) == Look(il, r); }
  }

  method StepDrop(t: Tables, got: map<Ref, nat>, n: nat) returns (got': map<Ref, nat>)
    requires Good(t, got)
    modifies t
    ensures Good(t, got') && SnapOk(old(Shot(t))) && Does(old(Shot(t)), Drop(n), Shot(t))
  {
    hide Inv;
    got' := got;
    ghost var h := Held(t.cu, n);
    InHandAt(t.il, got, h);
    if Held(t.cu, n) in got {
      HeldInode(t.St(), h);
      PutHeld(t.user, h);
      t.PutRef(Held(t.cu, n), got[Held(t.cu, n)]);
      InHandGone(old(t.il), t.il, got, h);
      got' := got - {Held(t.cu, n)};
    }
  }

  method StepOpen(t: Tables, got: map<Ref, nat>, n: nat) returns (ok: bool, got': map<Ref, nat>)
    requires Good(t, got)
    modifies t
    ensures ok <==> !Breaks(old(Shot(t)), t.files, Open(n))
    ensures ok ==> Good(t, got') && SnapOk(old(Shot(t))) && Does(old(Shot(t)), Open(n), Shot(t))
  {
    hide Inv, Shape, Put;
    ok, got' := true, got;
    ghost var h, x := Held(t.cu, n), Shot(t);
    ShapeOf(x.m);
    ShapeFacts(x.m, t.cu);
    InHandAt(t.il, got, h);
    if Held(t.cu, n) in got {
      var r := t.DoOpen(got[Held(t.cu, n)], n);
      ok := r != NoFile;
      if ok {
        if r.Descriptor? {
          assert LeastFd(x, r.fd) && LeastFile(x.m, r.k);
          PutPaired(x.m.user, Fd(t.cu, r.fd), Some(r.k));
        }
        InHandGone(old(t.il), t.il, got, h);
        got' := got - {Held(t.cu, n)};
      }
    }
  }

  method StepClose(t: Tables, got: map<Ref, nat>, fd: int) returns (ok: bool)
    requires Good(t, got)
    modifies t
    ensures ok <==> !Breaks(old(Shot(t)), t.files, Close(fd))
    ensures ok ==> Good(t, got) && SnapOk(old(Shot(t))) && Does(old(Shot(t)), Close(fd), Shot(t))
  {
    hide Inv, Place, Put, Shape;
    ghost var m := t.St();
    ShapeOf(m);
    ShapeFacts(m, t.cu);
    NamedFds(m.user, t.cu);
    if 0 <= fd < NOFILE { PutSame(m.user, t.cu, fd); }
    var r := t.DoClose(fd);
    ok := r != Stray;
    if r == Ret(0) {
      PutPaired(old(t.user), Fd(t.cu, fd), None);
      InHandKept(old(t.il), t.il, got);
    }
  }

  lemma PutSame(u: Users, p: nat, n: nat)
    requires p in u && |u[p].ofile| == NOFILE && |u[p].areas| == NVMA && n < NOFILE
    ensures Place(u, Fd(p, n)) && (Named(u, Fd(p, n)) == None ==> Put(u, Fd(p, n), None) == u)
  {
    assert u[p].ofile[n] == None ==> u[p].ofile[n := None] == u[p].ofile;
  }

  /** A descriptor has no part in the pairing and none in other processes. */
  lemma PutPaired(u: Users, r: Ref, v: Option<nat>)
    requires Place(u, r)
    ensures r.p in Put(u, r, v) && forall q | q in u && q != r.p :: q in Put(u, r, v) && Put(u, r, v)[q] == u[q]
    ensures r.Fd? && Paired(u) ==> Paired(Put(u, r, v))
    ensures (r.Wd? || r.Rt?) && v.Some? && Named(u, r).Some? && Paired(u) ==> Paired(Put(u, r, v))
  {
  }

  method StepDup(t: Tables, got: map<Ref, nat>, fd: int, outside: bool) returns (ok: bool)
    requires Good(t, got)
    modifies t
    ensures ok <==> !Breaks(old(Shot(t)), t.files, Dup(fd, outside))
    ensures ok ==> Good(t, got) && SnapOk(old(Shot(t))) && Does(old(Shot(t)), Dup(fd, outside), Shot(t))
  {
    hide Inv, Place, Put, Shape;
    ghost var m, x := t.St(), Shot(t);
    ShapeOf(m);
    ShapeFacts(m, t.cu);
    NamedFds(m.user, t.cu);
    ok := DupFits(t, fd);
    var r := t.DoDup(fd, outside);
    if r == Stray {
      return false;
    }
    if r == Ret(-1) {
      return true;
    }
    AtMost127(m);
    if ok {
      PutPaired(m.user, Fd(t.cu, r.v), Some(m.fl[Fd(t.cu, fd)]));
      InHandKept(m.il, t.il, got);
      assert LeastFd(x, r.v);
      OpenedFd(m, Fd(t.cu, fd));
      assert Turns(x, Shot(t), Put(m.user, Fd(t.cu, r.v), Named(m.user, Fd(t.cu, fd))), {});
    }
  }

  /** Does the file of descriptor fd have room for one more? */
  method DupFits(t: Tables, fd: int) returns (ok: bool)
    requires t.Valid()
    ensures 0 <= fd < NOFILE && Named(t.user, Fd(t.cu, fd)).Some? ==>
              Fd(t.cu, fd) in t.fl && t.fl[Fd(t.cu, fd)] < |t.fCount| && (ok <==> t.fCount[t.fl[Fd(t.cu, fd)]] < 127)
  {
    hide Inv, Shape;
    ok := true;
    ShapeOf(t.St());
    ShapeFacts(t.St(), t.cu);
    NamedFds(t.user, t.cu);
    if 0 <= fd < NOFILE && t.user[t.cu].ofile[fd].Some? {
      OpenedFd(t.St(), Fd(t.cu, fd));
      ok := t.fCount[t.user[t.cu].ofile[fd].value] < 127;
    }
  }

  method StepDup2(t: Tables, got: map<Ref, nat>, fd: int, newfd: int, outside: bool) returns (ok: bool)
    requires Good(t, got)
    modifies t
    ensures ok <==> !Breaks(old(Shot(t)), t.files, Dup2(fd, newfd, outside))
    ensures ok ==> Good(t, got) && SnapOk(old(Shot(t))) && Does(old(Shot(t)), Dup2(fd, newfd, outside), Shot(t))
  {
    hide Inv, Place, Put, Shape, Named;
    ghost var m := t.St();
    ShapeOf(m);
    ShapeFacts(m, t.cu);
    NamedFds(m.user, t.cu);
    ok := Dup2Fits(t, fd, newfd);
    var r := t.DoDup2(fd, newfd, outside);
    if r == Stray {
      return false;
    }
    if r == Ret(-1) {
      return true;
    }
    AtMost127(m);
    if ok {
      PutPaired(m.user, Fd(t.cu, newfd), Named(m.user, Fd(t.cu, fd)));
      InHandKept(m.il, t.il, got);
    }
  }

  method Dup2Fits(t: Tables, fd: int, newfd: int) returns (ok: bool)
    requires t.Valid()
    ensures 0 <= fd < NOFILE && 0 <= newfd < NOFILE && Named(t.user, Fd(t.cu, fd)).Some? ==>
              && Fd(t.cu, fd) in t.fl && t.fl[Fd(t.cu, fd)] < |t.fCount| && Fd(t.cu, fd) in t.il && t.il[Fd(t.cu, fd)] < |t.iCount|
              && (ok <==> if fd == newfd then t.iCount[t.il[Fd(t.cu, fd)]] >= 2
                          else Named(t.user, Fd(t.cu, newfd)) == Named(t.user, Fd(t.cu, fd)) || t.fCount[t.fl[Fd(t.cu, fd)]] < 127)
  {
    hide Inv, Shape;
    ok := true;
    ShapeOf(t.St());
    ShapeFacts(t.St(), t.cu);
    NamedFds(t.user, t.cu);
    if 0 <= fd < NOFILE && 0 <= newfd < NOFILE && t.user[t.cu].ofile[fd].Some? {
      OpenedFd(t.St(), Fd(t.cu, fd));
      var k := t.user[t.cu].ofile[fd].value;
      ok := if fd == newfd then t.iCount[t.fIno[k]] >= 2
            else t.user[t.cu].ofile[newfd] == t.user[t.cu].ofile[fd] || t.fCount[k] < 127;
    }
  }

  method StepInit(t: Tables, got: map<Ref, nat>, n: nat) returns (got': map<Ref, nat>)
    requires Good(t, got)
    modifies t
    ensures Good(t, got') && SnapOk(old(Shot(t))) && Does(old(Shot(t)), Init(n), Shot(t))
  {
    hide Inv;
    got' := got;
    ghost var h := Held(t.cu, n);
    InHandAt(t.il, got, h);
    if Held(t.cu, n) in got && t.user[t.cu].wdir == None && t.user[t.cu].iroot == None {
      t.SetDirs(got[Held(t.cu, n)], n);
      InHandGone(old(t.il), t.il, got, h);
      got' := got - {Held(t.cu, n)};
    }
  }

  method StepChange(t: Tables, got: map<Ref, nat>, root: bool, n: nat) returns (ok: bool, got': map<Ref, nat>)
    requires Good(t, got)
    modifies t
    ensures ok <==> !Breaks(old(Shot(t)), t.files, if root then ChRoot(n) else ChDir(n))
    ensures ok ==> Good(t, got') && SnapOk(old(Shot(t))) && Does(old(Shot(t)), if root then ChRoot(n) else ChDir(n), Shot(t))
  {
    hide Inv, Put, Shape;
    ok, got' := true, got;
    ghost var h, m := Held(t.cu, n), t.St();
    ShapeOf(m);
    ShapeFacts(m, t.cu);
    InHandAt(t.il, got, h);
    if Held(t.cu, n) in got {
      var r := if root then Rt(t.cu) else Wd(t.cu);
      ok := t.ChangeDir(r, got[Held(t.cu, n)], n);
      if ok {
        PutPaired(m.user, r, Some(got[h]));
        PutDir(m.user, t.cu, Some(got[h]));
        InHandGone(m.il, t.il, got, h);
        got' := got - {Held(t.cu, n)};
      }
    }
  }

  lemma PutDir(u: Users, p: nat, v: Option<nat>)
    requires Place(u, Wd(p)) && Place(u, Rt(p))
    ensures Put(u, Wd(p), v) == u[p := u[p].(wdir := v)] && Put(u, Rt(p), v) == u[p := u[p].(iroot := v)]
  {
  }

  method StepExec(t: Tables, got: map<Ref, nat>, n: nat) returns (got': map<Ref, nat>)
    requires Good(t, got)
    modifies t
    ensures Good(t, got') && SnapOk(old(Shot(t))) && Does(old(Shot(t)), Exec(n), Shot(t))
  {
    hide Inv, Unflagged;
    got' := got;
    ghost var h := Held(t.cu, n);
    InHandAt(t.il, got, h);
    if Held(t.cu, n) in got {
      t.ExecFiles(got[Held(t.cu, n)], n);
      InHandGone(old(t.il), t.il, got, h);
      got' := got - {Held(t.cu, n)};
    }
  }

  method StepFork(t: Tables, got: map<Ref, nat>, child: nat) returns (ok: bool)
    requires Good(t, got)
    modifies t
    ensures ok <==> !Breaks(old(Shot(t)), t.files, Fork(child))
    ensures ok ==> Good(t, got) && SnapOk(old(Shot(t))) && Does(old(Shot(t)), Fork(child), Shot(t))
  {
    hide Inv, Fits;
    ok := true;
    if child !in t.user && child < NPROC {
      NoRefs(t.St(), child);
      ok := t.Spawn(child);
      if ok {
        forall r: Ref | r.Held? ensures Look(t.il, r) == Look(old(t.il), r) { assert r.p == child ==> r == Held(child, r.n); }
        InHandKept(old(t.il), t.il, got);
      }
    }
  }

  method StepExit(t: Tables, got: map<Ref, nat>) returns (ok: bool)
    requires Good(t, got)
    modifies t
    ensures ok <==> !Breaks(old(Shot(t)), t.files, Exit)
    ensures ok ==> Good(t, got) && SnapOk(old(Shot(t))) && Does(old(Shot(t)), Exit, Shot(t))
  {
    hide Inv;
    ok := true;
    NoneInHand(t.il, got, t.cu);
    if forall r | r in got :: r.p != t.cu {
      ok := t.Exit();
      if ok {
        forall r: Ref | r.Held? ensures Look(t.il, r) == Look(old(t.il), r) { assert r.p == t.cu ==> r == Held(t.cu, r.n); }
        InHandKept(old(t.il), t.il, got);
      }
    }
  }

  method StepReap(t: Tables, got: map<Ref, nat>, p: nat)
    requires Good(t, got)
    modifies t
    ensures Good(t, got) && SnapOk(old(Shot(t))) && Does(old(Shot(t)), Reap(p), Shot(t))
  {
    hide Inv;
    NoneInHand(t.il, got, p);
    if p in t.user && p != t.cu && t.user[p] == Nobody() && forall r | r in got :: r.p != p {
      t.Forget(p);
    }
  }

  /** One operation; those that cannot be asked for are skipped. */
  method Step(t: Tables, got: map<Ref, nat>, op: Op) returns (ok: bool, got': map<Ref, nat>)
    requires Good(t, got)
    modifies t
    ensures ok <==> !Breaks(old(Shot(t)), t.files, op)
    ensures ok ==> Good(t, got') && SnapOk(old(Shot(t))) && Does(old(Shot(t)), op, Shot(t))
  {
    hide Inv, InHand, Paired, FlagsOk, Full, Fits, InTable, Found, CountOf, InodeCountOf;
    ok, got' := true, got;
    match op {
      case Get(dev, num, n) => got' := StepGet(t, got, dev, num, n);
      case Drop(n) => got' := StepDrop(t, got, n);
      case Open(n) => ok, got' := StepOpen(t, got, n);
      case Close(fd) => ok := StepClose(t, got, fd);
      case Dup(fd, outside) => ok := StepDup(t, got, fd, outside);
      case Dup2(fd, newfd, outside) => ok := StepDup2(t, got, fd, newfd, outside);
      case SetFd(fd, arg) => var r := t.SetFdFlag(fd, arg);
      case Init(n) => got' := StepInit(t, got, n);
      case ChDir(n) => ok, got' := StepChange(t, got, false, n);
      case ChRoot(n) => ok, got' := StepChange(t, got, true, n);
      case Exec(n) => got' := StepExec(t, got, n);
      case Fork(child) => ok := StepFork(t, got, child);
      case Exit => ok := StepExit(t, got);
      case Reap(p) => StepReap(t, got, p);
      case Switch(p) => if p in t.user { t.cu := p; }
    }
  }

  ghost predicate Ran(files: nat, ops: seq<Op>, states: seq<Snap>) {
    && 0 < |states| <= |ops| + 1 && (forall i | 0 <= i < |states| :: SnapOk(states[i]))
    && forall i | 0 <= i < |states| - 1 ::
         !Breaks(states[i], files, ops[i]) && Does(states[i], ops[i], states[i + 1])
  }

  lemma RanOne(files: nat, ops: seq<Op>, x: Snap)
    requires SnapOk(x)
    ensures Ran(files, ops, [x])
  {
  }

  lemma RanMore(files: nat, ops: seq<Op>, states: seq<Snap>, x: Snap)
    requires Ran(files, ops, states) && |states| <= |ops| && SnapOk(x)
    requires var i := |states| - 1;
             SnapOk(states[i]) && !Breaks(states[i], files, ops[i]) && Does(states[i], ops[i], x)
    ensures Ran(files, ops, states + [x])
  {
    hide SnapOk, Breaks, Does;
  }

  /** Conservation: after every operation of every run each `f_count` and `i_count` is the
      number of references, in-core inodes are unique and no process lost a reference to
      another one's call; the run ends early exactly at a call that goes wrong. */
  method Run(t: Tables, got: map<Ref, nat>, ops: seq<Op>) returns (done: nat, got': map<Ref, nat>, ghost states: seq<Snap>)
    requires Good(t, got)
    modifies t
    ensures done <= |ops| && |states| == done + 1 && states[0] == old(Shot(t)) && Ran(t.files, ops, states)
    ensures done == |ops| ==> Good(t, got') && states[done] == Shot(t)
    ensures done < |ops| ==> SnapOk(states[done]) && Breaks(states[done], t.files, ops[done])
  {
    hide Inv, InHand, Paired, FlagsOk, Breaks, Does, Ran;
    done, got', states := 0, got, [Shot(t)];
    RanOne(t.files, ops, Shot(t));
    while done < |ops|
      invariant done <= |ops| && |states| == done + 1 && states[0] == old(Shot(t)) && states[done] == Shot(t)
      invariant Good(t, got') && Ran(t.files, ops, states)
    {
      var ok;
      ok, got' := Step(t, got', ops[done]);
      if !ok {
        return;
      }
      RanMore(t.files, ops, states, Shot(t));
      states := states + [Shot(t)];
      done := done + 1;
    }
  }

  /** From start-up: once process 0 has a root directory, `dup(-1)` takes it for a file. */
  method DupBelow(files: nat, dev: nat) returns (r: Ret)
    ensures r == Stray
  {
    hide Inv;
    var t := new Tables(files);
    ghost var m := t.St();
    NothingIn(m);
    var g := t.IGet(dev, 1, 0);
    assert m.iCount[0] == 0;
    t.SetDirs(g.s, 0);
    assert Named(t.user, Fd(t.cu, 0)) == None;
    r := t.DoDup(-1, false);
  }

  lemma NothingIn(m: Tabs)
    requires Inv(m) && m.il == map[]
    ensures |m.iCount| == |m.iNum| == NINODE && forall s | 0 <= s < NINODE :: m.iCount[s] == 0 && m.iNum[s] == 0
  {
    forall s | 0 <= s < NINODE ensures m.iCount[s] == 0 && m.iNum[s] == 0 { assert Holders(m.il, s) == {}; }
  }
}
