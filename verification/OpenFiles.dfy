/** `iget`, `iput`, `do_open`, `do_close`, `do_dup`, `do_dup2`, `chdir`, and what `kspawn`,
    `do_exec` and `do_exit` do to files and inodes. */
module OpenFiles {
  import opened Ledgers
  import opened Options
  import opened RefTables
  import opened Params

  /** Busy: the inode is locked and the caller sleeps; Overflow: no slot is free. */
  datatype Got = Inode(s: nat) | Busy | Overflow

  datatype Opened = Descriptor(fd: nat, k: nat) | NoDescriptor | NoFile

  /** What a call on a descriptor returns; Stray: it takes, or overwrites, a word that is no
      descriptor, and goes on with whatever that word addresses. */
  datatype Ret = Ret(v: int) | Stray

  const FILE_SIZE: nat := 12
  const CLOEXEC: nat := 1

  /** Is the word at `p_ofile[fd]` not null? Below the descriptors lie the root directory and
      the working directory; what lies further down is not modelled. */
  predicate Found(u: User, fd: int, outside: bool)
    requires |u.ofile| == NOFILE
  {
    if 0 <= fd < NOFILE then u.ofile[fd].Some?
    else if fd == -1 then u.iroot.Some?
    else if fd == -2 then u.wdir.Some?
    else outside
  }

  predicate FlagsOk(flags: map<nat, seq<nat>>, procs: set<nat>) {
    flags.Keys == procs && forall p | p in flags :: |flags[p]| == NOFILE
  }

  function Flagged(flags: map<nat, seq<nat>>, p: nat, fd: nat, v: nat): map<nat, seq<nat>>
    requires p in flags && fd < |flags[p]|
  {
    flags[p := flags[p][..fd] + [v] + flags[p][fd + 1..]]
  }

  lemma FlagSet(f: map<nat, seq<nat>>, procs: set<nat>, p: nat, fd: nat, v: nat)
    requires FlagsOk(f, procs) && p in procs && fd < NOFILE
    ensures p in f && fd < |f[p]| && FlagsOk(Flagged(f, p, fd, v), procs)
  {
  }

  /** The first n flags of cu have been copied to the child. */
  ghost predicate FlagsCopied(f0: map<nat, seq<nat>>, f: map<nat, seq<nat>>, cu: nat, child: nat, n: nat) {
    cu in f0 && child in f0 && child in f && f == f0[child := f[child]] && n <= |f[child]| == |f0[cu]| && f[child][..n] == f0[cu][..n]
  }

  lemma FlagsStart(f: map<nat, seq<nat>>, procs: set<nat>, cu: nat, child: nat)
    requires FlagsOk(f, procs) && cu in procs && child in procs
    ensures FlagsCopied(f, f, cu, child, 0)
  {
  }

  lemma FlagsStep(f0: map<nat, seq<nat>>, f: map<nat, seq<nat>>, procs: set<nat>, cu: nat, child: nat, n: nat)
    requires FlagsOk(f, procs) && FlagsCopied(f0, f, cu, child, n) && n < NOFILE && cu in procs && child in procs && cu != child
    ensures cu in f && child in f && n < |f[cu]| && n < |f[child]|
    ensures var f' := Flagged(f, child, n, f[cu][n]); FlagsOk(f', procs) && FlagsCopied(f0, f', cu, child, n + 1)
  {
  }

  lemma FlagsDone(f0: map<nat, seq<nat>>, f: map<nat, seq<nat>>, procs: set<nat>, cu: nat, child: nat)
    requires FlagsOk(f, procs) && FlagsCopied(f0, f, cu, child, NOFILE) && child in procs
    ensures f == f0[child := f0[cu]]
  {
    assert f[child] == f[child][..NOFILE] && f0[cu] == f0[cu][..NOFILE];
  }

  /** The test of `do_close` on the word it took for a file. */
  predicate InTable(word: nat, files: nat) {
    word != 0 && files <= word <= files + NFILE * FILE_SIZE
  }

  class Tables {
    var fCount: seq<int>
    var fIno: seq<nat>
    var iCount: seq<int>
    var iDev: seq<nat>
    var iNum: seq<nat>
    var iLock: seq<bool>
    var user: Users
    var cu: nat
    var fdflag: map<nat, seq<nat>>      // p_fdflag, which follows p_ofile
    const files: nat                    // address of the file table
    ghost var fl: map<Ref, nat>
    ghost var il: map<Ref, nat>

    ghost function St(): Tabs
      reads this
    {
      Tabs(fCount, fIno, iCount, iDev, iNum, user, fl, il)
    }

    ghost predicate Valid()
      reads this
    {
      Inv(St()) && |iLock| == NINODE && cu in user && FlagsOk(fdflag, user.Keys)
    }

    /** The tables at boot, with process 0. */
    constructor (files: nat)
      ensures Valid() && fl == map[] && il == map[] && cu == 0 && user == map[0 := Nobody()] && this.files == files
    {
      this.files := files;
      fdflag := map[0 := seq(NOFILE, _ => 0)];
      fCount, fIno := seq(NFILE, _ => 0), seq(NFILE, _ => 0);
      iCount, iDev, iNum, iLock := seq(NINODE, _ => 0), seq(NINODE, _ => 0), seq(NINODE, _ => 0), seq(NINODE, _ => false);
      user, cu, fl, il := map[0 := Nobody()], 0, map[], map[];
    }

    // -------------------------------------------------------------- inode.c

    /** `iget`; the reference is the n-th that the current system call holds. */
    method IGet(dev: nat, num: nat, ghost n: nat) returns (r: Got)
      requires Valid() && num != 0 && n < NHELD && Held(cu, n) !in il
      modifies this
      ensures Valid() && user == old(user) && cu == old(cu) && fl == old(fl) && fCount == old(fCount) && fdflag == old(fdflag)
      ensures !r.Inode? ==> St() == old(St()) && iLock == old(iLock)
      ensures r == Busy ==> exists s :: 0 <= s < NINODE && iDev[s] == dev && iNum[s] == num && iLock[s]
      ensures r == Overflow ==> forall s | 0 <= s < NINODE :: iCount[s] > 0 && (iDev[s] != dev || iNum[s] != num)
      ensures fIno == old(fIno) && |iNum| == |iDev| == |old(iNum)| == |old(iDev)| == NINODE
      ensures forall s | 0 <= s < NINODE && old(iNum)[s] != 0 :: iDev[s] == old(iDev)[s] && iNum[s] == old(iNum)[s]
      ensures r.Inode? ==> && r.s < NINODE && iDev[r.s] == dev && iNum[r.s] == num && iLock[r.s]
                           && il == old(il)[Held(cu, n) := r.s]
      ensures r.Inode? ==> forall s | 0 <= s < NINODE && s != r.s :: old(iDev)[s] != dev || old(iNum)[s] != num
    {
      hide Inv, Shape, FlagsOk, Put;
      ghost var h := Held(cu, n);
      ShapeOf(St());
      ShapeFacts(St(), cu);
      HeldPlace(St(), cu, n);
      PutHeld(user, h);
      var s := FindInode(dev, num);
      if s < NINODE {
        if iLock[s] {
          return Busy;
        }
        InUse(St(), s);
        OnlyOne(St(), s);
        AddIInv(St(), h, s);
        iCount := iCount[s := iCount[s] + 1];
        iLock := iLock[s := true];
        il := il[h := s];
        return Inode(s);
      }
      s := FindSlot();
      if s < NINODE {
        FreeSlot(St(), s);
        LoadIInv(St(), h, s, dev, num);
        iDev := iDev[s := dev];
        iNum := iNum[s := num];
        iLock := iLock[s := true];
        iCount := iCount[s := iCount[s] + 1];
        il := il[h := s];
        return Inode(s);
      }
      return Overflow;
    }

    /** The first loop of `iget`: the slot with the inode. */
    method FindInode(dev: nat, num: nat) returns (s: nat)
      requires |iDev| == |iNum| == NINODE
      ensures s <= NINODE && (s < NINODE ==> iDev[s] == dev && iNum[s] == num)
      ensures forall t | 0 <= t < s :: iDev[t] != dev || iNum[t] != num
    {
      s := 0;
      while s < NINODE
        invariant s <= NINODE && forall t | 0 <= t < s :: iDev[t] != dev || iNum[t] != num
      {
        if iDev[s] == dev && iNum[s] == num {
          return;
        }
        s := s + 1;
      }
    }

    /** Its second loop: a slot that is not counted. */
    method FindSlot() returns (s: nat)
      requires Valid()
      ensures s <= NINODE && |iCount| == NINODE && (s < NINODE ==> iCount[s] == 0)
      ensures forall t | 0 <= t < s :: iCount[t] > 0
    {
      hide Agrees, Counted;
      s := 0;
      while s < NINODE
        invariant s <= NINODE && forall t | 0 <= t < s :: iCount[t] > 0
      {
        InodeBound(St(), s);
        if iCount[s] == 0 {
          return;
        }
        s := s + 1;
      }
    }

    /** `iput`, for a slot that is counted: the caller gives up its reference. */
    method IPut(s: nat)
      requires s < |iCount| && s < |iNum| && s < |iLock| && iCount[s] > 0
      modifies this`iCount, this`iNum, this`iLock
      ensures iCount == old(iCount)[s := old(iCount)[s] - 1]
      ensures iNum == if old(iCount)[s] == 1 then old(iNum)[s := 0] else old(iNum)
      ensures iLock == old(iLock)[s := false]
    {
      iLock := iLock[s := true];
      if iCount[s] > 0 {
        iCount := iCount[s := iCount[s] - 1];
      }
      if iCount[s] == 0 {
        iNum := iNum[s := 0];
      }
      iLock := iLock[s := false];
    }

    /** The reference r of a directory, an area or a system call is given up. */
    method PutRef(r: Ref, s: nat)
      requires Valid() && !r.Fd? && r in il && il[r] == s
      modifies this`iCount, this`iNum, this`iLock, this`user, this`il
      ensures Valid() && Place(old(user), r) && user == Put(old(user), r, None) && il == old(il) - {r}
      ensures Slots(old(St()), St())
    {
      hide Inv, Put;
      DropIInv(St(), r);
      ShapeOf(St());
      PutKeys(user, r, None);
      IPut(s);
      il := il - {r};
      user := Put(user, r, None);
    }

    // -------------------------------------------------------------- open.c

    /** `ufalloc`: the least free descriptor. */
    method UfAlloc() returns (fd: int)
      requires cu in user && |user[cu].ofile| == NOFILE
      ensures -1 <= fd < NOFILE
      ensures fd >= 0 ==> user[cu].ofile[fd] == None && forall i | 0 <= i < fd :: user[cu].ofile[i].Some?
      ensures fd == -1 <==> forall i | 0 <= i < NOFILE :: user[cu].ofile[i].Some?
    {
      fd := 0;
      while fd < NOFILE
        invariant 0 <= fd <= NOFILE && forall i | 0 <= i < fd :: user[cu].ofile[i].Some?
      {
        if user[cu].ofile[fd] == None {
          return;
        }
        fd := fd + 1;
      }
      return -1;
    }

    /** The search of `falloc`: the least file that is not counted; without one it panics. */
    method FindFile() returns (k: nat)
      requires |fCount| == NFILE
      ensures k <= NFILE && (k < NFILE ==> fCount[k] == 0) && forall i | 0 <= i < k :: fCount[i] != 0
    {
      k := 0;
      while k < NFILE
        invariant k <= NFILE && forall i | 0 <= i < k :: fCount[i] != 0
      {
        if fCount[k] == 0 {
          return;
        }
        k := k + 1;
      }
    }

    /** `do_open`, once `namei` has got the inode in slot s. */
    method DoOpen(s: nat, n: nat) returns (r: Opened)
      requires Valid() && Held(cu, n) in il && il[Held(cu, n)] == s
      modifies this
      ensures cu == old(cu)
      ensures r == NoDescriptor <==> forall i | 0 <= i < NOFILE :: Named(old(user), Fd(cu, i)).Some?
      ensures r == NoDescriptor ==> Valid() && fl == old(fl) && user == old(user) && il == old(il) - {Held(cu, n)}
      ensures r == NoDescriptor ==> fdflag == old(fdflag) && Slots(old(St()), St())
      ensures r == NoFile <==> r != NoDescriptor && forall k | 0 <= k < NFILE :: old(fCount)[k] > 0
      ensures r.Descriptor? ==> && Valid() && r.fd < NOFILE && Named(old(user), Fd(cu, r.fd)) == None
                                && (forall i: nat | i < r.fd :: Named(old(user), Fd(cu, i)).Some?)
                                && r.k < NFILE && old(fCount)[r.k] == 0 && (forall k | 0 <= k < r.k :: old(fCount)[k] != 0)
                                && OpenedAt(old(St()), St(), Fd(cu, r.fd), r.k, Held(cu, n))
                                && fdflag == Flagged(old(fdflag), cu, r.fd, CLOEXEC)
      ensures r.Descriptor? ==> && FdSet(old(user), user, cu, r.fd, None, Some(r.k))
                                && r.k < |old(fCount)| == |old(fIno)| && fCount == old(fCount)[r.k := 1]
                                && fIno == old(fIno)[r.k := s] && iCount == old(iCount)
                                && FlagIs(old(fdflag), fdflag, cu, r.fd, 1)
    {
      hide Put, Inv, Shape, FlagsOk, FdSet, FlagIs, Flagged, OpenedAt, Slots;
      ShapeOf(St());
      ShapeFacts(St(), cu);
      NamedFds(user, cu);
      var fd := UfAlloc();
      if fd < 0 {
        HeldInode(St(), Held(cu, n));
        PutHeld(user, Held(cu, n));
        PutRef(Held(cu, n), s);
        return NoDescriptor;
      }
      var k := FindFile();
      FilesCounted(St());
      if k == NFILE {
        return NoFile;
      }
      PutFd(user, cu, fd, Some(k));
      PutKeys(user, Fd(cu, fd), Some(k));
      OpenAt(fd, k, s, n);
      FlagSet(fdflag, user.Keys, cu, fd, CLOEXEC);
      FlagSetIs(fdflag, cu, fd, CLOEXEC);
      fdflag := Flagged(fdflag, cu, fd, CLOEXEC);
      SetFdIs(old(user), cu, fd, Some(k));
      return Descriptor(fd, k);
    }

    /** File k is opened on slot s and named by descriptor fd. */
    method OpenAt(fd: nat, k: nat, s: nat, n: nat)
      requires Valid() && Held(cu, n) in il && il[Held(cu, n)] == s
      requires fd < NOFILE && Named(user, Fd(cu, fd)) == None && k < NFILE && fCount[k] == 0
      modifies this`fCount, this`fIno, this`iLock, this`user, this`fl, this`il
      ensures Valid() && Place(old(user), Fd(cu, fd)) && user == Put(old(user), Fd(cu, fd), Some(k)) && Named(user, Fd(cu, fd)) == Some(k)
      ensures OpenedAt(old(St()), St(), Fd(cu, fd), k, Held(cu, n))
      ensures k < |old(fCount)| == |old(fIno)| && fCount == old(fCount)[k := 1] && fIno == old(fIno)[k := s]
    {
      hide Put, Inv, Shape, FlagsOk;
      ghost var d := Fd(cu, fd);
      ShapeOf(St());
      ShapeFacts(St(), cu);
      SlotBound(St(), Held(cu, n));
      FreeFd(St(), d);
      OpenFdInv(St(), d, k, Held(cu, n));
      PutKeys(user, d, Some(k));
      PutNamed(user, d, Some(k), d);
      user := Put(user, Fd(cu, fd), Some(k));
      fCount := fCount[k := 1];
      iLock := iLock[s := false];
      fIno := fIno[k := s];
      fl := fl[d := k];
      il := (il - {Held(cu, n)})[d := s];
    }

    /** `do_close`. Descriptor 16 passes its first test: the word there is the flag of
        descriptor 0. */
    method DoClose(fd: int) returns (r: Ret)
      requires Valid()
      modifies this
      ensures Valid() && cu == old(cu) && fIno == old(fIno) && fdflag == old(fdflag)
      ensures r in {Ret(0), Ret(-1), Stray}
      ensures r == Ret(0) <==> 0 <= fd < NOFILE && Named(old(user), Fd(cu, fd)).Some?
      ensures r == Stray <==> fd == NOFILE && InTable(old(fdflag)[cu][0], files)
      ensures r != Ret(0) ==> St() == old(St())
      ensures r == Ret(0) ==> Closing(old(St()), Fd(cu, fd)) && St() == DropFd(old(St()), Fd(cu, fd))
      ensures r == Ret(0) ==> FdClosed(old(St()), St(), cu, fd)
    {
      hide Put, Inv, Shape, FdClosed, DropFd;
      ShapeOf(St());
      ShapeFacts(St(), cu);
      if fd > NOFILE || fd < 0 {
        return Ret(-1);
      }
      if fd == NOFILE {
        var word := fdflag[cu][0];
        if word == 0 || word > files + NFILE * FILE_SIZE || word < files {
          return Ret(-1);
        }
        return Stray;
      }
      var fp := user[cu].ofile[fd];
      if fp == None {
        return Ret(-1);
      }
      CloseAt(fd, fp.value);
      ClosedIs(old(St()), cu, fd);
      r := Ret(0);
    }

    method CloseAt(fd: nat, k: nat)
      requires Valid() && Named(user, Fd(cu, fd)) == Some(k)
      modifies this`fCount, this`iCount, this`iNum, this`iLock, this`user, this`fl, this`il
      ensures Valid() && Closing(old(St()), Fd(cu, fd)) && St() == DropFd(old(St()), Fd(cu, fd))
    {
      hide Put, Inv, Shape, Named, FlagsOk, DropFd, Freed, Look, Place;
      ShapeOf(St());
      ShapeFacts(St(), cu);
      ghost var d := Fd(cu, fd);
      OpenedFd(St(), d);
      DropFdInv(St(), d);
      PutKeys(user, d, None);
      DropFdIs(St(), d);
      user := Put(user, Fd(cu, fd), None);
      IPut(fIno[k]);
      FPut(k);
      fl := fl - {d};
      il := il - {d};
    }

    /** One descriptor less. */
    method FPut(k: nat)
      requires k < |fCount| && fCount[k] > 0
      modifies this`fCount
      ensures fCount == old(fCount)[k := old(fCount)[k] - 1]
    {
      fCount := fCount[k := fCount[k] - 1];
      if fCount[k] <= 0 {
        fCount := fCount[k := 0];
      }
    }

    /** `do_dup`, which does not ask for `0 <= fd`: with a descriptor in range it is in order
        exactly if the file has fewer than 127; below 0 it is in order exactly if it finds no
        word to follow or no descriptor to give. */
    method DoDup(fd: int, outside: bool) returns (r: Ret)
      requires Valid()
      modifies this
      ensures cu == old(cu) && fdflag == old(fdflag) && |old(user)[cu].ofile| == NOFILE
      ensures r == Ret(-1) <==> fd >= NOFILE || !Found(old(user)[cu], fd, outside)
                                || forall i | 0 <= i < NOFILE :: Named(old(user), Fd(cu, i)).Some?
      ensures r == Stray <==> r != Ret(-1) && fd < 0
      ensures !(r.Ret? && r.v >= 0) ==> St() == old(St()) && Valid()
      ensures r.Ret? && r.v != -1 ==>
                && 0 <= r.v < NOFILE && Named(old(user), Fd(cu, r.v)) == None && Fd(cu, fd) in old(fl)
                && (forall i: nat | i < r.v :: Named(old(user), Fd(cu, i)).Some?)
                && (Valid() <==> old(fCount)[old(fl)[Fd(cu, fd)]] < 127)
                && Attaching(old(St()), Fd(cu, r.v), old(fl)[Fd(cu, fd)])
                && St() == AddFd(old(St()), Fd(cu, r.v), old(fl)[Fd(cu, fd)])
      ensures 0 <= fd < NOFILE ==> (r == Ret(-1) <==> old(user)[cu].ofile[fd] == None || forall i | 0 <= i < NOFILE :: old(user)[cu].ofile[i].Some?)
      ensures (fd == -1 && old(user)[cu].iroot == None) || (fd == -2 && old(user)[cu].wdir == None) ==> r == Ret(-1)
      ensures r.Ret? && r.v != -1 ==> FdCopied(old(St()), St(), cu, fd, r.v)
    {
      hide Put, Inv, Shape;
      ShapeOf(St());
      ShapeFacts(St(), cu);
      NamedFds(user, cu);
      if fd >= NOFILE || !Found(user[cu], fd, outside) {
        return Ret(-1);
      }
      var newfd := UfAlloc();
      if newfd < 0 {
        return Ret(-1);
      }
      if fd < 0 {
        return Stray;
      }
      OpenedFd(St(), Fd(cu, fd));
      FreeFd(St(), Fd(cu, newfd));
      AddFdInv(St(), Fd(cu, newfd), user[cu].ofile[fd].value);
      PutIs(user, cu, newfd, user[cu].ofile[fd]);
      Attach(Fd(cu, newfd), user[cu].ofile[fd].value);
      return Ret(newfd);
    }

    /** Descriptor d is made to name file k. */
    method Attach(d: Ref, k: nat)
      requires d.Fd? && Attaching(St(), d, k) && cu in user
      modifies this`fCount, this`iCount, this`user, this`fl, this`il
      ensures St() == AddFd(old(St()), d, k) && cu in user && user.Keys == old(user).Keys
    {
      hide Put;
      PutKeys(user, d, Some(k));
      fCount := fCount[k := if fCount[k] == 127 then -128 else fCount[k] + 1];
      iCount := iCount[fIno[k] := iCount[fIno[k]] + 1];
      user := Put(user, d, Some(k));
      fl := fl[d := k];
      il := il[d := fIno[k]];
    }

    /** `do_dup2`, which asks for `0 <= fd` as little as for the range of the new descriptor:
        it strays exactly if one of them is out of range and the other test is passed. With two
        different descriptors in range it is in order exactly if the count stays below 128;
        with equal ones, exactly if somebody else refers to the inode. */
    method DoDup2(fd: int, newfd: int, outside: bool) returns (r: Ret)
      requires Valid()
      modifies this
      ensures cu == old(cu) && fdflag == old(fdflag) && |old(user)[cu].ofile| == NOFILE
      ensures r == Ret(-1) <==> fd >= NOFILE || !Found(old(user)[cu], fd, outside)
      ensures r == Stray <==> r != Ret(-1) && !(0 <= fd && 0 <= newfd < NOFILE)
      ensures r == Ret(-1) ==> St() == old(St()) && Valid()
      ensures r.Ret? && r.v != -1 ==>
                && r.v == newfd && Fd(cu, fd) in old(fl) && Fd(cu, fd) in old(il)
                && Place(old(user), Fd(cu, newfd)) && user == Put(old(user), Fd(cu, newfd), Named(old(user), Fd(cu, fd)))
                && Look(fl, Fd(cu, newfd)) == Look(old(fl), Fd(cu, fd)) && Look(il, Fd(cu, newfd)) == Look(old(il), Fd(cu, fd))
                && Slots(old(St()), St())
                && (forall x: Ref | x != Fd(cu, newfd) :: Look(fl, x) == Look(old(fl), x) && Look(il, x) == Look(old(il), x))
                && (Valid() <==> if fd == newfd then old(iCount)[old(il)[Fd(cu, fd)]] >= 2
                                 else Named(old(user), Fd(cu, newfd)) == Named(old(user), Fd(cu, fd))
                                      || old(fCount)[old(fl)[Fd(cu, fd)]] < 127)
      ensures r.Ret? && r.v != -1 ==>
                && 0 <= fd < NOFILE && 0 <= newfd < NOFILE
                && FdSet(old(user), user, cu, newfd, old(user)[cu].ofile[newfd], old(user)[cu].ofile[fd])
    {
      hide Put, Inv, Shape, Named, FdSet, FdClosed, FlagsOk;
      ShapeOf(St());
      ShapeFacts(St(), cu);
      NamedFds(user, cu);
      if fd >= NOFILE || !Found(user[cu], fd, outside) {
        return Ret(-1);
      }
      if fd < 0 || newfd < 0 || newfd >= NOFILE {
        return Stray;
      }
      var k := user[cu].ofile[fd].value;
      ghost var d, d', m := Fd(cu, fd), Fd(cu, newfd), St();
      OpenedFd(m, d);
      var closed := DoClose(newfd);
      ghost var m1 := St();
      if closed == Ret(0) { AfterClose(m, d, d'); }
      SetFdIs(m.user, cu, newfd, Some(k));
      ReAttach(m, m1, d, d', k);
      PutTwice(m.user, d', None, Some(k));
      Attach(Fd(cu, newfd), k);
      return Ret(newfd);
    }

    /** `do_fcntl` with F_SETFD. */
    method SetFdFlag(fd: int, arg: nat) returns (r: Ret)
      requires Valid()
      modifies this`fdflag
      ensures Valid() && (r == Ret(-1) <==> !(0 <= fd < NOFILE && Named(user, Fd(cu, fd)).Some?))
      ensures r == Ret(-1) ==> fdflag == old(fdflag)
      ensures r != Ret(-1) ==> r == Ret(0) && fdflag == Flagged(old(fdflag), cu, fd, arg) && FlagIs(old(fdflag), fdflag, cu, fd, arg)
    {
      hide Inv, Shape;
      ShapeOf(St());
      ShapeFacts(St(), cu);
      NamedFds(user, cu);
      if fd >= NOFILE || fd < 0 || user[cu].ofile[fd] == None {
        return Ret(-1);
      }
      fdflag := Flagged(fdflag, cu, fd, arg);
      return Ret(0);
    }

    // -------------------------------------------------------------- main.c, sys2.c and exec.c

    /** `init`: the inode that `iget` returned becomes both directories of the process. */
    method SetDirs(s: nat, n: nat)
      requires Valid() && Held(cu, n) in il && il[Held(cu, n)] == s && user[cu].wdir == None && user[cu].iroot == None
      modifies this
      ensures Valid() && cu == old(cu) && fl == old(fl) && fdflag == old(fdflag)
      ensures user == old(user)[cu := old(user)[cu].(wdir := Some(s), iroot := Some(s))]
      ensures il == old(il)[Wd(cu) := s][Rt(cu) := s] - {Held(cu, n)} && Slots(old(St()), St())
    {
      hide Inv, Shape;
      ShapeOf(St());
      ShapeFacts(St(), cu);
      HeldInode(St(), Held(cu, n));
      AttachI(Wd(cu), s);
      HeldInode(St(), Held(cu, n));
      AttachI(Rt(cu), s);
      PutRef(Held(cu, n), s);
    }

    /** `chdir` and `chroot`, once `namei` has got the directory in slot s: it replaces the old
        one. Without an old one the kernel panics. */
    method ChangeDir(r: Ref, s: nat, n: nat) returns (ok: bool)
      requires Valid() && (r == Wd(cu) || r == Rt(cu)) && Held(cu, n) in il && il[Held(cu, n)] == s
      modifies this
      ensures cu == old(cu) && fl == old(fl) && fdflag == old(fdflag) && (ok <==> Named(old(user), r).Some?)
      ensures !ok ==> St() == old(St())
      ensures ok ==> && Valid() && Place(old(user), r) && user == Put(old(user), r, Some(s))
                     && il == (old(il) - {Held(cu, n)})[r := s] && Slots(old(St()), St())
      ensures ok ==> user == old(user)[cu := if r == Wd(cu) then old(user)[cu].(wdir := Some(s)) else old(user)[cu].(iroot := Some(s))]
    {
      hide Inv, Shape, Put, FlagsOk, Named;
      ShapeOf(St());
      ShapeFacts(St(), cu);
      var dir := Named(user, r);
      if dir == None {
        return false;
      }
      ghost var u := user;
      InodeOf(St(), r);
      PutRef(r, dir.value);
      PutNamed(u, r, None, r);
      PutTwice(u, r, None, Some(s));
      PutIs(u, cu, 0, Some(s));
      MoveRef(r, s, n);
      assert (old(il) - {r} - {Held(cu, n)})[r := s] == (old(il) - {Held(cu, n)})[r := s];
      ok := true;
    }

    /** The reference that a system call holds becomes that of a directory. */
    method MoveRef(r: Ref, s: nat, n: nat)
      requires Valid() && (r == Wd(cu) || r == Rt(cu)) && r !in il && Place(user, r) && Held(cu, n) in il && il[Held(cu, n)] == s
      modifies this`user, this`il, this`iLock
      ensures Valid() && user == Put(old(user), r, Some(s)) && il == (old(il) - {Held(cu, n)})[r := s]
    {
      hide Inv, Shape, Put, FlagsOk, Named, Place;
      ShapeOf(St());
      ShapeFacts(St(), cu);
      MoveIInv(St(), Held(cu, n), r);
      SlotBound(St(), Held(cu, n));
      PutKeys(user, r, Some(s));
      user := Put(user, r, Some(s));
      il := (il - {Held(cu, n)})[r := s];
      iLock := iLock[s := false];
    }

    /** What `do_exec` does to files and inodes, once it has the program in slot s: the areas
        of text and data refer to it, and the descriptors with FD_CLOEXEC are closed. */
    method ExecFiles(s: nat, n: nat)
      requires Valid() && Held(cu, n) in il && il[Held(cu, n)] == s
      modifies this
      ensures Valid() && cu == old(cu) && fdflag == old(fdflag)
      ensures user.Keys == old(user).Keys && forall q | q in user && q != cu :: user[q] == old(user)[q]
      ensures |old(user)[cu].ofile| == |old(fdflag)[cu]| == NOFILE
      ensures user[cu] == old(user)[cu].(areas := [Some(s), Some(s), None, None, None],
                                         ofile := Unflagged(old(user)[cu].ofile, old(fdflag)[cu], NOFILE))
      ensures |user[cu].ofile| == NOFILE
      ensures forall i | 0 <= i < NOFILE :: user[cu].ofile[i] == if old(fdflag)[cu][i] % 2 == 1 then None else old(user)[cu].ofile[i]
      ensures forall x: Ref | x.p != cu :: Look(fl, x) == Look(old(fl), x) && Look(il, x) == Look(old(il), x)
      ensures forall i :: Look(il, Held(cu, i)) == if i == n then None else Look(old(il), Held(cu, i))
      ensures Slots(old(St()), St())
    {
      hide Inv, Shape, Put, OthersSame, Unflagged, Place;
      ghost var m := St();
      ShapeOf(m);
      ShapeFacts(m, cu);
      ClearAreas();
      Backed(m, s, n);
      OthersFacts(m, St(), cu);
      ghost var m1 := St();
      CloseFlagged();
      OthersChain(m, m1, St(), cu);
      OthersFacts(m, St(), cu);
      UnflaggedAt(m.user[cu].ofile, fdflag[cu]);
      HeldInode(St(), Held(cu, n));
      PutHeld(user, Held(cu, n));
      PutRef(Held(cu, n), s);
    }

    /** `vm_renew`: text and data are backed by the program. */
    method Backed(ghost m: Tabs, s: nat, ghost n: nat)
      requires Valid() && user[cu].areas == Nones(NVMA) && OthersSame(m, St(), cu) && Look(m.il, Held(cu, n)) == Some(s)
      modifies this`iCount, this`user, this`il
      ensures Valid() && OthersSame(m, St(), cu)
      ensures user[cu] == old(user)[cu].(areas := [Some(s), Some(s), None, None, None])
    {
      hide Inv, Shape, Put, OthersSame;
      ghost var m1 := St();
      OthersFacts(m, m1, cu);
      ShapeOf(m1);
      ShapeFacts(m1, cu);
      HeldInode(m1, Held(cu, n));
      PutArea(user, cu, 0, Some(s));
      AttachI(Area(cu, 0), s);
      AddIStep(m, m1, Area(cu, 0), s);
      ghost var m2 := St();
      OthersFacts(m, m2, cu);
      ShapeOf(m2);
      ShapeFacts(m2, cu);
      HeldInode(m2, Held(cu, n));
      PutArea(user, cu, 1, Some(s));
      AttachI(Area(cu, 1), s);
      AddIStep(m, m2, Area(cu, 1), s);
      assert Nones(NVMA)[0 := Some(s)][1 := Some(s)] == [Some(s), Some(s), None, None, None];
    }

    /** The loop of `do_exec` over descriptors. */
    method CloseFlagged()
      requires Valid()
      modifies this
      ensures Valid() && cu == old(cu) && fdflag == old(fdflag) && OthersSame(old(St()), St(), cu)
      ensures |old(user)[cu].ofile| == |old(fdflag)[cu]| == NOFILE
      ensures user[cu] == old(user)[cu].(ofile := Unflagged(old(user)[cu].ofile, old(fdflag)[cu], NOFILE))
    {
      hide Inv, Shape, Put, OthersSame, Unflagged;
      ghost var m := St();
      ShapeOf(m);
      ShapeFacts(m, cu);
      SameExcept(m, cu);
      ghost var files, flags := user[cu].ofile, fdflag[cu];
      UnflaggedNone(files, flags);
      var fd := 0;
      while fd < NOFILE
        invariant fd <= NOFILE && Valid() && cu == old(cu) && fdflag == old(fdflag) && OthersSame(m, St(), cu)
        invariant user[cu] == m.user[cu].(ofile := Unflagged(files, flags, fd))
      {
        ghost var m1 := St();
        NamedFds(user, cu);
        UnflaggedStep(files, flags, fd);
        if user[cu].ofile[fd].Some? && fdflag[cu][fd] % 2 == CLOEXEC {
          var r := DoClose(fd);
          PutFd(m1.user, cu, fd, None);
          DropStep(m, m1, Fd(cu, fd));
        }
        fd := fd + 1;
      }
    }

    // -------------------------------------------------------------- fork.c and exit.c

    /** Inode s gets a reference from a directory or an area of a process. */
    method AttachI(r: Ref, s: nat)
      requires Valid() && !r.Fd? && !r.Held? && Place(user, r) && Named(user, r) == None && s < NINODE && iCount[s] > 0
      modifies this`iCount, this`user, this`il
      ensures Valid() && St() == AddI(old(St()), r, s)
    {
      hide Put, Inv;
      FreeRef(St(), r);
      AddIInv(St(), r, s);
      PutKeys(user, r, Some(s));
      ShapeOf(St());
      iCount := iCount[s := iCount[s] + 1];
      user := Put(user, r, Some(s));
      il := il[r := s];
    }

    /** `kspawn`, the loop over descriptors; it fails when a count passes 127. */
    method CopyFiles(child: nat) returns (ok: bool)
      requires Valid() && child in user && child != cu && user[child].ofile == Nones(NOFILE)
      modifies this`fCount, this`iCount, this`user, this`fl, this`il, this`fdflag
      ensures ok ==> Valid() && ChildOnly(old(St()), St(), child) && user[child] == old(user)[child].(ofile := user[cu].ofile)
      ensures ok ==> fdflag == old(fdflag)[child := old(fdflag)[cu]]
      ensures |old(fCount)| == NFILE && |old(user)[cu].ofile| == NOFILE && (ok <==> Fits(old(fCount), old(user)[cu].ofile))
    {
      hide Put, Inv, Shape, FlagsOk, FlagsCopied, Flagged, ChildOnly, OthersSame, AddFd, Raised, Fits, Nones, FirstOf;
      ShapeOf(St());
      ShapeFacts(St(), cu);
      ShapeFacts(St(), child);
      FlagsStart(fdflag, user.Keys, cu, child);
      ghost var m := St();
      var files := user[cu].ofile;
      var fd := 0;
      SameExcept(m, child);
      RaisedNone(fCount, files);
      FirstNone(files);
      while fd < NOFILE
        invariant fd <= NOFILE && Valid() && ChildOnly(m, St(), child) && user[cu].ofile == files && child in user
        invariant user[child] == m.user[child].(ofile := FirstOf(files, fd))
        invariant Raised(m.fCount, fCount, files, fd)
        invariant FlagsCopied(old(fdflag), fdflag, cu, child, fd)
      {
        RaisedStep(m.fCount, fCount, files, fd);
        Shifted(files, fd);
        var fp := files[fd];
        if fp.Some? {
          FileOf(St(), cu, fd);
          if fCount[fp.value] == 127 {
            TooMany(m.fCount, fCount, files, fd);
            return false;
          }
          CopyFd(m, child, fd, fp.value);
        }
        FlagsStep(old(fdflag), fdflag, user.Keys, cu, child, fd);
        fdflag := Flagged(fdflag, child, fd, fdflag[cu][fd]);
        fd := fd + 1;
      }
      FlagsDone(old(fdflag), fdflag, user.Keys, cu, child);
      AtMost127(St());
      FitsDone(m.fCount, fCount, files);
      ok := true;
    }

    /** One round of it: the child shares file k. */
    method CopyFd(ghost m: Tabs, child: nat, fd: nat, k: nat)
      requires Valid() && child in user && child != cu && fd < NOFILE && ChildOnly(m, St(), child)
      requires |user[cu].ofile| == NOFILE && user[cu].ofile[fd] == Some(k) && k < |fCount| && fCount[k] < 127
      requires |user[child].ofile| == NOFILE && user[child].ofile[fd] == None
      modifies this`fCount, this`iCount, this`user, this`fl, this`il
      ensures Valid() && ChildOnly(m, St(), child) && user.Keys == old(user).Keys && user[cu] == old(user)[cu]
      ensures user[child] == old(user)[child].(ofile := old(user)[child].ofile[fd := Some(k)])
      ensures fCount == old(fCount)[k := old(fCount)[k] + 1]
    {
      hide Put, Inv, ChildOnly, FlagsOk;
      CopyStep(m, St(), cu, child, fd);
      PutFd(user, child, fd, Some(k));
      Attach(Fd(child, fd), k);
    }

    /** `vm_clone`, the loop over areas. */
    method CopyAreas(child: nat)
      requires Valid() && child in user && child != cu && user[child].areas == Nones(NVMA)
      modifies this`iCount, this`user, this`il
      ensures Valid() && ChildOnly(old(St()), St(), child) && user[child] == old(user)[child].(areas := user[cu].areas)
    {
      hide Put, Inv, Shape, ChildOnly, AddI, FlagsOk, Named, Look, Nones, FirstOf;
      ShapeOf(St());
      ShapeFacts(St(), cu);
      ShapeFacts(St(), child);
      ghost var m := St();
      var areas := user[cu].areas;
      var i := 0;
      SameExcept(m, child);
      FirstNone(areas);
      while i < NVMA
        invariant i <= NVMA && Valid() && ChildOnly(m, St(), child) && child in user && user[cu].areas == areas
        invariant user[child] == m.user[child].(areas := FirstOf(areas, i))
      {
        Shifted(areas, i);
        if areas[i].Some? {
          CopyArea(m, child, i, areas[i].value);
        }
        i := i + 1;
      }
    }

    /** One round of it: the child shares the inode in slot s. */
    method CopyArea(ghost m: Tabs, child: nat, i: nat, s: nat)
      requires Valid() && child in user && child != cu && i < NVMA && ChildOnly(m, St(), child)
      requires |user[cu].areas| == NVMA && user[cu].areas[i] == Some(s)
      requires |user[child].areas| == NVMA && user[child].areas[i] == None
      modifies this`iCount, this`user, this`il
      ensures Valid() && ChildOnly(m, St(), child) && child in user && user[cu] == old(user)[cu]
      ensures user[child] == old(user)[child].(areas := old(user)[child].areas[i := Some(s)])
    {
      hide Put, Inv, Shape, ChildOnly, FlagsOk;
      ghost var m1 := St();
      ShapeOf(m1);
      ShapeFacts(m1, child);
      ShapeFacts(m1, cu);
      InodeOf(m1, Area(cu, i));
      PutArea(user, child, i, Some(s));
      PutKeys(user, Area(child, i), Some(s));
      AttachI(Area(child, i), s);
      ChildStep(m, m1, Area(child, i), s);
    }

    /** `kspawn`: the child shares the directories, files and areas of the current process. It
        fails exactly if some file would get more than 127 descriptors. */
    method Spawn(child: nat) returns (ok: bool)
      requires Valid() && child !in user && child < NPROC && (user[cu].wdir.Some? <==> user[cu].iroot.Some?)
      modifies this
      ensures cu == old(cu)
      ensures |old(fCount)| == NFILE && |old(user)[cu].ofile| == NOFILE && (ok <==> Fits(old(fCount), old(user)[cu].ofile))
      ensures ok ==> && Valid() && user == old(user)[child := old(user)[cu]] && Slots(old(St()), St())
                     && (forall r: Ref | r.p != child :: Look(fl, r) == Look(old(fl), r) && Look(il, r) == Look(old(il), r))
                     && (forall n :: Held(child, n) !in il) && fdflag == old(fdflag)[child := old(fdflag)[cu]]
    {
      hide Put, Inv, Fits, ChildOnly, Look, FlagsOk, Slots, Nobody;
      ghost var m := St();
      NoRefs(m, child);
      NewProc(child);
      ghost var m1 := St();
      ok := Inherit(child);
      if ok {
        Shared(m, m1, St(), cu, child);
      }
    }

    method Inherit(child: nat) returns (ok: bool)
      requires Valid() && child in user && child != cu && user[child] == Nobody() && (user[cu].wdir.Some? <==> user[cu].iroot.Some?)
      modifies this`fCount, this`iCount, this`user, this`fl, this`il, this`fdflag
      ensures |old(fCount)| == NFILE && |old(user)[cu].ofile| == NOFILE && (ok <==> Fits(old(fCount), old(user)[cu].ofile))
      ensures ok ==> && Valid() && ChildOnly(old(St()), St(), child) && child in user && user[child] == old(user)[cu]
                     && fdflag == old(fdflag)[child := old(fdflag)[cu]]
    {
      hide Put, Inv, Shape, Fits, ChildOnly, FlagsOk;
      ghost var m1 := St();
      CopyDirs(child);
      ghost var m2 := St();
      ChildFacts(m1, m2, child);
      ok := CopyFiles(child);
      if !ok {
        return;
      }
      ghost var m3 := St();
      ChildFacts(m2, m3, child);
      CopyAreas(child);
      ChildFacts(m3, St(), child);
      ChildTrans(m1, m2, m3, child);
      ChildTrans(m1, m3, St(), child);
    }

    method NewProc(child: nat)
      requires Valid() && child !in user && child < NPROC
      modifies this`user, this`fdflag
      ensures Valid() && St() == old(St()).(user := old(user)[child := Nobody()]) && child in fdflag
      ensures fdflag == old(fdflag)[child := fdflag[child]]
    {
      hide Inv;
      NewUserInv(St(), child);
      user := user[child := Nobody()];
      fdflag := fdflag[child := seq(NOFILE, _ => 0)];
    }

    method CopyDirs(child: nat)
      requires Valid() && child in user && child != cu && user[child].wdir == None && user[child].iroot == None
      requires user[cu].wdir.Some? <==> user[cu].iroot.Some?
      modifies this`iCount, this`user, this`il
      ensures Valid() && ChildOnly(old(St()), St(), child)
      ensures user[child] == old(user)[child].(wdir := user[cu].wdir, iroot := user[cu].iroot)
    {
      hide Inv, Shape, ChildOnly;
      ghost var m := St();
      SameExcept(m, child);
      if user[cu].wdir.Some? {
        ShapeOf(m);
        ShapeFacts(m, child);
        ShapeFacts(m, cu);
        InodeOf(m, Wd(cu));
        AttachI(Wd(child), user[cu].wdir.value);
        ghost var m1 := St();
        ChildStep(m, m, Wd(child), user[cu].wdir.value);
        InodeOf(m1, Rt(cu));
        AttachI(Rt(child), user[cu].iroot.value);
        ChildStep(m, m1, Rt(child), user[cu].iroot.value);
      }
    }

    /** `do_exit`: all references of the process are given up. A process without a root
        directory panics. */
    method Exit() returns (ok: bool)
      requires Valid() && (user[cu].wdir.Some? <==> user[cu].iroot.Some?) && forall n :: Held(cu, n) !in il
      modifies this
      ensures cu == old(cu) && fdflag == old(fdflag) && (ok <==> old(user)[cu].iroot.Some?)
      ensures ok ==> && Valid() && user == old(user)[cu := Nobody()]
                     && (forall r: Ref :: Look(fl, r) == (if r.p == cu then None else Look(old(fl), r))
                                       && Look(il, r) == (if r.p == cu then None else Look(old(il), r)))
                     && Slots(old(St()), St())
    {
      hide Inv, Shape, OthersSame;
      ghost var m := St();
      CloseAll();
      ghost var m1 := St();
      ShapeOf(m1);
      ShapeFacts(m1, cu);
      if user[cu].iroot == None {
        return false;
      }
      InodeOf(m1, Rt(cu));
      PutRef(Rt(cu), user[cu].iroot.value);
      DropStep(m, m1, Rt(cu));
      ghost var m2 := St();
      InodeOf(m2, Wd(cu));
      PutRef(Wd(cu), user[cu].wdir.value);
      DropStep(m, m2, Wd(cu));
      ghost var m3 := St();
      ClearAreas();
      OthersChain(m, m3, St(), cu);
      AllGone(m, St(), cu);
      ok := true;
    }

    /** What `do_waitpid` leaves of a process that has exited: nothing. */
    method Forget(p: nat)
      requires Valid() && p in user && p != cu && user[p] == Nobody() && forall n :: Held(p, n) !in il
      modifies this`user, this`fdflag
      ensures Valid() && user == old(user) - {p} && fdflag == old(fdflag) - {p}
    {
      hide Inv;
      OldUserInv(St(), p);
      user := user - {p};
      fdflag := fdflag - {p};
    }

    /** A fork followed by the exit of the child restores every count. */
    method SpawnThenExit(child: nat) returns (ok: bool)
      requires Valid() && child !in user && child < NPROC && user[cu].wdir.Some? && user[cu].iroot.Some?
      modifies this
      ensures ok <==> Fits(old(fCount), old(user[cu].ofile))
      ensures ok ==> Valid() && fl == old(fl) && il == old(il) && fCount == old(fCount) && iCount == old(iCount)
    {
      hide Inv, Fits, Look;
      ghost var m := St();
      ok := Spawn(child);
      if !ok {
        return;
      }
      NoRefs(m, child);
      cu := child;
      var done := Exit();
      SameLedger(m.fl, fl);
      SameLedger(m.il, il);
      SameCounts(m, St());
    }

    /** The loop of `do_exit` over descriptors. */
    method CloseAll()
      requires Valid()
      modifies this
      ensures Valid() && cu == old(cu) && fdflag == old(fdflag) && user[cu] == old(user)[cu].(ofile := Nones(NOFILE))
      ensures OthersSame(old(St()), St(), cu)
    {
      hide Inv, Shape, Put, OthersSame;
      ghost var m := St();
      ShapeOf(m);
      ShapeFacts(m, cu);
      SameExcept(m, cu);
      ghost var files := user[cu].ofile;
      var fd := 0;
      while fd < NOFILE
        invariant fd <= NOFILE && Valid() && cu == old(cu) && fdflag == old(fdflag) && OthersSame(m, St(), cu)
        invariant user[cu] == m.user[cu].(ofile := Nones(fd) + files[fd..])
      {
        ghost var m1 := St();
        NamedFds(user, cu);
        Cleared(files, fd);
        var r := DoClose(fd);
        if r == Ret(0) {
          PutFd(m1.user, cu, fd, None);
          DropStep(m, m1, Fd(cu, fd));
        }
        fd := fd + 1;
      }
    }

    /** The loop of `vm_clear` over areas. */
    method ClearAreas()
      requires Valid()
      modifies this
      ensures Valid() && cu == old(cu) && fdflag == old(fdflag) && user[cu] == old(user)[cu].(areas := Nones(NVMA))
      ensures OthersSame(old(St()), St(), cu)
    {
      hide Inv, Shape, Put, OthersSame;
      ghost var m := St();
      ShapeOf(m);
      ShapeFacts(m, cu);
      SameExcept(m, cu);
      ghost var areas := user[cu].areas;
      var i := 0;
      while i < NVMA
        invariant i <= NVMA && Valid() && cu == old(cu) && fdflag == old(fdflag) && OthersSame(m, St(), cu)
        invariant user[cu] == m.user[cu].(areas := Nones(i) + areas[i..])
      {
        ghost var m1 := St();
        Cleared(areas, i);
        if user[cu].areas[i].Some? {
          ShapeOf(m1);
          ShapeFacts(m1, cu);
          InodeOf(m1, Area(cu, i));
          PutArea(user, cu, i, None);
          PutRef(Area(cu, i), user[cu].areas[i].value);
          DropStep(m, m1, Area(cu, i));
        }
        i := i + 1;
      }
    }
  }

  /** File k is open at d, on the inode that was in hand at h. */
  ghost predicate OpenedAt(m: Tabs, m': Tabs, d: Ref, k: nat, h: Ref) {
    && Place(m.user, d) && h in m.il && k < |m.fIno| && m'.user == Put(m.user, d, Some(k))
    && m'.fl == m.fl[d := k] && m'.il == (m.il - {h})[d := m.il[h]]
    && m'.fIno == m.fIno[k := m.il[h]] && m'.iDev == m.iDev && m'.iNum == m.iNum
  }

  /** What `DropFd` and `AddFd` ask for. */
  ghost predicate Closing(m: Tabs, r: Ref) {
    && Place(m.user, r) && r in m.fl && r in m.il && m.fl[r] < |m.fCount| && m.il[r] < |m.iCount| && m.il[r] < |m.iNum|
  }

  ghost predicate Attaching(m: Tabs, r: Ref, k: nat) {
    Place(m.user, r) && k < |m.fCount| && k < |m.fIno| && m.fIno[k] < |m.iCount|
  }

  /** The open files stay on their inodes, and the slots in use keep theirs until they are free. */
  ghost predicate Slots(m: Tabs, m': Tabs) {
    && m'.fIno == m.fIno && m'.iDev == m.iDev && |m'.iNum| == |m.iNum|
    && forall s | 0 <= s < |m.iNum| :: m'.iNum[s] == m.iNum[s] || m'.iNum[s] == 0
  }

  /** The other processes and their references are the same; p holds the same inodes in a call. */
  ghost predicate OthersSame(m: Tabs, m': Tabs, p: nat) {
    && Slots(m, m')
    && m'.user.Keys == m.user.Keys && (forall q | q in m.user && q != p :: m'.user[q] == m.user[q])
    && (forall r: Ref | r.p != p :: Look(m'.fl, r) == Look(m.fl, r) && Look(m'.il, r) == Look(m.il, r))
    && (forall n :: Look(m'.il, Held(p, n)) == Look(m.il, Held(p, n)))
  }

  /** Nothing but process `child` and the counters differs. */
  ghost predicate ChildOnly(m: Tabs, m': Tabs, child: nat) {
    m'.fIno == m.fIno && m'.iDev == m.iDev && m'.iNum == m.iNum && OthersSame(m, m', child)
  }

  /** How many of the first n descriptors name file k. */
  function Uses(files: seq<Option<nat>>, k: nat, n: nat): nat
    requires n <= |files|
  {
    if n == 0 then 0 else Uses(files, k, n - 1) + if files[n - 1] == Some(k) then 1 else 0
  }

  /** The slots of the child when the first n have been copied. */
  function FirstOf(files: seq<Option<nat>>, n: nat): (r: seq<Option<nat>>)
    requires n <= |files|
    ensures |r| == |files|
  {
    files[..n] + Nones(|files| - n)
  }

  lemma Shifted(files: seq<Option<nat>>, n: nat)
    requires n < |files|
    ensures FirstOf(files, n)[n] == None && FirstOf(files, n)[n := files[n]] == FirstOf(files, n + 1)
    ensures files[n] == None ==> FirstOf(files, n) == FirstOf(files, n + 1)
  {
  }

  lemma FirstNone(files: seq<Option<nat>>)
    ensures FirstOf(files, 0) == Nones(|files|) && FirstOf(files, |files|) == files
  {
    assert files[..|files|] + Nones(0) == files;
  }

  lemma PutFd(u: Users, p: nat, n: nat, v: Option<nat>)
    requires Place(u, Fd(p, n))
    ensures Put(u, Fd(p, n), v)[p] == u[p].(ofile := u[p].ofile[n := v])
    ensures forall q | q in u && q != p :: q in Put(u, Fd(p, n), v) && Put(u, Fd(p, n), v)[q] == u[q]
  {
  }

  /** Descriptor fd of process p named v, and now names w; nothing else has changed. */
  ghost predicate FdSet(u: Users, u': Users, p: nat, fd: int, v: Option<nat>, w: Option<nat>) {
    && p in u && 0 <= fd < |u[p].ofile| && u[p].ofile[fd] == v
    && u' == u[p := u[p].(ofile := u[p].ofile[fd := w])]
  }

  /** Descriptor fd is closed: its file counts one less, and so does the file's inode, which is
      forgotten with its last reference. */
  ghost predicate FdClosed(m: Tabs, m': Tabs, p: nat, fd: int) {
    exists k: nat :: FdSet(m.user, m'.user, p, fd, Some(k), None) && k < |m.fCount| && k < |m.fIno| &&
      var s := m.fIno[k];
      && s < |m.iCount| && s < |m.iNum| && m'.fCount == m.fCount[k := m.fCount[k] - 1] && m'.iCount == m.iCount[s := m.iCount[s] - 1]
      && m'.iNum == if m.iCount[s] == 1 then m.iNum[s := 0] else m.iNum
  }

  /** Descriptor fd, which was free, names the file that descriptor from names; the file counts
      one more, in 8 bits, and so does its inode. */
  ghost predicate FdCopied(m: Tabs, m': Tabs, p: nat, from: int, fd: int) {
    exists k: nat :: FdSet(m.user, m'.user, p, fd, None, Some(k)) && 0 <= from < |m.user[p].ofile| && m.user[p].ofile[from] == Some(k)
      && k < |m.fCount| && k < |m.fIno| &&
      var s := m.fIno[k];
      && s < |m.iCount| && m'.fCount == m.fCount[k := if m.fCount[k] == 127 then -128 else m.fCount[k] + 1]
      && m'.iCount == m.iCount[s := m.iCount[s] + 1]
  }

  lemma SetFdIs(u: Users, p: nat, fd: nat, w: Option<nat>)
    requires p in u && |u[p].ofile| == NOFILE && |u[p].areas| == NVMA && fd < NOFILE
    ensures Place(u, Fd(p, fd)) && FdSet(u, Put(u, Fd(p, fd), w), p, fd, u[p].ofile[fd], w)
    ensures Named(u, Fd(p, fd)) == u[p].ofile[fd]
  {
  }

  lemma ClosedIs(m: Tabs, p: nat, fd: nat)
    requires Inv(m) && p in m.user && Closing(m, Fd(p, fd)) && Named(m.user, Fd(p, fd)).Some?
    ensures FdClosed(m, DropFd(m, Fd(p, fd)), p, fd)
  {
    ShapeOf(m);
    ShapeFacts(m, p);
    OpenedFd(m, Fd(p, fd));
    SetFdIs(m.user, p, fd, None);
    hide Inv, Shape, Put, FdSet;
    assert FdSet(m.user, DropFd(m, Fd(p, fd)).user, p, fd, Some(m.fl[Fd(p, fd)]), None);
  }

  lemma FlagSetIs(f: map<nat, seq<nat>>, p: nat, fd: nat, v: nat)
    requires p in f && fd < |f[p]|
    ensures FlagIs(f, Flagged(f, p, fd, v), p, fd, v)
  {
  }

  ghost predicate FlagIs(f: map<nat, seq<nat>>, f': map<nat, seq<nat>>, p: nat, fd: int, v: nat) {
    && f'.Keys == f.Keys && p in f && 0 <= fd < |f[p]| && (forall q | q in f && q != p :: f'[q] == f[q])
    && |f'[p]| == |f[p]| && forall i | 0 <= i < |f[p]| :: f'[p][i] == if i == fd then v else f[p][i]
  }

  /** Descriptors and directories, by the fields that hold them. */
  lemma PutIs(u: Users, p: nat, fd: nat, v: Option<nat>)
    requires p in u
    ensures fd < |u[p].ofile| && Place(u, Fd(p, fd)) ==> Put(u, Fd(p, fd), v) == u[p := u[p].(ofile := u[p].ofile[fd := v])]
    ensures Place(u, Wd(p)) ==> Put(u, Wd(p), v) == u[p := u[p].(wdir := v)]
    ensures Place(u, Rt(p)) ==> Put(u, Rt(p), v) == u[p := u[p].(iroot := v)]
    ensures Named(u, Wd(p)) == (if Place(u, Wd(p)) then u[p].wdir else None)
    ensures Named(u, Rt(p)) == if Place(u, Rt(p)) then u[p].iroot else None
  {
  }

  lemma AtMost127(m: Tabs)
    requires Inv(m)
    ensures |m.fCount| == NFILE && forall k | 0 <= k < NFILE :: m.fCount[k] <= 127
  {
  }

  lemma {:induction false} UsesGrow(files: seq<Option<nat>>, k: nat, n: nat, n': nat)
    requires n <= n' <= |files|
    ensures Uses(files, k, n) <= Uses(files, k, n')
  {
    if n < n' { UsesGrow(files, k, n, n' - 1); }
  }

  /** No count passes 127 when all these descriptors are copied. */
  ghost predicate Fits(count: seq<int>, files: seq<Option<nat>>) {
    forall k | 0 <= k < |count| :: count[k] + Uses(files, k, |files|) <= 127
  }

  /** The counts after the first n descriptors have been copied. */
  ghost predicate Raised(count: seq<int>, count': seq<int>, files: seq<Option<nat>>, n: nat) {
    && n <= |files| && |count'| == |count| == NFILE
    && forall k: nat | k < NFILE :: count'[k] == count[k] + Uses(files, k, n)
  }

  lemma RaisedNone(count: seq<int>, files: seq<Option<nat>>)
    requires |count| == NFILE
    ensures Raised(count, count, files, 0)
  {
  }

  lemma RaisedStep(count: seq<int>, count': seq<int>, files: seq<Option<nat>>, n: nat)
    requires Raised(count, count', files, n) && n < |files|
    ensures files[n] == None ==> Raised(count, count', files, n + 1)
    ensures files[n].Some? && files[n].value < NFILE ==>
              var k := files[n].value; Raised(count, count'[k := count'[k] + 1], files, n + 1)
  {
  }

  lemma TooMany(count: seq<int>, count': seq<int>, files: seq<Option<nat>>, n: nat)
    requires Raised(count, count', files, n) && n < |files| && files[n].Some? && files[n].value < NFILE && count'[files[n].value] == 127
    ensures !Fits(count, files)
  {
    var k := files[n].value;
    UsesGrow(files, k, n + 1, |files|);
    assert count[k] + Uses(files, k, |files|) > 127;
  }

  lemma FitsDone(count: seq<int>, count': seq<int>, files: seq<Option<nat>>)
    requires Raised(count, count', files, |files|) && forall k | 0 <= k < NFILE :: count'[k] <= 127
    ensures Fits(count, files)
  {
  }

  lemma SameExcept(m: Tabs, child: nat)
    ensures ChildOnly(m, m, child) && OthersSame(m, m, child)
  {
  }

  lemma ChildStep(m: Tabs, m1: Tabs, r: Ref, s: nat)
    requires ChildOnly(m, m1, r.p) && !r.Fd? && !r.Held? && Place(m1.user, r) && s < |m1.iCount|
    ensures ChildOnly(m, AddI(m1, r, s), r.p)
  {
  }

  lemma DropStep(m: Tabs, m1: Tabs, r: Ref)
    requires OthersSame(m, m1, r.p) && Place(m1.user, r) && !r.Held?
    ensures forall m2: Tabs | m2.user == Put(m1.user, r, None) && m2.il == m1.il - {r} && (m2.fl == m1.fl || m2.fl == m1.fl - {r})
                              && Slots(m1, m2) ::
              OthersSame(m, m2, r.p)
  {
  }

  lemma AddIStep(m: Tabs, m1: Tabs, r: Ref, s: nat)
    requires OthersSame(m, m1, r.p) && !r.Fd? && !r.Held? && Place(m1.user, r) && s < |m1.iCount|
    ensures OthersSame(m, AddI(m1, r, s), r.p)
  {
  }

  lemma OthersFacts(m: Tabs, m': Tabs, p: nat)
    requires OthersSame(m, m', p)
    ensures m'.user.Keys == m.user.Keys && forall q | q in m.user && q != p :: m'.user[q] == m.user[q]
    ensures forall r: Ref | r.p != p :: Look(m'.fl, r) == Look(m.fl, r) && Look(m'.il, r) == Look(m.il, r)
    ensures forall n :: Look(m'.il, Held(p, n)) == Look(m.il, Held(p, n))
    ensures Slots(m, m')
  {
  }

  lemma HeldInode(m: Tabs, h: Ref)
    requires Inv(m) && h in m.il
    ensures Place(m.user, h) && m.il[h] < NINODE && m.iCount[m.il[h]] > 0
  {
    SomeHolder(m.iCount, m.il, h);
  }

  lemma PutHeld(u: Users, h: Ref)
    requires Place(u, h) && h.Held?
    ensures forall v :: Put(u, h, v) == u
  {
  }

  lemma PutTwice(u: Users, r: Ref, v: Option<nat>, w: Option<nat>)
    requires Place(u, r)
    ensures Place(Put(u, r, v), r) && Put(Put(u, r, v), r, w) == Put(u, r, w)
  {
    match r
    case Fd(p, n) => assert u[p].ofile[n := v][n := w] == u[p].ofile[n := w];
    case Area(p, n) => assert u[p].areas[n := v][n := w] == u[p].areas[n := w];
    case _ =>
  }

  /** The descriptors that are left when those of the first n with FD_CLOEXEC are closed. */
  function Unflagged(files: seq<Option<nat>>, flags: seq<nat>, n: nat): (r: seq<Option<nat>>)
    requires n <= |files| == |flags|
    ensures |r| == |files|
  {
    seq(|files|, i requires 0 <= i < |files| => if i < n && flags[i] % 2 == CLOEXEC then None else files[i])
  }

  lemma UnflaggedAt(files: seq<Option<nat>>, flags: seq<nat>)
    requires |files| == |flags|
    ensures forall i | 0 <= i < |files| :: Unflagged(files, flags, |files|)[i] == if flags[i] % 2 == 1 then None else files[i]
  {
  }

  lemma UnflaggedNone(files: seq<Option<nat>>, flags: seq<nat>)
    requires |files| == |flags|
    ensures Unflagged(files, flags, 0) == files
  {
  }

  lemma UnflaggedStep(files: seq<Option<nat>>, flags: seq<nat>, n: nat)
    requires n < |files| == |flags|
    ensures Unflagged(files, flags, n)[n] == files[n]
    ensures Unflagged(files, flags, n + 1) ==
            if files[n].Some? && flags[n] % 2 == CLOEXEC then Unflagged(files, flags, n)[n := None] else Unflagged(files, flags, n)
  {
  }

  lemma ChildFacts(m: Tabs, m': Tabs, child: nat)
    requires ChildOnly(m, m', child)
    ensures m'.user.Keys == m.user.Keys && forall q | q in m.user && q != child :: m'.user[q] == m.user[q]
  {
  }

  lemma ChildTrans(m: Tabs, m1: Tabs, m2: Tabs, child: nat)
    requires ChildOnly(m, m1, child) && ChildOnly(m1, m2, child)
    ensures ChildOnly(m, m2, child)
  {
  }

  lemma OthersChain(m: Tabs, m1: Tabs, m2: Tabs, p: nat)
    requires OthersSame(m, m1, p) && OthersSame(m1, m2, p)
    ensures OthersSame(m, m2, p)
  {
  }

  /** A process that is not there has no references. */
  lemma NoRefs(m: Tabs, p: nat)
    requires Inv(m) && p !in m.user
    ensures forall r: Ref | r.p == p :: r !in m.fl && r !in m.il && Look(m.fl, r) == None && Look(m.il, r) == None
  {
    forall r: Ref | r.p == p ensures r !in m.fl && r !in m.il { assert AgreesAt(m, r); }
  }

  lemma SameLedger(l: map<Ref, nat>, l': map<Ref, nat>)
    requires forall r: Ref :: Look(l', r) == Look(l, r)
    ensures l' == l
  {
    forall r: Ref ensures (r in l' <==> r in l) && (r in l ==> l'[r] == l[r]) { assert Look(l', r) == Look(l, r); }
  }

  lemma SameCounts(m: Tabs, m': Tabs)
    requires Inv(m) && Inv(m') && m'.fl == m.fl && m'.il == m.il
    ensures m'.fCount == m.fCount && m'.iCount == m.iCount
  {
    forall k: nat | k < NFILE ensures m'.fCount[k] == m.fCount[k] { assert m.fCount[k] == |Holders(m.fl, k)| == m'.fCount[k]; }
    forall k: nat | k < NINODE ensures m'.iCount[k] == m.iCount[k] { assert m.iCount[k] == |Holders(m.il, k)| == m'.iCount[k]; }
  }

  /** The new process has what its parent has. */
  lemma Shared(m: Tabs, m1: Tabs, m': Tabs, cu: nat, child: nat)
    requires m1 == m.(user := m.user[child := Nobody()]) && cu in m.user && child !in m.user && ChildOnly(m1, m', child)
    requires child in m'.user && m'.user[child] == m.user[cu] && forall n :: Held(child, n) !in m.il
    ensures (forall n :: Held(child, n) !in m'.il)
    ensures m'.user == m.user[child := m.user[cu]] && Slots(m, m')
    ensures forall r: Ref | r.p != child :: Look(m'.fl, r) == Look(m.fl, r) && Look(m'.il, r) == Look(m.il, r)
  {
  }

  /** A process with no references left has none in the ledgers. */
  lemma AllGone(m: Tabs, m': Tabs, p: nat)
    requires Inv(m') && OthersSame(m, m', p) && p in m.user && m'.user[p] == Nobody() && forall n :: Held(p, n) !in m.il
    ensures m'.user == m.user[p := Nobody()] && Slots(m, m')
    ensures forall r: Ref :: Look(m'.fl, r) == (if r.p == p then None else Look(m.fl, r))
                          && Look(m'.il, r) == (if r.p == p then None else Look(m.il, r))
  {
    hide Counted;
    forall r: Ref | r.p == p ensures Look(m'.fl, r) == None && Look(m'.il, r) == None {
      assert AgreesAt(m', r) && Named(m'.user, r) == None;
    }
  }

  lemma InodeOf(m: Tabs, r: Ref)
    requires Inv(m) && !r.Fd? && !r.Held? && Named(m.user, r).Some?
    ensures Place(m.user, r) && r in m.il && m.il[r] == Named(m.user, r).value < NINODE && m.iCount[m.il[r]] > 0
  {
    assert AgreesAt(m, r);
    SomeHolder(m.iCount, m.il, r);
  }

  lemma PutArea(u: Users, p: nat, n: nat, v: Option<nat>)
    requires Place(u, Area(p, n))
    ensures Put(u, Area(p, n), v)[p] == u[p].(areas := u[p].areas[n := v])
    ensures forall q | q in u && q != p :: q in Put(u, Area(p, n), v) && Put(u, Area(p, n), v)[q] == u[q]
  {
  }

  lemma Cleared(files: seq<Option<nat>>, n: nat)
    requires n < |files|
    ensures (Nones(n) + files[n..])[n] == files[n]
    ensures (Nones(n) + files[n..])[n := None] == Nones(n + 1) + files[n + 1..]
    ensures files[n] == None ==> Nones(n) + files[n..] == Nones(n + 1) + files[n + 1..]
  {
  }

  lemma FileOf(m: Tabs, p: nat, fd: nat)
    requires Inv(m) && p in m.user && fd < NOFILE && |m.user[p].ofile| == NOFILE && m.user[p].ofile[fd].Some?
    ensures m.user[p].ofile[fd].value < NFILE && |m.fCount| == NFILE && m.fCount[m.user[p].ofile[fd].value] <= 127
  {
    hide Counted;
    assert AgreesAt(m, Fd(p, fd));
  }

  /** The child may take over descriptor fd. */
  lemma CopyStep(m: Tabs, m': Tabs, cu: nat, child: nat, fd: nat)
    requires Inv(m') && ChildOnly(m, m', child) && cu in m'.user && child in m'.user && cu != child && fd < NOFILE
    requires |m'.user[cu].ofile| == NOFILE && m'.user[cu].ofile[fd].Some?
    requires |m'.user[child].ofile| == NOFILE && m'.user[child].ofile[fd] == None
    ensures var k, d := m'.user[cu].ofile[fd].value, Fd(child, fd);
            && k < NFILE && Attaching(m', d, k) && |m'.fCount| == NFILE
            && (m'.fCount[k] < 127 ==> Inv(AddFd(m', d, k)) && ChildOnly(m, AddFd(m', d, k), child))
            && (m'.fCount[k] <= 127)
  {
    hide Counted, Agrees;
    var k, d := m'.user[cu].ofile[fd].value, Fd(child, fd);
    OpenedFd(m', Fd(cu, fd));
    FreeFd(m', d);
    AddFdInv(m', d, k);
  }

  lemma DropFdIs(m: Tabs, d: Ref)
    requires Closing(m, d)
    ensures var k, s := m.fl[d], m.il[d];
            DropFd(m, d) == Tabs(m.fCount[k := m.fCount[k] - 1], m.fIno, m.iCount[s := m.iCount[s] - 1], m.iDev,
                                 if m.iCount[s] == 1 then m.iNum[s := 0] else m.iNum, Put(m.user, d, None), m.fl - {d}, m.il - {d})
  {
  }

  lemma FreeRef(m: Tabs, r: Ref)
    requires Inv(m) && !r.Fd? && !r.Held? && Named(m.user, r) == None
    ensures r !in m.il
  {
    assert AgreesAt(m, r);
  }

  /** Closing another descriptor leaves this one. */
  lemma AfterClose(m: Tabs, d: Ref, d': Ref)
    requires Inv(m) && d in m.fl && Closing(m, d')
    ensures d != d' ==> Named(DropFd(m, d').user, d) == Named(m.user, d)
    ensures Named(DropFd(m, d').user, d') == None || d'.Held?
  {
    PutNamed(m.user, d', None, d);
    PutNamed(m.user, d', None, d');
  }

  /** `do_dup2` after the close. */
  lemma ReAttach(m: Tabs, m1: Tabs, d: Ref, d': Ref, k: nat)
    requires Inv(m) && Inv(m1) && d in m.fl && d.Fd? && d'.Fd? && m.fl[d] == k && d'.p in m.user && d'.n < NOFILE && d.p == d'.p
    requires if Named(m.user, d').Some? then Closing(m, d') && m1 == DropFd(m, d') else m1 == m
    ensures Attaching(m1, d', k) && m.fl[d] < NFILE && d in m.il && m.il[d] < NINODE
    ensures Inv(AddFd(m1, d', k)) <==>
              if d == d' then m.iCount[m.il[d]] >= 2
              else Named(m.user, d') == Named(m.user, d) || m.fCount[k] < 127
  {
    hide Counted, Agrees, Put, Named;
    FdBounds(m, d);
    if d == d' {
      DupSelf(m, d);
    } else {
      if Named(m.user, d').Some? {
        AfterClose(m, d, d');
        OpenedFd(m, d');
      }
      OpenedFd(m1, d);
      FreeFd(m1, d');
      AddFdInv(m1, d', k);
    }
  }

  lemma HeldPlace(m: Tabs, p: nat, n: nat)
    requires Inv(m) && p in m.user && n < NHELD
    ensures Place(m.user, Held(p, n)) && Put(m.user, Held(p, n), Some(0)) == m.user
  {
  }

  lemma OnlyOne(m: Tabs, s: nat)
    requires Inv(m) && s < NINODE && m.iNum[s] != 0
    ensures forall t | 0 <= t < NINODE && t != s :: m.iDev[t] != m.iDev[s] || m.iNum[t] != m.iNum[s]
  {
  }

  lemma PutKeys(u: Users, r: Ref, v: Option<nat>)
    requires Place(u, r)
    ensures Put(u, r, v).Keys == u.Keys
  {
  }

  lemma ShapeFacts(m: Tabs, p: nat)
    requires Shape(m) && p in m.user
    ensures |m.user[p].ofile| == NOFILE && |m.user[p].areas| == NVMA
    ensures |m.fCount| == |m.fIno| == NFILE && |m.iCount| == |m.iDev| == |m.iNum| == NINODE
  {
  }

  lemma NamedFds(u: Users, p: nat)
    requires p in u && |u[p].ofile| == NOFILE && |u[p].areas| == NVMA
    ensures forall i: nat :: Named(u, Fd(p, i)) == if i < NOFILE then u[p].ofile[i] else None
  {
  }

  lemma SlotBound(m: Tabs, r: Ref)
    requires Inv(m) && r in m.il
    ensures m.il[r] < NINODE
  {
  }

  lemma FilesCounted(m: Tabs)
    requires Inv(m)
    ensures forall k | 0 <= k < NFILE :: m.fCount[k] >= 0
  {
  }

  lemma FreeFd(m: Tabs, d: Ref)
    requires Inv(m) && d.Fd? && d.p in m.user && d.n < NOFILE && Named(m.user, d) == None
    ensures Place(m.user, d) && d !in m.fl
  {
    assert AgreesAt(m, d);
  }

  lemma OpenedFd(m: Tabs, d: Ref)
    requires Inv(m) && d.Fd? && Named(m.user, d).Some?
    ensures d in m.fl && m.fl[d] == Named(m.user, d).value < NFILE && d in m.il && m.il[d] == m.fIno[m.fl[d]] < NINODE
    ensures m.fCount[m.fl[d]] > 0 && m.iCount[m.il[d]] > 0
  {
    assert AgreesAt(m, d);
    FdBounds(m, d);
  }

  lemma InUse(m: Tabs, s: nat)
    requires Inv(m) && s < NINODE && m.iNum[s] != 0
    ensures m.iCount[s] > 0
  {
    InodeBound(m, s);
  }

  lemma FreeSlot(m: Tabs, s: nat)
    requires Inv(m) && s < NINODE && m.iCount[s] == 0
    ensures m.iNum[s] == 0
  {
  }

  lemma ShapeOf(m: Tabs)
    requires Inv(m)
    ensures Shape(m)
  {
  }
}
