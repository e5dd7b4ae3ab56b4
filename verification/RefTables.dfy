/** Who refers to which open file and which in-core inode. */
module RefTables {
  import opened Ledgers
  import opened Options
  import opened Params

  const NOFILE: nat := 16
  const NFILE: nat := 128
  const NINODE: nat := 128
  const NHELD: nat := 4         // inodes that one system call holds at a time

  /** The references of a process: descriptors, directories and memory areas. */
  datatype User = User(ofile: seq<Option<nat>>, wdir: Option<nat>, iroot: Option<nat>, areas: seq<Option<nat>>)

  type Users = map<nat, User>

  datatype Ref =
    | Fd(p: nat, n: nat)        // descriptor n of process p
    | Wd(p: nat)                // its working directory
    | Rt(p: nat)                // its root directory
    | Area(p: nat, n: nat)      // its n-th memory area
    | Held(p: nat, n: nat)      // an inode that a system call of p has got and not put

  /** The file table, the inode table and the processes, with the two ledgers. */
  datatype Tabs = Tabs(fCount: seq<int>, fIno: seq<nat>, iCount: seq<int>, iDev: seq<nat>, iNum: seq<nat>,
                       user: Users, fl: map<Ref, nat>, il: map<Ref, nat>)

  // ---------------------------------------------------------------- references in processes

  /** r is a place of a process where a reference can be. */
  predicate Place(u: Users, r: Ref) {
    && r.p in u && |u[r.p].ofile| == NOFILE && |u[r.p].areas| == NVMA
    && (r.Fd? ==> r.n < NOFILE) && (r.Area? ==> r.n < NVMA) && (r.Held? ==> r.n < NHELD)
  }

  /** What a process names at r: a file for a descriptor, an inode otherwise. */
  function Named(u: Users, r: Ref): Option<nat> {
    if !Place(u, r) then None
    else match r
      case Fd(p, n) => u[p].ofile[n]
      case Wd(p) => u[p].wdir
      case Rt(p) => u[p].iroot
      case Area(p, n) => u[p].areas[n]
      case Held(_, _) => None
  }

  function Put(u: Users, r: Ref, v: Option<nat>): Users
    requires Place(u, r)
  {
    match r
    case Fd(p, n) => u[p := u[p].(ofile := u[p].ofile[n := v])]
    case Wd(p) => u[p := u[p].(wdir := v)]
    case Rt(p) => u[p := u[p].(iroot := v)]
    case Area(p, n) => u[p := u[p].(areas := u[p].areas[n := v])]
    case Held(_, _) => u
  }

  lemma PutNamed(u: Users, r: Ref, v: Option<nat>, r': Ref)
    requires Place(u, r)
    ensures Place(Put(u, r, v), r') <==> Place(u, r')
    ensures Named(Put(u, r, v), r') == if r' == r && !r.Held? then v else Named(u, r')
  {
  }

  function Look(l: map<Ref, nat>, r: Ref): Option<nat> {
    if r in l then Some(l[r]) else None
  }

  // ---------------------------------------------------------------- the invariant

  ghost predicate UsersOk(u: Users) {
    forall p | p in u :: p < NPROC && |u[p].ofile| == NOFILE && |u[p].areas| == NVMA
  }

  ghost predicate Shape(m: Tabs) {
    && |m.fCount| == |m.fIno| == NFILE && |m.iCount| == |m.iDev| == |m.iNum| == NINODE && UsersOk(m.user)
    && (forall r | r in m.fl :: r.Fd? && m.fl[r] < NFILE)
    && (forall r | r in m.il :: m.il[r] < NINODE && Place(m.user, r))
  }

  /** The ledgers say what the processes and the file table say. */
  ghost predicate AgreesAt(m: Tabs, r: Ref)
    requires Shape(m)
  {
    match r
    case Fd(_, _) => Look(m.fl, r) == Named(m.user, r) && Look(m.il, r) == if r in m.fl then Some(m.fIno[m.fl[r]]) else None
    case Held(_, _) => true
    case _ => Look(m.il, r) == Named(m.user, r)
  }

  ghost predicate Agrees(m: Tabs)
    requires Shape(m)
  {
    forall r :: AgreesAt(m, r)
  }

  function None128(): (rs: seq<bool>)
    ensures |rs| == 128 && forall i | 0 <= i < 128 :: !rs[i]
  {
    seq(128, _ => false)
  }

  /** The counters are the numbers of references; f_count is a char. */
  ghost predicate CountsOk(m: Tabs) {
    && Counted(m.fCount, None128(), m.fl) && Counted(m.iCount, None128(), m.il)
    && forall k | 0 <= k < |m.fCount| :: m.fCount[k] <= 127
  }

  /** A slot is in use exactly if it is counted, and no two hold the same inode. */
  ghost predicate Unique(m: Tabs)
    requires Shape(m)
  {
    && (forall s | 0 <= s < NINODE :: m.iCount[s] == 0 <==> m.iNum[s] == 0)
    && (forall s, t | 0 <= s < t < NINODE && m.iNum[s] != 0 && m.iNum[t] != 0 ::
          m.iDev[s] != m.iDev[t] || m.iNum[s] != m.iNum[t])
  }

  ghost predicate Inv(m: Tabs) {
    Shape(m) && Agrees(m) && CountsOk(m) && Unique(m)
  }

  // ---------------------------------------------------------------- the 16-bit counter

  const MAXREFS: nat := NPROC * 27

  function Code(r: Ref): nat {
    27 * r.p + match r
      case Fd(_, n) => n
      case Wd(_) => 16
      case Rt(_) => 17
      case Area(_, n) => 18 + n
      case Held(_, n) => 23 + n
  }

  /** An inode has at most 1728 references, so that its 16-bit counter does not wrap. */
  lemma InodeBound(m: Tabs, s: nat)
    requires Inv(m) && s < NINODE
    ensures 0 <= m.iCount[s] <= MAXREFS < 0x1_0000
  {
    var h := Holders(m.il, s);
    forall r | r in h ensures Code(r) < MAXREFS { assert Place(m.user, r); }
    forall r, r' | r in h && r' in h && r != r' ensures Code(r) != Code(r') {
      assert Place(m.user, r) && Place(m.user, r');
    }
    AtMost(h, Code, MAXREFS);
  }

  // ---------------------------------------------------------------- steps

  /** A char raised by one. */
  function Inc8(c: int): int {
    if c == 127 then -128 else c + 1
  }

  /** A new reference to inode s from a directory, an area or a system call. */
  function AddI(m: Tabs, r: Ref, s: nat): Tabs
    requires Place(m.user, r) && s < |m.iCount|
  {
    m.(user := Put(m.user, r, Some(s)), il := m.il[r := s], iCount := m.iCount[s := m.iCount[s] + 1])
  }

  /** `iput`: the last reference clears the inode number. */
  function Freed(m: Tabs, s: nat): Tabs
    requires s < |m.iCount| && s < |m.iNum|
  {
    var c := m.iCount[s] - 1;
    m.(iCount := m.iCount[s := c], iNum := if c == 0 then m.iNum[s := 0] else m.iNum)
  }

  function DropI(m: Tabs, r: Ref): Tabs
    requires Place(m.user, r) && r in m.il && m.il[r] < |m.iCount| && m.il[r] < |m.iNum|
  {
    Freed(m, m.il[r]).(user := Put(m.user, r, None), il := m.il - {r})
  }

  /** Descriptor r names file k. */
  function AddFd(m: Tabs, r: Ref, k: nat): Tabs
    requires Place(m.user, r) && k < |m.fCount| && k < |m.fIno| && m.fIno[k] < |m.iCount|
  {
    var s := m.fIno[k];
    m.(user := Put(m.user, r, Some(k)), fl := m.fl[r := k], il := m.il[r := s],
       fCount := m.fCount[k := Inc8(m.fCount[k])], iCount := m.iCount[s := m.iCount[s] + 1])
  }

  /** Descriptor r is closed. */
  function DropFd(m: Tabs, r: Ref): Tabs
    requires Place(m.user, r) && r in m.fl && r in m.il && m.fl[r] < |m.fCount|
    requires m.il[r] < |m.iCount| && m.il[r] < |m.iNum|
  {
    var k := m.fl[r];
    Freed(m, m.il[r]).(user := Put(m.user, r, None), fl := m.fl - {r}, il := m.il - {r}, fCount := m.fCount[k := m.fCount[k] - 1])
  }

  /** File k is opened on the inode that a system call holds. */
  function OpenFd(m: Tabs, r: Ref, k: nat, h: Ref): Tabs
    requires Place(m.user, r) && k < |m.fCount| && k < |m.fIno| && h in m.il
  {
    m.(user := Put(m.user, r, Some(k)), fl := m.fl[r := k], il := (m.il - {h})[r := m.il[h]],
       fCount := m.fCount[k := 1], fIno := m.fIno[k := m.il[h]])
  }

  /** Slot s is loaded with an inode. */
  function LoadI(m: Tabs, h: Ref, s: nat, dev: nat, num: nat): Tabs
    requires s < |m.iCount| && s < |m.iDev| && s < |m.iNum|
  {
    m.(il := m.il[h := s], iCount := m.iCount[s := m.iCount[s] + 1], iDev := m.iDev[s := dev], iNum := m.iNum[s := num])
  }

  // ---------------------------------------------------------------- counting

  lemma NoHolders(count: seq<int>, l: map<Ref, nat>, f: nat, r: Ref)
    requires Counted(count, None128(), l) && f < |count| && count[f] == 0
    ensures r in l ==> l[r] != f
  {
    assert r in l && l[r] == f ==> r in Holders(l, f);
  }

  lemma SomeHolder(count: seq<int>, l: map<Ref, nat>, r: Ref)
    requires Counted(count, None128(), l) && r in l && l[r] < |count|
    ensures count[l[r]] > 0
  {
    CountedDrop(count, None128(), l, r);
  }

  // ---------------------------------------------------------------- each step keeps the invariant

  lemma AddIInv(m: Tabs, r: Ref, s: nat)
    requires Inv(m) && Place(m.user, r) && !r.Fd? && r !in m.il && s < NINODE && m.iCount[s] > 0
    ensures Inv(AddI(m, r, s))
  {
    hide Place, Counted, Put, Named;
    var m' := AddI(m, r, s);
    CountedAdd(m.iCount, None128(), m.il, r, s);
    PutUsers(m.user, r, Some(s));
    forall x ensures Place(m'.user, x) <==> Place(m.user, x) { PutNamed(m.user, r, Some(s), x); }
    forall x ensures AgreesAt(m', x) {
      assert AgreesAt(m, x);
      PutNamed(m.user, r, Some(s), x);
    }
  }

  lemma PutUsers(u: Users, r: Ref, v: Option<nat>)
    requires UsersOk(u) && Place(u, r)
    ensures UsersOk(Put(u, r, v))
  {
  }

  lemma FreedUnique(m: Tabs, s: nat)
    requires Inv(m) && s < NINODE && m.iCount[s] > 0
    ensures var m' := Freed(m, s);
            && |m'.iCount| == NINODE && |m'.iNum| == NINODE
            && (forall i | 0 <= i < NINODE :: m'.iCount[i] == 0 <==> m'.iNum[i] == 0)
            && (forall i | 0 <= i < NINODE :: m'.iNum[i] == m.iNum[i] || m'.iNum[i] == 0)
  {
  }

  lemma DropIInv(m: Tabs, r: Ref)
    requires Inv(m) && !r.Fd? && r in m.il
    ensures Place(m.user, r) && m.il[r] < NINODE && Inv(DropI(m, r)) && m.iCount[m.il[r]] > 0
  {
    hide Place, Counted, Put, Named;
    CountedDrop(m.iCount, None128(), m.il, r);
    FreedUnique(m, m.il[r]);
    var m' := DropI(m, r);
    PutUsers(m.user, r, None);
    forall x ensures Place(m'.user, x) <==> Place(m.user, x) { PutNamed(m.user, r, None, x); }
    forall x ensures AgreesAt(m', x) {
      assert AgreesAt(m, x);
      PutNamed(m.user, r, None, x);
    }
  }

  lemma FdBounds(m: Tabs, r: Ref)
    requires Inv(m) && r in m.fl
    ensures r.Fd? && Place(m.user, r) && r in m.il && m.fl[r] < NFILE && m.il[r] == m.fIno[m.fl[r]] < NINODE
    ensures m.fCount[m.fl[r]] > 0 && m.iCount[m.il[r]] > 0 && Named(m.user, r) == Some(m.fl[r])
  {
    hide Place, Counted;
    assert AgreesAt(m, r);
    SomeHolder(m.fCount, m.fl, r);
    SomeHolder(m.iCount, m.il, r);
  }

  lemma DropFdInv(m: Tabs, r: Ref)
    requires Inv(m) && r in m.fl
    ensures Place(m.user, r) && r in m.il && m.fl[r] < NFILE && m.il[r] < NINODE && Inv(DropFd(m, r))
  {
    hide Place, Counted, Put, Named;
    FdBounds(m, r);
    CountedDrop(m.iCount, None128(), m.il, r);
    CountedDrop(m.fCount, None128(), m.fl, r);
    FreedUnique(m, m.il[r]);
    var m' := DropFd(m, r);
    PutUsers(m.user, r, None);
    forall x ensures Place(m'.user, x) <==> Place(m.user, x) { PutNamed(m.user, r, None, x); }
    forall x ensures AgreesAt(m', x) {
      assert AgreesAt(m, x);
      PutNamed(m.user, r, None, x);
    }
  }

  /** A descriptor more keeps the counts exactly if f_count has not reached 127. */
  lemma AddFdInv(m: Tabs, r: Ref, k: nat)
    requires Inv(m) && r.Fd? && Place(m.user, r) && r !in m.fl && k < NFILE && m.fCount[k] > 0
    ensures m.fIno[k] < NINODE
    ensures Inv(AddFd(m, r, k)) <==> m.fCount[k] < 127
  {
    hide Place, Put, Named;
    FileBounds(m, k);
    var m', s := AddFd(m, r, k), m.fIno[k];
    if m.fCount[k] == 127 {
      assert m'.fCount[k] == -128;
    } else {
      assert r !in m.il by { assert AgreesAt(m, r); }
      CountedAdd(m.fCount, None128(), m.fl, r, k);
      CountedAdd(m.iCount, None128(), m.il, r, s);
      PutUsers(m.user, r, Some(k));
      forall x ensures Place(m'.user, x) <==> Place(m.user, x) { PutNamed(m.user, r, Some(k), x); }
      forall x ensures AgreesAt(m', x) {
        assert AgreesAt(m, x);
        PutNamed(m.user, r, Some(k), x);
      }
    }
  }

  /** A file in use has an inode in use. */
  lemma FileBounds(m: Tabs, k: nat)
    requires Inv(m) && k < NFILE && m.fCount[k] > 0
    ensures m.fIno[k] < NINODE && m.iCount[m.fIno[k]] > 0
  {
    hide Place;
    var h := Holders(m.fl, k);
    assert |h| > 0;
    var r :| r in h;
    FdBounds(m, r);
  }

  lemma OpenFdInv(m: Tabs, r: Ref, k: nat, h: Ref)
    requires Inv(m) && r.Fd? && Place(m.user, r) && r !in m.fl && k < NFILE && m.fCount[k] == 0 && h.Held? && h in m.il
    ensures Inv(OpenFd(m, r, k, h))
  {
    hide Place, Counted, Put, Named;
    var m' := OpenFd(m, r, k, h);
    assert r !in m.il by { assert AgreesAt(m, r); }
    CountedAdd(m.fCount, None128(), m.fl, r, k);
    CountedRename(m.iCount, None128(), m.il, h, r);
    PutUsers(m.user, r, Some(k));
    forall x ensures Place(m'.user, x) <==> Place(m.user, x) { PutNamed(m.user, r, Some(k), x); }
    forall x ensures AgreesAt(m', x) {
      assert AgreesAt(m, x);
      PutNamed(m.user, r, Some(k), x);
      NoHolders(m.fCount, m.fl, k, x);
    }
  }

  lemma LoadIInv(m: Tabs, h: Ref, s: nat, dev: nat, num: nat)
    requires Inv(m) && h.Held? && Place(m.user, h) && h !in m.il && s < NINODE && m.iCount[s] == 0 && num != 0
    requires forall t | 0 <= t < NINODE :: m.iDev[t] != dev || m.iNum[t] != num
    ensures Inv(LoadI(m, h, s, dev, num))
  {
    hide Place, Counted, Put, Named;
    var m' := LoadI(m, h, s, dev, num);
    CountedAdd(m.iCount, None128(), m.il, h, s);
    forall x ensures AgreesAt(m', x) { assert AgreesAt(m, x); }
  }

  /** The inode that a system call holds becomes a directory of the process. */
  function MoveI(m: Tabs, h: Ref, r: Ref): Tabs
    requires Place(m.user, r) && h in m.il
  {
    m.(user := Put(m.user, r, Some(m.il[h])), il := (m.il - {h})[r := m.il[h]])
  }

  lemma MoveIInv(m: Tabs, h: Ref, r: Ref)
    requires Inv(m) && h.Held? && h in m.il && !r.Fd? && !r.Held? && Place(m.user, r) && r !in m.il
    ensures Inv(MoveI(m, h, r))
  {
    hide Place, Counted, Put, Named;
    var m', s := MoveI(m, h, r), m.il[h];
    CountedRename(m.iCount, None128(), m.il, h, r);
    PutUsers(m.user, r, Some(s));
    forall x ensures Place(m'.user, x) <==> Place(m.user, x) { PutNamed(m.user, r, Some(s), x); }
    forall x ensures AgreesAt(m', x) {
      assert AgreesAt(m, x);
      PutNamed(m.user, r, Some(s), x);
    }
  }

  function Nones(n: nat): (r: seq<Option<nat>>)
    ensures |r| == n && forall i | 0 <= i < n :: r[i] == None
  {
    seq(n, _ => None)
  }

  /** A process without references comes or goes. */
  function Nobody(): (u: User)
    ensures u.ofile == Nones(NOFILE) && u.areas == Nones(NVMA) && u.wdir == None && u.iroot == None
  {
    User(Nones(NOFILE), None, None, Nones(NVMA))
  }

  lemma NewUserInv(m: Tabs, p: nat)
    requires Inv(m) && p !in m.user && p < NPROC
    ensures Inv(m.(user := m.user[p := Nobody()]))
  {
    hide Counted;
    var m' := m.(user := m.user[p := Nobody()]);
    forall x ensures Named(m'.user, x) == Named(m.user, x) && (Place(m.user, x) ==> Place(m'.user, x)) { }
    forall x ensures AgreesAt(m', x) { assert AgreesAt(m, x); }
  }

  lemma OldUserInv(m: Tabs, p: nat)
    requires Inv(m) && p in m.user && m.user[p] == Nobody() && forall n :: Held(p, n) !in m.il
    ensures Inv(m.(user := m.user - {p}))
  {
    hide Counted;
    var m' := m.(user := m.user - {p});
    forall x ensures Named(m'.user, x) == Named(m.user, x) && (Place(m.user, x) && x.p != p ==> Place(m'.user, x)) { }
    forall x | x in m.il ensures x.p != p { assert AgreesAt(m, x) && (x.p == p ==> Named(m.user, x) == None); }
    forall x ensures AgreesAt(m', x) { assert AgreesAt(m, x); }
  }

  /** The counter of a file is the number of descriptors that name it. */
  lemma FileCount(m: Tabs, k: nat)
    requires Inv(m) && k < NFILE
    ensures m.fCount[k] == |set p, n | p in m.user && 0 <= n < NOFILE && Named(m.user, Fd(p, n)) == Some(k) :: Fd(p, n)|
  {
    var ds := set p, n | p in m.user && 0 <= n < NOFILE && Named(m.user, Fd(p, n)) == Some(k) :: Fd(p, n);
    forall r: Ref ensures r in ds <==> r in Holders(m.fl, k) {
      assert AgreesAt(m, r);
      assert r.Fd? ==> r == Fd(r.p, r.n);
    }
    assert ds == Holders(m.fl, k);
  }

  /** `dup2(fd, fd)` closes the file before it counts it again: it keeps the tables in order
      exactly if somebody else refers to the inode. */
  lemma DupSelf(m: Tabs, r: Ref)
    requires Inv(m) && r in m.fl
    ensures Place(m.user, r) && r in m.il && m.fl[r] < NFILE && m.il[r] < NINODE && m.fIno[m.fl[r]] < NINODE
    ensures Place(DropFd(m, r).user, r)
    ensures Inv(AddFd(DropFd(m, r), r, m.fl[r])) <==> m.iCount[m.il[r]] >= 2
  {
    hide Named, Counted;
    FdBounds(m, r);
    DropFdInv(m, r);
    PutNamed(m.user, r, None, r);
    var m1, k, s := DropFd(m, r), m.fl[r], m.il[r];
    var m2 := AddFd(m1, r, k);
    if m.iCount[s] == 1 {
      assert m2.iCount[s] == 1 && m2.iNum[s] == 0;
    } else {
      SelfInv(m, r);
    }
  }

  /** With the inode still in use the two steps cancel. */
  lemma SelfInv(m: Tabs, r: Ref)
    requires Inv(m) && r in m.fl && m.fl[r] < NFILE && r in m.il && m.il[r] < NINODE && m.fIno[m.fl[r]] < NINODE
    requires m.iCount[m.il[r]] >= 2 && Place(m.user, r) && Place(DropFd(m, r).user, r)
    ensures AddFd(DropFd(m, r), r, m.fl[r]) == m
  {
    hide Counted;
    FdBounds(m, r);
    var m', k := AddFd(DropFd(m, r), r, m.fl[r]), m.fl[r];
    assert m.fCount[k] <= 127;
    assert m'.fCount == m.fCount && m'.iCount == m.iCount;
    assert (m.fl - {r})[r := k] == m.fl && (m.il - {r})[r := m.il[r]] == m.il;
    assert m'.user == m.user by { PutBack(m.user, r, Some(k)); }
  }

  lemma PutBack(u: Users, r: Ref, v: Option<nat>)
    requires Place(u, r) && Place(Put(u, r, None), r) && Named(u, r) == v && !r.Held?
    ensures Put(Put(u, r, None), r, v) == u
  {
    var w := Put(Put(u, r, None), r, v);
    match r
    case Fd(p, n) => assert u[p].ofile[n := None][n := v] == u[p].ofile; assert w[p] == u[p];
    case Area(p, n) => assert u[p].areas[n := None][n := v] == u[p].areas; assert w[p] == u[p];
    case Wd(p) => assert w[p] == u[p];
    case Rt(p) => assert w[p] == u[p];
  }

  // ---------------------------------------------------------------- where it goes wrong

  function Nobodies(n: nat): (u: Users)
    ensures forall p: nat :: p in u <==> p < n
    ensures forall p: nat | p < n :: u[p] == Nobody()
  {
    if n == 0 then map[] else Nobodies(n - 1)[n - 1 := Nobody()]
  }

  /** Tables with n processes and nothing open. */
  function Idle(n: nat): (m: Tabs)
    ensures forall p: nat :: p in m.user <==> p < n
    ensures forall p: nat | p < n :: m.user[p] == Nobody()
  {
    Tabs(seq(NFILE, _ => 0), seq(NFILE, _ => 0), seq(NINODE, _ => 0), seq(NINODE, _ => 0), seq(NINODE, _ => 0),
         Nobodies(n), map[], map[])
  }

  lemma IdleInv(n: nat)
    requires n <= NPROC
    ensures Inv(Idle(n))
  {
    var m := Idle(n);
    forall f: nat ensures Holders(m.fl, f) == {} && Holders(m.il, f) == {} { }
    forall r ensures AgreesAt(m, r) { }
  }

  /** One file, opened once by process 0 of n. */
  ghost function OneOpen(n: nat): Tabs
    requires 0 < n <= NPROC
  {
    OpenFd(LoadI(Idle(n), Held(0, 0), 0, 1, 1), Fd(0, 0), 0, Held(0, 0))
  }

  lemma OneOpenInv(n: nat)
    requires 0 < n <= NPROC
    ensures Inv(OneOpen(n)) && OneOpen(n).fCount[0] == 1 && OneOpen(n).fl == map[Fd(0, 0) := 0]
    ensures OneOpen(n).il == map[Fd(0, 0) := 0] && OneOpen(n).iCount[0] == 1
    ensures forall p: nat, k: nat | p < n && k < NOFILE && (p > 0 || k > 0) :: Place(OneOpen(n).user, Fd(p, k)) && Fd(p, k) !in OneOpen(n).fl
  {
    IdleInv(n);
    var m := LoadI(Idle(n), Held(0, 0), 0, 1, 1);
    LoadIInv(Idle(n), Held(0, 0), 0, 1, 1);
    OpenFdInv(m, Fd(0, 0), 0, Held(0, 0));
    forall p: nat, k: nat | p < n && k < NOFILE ensures Place(OneOpen(n).user, Fd(p, k)) { PutNamed(m.user, Fd(0, 0), Some(0), Fd(p, k)); }
  }

  /** A file that is open once: `dup2(0, 0)` leaves a counted slot without an inode. */
  lemma DupSelfFails()
    ensures var m := OneOpen(1); var r := Fd(0, 0);
            && Inv(m) && r in m.fl && r in m.il && Place(m.user, r) && m.fl[r] < NFILE && m.il[r] < NINODE
            && Place(DropFd(m, r).user, r) && !Inv(AddFd(DropFd(m, r), r, m.fl[r]))
  {
    OneOpenInv(1);
    DupSelf(OneOpen(1), Fd(0, 0));
  }

  /** A file with n descriptors, n at most 127: they are the first ones of 8 processes. */
  lemma {:induction false} ManyOpen(n: nat) returns (m: Tabs)
    requires 1 <= n <= 127
    ensures Inv(m) && m.fCount[0] == n
    ensures forall p: nat, k: nat | p < 8 && k < NOFILE && 16 * p + k >= n :: Place(m.user, Fd(p, k)) && Fd(p, k) !in m.fl
  {
    if n == 1 {
      OneOpenInv(8);
      m := OneOpen(8);
    } else {
      var m1 := ManyOpen(n - 1);
      var r := Fd((n - 1) / 16, (n - 1) % 16);
      AddFdInv(m1, r, 0);
      m := AddFd(m1, r, 0);
      forall p: nat, k: nat | p < 8 && k < NOFILE && 16 * p + k >= n ensures Place(m.user, Fd(p, k)) && Fd(p, k) !in m.fl {
        PutNamed(m1.user, r, Some(0), Fd(p, k));
      }
    }
  }

  /** With 127 descriptors on a file, one more makes `f_count` -128. */
  lemma DupFails() returns (m: Tabs)
    ensures Inv(m) && Place(m.user, Fd(7, 15)) && m.fIno[0] < NINODE
    ensures var m' := AddFd(m, Fd(7, 15), 0); m'.fCount[0] == -128 && !Inv(m')
  {
    m := ManyOpen(127);
    AddFdInv(m, Fd(7, 15), 0);
  }

  /** What `do_close` does to the tables when it takes a word that is no descriptor, but the
      address of file k: the file and its inode lose a reference that nobody gave up. */
  function StrayClosed(m: Tabs, k: nat): Tabs
    requires k < |m.fCount| && k < |m.fIno| && m.fIno[k] < |m.iCount| && m.fIno[k] < |m.iNum|
  {
    Freed(m, m.fIno[k]).(fCount := m.fCount[k := m.fCount[k] - 1])
  }

  lemma StrayCloseFails(m: Tabs, k: nat)
    requires Inv(m) && k < NFILE && m.fCount[k] > 0
    ensures m.fIno[k] < NINODE && !Inv(StrayClosed(m, k))
  {
    FileBounds(m, k);
    assert StrayClosed(m, k).fCount[k] == m.fCount[k] - 1 == |Holders(m.fl, k)| - 1;
  }
}
