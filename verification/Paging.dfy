/** Page directories, page tables, user pages and memory areas, as they lie in
    physical memory, and the invariant that ties them to the frame ledger.
 */
module Paging {
  import opened FrameLedger
  import opened Ledgers
  import opened Params

  const NPAGE: nat := 0x8000        // frames of 4 kb in 128 mb
  const STACK: nat := 4             // index of vm_stack among the areas
  const PAGE: nat := 0x1000
  const KMEM_END: nat := 0x800_0000
  const LIMIT: nat := 0x1_0000_0000 // addresses are 32 bits wide
  const PTRS: nat := 1024           // entries of a directory or table
  const KPD: nat := 32              // PDX(KMEM_END): first user directory entry

  /** A 32-bit word, split along the bit fields of a page-table entry: frame number,
      present, writable, user, the other flag bits (starting at bit 3) and the
      available bits. */
  datatype Word = Word(off: nat, p: bool, w: bool, u: bool, misc: nat, avl: nat)

  const ZERO := Word(0, false, false, false, 0, 0)

  type Page = seq<Word>

  function ZeroPage(): (page: Page)
    ensures |page| == PTRS && forall i | 0 <= i < PTRS :: page[i] == ZERO
  {
    seq(PTRS, _ => ZERO)
  }

  datatype VmaFlag = RdOnly | Stack | DemandZero | Mmap | Private

  datatype Vma = Vma(flags: set<VmaFlag>, base: nat, size: nat)

  datatype Space = Space(pgd: nat, areas: seq<Vma>)

  /** The part of an address space that is populated: tables tlo..thi and pages
      lo..hi (page numbers).  It is the whole user range except while `pt_copy` is
      filling, or `pt_free` is emptying, the page tables. */
  datatype Window = Window(tlo: nat, thi: nat, lo: nat, hi: nat)

  const FULL := Window(KPD, PTRS, KPD * PTRS, PTRS * PTRS)

  datatype Mach = Mach(
    count: seq<nat>, rsvd: seq<bool>, free: seq<nat>, mem: seq<Page>,
    space: map<nat, Space>, win: map<nat, Window>, ledger: Ledger)

  // ---------------------------------------------------------------- decoding

  /** Word i of frame f; words outside physical memory read as zero. */
  function Entry(mem: seq<Page>, f: nat, i: nat): Word {
    if f < |mem| && i < |mem[f]| then mem[f][i] else ZERO
  }

  ghost function Pde(m: Mach, s: nat, d: nat): Word {
    if s in m.space then Entry(m.mem, m.space[s].pgd, d) else ZERO
  }

  ghost function Pte(m: Mach, s: nat, d: nat, t: nat): Word {
    Entry(m.mem, Pde(m, s, d).off, t)
  }

  /** r is inside the populated part of an existing address space. */
  ghost predicate Visible(m: Mach, r: Ref) {
    match r
    case Dir(s) => s in m.space
    case Table(s, d) =>
      s in m.space && s in m.win && KPD <= d < PTRS && m.win[s].tlo <= d < m.win[s].thi
    case Leaf(s, d, t) =>
      s in m.space && s in m.win && KPD <= d < PTRS && t < PTRS && m.win[s].lo <= d * PTRS + t < m.win[s].hi
    case Kern(_) => true
  }

  /** The words in memory say that r refers to a frame ... */
  ghost predicate Live(m: Mach, r: Ref) {
    && Visible(m, r)
    && match r
       case Dir(_) => true
       case Table(s, d) => Pde(m, s, d).p
       case Leaf(s, d, t) => Pde(m, s, d).p && Pte(m, s, d, t).p
       case Kern(_) => true
  }

  /** ... namely to this one. */
  ghost function Target(m: Mach, r: Ref): nat {
    match r
    case Dir(s) => if s in m.space then m.space[s].pgd else 0
    case Table(s, d) => Pde(m, s, d).off
    case Leaf(s, d, t) => Pte(m, s, d, t).off
    case Kern(f) => f
  }

  ghost predicate Writable(m: Mach, r: Ref) {
    match r
    case Table(s, d) => Pde(m, s, d).w
    case Leaf(s, d, t) => Pte(m, s, d, t).w
    case _ => false
  }

  ghost predicate User(m: Mach, r: Ref) {
    match r
    case Table(s, d) => Pde(m, s, d).u
    case Leaf(s, d, t) => Pte(m, s, d, t).u
    case _ => true
  }

  // ---------------------------------------------------------------- invariant

  ghost predicate Sizes(m: Mach) {
    && |m.count| == |m.rsvd| == |m.mem| == NPAGE
    && (forall f: nat | f < NPAGE :: |m.mem[f]| == PTRS)
    && m.space.Keys == m.win.Keys
    && (forall s | s in m.space :: s < NPROC && |m.space[s].areas| == NVMA && WindowOk(m.win[s]))
  }

  ghost predicate WindowOk(w: Window) {
    && KPD <= w.tlo && w.thi <= PTRS
    && w.tlo * PTRS <= w.lo && w.hi <= w.thi * PTRS
  }

  /** The ledger lists exactly the references that are in memory. */
  ghost predicate Agrees(m: Mach) {
    && (forall r | r in m.ledger :: Live(m, r) && m.ledger[r] == Target(m, r) < NPAGE)
    && (forall r | Live(m, r) && !r.Kern? :: r in m.ledger)
  }

  /** Only user pages are shared, never within one address space, and a shared page
      is writable through none of its references; the kernel's reserved frames can
      only be page directories. */
  ghost predicate Exclusive(m: Mach) {
    && |m.rsvd| == NPAGE
    && (forall r | r in m.ledger :: m.ledger[r] < NPAGE && (m.rsvd[m.ledger[r]] ==> r.Dir?))
    && (forall r, r' | r in m.ledger && r' in m.ledger && r != r' && m.ledger[r] == m.ledger[r'] ::
          r.Leaf? && r'.Leaf? && r.s != r'.s && !Writable(m, r))
  }

  /** A frame is on the free list, once, exactly when nobody refers to it. */
  ghost predicate FreeOk(count: seq<nat>, rsvd: seq<bool>, free: seq<nat>) {
    && |count| == |rsvd| == NPAGE
    && (forall f: nat :: f in free <==> f < NPAGE && !rsvd[f] && count[f] == 0)
    && (forall i, j | 0 <= i < j < |free| :: free[i] != free[j])
  }

  /** User entries carry the user bit, and page tables never restrict writing. */
  ghost predicate FlagsOk(m: Mach) {
    forall r | r in m.ledger :: User(m, r) && (r.Table? ==> Writable(m, r))
  }

  predicate AreaOk(a: Vma) {
    && Private in a.flags && (DemandZero in a.flags || Mmap in a.flags)
    && a.base % PAGE == 0 && a.size % PAGE == 0 && a.base + a.size < LIMIT
  }

  /** What `vm_renew` sets up: page-aligned private areas, the stack above the kernel. */
  predicate Execd(sp: Space) {
    && |sp.areas| == NVMA
    && (forall i | 0 <= i < NVMA :: AreaOk(sp.areas[i]))
    && KMEM_END - PAGE <= sp.areas[STACK].base && PAGE <= sp.areas[STACK].size
  }

  function PageAddr(d: nat, t: nat): nat {
    (d * PTRS + t) * PAGE
  }

  predicate Within(a: Vma, addr: nat) {
    a.base <= addr < a.base + a.size
  }

  ghost predicate InArea(sp: Space, addr: nat) {
    exists i :: 0 <= i < |sp.areas| && Within(sp.areas[i], addr)
  }

  ghost predicate Grown(sp: Space, sp': Space) {
    || sp'.areas == sp.areas
    || (Execd(sp') && forall a | InArea(sp, a) :: InArea(sp', a))
  }

  /** Every user page lies inside a memory area of its process. */
  ghost predicate Covered(m: Mach) {
    forall r | r in m.ledger && r.Leaf? ::
      r.s in m.space && Execd(m.space[r.s]) && InArea(m.space[r.s], PageAddr(r.d, r.t))
  }

  ghost predicate Inv(m: Mach) {
    && Sizes(m)
    && Agrees(m)
    && Exclusive(m)
    && Counted(m.count, m.rsvd, m.ledger)
    && FreeOk(m.count, m.rsvd, m.free)
    && FlagsOk(m)
    && Covered(m)
  }

  // ---------------------------------------------------------------- counters cannot wrap

  /** At most one reference per process: the 8-bit counter never exceeds NPROC. */
  lemma CountBound(m: Mach, f: nat)
    requires Sizes(m) && Agrees(m) && Exclusive(m) && Counted(m.count, m.rsvd, m.ledger)
    requires f < NPAGE && !m.rsvd[f]
    ensures m.count[f] <= NPROC
  {
    var h := Holders(m.ledger, f);
    if |h| > 1 {
      forall r | r in h ensures r.Leaf? && r.s < NPROC { SharedIsLeaf(m, f, r); }
      AtMost(h, (r: Ref) => if r.Leaf? then r.s else 0, NPROC);
    }
  }

  lemma SharedIsLeaf(m: Mach, f: nat, r: Ref)
    requires Sizes(m) && Agrees(m) && Exclusive(m)
    requires r in Holders(m.ledger, f) && |Holders(m.ledger, f)| > 1
    ensures r.Leaf? && r.s < NPROC
  {
    var rest := Holders(m.ledger, f) - {r};
    assert |rest| > 0;
    var r' :| r' in rest;
    assert r.Leaf?;
    assert Visible(m, r);
  }

  /** A writable page is mapped nowhere else, and its frame is counted once. */
  lemma WritableIsSole(m: Mach, r: Ref)
    requires Agrees(m) && Exclusive(m) && Counted(m.count, m.rsvd, m.ledger)
    requires r in m.ledger && r.Leaf? && Writable(m, r)
    ensures Holders(m.ledger, m.ledger[r]) == {r}
    ensures m.count[m.ledger[r]] == 1
  {
  }

  // ---------------------------------------------------------------- one step of the machine

  ghost predicate SameAt(m: Mach, m': Mach, r: Ref) {
    && Live(m', r) == Live(m, r)
    && (Live(m, r) ==>
          Target(m', r) == Target(m, r) && Writable(m', r) == Writable(m, r) && User(m', r) == User(m, r))
  }

  ghost predicate Kept(m: Mach, m': Mach, r: Ref) {
    && (r in m.ledger <==> r in m'.ledger)
    && (r in m.ledger ==> m'.ledger[r] == m.ledger[r])
  }

  ghost predicate Apart(m: Mach, r: Ref, r': Ref) {
    r in m.ledger && r' in m.ledger && r != r' && m.ledger[r] == m.ledger[r'] ==>
      r.Leaf? && r'.Leaf? && r.s != r'.s && !Writable(m, r) && !Writable(m, r')
  }

  /** Reference r means the same in both machines, down to the contents of its frame. */
  ghost predicate Same(m: Mach, m': Mach, r: Ref) {
    && Kept(m, m', r) && SameAt(m, m', r)
    && (r in m.ledger && (r.Leaf? || r.Kern?) ==>
          m.ledger[r] < |m.mem| == |m'.mem| && m'.mem[m.ledger[r]] == m.mem[m.ledger[r]])
  }

  /** Nothing but the references in x changed. */
  ghost predicate Only(m: Mach, m': Mach, x: set<Ref>) {
    m'.rsvd == m.rsvd && forall r | r !in x :: Same(m, m', r)
  }

  lemma OnlyTrans(m: Mach, m1: Mach, m2: Mach, x: set<Ref>, y: set<Ref>)
    requires Only(m, m1, x) && Only(m1, m2, y)
    ensures Only(m, m2, x + y)
  {
    forall r | r !in x + y ensures Same(m, m2, r) {
      assert Same(m, m1, r) && Same(m1, m2, r);
    }
  }

  /** A block the kernel had in neither machine does not count as changed. */
  lemma OnlyTrim(m: Mach, m': Mach, x: set<Ref>, f: nat)
    requires Only(m, m', x) && Kern(f) !in m.ledger && Kern(f) !in m'.ledger
    ensures Only(m, m', x - {Kern(f)})
  {
    assert Same(m, m', Kern(f));
  }

  /** What a reference that a step touched has to satisfy afterwards. */
  ghost predicate Sound(m: Mach, r: Ref) {
    && (Live(m, r) && !r.Kern? ==> r in m.ledger)
    && (r in m.ledger ==>
          && Live(m, r) && m.ledger[r] == Target(m, r) < NPAGE
          && |m.rsvd| == NPAGE && (m.rsvd[m.ledger[r]] ==> r.Dir?)
          && User(m, r) && (r.Table? ==> Writable(m, r))
          && (forall r' :: Apart(m, r, r'))
          && (r.Leaf? ==> r.s in m.space && Execd(m.space[r.s]) && InArea(m.space[r.s], PageAddr(r.d, r.t))))
  }

  /** A step that touches only the references in x keeps the invariant if those are sound
      and the counters and the free list are right again. */
  lemma StepInv(m: Mach, m': Mach, x: set<Ref>)
    requires Inv(m) && Sizes(m')
    requires Counted(m'.count, m'.rsvd, m'.ledger) && FreeOk(m'.count, m'.rsvd, m'.free)
    requires Only(m, m', x)
    requires forall r | r in m'.ledger && r !in x && r.Leaf? ::
               r.s in m.space && r.s in m'.space && Grown(m.space[r.s], m'.space[r.s])
    requires forall r | r in x :: Sound(m', r)
    ensures Inv(m')
  {
    assert Agrees(m') by {
      forall r | r in m'.ledger ensures Live(m', r) && m'.ledger[r] == Target(m', r) < NPAGE {
        if r !in x { assert Same(m, m', r); }
      }
      forall r | Live(m', r) && !r.Kern? ensures r in m'.ledger {
        if r !in x { assert Same(m, m', r); }
      }
    }
    StepExclusive(m, m', x);
    assert FlagsOk(m') && Covered(m') by {
      forall r | r in m'.ledger
        ensures User(m', r) && (r.Table? ==> Writable(m', r))
        ensures r.Leaf? ==> r.s in m'.space && Execd(m'.space[r.s]) && InArea(m'.space[r.s], PageAddr(r.d, r.t))
      {
        if r !in x { assert Same(m, m', r); } else { assert Sound(m', r); }
      }
    }
  }

  lemma StepExclusive(m: Mach, m': Mach, x: set<Ref>)
    requires Agrees(m) && Exclusive(m) && Only(m, m', x)
    requires forall r | r in x :: Sound(m', r)
    ensures Exclusive(m')
  {
    forall r | r in m'.ledger ensures m'.ledger[r] < NPAGE && (m'.rsvd[m'.ledger[r]] ==> r.Dir?) {
      if r !in x { assert Same(m, m', r); } else { assert Sound(m', r); }
    }
    forall r, r' | r in m'.ledger && r' in m'.ledger && r != r' && m'.ledger[r] == m'.ledger[r']
      ensures r.Leaf? && r'.Leaf? && r.s != r'.s && !Writable(m', r)
    {
      if r in x {
        assert Apart(m', r, r');
      } else if r' in x {
        assert Apart(m', r', r);
      } else {
        assert Same(m, m', r) && Same(m, m', r');
      }
    }
  }

  // ---------------------------------------------------------------- memory writes

  /** A write to a frame that is neither directory nor table changes no reference. */
  lemma DataWrite(m: Mach, m': Mach, f: nat)
    requires Sizes(m) && Agrees(m) && m'.space == m.space && m'.win == m.win && |m'.mem| == |m.mem|
    requires forall g: nat | g < |m.mem| && g != f :: m'.mem[g] == m.mem[g]
    requires forall r | r in m.ledger && (r.Dir? || r.Table?) :: m.ledger[r] != f
    ensures forall r :: SameAt(m, m', r)
  {
    forall r ensures SameAt(m, m', r) { DataWriteAt(m, m', f, r); }
  }

  lemma DataWriteAt(m: Mach, m': Mach, f: nat, r: Ref)
    requires Sizes(m) && Agrees(m) && m'.space == m.space && m'.win == m.win && |m'.mem| == |m.mem|
    requires forall g: nat | g < |m.mem| && g != f :: m'.mem[g] == m.mem[g]
    requires forall r | r in m.ledger && (r.Dir? || r.Table?) :: m.ledger[r] != f
    ensures SameAt(m, m', r)
  {
    if Visible(m, r) && (r.Table? || r.Leaf?) {
      assert Live(m, Dir(r.s));
      assert Pde(m', r.s, r.d) == Pde(m, r.s, r.d);
      if r.Leaf? && Pde(m, r.s, r.d).p {
        assert Live(m, Table(r.s, r.d));
        assert Pte(m', r.s, r.d, r.t) == Pte(m, r.s, r.d, r.t);
      }
    }
  }

  function Poke(mem: seq<Page>, f: nat, i: nat, w: Word): (mem': seq<Page>)
    requires f < |mem| && i < |mem[f]|
    ensures Entry(mem', f, i) == w
    ensures forall g: nat, j: nat | g != f || j != i :: Entry(mem', g, j) == Entry(mem, g, j)
  {
    mem[f := mem[f][i := w]]
  }

  /** A write to entry t of table (s, d) concerns only the page it names. */
  lemma TableWrite(m: Mach, m': Mach, s: nat, d: nat, t: nat, w: Word)
    requires Sizes(m) && Agrees(m) && Exclusive(m) && Table(s, d) in m.ledger && t < PTRS
    requires m'.mem == Poke(m.mem, m.ledger[Table(s, d)], t, w) && m'.space == m.space && m'.win == m.win
    ensures forall r | r != Leaf(s, d, t) :: SameAt(m, m', r)
    ensures forall r | r in m.ledger && !r.Table? :: m'.mem[m.ledger[r]] == m.mem[m.ledger[r]]
    ensures Pde(m', s, d) == Pde(m, s, d) && Pte(m', s, d, t) == w
  {
    assert Live(m, Table(s, d));
    assert Live(m, Dir(s)) && Dir(s) in m.ledger;
    forall r | r != Leaf(s, d, t) ensures SameAt(m, m', r) { TableWriteAt(m, m', s, d, t, w, r); }
  }

  lemma TableWriteAt(m: Mach, m': Mach, s: nat, d: nat, t: nat, w: Word, r: Ref)
    requires Sizes(m) && Agrees(m) && Exclusive(m) && Table(s, d) in m.ledger && t < PTRS
    requires m'.mem == Poke(m.mem, m.ledger[Table(s, d)], t, w) && m'.space == m.space && m'.win == m.win
    requires r != Leaf(s, d, t)
    ensures SameAt(m, m', r)
  {
    if Visible(m, r) && (r.Table? || r.Leaf?) {
      assert Live(m, Dir(r.s)) && Dir(r.s) in m.ledger;
      assert Pde(m', r.s, r.d) == Pde(m, r.s, r.d);
      if r.Leaf? && Pde(m, r.s, r.d).p {
        assert Live(m, Table(r.s, r.d)) && Table(r.s, r.d) in m.ledger;
        assert Pte(m', r.s, r.d, r.t) == Pte(m, r.s, r.d, r.t);
      }
    }
  }

  /** A write to entry d of the directory of s concerns only that table and its pages. */
  lemma DirWrite(m: Mach, m': Mach, s: nat, d: nat, w: Word)
    requires Sizes(m) && Agrees(m) && Exclusive(m) && s in m.space && Dir(s) in m.ledger && d < PTRS
    requires m'.mem == Poke(m.mem, m.ledger[Dir(s)], d, w) && m'.space == m.space && m'.win == m.win
    ensures forall r | r != Table(s, d) && !(r.Leaf? && r.s == s && r.d == d) :: SameAt(m, m', r)
    ensures forall r | r in m.ledger && !r.Dir? :: m'.mem[m.ledger[r]] == m.mem[m.ledger[r]]
    ensures Pde(m', s, d) == w
  {
    forall r | r != Table(s, d) && !(r.Leaf? && r.s == s && r.d == d) ensures SameAt(m, m', r) {
      DirWriteAt(m, m', s, d, w, r);
    }
  }

  lemma DirWriteAt(m: Mach, m': Mach, s: nat, d: nat, w: Word, r: Ref)
    requires Sizes(m) && Agrees(m) && Exclusive(m) && s in m.space && Dir(s) in m.ledger && d < PTRS
    requires m'.mem == Poke(m.mem, m.ledger[Dir(s)], d, w) && m'.space == m.space && m'.win == m.win
    requires r != Table(s, d) && !(r.Leaf? && r.s == s && r.d == d)
    ensures SameAt(m, m', r)
  {
    if Visible(m, r) && (r.Table? || r.Leaf?) {
      assert Live(m, Dir(r.s)) && Dir(r.s) in m.ledger;
      assert Pde(m', r.s, r.d) == Pde(m, r.s, r.d);
      if r.Leaf? && Pde(m, r.s, r.d).p {
        assert Live(m, Table(r.s, r.d)) && Table(r.s, r.d) in m.ledger;
        assert Pte(m', r.s, r.d, r.t) == Pte(m, r.s, r.d, r.t);
      }
    }
  }

  // ---------------------------------------------------------------- views

  ghost predicate InMemory(m: Mach) {
    forall r | r in m.ledger :: m.ledger[r] < |m.mem|
  }

  /** What user programs can read: the contents of every mapped page. */
  ghost function View(m: Mach): map<Ref, Page>
    requires InMemory(m)
  {
    map r | r in m.ledger && r.Leaf? :: m.mem[m.ledger[r]]
  }

  /** If no user page changed, neither did the view. */
  lemma ViewKept(m: Mach, m': Mach, x: set<Ref>)
    requires InMemory(m) && InMemory(m') && Only(m, m', x) && forall r | r in x :: !r.Leaf?
    ensures View(m') == View(m)
  {
    hide SameAt;
    forall r: Ref | r.Leaf? ensures (r in View(m') <==> r in View(m)) && (r in View(m) ==> View(m')[r] == View(m)[r]) {
      assert Same(m, m', r);
    }
    assert View(m').Keys == View(m).Keys;
  }

  /** If only user page r changed, the view changed at most there. */
  lemma ViewPut(m: Mach, m': Mach, x: set<Ref>, r: Ref)
    requires InMemory(m) && InMemory(m') && Only(m, m', x) && (forall r' | r' in x && r'.Leaf? :: r' == r)
    requires r.Leaf? && r in m'.ledger
    ensures View(m') == View(m)[r := m'.mem[m'.ledger[r]]]
  {
    hide SameAt;
    var v := View(m)[r := m'.mem[m'.ledger[r]]];
    forall r': Ref | r'.Leaf? && r' != r ensures (r' in View(m') <==> r' in v) && (r' in v ==> View(m')[r'] == v[r']) {
      assert Same(m, m', r');
    }
    assert View(m').Keys == v.Keys;
  }

  // ---------------------------------------------------------------- reading the invariant

  lemma Facts(m: Mach)
    requires Inv(m)
    ensures |m.count| == |m.rsvd| == |m.mem| == NPAGE && InMemory(m)
    ensures forall f: nat | f < NPAGE :: |m.mem[f]| == PTRS
    ensures FreeOk(m.count, m.rsvd, m.free)
    ensures m.space.Keys == m.win.Keys
    ensures forall s | s in m.space :: s < NPROC && |m.space[s].areas| == NVMA
  {
  }

  /** What the directory of s says about table d. */
  lemma ReadDir(m: Mach, s: nat, d: nat)
    requires Inv(m) && s in m.space
    ensures s in m.win && m.space[s].pgd < NPAGE && Dir(s) in m.ledger && m.ledger[Dir(s)] == m.space[s].pgd
    ensures m.rsvd[m.space[s].pgd] || m.count[m.space[s].pgd] == 1
    ensures d < PTRS ==> Pde(m, s, d) == m.mem[m.space[s].pgd][d]
    ensures Visible(m, Table(s, d)) ==> (Table(s, d) in m.ledger <==> Pde(m, s, d).p)
    ensures Table(s, d) in m.ledger ==>
              Pde(m, s, d).p && Pde(m, s, d).off == m.ledger[Table(s, d)] < NPAGE && Pde(m, s, d).w && Pde(m, s, d).u
  {
    assert Live(m, Dir(s));
    assert Holders(m.ledger, m.space[s].pgd) == {Dir(s)};
    assert Live(m, Table(s, d)) ==> Table(s, d) in m.ledger;
    assert Table(s, d) in m.ledger ==> Live(m, Table(s, d));
  }

  /** What table d of s says about page t. */
  lemma ReadTable(m: Mach, s: nat, d: nat, t: nat)
    requires Inv(m) && Table(s, d) in m.ledger && t < PTRS
    ensures s in m.space && m.ledger[Table(s, d)] < NPAGE && Pte(m, s, d, t) == m.mem[m.ledger[Table(s, d)]][t]
    ensures Visible(m, Leaf(s, d, t)) ==> (Leaf(s, d, t) in m.ledger <==> Pte(m, s, d, t).p)
    ensures Leaf(s, d, t) in m.ledger ==>
              var f := m.ledger[Leaf(s, d, t)];
              Pte(m, s, d, t).p && Pte(m, s, d, t).off == f < NPAGE && !m.rsvd[f] && m.count[f] > 0 && Pte(m, s, d, t).u
  {
    assert Live(m, Table(s, d));
    var r := Leaf(s, d, t);
    if r in m.ledger {
      assert Live(m, r);
      assert r in Holders(m.ledger, m.ledger[r]);
    }
    if Visible(m, r) && Pte(m, s, d, t).p { assert Live(m, r); }
  }

  /** A mapped page has a page table. */
  lemma LeafTable(m: Mach, r: Ref)
    requires Inv(m) && r in m.ledger && r.Leaf?
    ensures r.s in m.space && Table(r.s, r.d) in m.ledger && KPD <= r.d < PTRS && r.t < PTRS
    ensures Execd(m.space[r.s]) && InArea(m.space[r.s], PageAddr(r.d, r.t))
  {
    assert Live(m, r);
    assert Live(m, Table(r.s, r.d));
  }
}
