/** The steps of the paging machine composed into what the routines of the kernel do: faults,
    copy-on-write sharing, clone, teardown, stores and `vm_verify`. */
module SpaceSteps {
  import opened FrameLedger
  import opened Ledgers
  import opened Paging
  import opened PagingSteps
  import opened WindowSteps
  import opened ForkSteps
  import opened EagerMemory
  import opened Params

  // ---------------------------------------------------------------- the linked free list

  const NIL: int := -1

  function After(free: seq<nat>, i: nat): int {
    if i + 1 < |free| then free[i + 1] else NIL
  }

  /** The `pg_next` links starting at `head` run through exactly these frames. */
  ghost predicate Linked(head: int, next: seq<int>, free: seq<nat>) {
    && |next| == NPAGE
    && (forall i | 0 <= i < |free| :: free[i] < NPAGE)
    && head == (if free == [] then NIL else free[0])
    && (forall i | 0 <= i < |free| :: next[free[i]] == After(free, i))
  }

  lemma LinkedPop(head: int, next: seq<int>, free: seq<nat>)
    requires Linked(head, next, free) && free != []
    ensures Linked(next[free[0]], next, free[1..])
  {
    var rest := free[1..];
    forall i | 0 <= i < |rest| ensures next[rest[i]] == After(rest, i) {
      assert rest[i] == free[i + 1] && After(rest, i) == After(free, i + 1);
    }
  }

  lemma LinkedPush(head: int, next: seq<int>, free: seq<nat>, f: nat)
    requires Linked(head, next, free) && f < NPAGE && f !in free
    ensures Linked(f, next[f := head], [f] + free)
  {
    var free', next' := [f] + free, next[f := head];
    forall i | 0 <= i < |free'| ensures next'[free'[i]] == After(free', i) {
      if i > 0 { assert free'[i] == free[i - 1] && After(free', i) == After(free, i - 1); }
    }
  }

  lemma LinkedNone(next: seq<int>)
    requires |next| == NPAGE
    ensures Linked(NIL, next, [])
  {
  }

  lemma LinkedAppend(head: int, next: seq<int>, free: seq<nat>, f: nat)
    requires Linked(head, next, free) && f < NPAGE && f !in free
    requires forall i, j | 0 <= i < j < |free| :: free[i] < free[j]
    ensures |next| == NPAGE && (free != [] ==> free[|free| - 1] < NPAGE)
    ensures free == [] ==> Linked(f, next[f := NIL], [] + [f])
    ensures free != [] ==> Linked(head, next[f := NIL][free[|free| - 1] := f], free + [f])
  {
    if free != [] {
      var last := free[|free| - 1];
      var free', next' := free + [f], next[f := NIL][last := f];
      forall i | 0 <= i < |free'| ensures next'[free'[i]] == After(free', i) {
        AppendAt(next, free, f, i);
      }
    }
  }

  lemma AppendAt(next: seq<int>, free: seq<nat>, f: nat, i: nat)
    requires free != [] && i <= |free| && f < |next| && f !in free && (forall k | 0 <= k < |free| :: free[k] < |next|)
    requires forall k, j | 0 <= k < j < |free| :: free[k] < free[j]
    requires i < |free| ==> next[free[i]] == After(free, i)
    ensures next[f := NIL][free[|free| - 1] := f][(free + [f])[i]] == After(free + [f], i)
  {
    var free' := free + [f];
    assert free'[i] == if i < |free| then free[i] else f;
    assert i + 1 < |free'| ==> free'[i + 1] == if i + 1 < |free| then free[i + 1] else f;
    assert i < |free| - 1 ==> free[i] < free[|free| - 1];
    assert i < |free| ==> free[i] in free;
  }

  // ---------------------------------------------------------------- addresses and areas

  function Pdx(va: nat): nat { va / 0x40_0000 }

  function Ptx(va: nat): nat { va / PAGE % PTRS }

  function PgAddr(va: nat): nat { va - va % PAGE }

  /** The page a user address lies in. */
  function PageOf(s: nat, va: nat): Ref { Leaf(s, Pdx(va), Ptx(va)) }

  /** The page table for a user address. */
  function TableOf(s: nat, va: nat): Ref { Table(s, Pdx(va)) }

  lemma Split(va: nat)
    requires KMEM_END <= va < LIMIT
    ensures KPD <= Pdx(va) < PTRS && Ptx(va) < PTRS
    ensures PageAddr(Pdx(va), Ptx(va)) == PgAddr(va)
  {
  }

  lemma PageNumber(a: nat)
    ensures PgAddr(a) == PAGE * (a / PAGE) && PgAddr(a) % PAGE == 0 && a - PAGE < PgAddr(a) <= a
    ensures a < LIMIT ==> a / PAGE < LIMIT / PAGE
  {
  }

  /** A page boundary does not fall between an address and its page. */
  lemma PageBelow(base: nat, va: nat)
    requires base % PAGE == 0
    ensures va - PAGE < PgAddr(va) <= va && (base <= va ==> base <= PgAddr(va)) && (base - PAGE <= va ==> base - PAGE <= PgAddr(va))
  {
    hide PgAddr;
    PageNumber(va);
    PageNumber(base);
    var b, q := base / PAGE, va / PAGE;
    assert base == PAGE * b by { Whole(base); }
  }

  lemma Whole(a: nat)
    requires a % PAGE == 0
    ensures a == PAGE * (a / PAGE)
  {
  }

  lemma WithinPage(a: Vma, va: nat)
    requires a.base % PAGE == 0 && a.size % PAGE == 0
    ensures Within(a, va) <==> Within(a, PgAddr(va))
  {
    hide PgAddr;
    SumAligned(a.base, a.size);
    PageBelow(a.base, va);
    PageBelow(a.base + a.size, va);
  }

  /** Page-aligned areas contain whole pages. */
  lemma WholePage(sp: Space, va: nat)
    requires Execd(sp)
    ensures InArea(sp, va) <==> InArea(sp, PgAddr(va))
  {
    hide PgAddr;
    forall i | 0 <= i < NVMA ensures Within(sp.areas[i], va) <==> Within(sp.areas[i], PgAddr(va)) {
      assert AreaOk(sp.areas[i]);
      WithinPage(sp.areas[i], va);
    }
  }

  /** The first area, from index i on, that contains va. */
  function FindArea(areas: seq<Vma>, va: nat, i: nat): (k: nat)
    requires i <= |areas|
    ensures i <= k <= |areas|
    ensures k < |areas| ==> Within(areas[k], va)
    ensures forall j | i <= j < k :: !Within(areas[j], va)
    decreases |areas| - i
  {
    if i == |areas| || Within(areas[i], va) then i else FindArea(areas, va, i + 1)
  }

  /** The flags of the area that a fault at va is charged to. */
  function FlagsAt(sp: Space, va: nat): set<VmaFlag> {
    var k := FindArea(sp.areas, va, 0);
    if k < |sp.areas| then sp.areas[k].flags else {}
  }

  /** The faulting address is at most a page below the stack (32-bit subtraction). */
  predicate Grows(sp: Space, va: nat)
    requires |sp.areas| == NVMA
  {
    (sp.areas[STACK].base + LIMIT - va) % LIMIT <= PAGE
  }

  function GrownStack(sp: Space): Space
    requires |sp.areas| == NVMA
  {
    var a := sp.areas[STACK];
    sp.(areas := sp.areas[STACK := Vma(a.flags, (a.base + LIMIT - PAGE) % LIMIT, (a.size + PAGE) % LIMIT)])
  }

  /** The stack has one more page below it; the other areas are the same. */
  ghost predicate LongerStack(sp: Space, sp': Space) {
    && |sp.areas| == |sp'.areas| == 5 && sp'.areas[..4] == sp.areas[..4] && sp'.areas[4].flags == sp.areas[4].flags
    && sp'.areas[4].base == sp.areas[4].base - 0x1000 && sp'.areas[4].size == sp.areas[4].size + 0x1000
  }

  /** No area has the address, and it is not just below the stack. */
  ghost predicate Nowhere(sp: Space, va: nat) {
    && (forall i | 0 <= i < |sp.areas| :: va < sp.areas[i].base || sp.areas[i].base + sp.areas[i].size <= va)
    && (|sp.areas| == 5 ==> va > sp.areas[4].base || va < sp.areas[4].base - 0x1000)
  }

  lemma NowhereIs(sp: Space, va: nat)
    requires Execd(sp) && KMEM_END <= va < LIMIT
    ensures Nowhere(sp, va) <==> !Grows(sp, va) && !InArea(sp, va)
  {
    var b := sp.areas[STACK].base;
    assert AreaOk(sp.areas[STACK]);
    assert Grows(sp, va) <==> va <= b <= va + PAGE;
  }

  /** Growing the stack is one page downwards without wrapping, keeps the areas page
      aligned, covers what was covered, and covers the faulting page. */
  lemma GrowStack(sp: Space, va: nat)
    requires Execd(sp) && KMEM_END <= va < LIMIT && Grows(sp, va)
    ensures sp.areas[STACK].base - PAGE <= va <= sp.areas[STACK].base
    ensures Execd(GrownStack(sp)) && Grown(sp, GrownStack(sp))
    ensures InArea(GrownStack(sp), PgAddr(va))
    ensures LongerStack(sp, GrownStack(sp))
  {
    var a, a' := sp.areas[STACK], GrownStack(sp).areas[STACK];
    assert AreaOk(a);
    assert a'.base == a.base - PAGE && a'.size == a.size + PAGE;
    assert Within(a', PgAddr(va));
    forall x | InArea(sp, x) ensures InArea(GrownStack(sp), x) {
      var i :| 0 <= i < |sp.areas| && Within(sp.areas[i], x);
      assert Within(GrownStack(sp).areas[i], x);
    }
  }

  lemma AllPrivate(sp: Space, i: nat)
    requires Execd(sp) && i < NVMA
    ensures Private in sp.areas[i].flags
  {
    assert AreaOk(sp.areas[i]);
  }

  /** What a page directory looks like after `pgd_init`. */
  function DirWord(w: Word, i: nat): Word {
    if i < KPD then w.(off := i * PTRS, p := true, w := true, u := false, misc := 0x10)
    else w.(off := 0, p := false, w := false, u := true, misc := 0)
  }

  // ---------------------------------------------------------------- results of routines

  datatype Outcome = Done | Segv | Panic

  /** Process s runs user code and va is a user address. */
  ghost predicate UserAddress(m: Mach, s: nat, va: nat) {
    && s in m.space && s in m.win && m.win[s] == FULL && Execd(m.space[s])
    && KMEM_END <= va < LIMIT
  }

  /** The page of va, absent before, is now mapped, with these contents and by nobody else. */
  ghost predicate Mapped(m: Mach, m': Mach, s: nat, va: nat, page: Page) {
    var r := PageOf(s, va);
    && Only(m, m', {r, TableOf(s, va)})
    && r !in m.ledger && r in m'.ledger
    && Holders(m'.ledger, m'.ledger[r]) == {r}
    && m'.ledger[r] < |m'.mem| && m'.mem[m'.ledger[r]] == page
  }

  lemma MappedThere(m: Mach, m': Mach, s: nat, va: nat, page: Page)
    requires Mapped(m, m', s, va, page)
    ensures PageOf(s, va) in m'.ledger
  {
  }

  // ---------------------------------------------------------------- what a fault brings in

  /** The frames that are free in m' were free in m, and have not been written since. */
  ghost predicate Shrinks(m: Mach, m': Mach) {
    |m'.mem| == |m.mem| && forall f | f in m'.free :: f in m.free && f < |m.mem| && m'.mem[f] == m.mem[f]
  }

  lemma ShrinksTrans(m: Mach, m1: Mach, m2: Mach)
    requires Shrinks(m, m1) && Shrinks(m1, m2)
    ensures Shrinks(m, m2)
  {
  }

  /** Writes to frames that are in use. */
  lemma ShrinksBy(m: Mach, m': Mach, w: set<nat>)
    requires |m'.mem| == |m.mem| && forall f | f in m'.free :: f in m.free && f < |m.mem|
    requires forall f: nat | f < |m.mem| && f !in w :: m'.mem[f] == m.mem[f]
    requires forall f | f in w :: f !in m'.free
    ensures Shrinks(m, m')
  {
  }

  /** A frame with a holder is not free. */
  lemma HeldNotFree(m: Mach, r: Ref)
    requires Inv(m) && r in m.ledger
    ensures m.ledger[r] !in m.free
  {
    assert r in Holders(m.ledger, m.ledger[r]);
  }

  lemma FreeBelow(m: Mach)
    requires Inv(m)
    ensures |m.mem| == NPAGE && forall f | f in m.free :: f < NPAGE
  {
  }

  lemma TakeShrinks(m: Mach, m': Mach)
    requires Inv(m) && m.free != [] && m'.free == m.free[1..] && m'.mem == m.mem
    ensures Shrinks(m, m')
  {
    hide Inv;
    FreeBelow(m);
    forall f | f in m'.free ensures f in m.free {
      var i :| 0 <= i < |m'.free| && m'.free[i] == f;
      assert m.free[i + 1] == f;
    }
  }

  /** A write to a frame that somebody holds. */
  lemma ShrinksStore(m: Mach, m': Mach, r: Ref)
    requires Inv(m) && Inv(m') && r in m'.ledger && m'.ledger[r] < |m.mem| == |m'.mem| && m'.free == m.free
    requires m'.mem == m.mem[m'.ledger[r] := m'.mem[m'.ledger[r]]]
    ensures Shrinks(m, m')
  {
    hide Inv;
    HeldNotFree(m', r);
    FreeBelow(m);
    ShrinksBy(m, m', {m'.ledger[r]});
  }

  /** The contents of the frame at the head of the free list. */
  ghost function StaleOf(m: Mach): Page {
    if m.free != [] && m.free[0] < |m.mem| then m.mem[m.free[0]] else []
  }

  /** The page that a fault at va brings in: a frame as it was found where the stack grows,
      else zeros or a page of the file. */
  function FaultPage(sp: Space, va: nat, file: Page, stale: Page): Page
    requires |sp.areas| == NVMA
  {
    if Grows(sp, va) then stale else if DemandZero in FlagsAt(sp, va) then ZeroPage() else file
  }

  /** What user programs see of a fault at va, with areas sp: if the page is absent in m and
      there is something to put there, it appears. A page that is present stays as it is. */
  ghost function FaultEvents(m: Mach, sp: Space, s: nat, va: nat, file: Page, stale: Page): seq<Event>
    requires |sp.areas| == NVMA
  {
    if PageOf(s, va) !in m.ledger && (Grows(sp, va) || InArea(sp, va)) then
      [Filled(PageOf(s, va), FaultPage(sp, va, file, stale))]
    else []
  }

  /** The areas after a fault at va. */
  ghost function FaultSpace(m: Mach, sp: Space, s: nat, va: nat): (sp': Space)
    requires |sp.areas| == NVMA
    ensures |sp'.areas| == NVMA
  {
    if PageOf(s, va) !in m.ledger && Grows(sp, va) then GrownStack(sp) else sp
  }

  // ---------------------------------------------------------------- composing steps

  lemma Unchanged(m: Mach, x: set<Ref>)
    requires Inv(m)
    ensures Only(m, m, x)
  {
  }

  /** `find_pte` with a missing table: the new frame is cleared and named in the directory. */
  lemma NewTable(m: Mach, m1: Mach, s: nat, d: nat, w: Word)
    requires Inv(m) && m.free != [] && m.free[0] < |m.count| && m1 == Take(m) && Inv(m1)
    requires s in m.space && Visible(m, Table(s, d)) && !Pde(m, s, d).p
    requires w.off == m.free[0] && w.p && w.w && w.u
    ensures m.free[0] < |m1.mem| && m.space[s].pgd < NPAGE && m.space[s].pgd != m.free[0]
    ensures |m1.mem| == NPAGE && d < |m1.mem[m.space[s].pgd]|
    ensures var m3 := AddTable(Fill(m1, m.free[0], ZeroPage()), s, d, m.free[0], w);
            Inv(m3) && Only(m, m3, {Table(s, d)})
  {
    hide Inv, Only;
    var f := m.free[0];
    Facts(m);
    TakeInv(m);
    ReadDir(m, s, d);
    assert Holders(m1.ledger, f) == {Kern(f)};
    FillInv(m1, Kern(f), ZeroPage());
    var m2 := Fill(m1, f, ZeroPage());
    assert SameAt(m1, m2, Table(s, d));
    AddTableInv(m2, s, d, f, w);
    var m3 := AddTable(m2, s, d, f, w);
    OnlyTrans(m, m1, m2, {Kern(f)}, {Kern(f)});
    OnlyTrans(m, m2, m3, {Kern(f)} + {Kern(f)}, {Table(s, d), Kern(f)});
    OnlyTrim(m, m3, {Kern(f)} + {Kern(f)} + {Table(s, d), Kern(f)}, f);
    assert {Kern(f)} + {Kern(f)} + {Table(s, d), Kern(f)} - {Kern(f)} == {Table(s, d)};
  }

  /** `pgattach` of a new frame, page table included. */
  lemma AttachNew(m: Mach, m1: Mach, m2: Mach, s: nat, va: nat, w: Word)
    requires Inv(m) && UserAddress(m, s, va) && PageOf(s, va) !in m.ledger && InArea(m.space[s], PgAddr(va))
    requires m.free != [] && m.free[0] < |m.count| && m1 == Take(m) && Kern(m.free[0]) !in m.ledger
    requires Only(m, m1, {Kern(m.free[0])}) && Only(m1, m2, {TableOf(s, va)})
    requires Inv(m2) && TableOf(s, va) in m2.ledger && m2.space == m.space && m2.win == m.win
    requires w.off == m.free[0] && w.p && w.u && w.w
    ensures m2.ledger[TableOf(s, va)] < |m2.mem| && Ptx(va) < |m2.mem[m2.ledger[TableOf(s, va)]]|
    ensures m.free[0] < |m.mem|
    ensures var m3 := Attach(m2, s, Pdx(va), Ptx(va), m.free[0], w);
            Inv(m3) && Mapped(m, m3, s, va, m.mem[m.free[0]]) && Writable(m3, PageOf(s, va))
  {
    hide Inv, Only;
    var r, f := PageOf(s, va), m.free[0];
    Split(va);
    Facts(m);
    Facts(m2);
    OnlySame(m1, m2, {TableOf(s, va)}, Kern(f));
    OnlySame(m, m1, {Kern(f)}, r);
    OnlySame(m1, m2, {TableOf(s, va)}, r);
    AttachInv(m2, s, r.d, r.t, f, w);
    var m3 := Attach(m2, s, r.d, r.t, f, w);
    var x, y, z := {Kern(f)}, {TableOf(s, va)}, {r, Kern(f)};
    OnlyTrans(m, m1, m2, x, y);
    OnlyTrans(m, m2, m3, x + y, z);
    OnlyTrim(m, m3, x + y + z, f);
    assert x + y + z - {Kern(f)} == {r, TableOf(s, va)};
  }

  /** Filling a page just mapped. */
  lemma FillMapped(m: Mach, m': Mach, s: nat, va: nat, page: Page, page': Page)
    requires Inv(m') && Mapped(m, m', s, va, page) && |page'| == PTRS
    ensures var m2 := Fill(m', m'.ledger[PageOf(s, va)], page');
            && Inv(m2) && Mapped(m, m2, s, va, page')
            && Writable(m2, PageOf(s, va)) == Writable(m', PageOf(s, va))
  {
    hide Inv, Only;
    var r := PageOf(s, va);
    Facts(m');
    FillInv(m', r, page');
    var m2 := Fill(m', m'.ledger[r], page');
    assert SameAt(m', m2, r) && Live(m', r) by { LiveIfHeld(m', r); }
    OnlyTrans(m, m', m2, {r, TableOf(s, va)}, {r});
    assert {r, TableOf(s, va)} + {r} == {r, TableOf(s, va)};
  }

  lemma LiveIfHeld(m: Mach, r: Ref)
    requires Inv(m) && r in m.ledger
    ensures Live(m, r) && Target(m, r) == m.ledger[r]
  {
  }

  /** Write-protecting a page just mapped. */
  lemma ProtectMapped(m: Mach, m': Mach, s: nat, va: nat, page: Page, w: Word)
    requires Inv(m') && Mapped(m, m', s, va, page)
    requires var r := PageOf(s, va); w.off == Pte(m', s, r.d, r.t).off && w.p && w.u && !w.w
    ensures TableOf(s, va) in m'.ledger && m'.ledger[TableOf(s, va)] < |m'.mem|
    ensures Ptx(va) < |m'.mem[m'.ledger[TableOf(s, va)]]|
    ensures var m2 := PutPte(m', s, Pdx(va), Ptx(va), w);
            Inv(m2) && Mapped(m, m2, s, va, page) && !Writable(m2, PageOf(s, va))
  {
    hide Inv, Only;
    var r := PageOf(s, va);
    Facts(m');
    SetWriteInv(m', s, r.d, r.t, w);
    OnlyTrans(m, m', PutPte(m', s, r.d, r.t, w), {r, TableOf(s, va)}, {r});
    assert {r, TableOf(s, va)} + {r} == {r, TableOf(s, va)};
  }

  /** A page mapped after the areas grew. */
  lemma GrownMapped(m: Mach, m0: Mach, m': Mach, s: nat, va: nat, page: Page)
    requires Only(m, m0, {}) && m0.ledger == m.ledger && Mapped(m0, m', s, va, page)
    ensures Mapped(m, m', s, va, page)
  {
    hide Only;
    OnlyTrans(m, m0, m', {}, {PageOf(s, va), TableOf(s, va)});
    assert {} + {PageOf(s, va), TableOf(s, va)} == {PageOf(s, va), TableOf(s, va)};
  }

  lemma MappedView(m: Mach, m': Mach, s: nat, va: nat, page: Page)
    requires Inv(m) && Inv(m') && Mapped(m, m', s, va, page)
    ensures InMemory(m) && InMemory(m') && View(m') == View(m)[PageOf(s, va) := page]
  {
    hide Inv, Only;
    Facts(m);
    Facts(m');
    ViewPut(m, m', {PageOf(s, va), TableOf(s, va)}, PageOf(s, va));
  }

  /** Dropping one of several references keeps the free list right. */
  lemma FreeKept(m: Mach, f: nat)
    requires Inv(m) && f < NPAGE && m.count[f] > 1
    ensures FreeOk(m.count[f := m.count[f] - 1], m.rsvd, m.free)
  {
  }

  /** The copy step of copy-on-write as a whole: the shared frame loses a reference, a
      new frame gets its contents, and the entry moves there. */
  ghost function Copied(m: Mach, r: Ref, w: Word): Mach
    requires r.Leaf? && r in m.ledger && Table(r.s, r.d) in m.ledger && m.free != []
    requires m.ledger[r] < |m.count| == |m.mem| && m.free[0] < |m.mem| && m.count[m.ledger[r]] > 0
    requires m.ledger[Table(r.s, r.d)] < |m.mem| && r.t < |m.mem[m.ledger[Table(r.s, r.d)]]|
    requires m.ledger[Table(r.s, r.d)] != m.free[0]
  {
    var f, g := m.ledger[r], m.free[0];
    m.(count := m.count[f := m.count[f] - 1][g := 1], free := m.free[1..],
       mem := Poke(m.mem[g := m.mem[f]], m.ledger[Table(r.s, r.d)], r.t, w),
       ledger := m.ledger[r := g])
  }

  lemma CopyOnWrite(m: Mach, s: nat, va: nat, w: Word)
    requires Inv(m) && m.free != [] && PageOf(s, va) in m.ledger && KMEM_END <= va < LIMIT
    requires m.ledger[PageOf(s, va)] < |m.count| && m.count[m.ledger[PageOf(s, va)]] > 1
    requires w.off == m.free[0] && w.p && w.u && w.w
    ensures var r := PageOf(s, va);
            && TableOf(s, va) in m.ledger && |m.count| == |m.mem| == NPAGE && m.free[0] < NPAGE
            && m.ledger[TableOf(s, va)] < NPAGE && m.ledger[TableOf(s, va)] != m.free[0] && m.ledger[r] != m.free[0]
            && r.t < |m.mem[m.ledger[TableOf(s, va)]]|
            && Inv(Copied(m, r, w)) && Only(m, Copied(m, r, w), {r}) && Writable(Copied(m, r, w), r)
            && Copied(m, r, w).mem[m.free[0]] == m.mem[m.ledger[r]]
  {
    hide Inv, Only;
    var r := PageOf(s, va);
    var f, g := m.ledger[r], m.free[0];
    Split(va);
    Facts(m);
    LeafTable(m, r);
    ReadTable(m, s, r.d, r.t);
    TakeInv(m);
    var m1 := Take(m);
    assert Holders(m1.ledger, g) == {Kern(g)};
    FillInv(m1, Kern(g), m.mem[f]);
    var m2 := Fill(m1, g, m.mem[f]);
    MoveInv(m2, s, r.d, r.t, g, w);
    var m3 := Move(m2, s, r.d, r.t, g, w);
    var x, y := {Kern(g)}, {r, Kern(g)};
    OnlyTrans(m, m1, m2, x, x);
    OnlyTrans(m, m2, m3, x + x, y);
    OnlyTrim(m, m3, x + x + y, g);
    assert x + x + y - {Kern(g)} == {r};
    assert m3 == Copied(m, r, w) by {
      assert m3.ledger == m.ledger[r := g];
      assert m.count[g := 1][f := m.count[f] - 1] == m.count[f := m.count[f] - 1][g := 1];
    }
  }

  /** A present entry of `pt_copy`: write the child's, protect the parent's, reveal the child's. */
  lemma SharedEntry(m0: Mach, m: Mach, p: nat, c: nat, d: nat, t: nat, nw: Word, ow: Word)
    returns (m1: Mach, m2: Mach, m3: Mach)
    requires Inv(m) && CopyState(m, p, c, d, t) && CopyFrame(m0, m, p, c) && Leaf(p, d, t) in m.ledger
    requires nw.off == ow.off == Pte(m, p, d, t).off && nw.p && nw.u && !nw.w && ow.p && ow.u && !ow.w
    ensures Table(c, d) in m.ledger && m.ledger[Table(c, d)] < |m.mem| && t < |m.mem[m.ledger[Table(c, d)]]|
    ensures m1 == PutPte(m, c, d, t, nw)
    ensures Table(p, d) in m1.ledger && m1.ledger[Table(p, d)] < |m1.mem| && t < |m1.mem[m1.ledger[Table(p, d)]]|
    ensures m2 == PutPte(m1, p, d, t, ow)
    ensures nw.off < |m.count| && m.count[nw.off] <= NPROC
    ensures m3 == m2.(win := m.win[c := m.win[c].(hi := d * PTRS + t + 1)],
                      count := m.count[nw.off := m.count[nw.off] + 1], ledger := m.ledger[Leaf(c, d, t) := nw.off])
    ensures Inv(m3) && CopyFrame(m0, m3, p, c) && CopiedBelow(m3, p, c, d * PTRS + t + 1)
  {
    hide Inv, Only, CopyFrame, CopiedBelow, Writable;
    Facts(m);
    ReadTable(m, p, d, t);
    ReadTable(m, c, d, t);
    TablesDiffer(m, Table(p, d), Table(c, d));
    WriteChild(m, p, c, d, t, nw);
    m1 := PutPte(m, c, d, t, nw);
    CopyFrameStep(m0, m, m1, p, c, {});
    Facts(m1);
    ReadTable(m1, p, d, t);
    ProtectParent(m1, p, c, d, t, ow);
    m2 := PutPte(m1, p, d, t, ow);
    CopyFrameProtect(m0, m1, m2, p, c, Leaf(p, d, t));
    RevealChild(m2, p, c, d, t);
    m3 := CopyEntry(m2, c, d, t);
    CopyFrameStep(m0, m2, m3, p, c, {Leaf(c, d, t)});
  }

  /** An absent one: the child's is absent too. */
  lemma AbsentEntry(m0: Mach, m: Mach, p: nat, c: nat, d: nat, t: nat, nw: Word)
    requires Inv(m) && CopyState(m, p, c, d, t) && CopyFrame(m0, m, p, c)
    requires Leaf(p, d, t) !in m.ledger && !nw.p
    ensures Table(c, d) in m.ledger && m.ledger[Table(c, d)] < |m.mem| && t < |m.mem[m.ledger[Table(c, d)]]|
    ensures var m2 := PutPte(m, c, d, t, nw).(win := m.win[c := m.win[c].(hi := d * PTRS + t + 1)]);
            Inv(m2) && CopyFrame(m0, m2, p, c) && CopiedBelow(m2, p, c, d * PTRS + t + 1)
  {
    hide Inv, Only, CopyFrame, CopiedBelow, Writable;
    Facts(m);
    ReadTable(m, c, d, t);
    WriteChild(m, p, c, d, t, nw);
    var m1 := PutPte(m, c, d, t, nw);
    CopyFrameStep(m0, m, m1, p, c, {});
    SkipChild(m1, p, c, d, t);
    CopyFrameStep(m0, m1, m1.(win := m.win[c := m.win[c].(hi := d * PTRS + t + 1)]), p, c, {});
  }

  lemma StartCopy(m: Mach, p: nat, c: nat)
    requires Inv(m) && p in m.space && c in m.space && c in m.win
    requires m.win[c] == Window(KPD, KPD, KPD * PTRS, KPD * PTRS)
    ensures CopyFrame(m, m, p, c) && CopiedBelow(m, p, c, KPD * PTRS)
  {
    forall d: nat, t: nat ensures Leaf(c, d, t) !in m.ledger { assert !Visible(m, Leaf(c, d, t)); }
    forall d: nat, t: nat | Leaf(p, d, t) in m.ledger ensures d * PTRS + t >= KPD * PTRS { assert Live(m, Leaf(p, d, t)); }
  }

  /** `pt_copy`, present directory entry: the child gets a page table of its own. */
  lemma StartTable(m0: Mach, m: Mach, m1: Mach, p: nat, c: nat, d: nat, f: nat, w: Word)
    requires Inv(m) && p in m.space && c in m.space && p != c && KPD <= d < PTRS
    requires p in m.win && c in m.win && m.win[p] == FULL && m.win[c] == Window(KPD, d, KPD * PTRS, d * PTRS)
    requires CopyFrame(m0, m, p, c) && CopiedBelow(m, p, c, d * PTRS) && InheritsAreas(m0, p, c)
    requires m.free != [] && f == m.free[0] && f < |m.count| && m1 == Take(m) && Inv(m1) && Only(m, m1, {Kern(f)})
    requires Kern(f) !in m.ledger && Table(p, d) in m.ledger && w.p && w.w && w.u && w.off == f
    ensures m1.space[c].pgd < |m1.mem| && d < |m1.mem[m1.space[c].pgd]|
    ensures var m3 := CopyTable(PutPde(m1, c, d, w), c, d, f);
            && Inv(m3) && CopyFrame(m0, m3, p, c) && CopyState(m3, p, c, d, 0)
            && m3.ledger[Table(p, d)] == m.ledger[Table(p, d)]
  {
    hide Inv, Only, CopyFrame, CopiedBelow, Pde;
    Facts(m);
    Facts(m1);
    AgreesOf(m);
    PutHiddenPdeInv(m1, c, d, w);
    var m2 := PutPde(m1, c, d, w);
    CopyTableInv(m2, c, d, f);
    var m3 := CopyTable(m2, c, d, f);
    var x, y := {Kern(f)}, {Table(c, d), Kern(f)};
    OnlyTrans(m, m1, m2, x, {});
    OnlyTrans(m, m2, m3, x + {}, y);
    OnlyTrim(m, m3, x + {} + y, f);
    assert x + {} + y - {Kern(f)} == {Table(c, d)};
    CopyFrameStep(m0, m, m3, p, c, {Table(c, d)});
    CopiedKept(m, m3, p, c, d * PTRS, {Table(c, d)});
    OnlySame(m, m3, {Table(c, d)}, Table(p, d));
    if Leaf(p, d, 0) in m3.ledger { InheritsAt(m0, m3, p, c, d, 0); }
  }

  /** `pt_copy`, absent directory entry. */
  lemma SkipTable(m0: Mach, m: Mach, p: nat, c: nat, d: nat, w: Word)
    requires Inv(m) && p in m.space && c in m.space && p != c && KPD <= d < PTRS
    requires p in m.win && c in m.win && m.win[p] == FULL && m.win[c] == Window(KPD, d, KPD * PTRS, d * PTRS)
    requires CopyFrame(m0, m, p, c) && CopiedBelow(m, p, c, d * PTRS) && Table(p, d) !in m.ledger && !w.p
    ensures m.space[c].pgd < |m.mem| && d < |m.mem[m.space[c].pgd]|
    ensures var m2 := SetWindow(PutPde(m, c, d, w), c, m.win[c].(thi := d + 1, hi := (d + 1) * PTRS));
            Inv(m2) && CopyFrame(m0, m2, p, c) && CopiedBelow(m2, p, c, (d + 1) * PTRS)
  {
    hide Inv, Only, CopyFrame, Pde, Writable;
    Facts(m);
    AgreesOf(m);
    PutHiddenPdeInv(m, c, d, w);
    var m1 := PutPde(m, c, d, w);
    SkipTableInv(m1, c, d);
    var m2 := SetWindow(m1, c, m1.win[c].(thi := d + 1, hi := (d + 1) * PTRS));
    OnlyTrans(m, m1, m2, {}, {});
    CopyFrameStep(m0, m, m2, p, c, {} + {});
    CopiedKept(m, m2, p, c, d * PTRS, {} + {});
    forall d': nat, t': nat | Leaf(p, d', t') in m2.ledger && d' * PTRS + t' < (d + 1) * PTRS
      ensures Leaf(c, d', t') in m2.ledger && !Writable(m2, Leaf(p, d', t'))
    {
      OnlySame(m, m2, {} + {}, Leaf(p, d', t'));
      LeafTable(m, Leaf(p, d', t'));
      assert d' != d;
    }
  }

  /** The areas of a child: those of the parent, and what was in the slots it does not use. */
  function Inherited(areas: seq<Vma>, stale: seq<Vma>): (r: seq<Vma>)
    requires |stale| == |areas|
    ensures |r| == |areas|
  {
    seq(|areas|, i requires 0 <= i < |areas| => if areas[i].flags != {} then areas[i] else stale[i])
  }

  /** The areas after `vm_clear`: none is in use. */
  function Blanked(areas: seq<Vma>): (r: seq<Vma>)
    ensures |r| == |areas| && forall i | 0 <= i < |r| :: r[i].flags == {}
  {
    seq(|areas|, i requires 0 <= i < |areas| => if areas[i].flags != {} then Vma({}, 0, 0) else areas[i])
  }

  // ---------------------------------------------------------------- tearing down

  /** The references of address space s. */
  ghost function Owned(m: Mach, s: nat): set<Ref> {
    set r | r in m.ledger && Of(r, s)
  }

  lemma OwnedStep(m0: Mach, m: Mach, m': Mach, s: nat, r: Ref)
    requires Only(m0, m, Owned(m0, s)) && Only(m, m', {r}) && r in m.ledger && Of(r, s)
    ensures Only(m0, m', Owned(m0, s))
  {
    assert r !in Owned(m0, s) ==> Same(m0, m, r);
    OnlyTrans(m0, m, m', Owned(m0, s), {r});
    assert Owned(m0, s) + {r} == Owned(m0, s);
  }

  lemma OwnedKept(m0: Mach, m: Mach, m': Mach, s: nat)
    requires Only(m0, m, Owned(m0, s)) && Only(m, m', {})
    ensures Only(m0, m', Owned(m0, s))
  {
    OnlyTrans(m0, m, m', Owned(m0, s), {});
    assert Owned(m0, s) + {} == Owned(m0, s);
  }

  // ---------------------------------------------------------------- cloning

  /** c is now a copy of p: it maps the pages of p, and nobody else's references,
      permissions or contents changed, except that p lost its write permissions. */
  ghost predicate Cloned(m: Mach, m': Mach, p: nat, c: nat) {
    && m'.rsvd == m.rsvd && |m'.mem| == |m.mem|
    && (forall r: Ref | !Of(r, c) :: Kept(m, m', r))
    && (forall r: Ref | !Of(r, c) && r in m.ledger && (r.Leaf? || r.Kern?) ::
          m.ledger[r] < |m.mem| && m'.mem[m.ledger[r]] == m.mem[m.ledger[r]])
    && (forall r: Ref | !Of(r, c) && !Of(r, p) :: SameAt(m, m', r))
    && (forall r: Ref | r in m.ledger :: !Of(r, c))
    && (forall d: nat, t: nat :: Leaf(c, d, t) in m'.ledger <==> Leaf(p, d, t) in m.ledger)
    && (forall d: nat, t: nat | Leaf(p, d, t) in m.ledger :: m'.ledger[Leaf(c, d, t)] == m.ledger[Leaf(p, d, t)])
  }

  /** A process with an unused area slot (a kernel thread) has no user pages. */
  ghost predicate UnusedHasNoPages(m: Mach, p: nat) {
    && p in m.space
    && ((exists i :: 0 <= i < |m.space[p].areas| && m.space[p].areas[i].flags == {}) ==>
          forall r: Ref | r in m.ledger && r.Leaf? :: r.s != p)
  }

  lemma BeginClone(m: Mach, m1: Mach, m2: Mach, p: nat, c: nat, f: nat, areas: seq<Vma>)
    requires Inv(m) && p in m.space && c !in m.space && c < NPROC && UnusedHasNoPages(m, p)
    requires m.free != [] && f == m.free[0] && f < |m.count| && m1 == Take(m) && Inv(m1) && Only(m, m1, {Kern(f)})
    requires Kern(f) !in m.ledger
    requires f < |m1.mem| && f < |m2.mem| && m2 == Fill(m1, f, m2.mem[f]) && |m2.mem[f]| == PTRS
    requires |areas| == NVMA && |m.space[p].areas| == NVMA
    requires forall j | 0 <= j < NVMA && m.space[p].areas[j].flags != {} :: areas[j] == m.space[p].areas[j]
    ensures var m3 := AddSpace(m2, c, f, areas);
            Inv(m3) && Only(m, m3, {Dir(c)}) && InheritsAreas(m3, p, c)
    ensures forall r: Ref | r in m.ledger :: !Of(r, c)
    ensures Execd(m.space[p]) ==> Execd(Space(f, areas))
  {
    hide Inv, Only, SameAt, Execd;
    TakeInv(m);
    assert Holders(m1.ledger, f) == {Kern(f)};
    FillInv(m1, Kern(f), m2.mem[f]);
    AddSpaceInv(m2, c, f, areas);
    var m3 := AddSpace(m2, c, f, areas);
    var x, y := {Kern(f)}, {Dir(c), Kern(f)};
    OnlyTrans(m, m1, m2, x, x);
    OnlyTrans(m, m2, m3, x + x, y);
    OnlyTrim(m, m3, x + x + y, f);
    assert x + x + y - {Kern(f)} == {Dir(c)};
    forall r: Ref | r in m.ledger ensures !Of(r, c) { assert r in m2.ledger; }
    assert areas == m.space[p].areas || exists i :: 0 <= i < NVMA && m.space[p].areas[i].flags == {};
    if Execd(m.space[p]) {
      assert Execd(Space(f, areas)) by { CloneExecd(m.space[p], Space(f, areas)); }
    }
  }

  lemma CloneExecd(sp: Space, sp': Space)
    requires Execd(sp) && |sp'.areas| == NVMA
    requires forall j | 0 <= j < NVMA && sp.areas[j].flags != {} :: sp'.areas[j] == sp.areas[j]
    ensures Execd(sp')
  {
    assert forall j | 0 <= j < NVMA :: AreaOk(sp.areas[j]);
    assert sp'.areas == sp.areas;
  }

  lemma SameAtTrans(m: Mach, m1: Mach, m2: Mach, r: Ref)
    requires SameAt(m, m1, r) && SameAt(m1, m2, r)
    ensures SameAt(m, m2, r)
  {
  }

  lemma EndClone(m: Mach, m3: Mach, m4: Mach, p: nat, c: nat)
    requires Inv(m) && Inv(m4) && Only(m, m3, {Dir(c)}) && |m3.mem| == |m.mem| && p != c
    requires CopyFrame(m3, m4, p, c) && CopiedBelow(m4, p, c, PTRS * PTRS)
    requires forall r: Ref | r in m.ledger :: !Of(r, c)
    ensures Cloned(m, m4, p, c)
  {
    hide SameAt, Inv, Writable;
    forall r: Ref | !Of(r, c) ensures Kept(m, m4, r) { assert Same(m, m3, r) && Kept(m3, m4, r); }
    forall r: Ref | !Of(r, c) && r in m.ledger && (r.Leaf? || r.Kern?)
      ensures m.ledger[r] < |m.mem| && m4.mem[m.ledger[r]] == m.mem[m.ledger[r]]
    {
      assert Same(m, m3, r) && Kept(m3, m4, r);
    }
    forall r: Ref | !Of(r, c) && !Of(r, p) ensures SameAt(m, m4, r) {
      assert Same(m, m3, r) && SameAt(m3, m4, r);
      SameAtTrans(m, m3, m4, r);
    }
    forall d: nat, t: nat ensures Leaf(c, d, t) in m4.ledger <==> Leaf(p, d, t) in m.ledger {
      assert Kept(m, m4, Leaf(p, d, t));
      if Leaf(p, d, t) in m4.ledger { LeafBounds(m4, Leaf(p, d, t)); assert d * PTRS + t < PTRS * PTRS; }
    }
    forall d: nat, t: nat | Leaf(p, d, t) in m.ledger ensures m4.ledger[Leaf(c, d, t)] == m.ledger[Leaf(p, d, t)] {
      assert Kept(m, m4, Leaf(p, d, t));
      assert Leaf(c, d, t) in m4.ledger;
    }
  }

  /** To user programs, the lazy copy looks like an eager one. */
  lemma ClonedView(m: Mach, m': Mach, p: nat, c: nat)
    requires InMemory(m) && InMemory(m') && Cloned(m, m', p, c) && p != c
    ensures View(m') == ForkCopy(View(m), p, c)
  {
    hide ForkCopy, Cloned, Inv;
    var v, v' := ForkCopy(View(m), p, c), View(m');
    forall r: Ref ensures (r in v' <==> r in v) && (r in v ==> v'[r] == v[r]) {
      ForkAt(View(m), p, c, r);
      if r.Leaf? { ClonedAt(m, m', p, c, r); }
    }
    assert v'.Keys == v.Keys;
  }

  lemma ClonedAt(m: Mach, m': Mach, p: nat, c: nat, r: Ref)
    requires InMemory(m) && InMemory(m') && Cloned(m, m', p, c) && p != c && r.Leaf?
    ensures r.s != c ==> (r in m'.ledger <==> r in m.ledger) && (r in m.ledger ==> m'.mem[m'.ledger[r]] == m.mem[m.ledger[r]])
    ensures r.s == c ==> r !in m.ledger && (r in m'.ledger <==> Leaf(p, r.d, r.t) in m.ledger)
    ensures r.s == c && r in m'.ledger ==> m'.mem[m'.ledger[r]] == m.mem[m.ledger[Leaf(p, r.d, r.t)]]
  {
    hide Inv, SameAt;
    assert Kept(m, m', r) || Of(r, c);
    assert r == Leaf(r.s, r.d, r.t);
    assert !Of(Leaf(p, r.d, r.t), c);
  }

  // ---------------------------------------------------------------- exec and exit

  lemma ClearAreas(m: Mach, m1: Mach, s: nat, areas: seq<Vma>)
    requires Inv(m1) && s in m1.space && s in m1.win && |areas| == NVMA
    requires m1.win[s] == Window(PTRS, PTRS, PTRS * PTRS, PTRS * PTRS) && Only(m, m1, Owned(m, s))
    ensures var m2 := m1.(space := m1.space[s := Space(m1.space[s].pgd, areas)]);
            Inv(m2) && Only(m, m2, Owned(m, s))
  {
    var m2 := m1.(space := m1.space[s := Space(m1.space[s].pgd, areas)]);
    EmptyNow(m1, s);
    assert Only(m1, m2, {});
    StepInv(m1, m2, {});
    OwnedKept(m, m1, m2, s);
  }

  lemma EmptyNow(m: Mach, s: nat)
    requires Inv(m) && s in m.space && s in m.win && m.win[s] == Window(PTRS, PTRS, PTRS * PTRS, PTRS * PTRS)
    ensures forall r: Ref | r in m.ledger && (r.Leaf? || r.Table?) :: r.s != s
  {
    forall r: Ref | r in m.ledger && (r.Leaf? || r.Table?) ensures r.s != s { assert Visible(m, r); }
  }

  lemma GoneNow(m: Mach, s: nat)
    requires Inv(m) && s !in m.space
    ensures forall r: Ref | r in m.ledger :: !Of(r, s)
  {
    forall r: Ref | r in m.ledger ensures !Of(r, s) { assert Visible(m, r); }
  }

  lemma OnlyEmpty(m: Mach, m1: Mach, m2: Mach, s: nat)
    requires Only(m1, m2, {}) && forall r: Ref | r in m1.ledger && (r.Leaf? || r.Table?) :: r.s != s
    ensures forall r: Ref | r in m2.ledger && r.Leaf? :: r.s != s
  {
    forall r: Ref | r in m2.ledger && r.Leaf? ensures r.s != s { assert Same(m1, m2, r); }
  }

  lemma DroppedView(m: Mach, m': Mach, s: nat)
    requires InMemory(m) && InMemory(m') && Only(m, m', Owned(m, s))
    requires forall r: Ref | r in m'.ledger && r.Leaf? :: r.s != s
    ensures View(m') == Apply(View(m), Dropped(s))
  {
    hide SameAt;
    var v, v' := Apply(View(m), Dropped(s)), View(m');
    forall r: Ref ensures (r in v' <==> r in v) && (r in v ==> v'[r] == v[r]) {
      if r.Leaf? && r.s != s { assert Same(m, m', r); }
    }
    assert v'.Keys == v.Keys;
  }

  /** The part of an a.out header that lays out the address space. */
  datatype Image = Image(entry: nat, tsize: nat, dsize: nat, bsize: nat)

  const AHEAD: nat := 32              // sizeof(struct ahead)
  const VM_STACK: nat := 0x8000_0000

  function Text(image: Image): nat { (image.entry + LIMIT - AHEAD) % LIMIT }

  function ImageAreas(image: Image): (areas: seq<Vma>)
    ensures |areas| == NVMA
  {
    var text := Text(image);
    var data := (text + image.tsize) % LIMIT;
    var bss := (data + image.dsize) % LIMIT;
    var heap := (bss + image.bsize) % LIMIT;
    [Vma({Mmap, RdOnly, Private}, text, image.tsize),
     Vma({Mmap, Private}, data, image.dsize),
     Vma({DemandZero, Private}, bss, image.bsize),
     Vma({DemandZero, Private}, heap, PAGE),
     Vma({Stack, DemandZero, Private}, VM_STACK, PAGE)]
  }

  /** Segments are page aligned, as the area structure demands, and end below 4 gb. */
  predicate Aligned(image: Image) {
    && image.entry < LIMIT && Text(image) % PAGE == 0
    && image.tsize % PAGE == 0 && image.dsize % PAGE == 0 && image.bsize % PAGE == 0
    && Text(image) + image.tsize + image.dsize + image.bsize + PAGE < LIMIT
  }

  lemma AlignedExecd(image: Image, pgd: nat)
    requires Aligned(image)
    ensures Execd(Space(pgd, ImageAreas(image)))
  {
    hide AreaOk, Aligned;
    var areas := ImageAreas(image);
    AlignedAreas(image);
    forall i | 0 <= i < NVMA ensures AreaOk(areas[i]) {
      assert i == 0 || i == 1 || i == 2 || i == 3 || i == 4;
    }
  }

  lemma AlignedAreas(image: Image)
    requires Aligned(image)
    ensures var areas := ImageAreas(image);
            AreaOk(areas[0]) && AreaOk(areas[1]) && AreaOk(areas[2]) && AreaOk(areas[3]) && AreaOk(areas[4])
  {
    hide AreaOk;
    var text := Text(image);
    var data := text + image.tsize;
    var bss := data + image.dsize;
    Sums(text, image.tsize, image.dsize, image.bsize);
    NoWrap(data);
    NoWrap(bss);
    NoWrap(bss + image.bsize);
    AlignedArea({Mmap, RdOnly, Private}, text, image.tsize);
    AlignedArea({Mmap, Private}, data, image.dsize);
    AlignedArea({DemandZero, Private}, bss, image.bsize);
    AlignedArea({DemandZero, Private}, bss + image.bsize, PAGE);
    AlignedArea({Stack, DemandZero, Private}, VM_STACK, PAGE);
  }

  lemma NoWrap(a: nat)
    ensures a < LIMIT ==> a % LIMIT == a
  {
  }

  lemma AlignedArea(flags: set<VmaFlag>, base: nat, size: nat)
    requires Private in flags && (DemandZero in flags || Mmap in flags)
    requires base % PAGE == 0 && size % PAGE == 0 && base + size < LIMIT
    ensures AreaOk(Vma(flags, base, size))
  {
  }

  lemma Sums(text: nat, tsize: nat, dsize: nat, bsize: nat)
    requires text % PAGE == 0 && tsize % PAGE == 0 && dsize % PAGE == 0 && bsize % PAGE == 0
    ensures (text + tsize) % PAGE == 0 && (text + tsize + dsize) % PAGE == 0 && (text + tsize + dsize + bsize) % PAGE == 0
  {
    SumAligned(text, tsize);
    SumAligned(text + tsize, dsize);
    SumAligned(text + tsize + dsize, bsize);
  }

  lemma SumAligned(a: nat, b: nat)
    requires a % PAGE == 0 && b % PAGE == 0
    ensures (a + b) % PAGE == 0
  {
  }

  // ---------------------------------------------------------------- accesses

  /** An access to va can change the page of va, its page table and nothing else. */
  ghost predicate OnlyPage(m: Mach, m': Mach, s: nat, va: nat) {
    Only(m, m', {PageOf(s, va), TableOf(s, va)})
  }

  /** The accesses that raise SIGSEGV, with areas sp: to an absent page outside all areas and
      not next to the stack, or to a present, write-protected page of a read-only area. */
  ghost predicate Refused(m: Mach, sp: Space, s: nat, va: nat)
    requires |sp.areas| == NVMA
  {
    if PageOf(s, va) in m.ledger then !Writable(m, PageOf(s, va)) && RdOnly in FlagsAt(sp, va)
    else !Grows(sp, va) && !InArea(sp, va)
  }

  ghost predicate Forbidden(m: Mach, s: nat, va: nat)
    requires s in m.space && |m.space[s].areas| == NVMA
  {
    Refused(m, m.space[s], s, va)
  }

  /** With page-aligned areas all addresses of a page are refused, or none. */
  lemma ForbiddenPage(m: Mach, s: nat, va: nat)
    requires s in m.space && Execd(m.space[s]) && KMEM_END <= va < LIMIT
    ensures Forbidden(m, s, PgAddr(va)) == Forbidden(m, s, va)
  {
    hide Writable, FlagsAt;
    var sp := m.space[s];
    SamePage(s, va);
    WholePage(sp, va);
    FlagsPage(sp, va);
    GrowsPage(sp, va);
  }

  lemma SamePage(s: nat, va: nat)
    requires KMEM_END <= va < LIMIT
    ensures PageOf(s, PgAddr(va)) == PageOf(s, va)
  {
    Split(va);
    Split(PgAddr(va));
  }

  lemma FlagsPage(sp: Space, va: nat)
    requires Execd(sp)
    ensures FlagsAt(sp, PgAddr(va)) == FlagsAt(sp, va)
  {
    hide PgAddr;
    forall i | 0 <= i < NVMA ensures Within(sp.areas[i], va) <==> Within(sp.areas[i], PgAddr(va)) {
      assert AreaOk(sp.areas[i]);
      WithinPage(sp.areas[i], va);
    }
    var k, k' := FindArea(sp.areas, va, 0), FindArea(sp.areas, PgAddr(va), 0);
    assert k' < |sp.areas| ==> Within(sp.areas[k'], va);
    assert k < |sp.areas| ==> Within(sp.areas[k], PgAddr(va));
  }

  /** Next to the stack, or in it. */
  lemma GrowsPage(sp: Space, va: nat)
    requires Execd(sp) && KMEM_END <= va < LIMIT
    ensures Grows(sp, va) ==> Grows(sp, PgAddr(va))
    ensures Grows(sp, PgAddr(va)) ==> Grows(sp, va) || InArea(sp, va)
  {
    var a := sp.areas[STACK];
    assert AreaOk(a);
    GrowsIs(a.base, va);
    GrowsIs(a.base, PgAddr(va));
    PageBelow(a.base, va);
    if Grows(sp, PgAddr(va)) && !Grows(sp, va) {
      assert Within(a, va);
    }
  }

  /** The subtraction does not wrap where the difference is at most a page. */
  lemma GrowsIs(base: nat, va: nat)
    requires KMEM_END - PAGE <= base < LIMIT && KMEM_END - PAGE <= va < LIMIT
    ensures (base + LIMIT - va) % LIMIT <= PAGE <==> base - PAGE <= va <= base
  {
    if va <= base {
      assert (base - va + LIMIT) % LIMIT == base - va;
    } else {
      assert (base + LIMIT - va) % LIMIT == base + LIMIT - va;
    }
  }

  lemma WritableAllowed(m: Mach, s: nat, va: nat)
    requires s in m.space && |m.space[s].areas| == NVMA && PageOf(s, va) in m.ledger && Writable(m, PageOf(s, va))
    ensures !Forbidden(m, s, va)
  {
  }

  lemma StartAccess(m: Mach, s: nat, va: nat)
    requires Inv(m)
    ensures OnlyPage(m, m, s, va)
  {
    Unchanged(m, {PageOf(s, va), TableOf(s, va)});
  }

  lemma AccessOnly(m0: Mach, m: Mach, m': Mach, s: nat, va: nat)
    requires OnlyPage(m0, m, s, va) && Only(m, m', {PageOf(s, va)})
    ensures OnlyPage(m0, m', s, va)
  {
    hide Only;
    var x := {PageOf(s, va), TableOf(s, va)};
    OnlyTrans(m0, m, m', x, {PageOf(s, va)});
    assert x + {PageOf(s, va)} == x;
  }

  lemma AccessTrans(m0: Mach, m: Mach, m': Mach, s: nat, va: nat)
    requires OnlyPage(m0, m, s, va) && OnlyPage(m, m', s, va)
    ensures OnlyPage(m0, m', s, va)
  {
    hide Only;
    var x := {PageOf(s, va), TableOf(s, va)};
    OnlyTrans(m0, m, m', x, x);
    assert x + x == x;
  }

  lemma AccessMapped(m0: Mach, m: Mach, m': Mach, s: nat, va: nat, page: Page)
    requires OnlyPage(m0, m, s, va) && Mapped(m, m', s, va, page)
    ensures OnlyPage(m0, m', s, va) && PageOf(s, va) in m'.ledger
  {
    hide Only;
    var x := {PageOf(s, va), TableOf(s, va)};
    OnlyTrans(m0, m, m', x, x);
    assert x + x == x;
  }

  /** Breaking the sharing of a page changes nobody's view. */
  lemma WrittenView(m: Mach, m': Mach, s: nat, va: nat)
    requires Inv(m) && Inv(m') && Only(m, m', {PageOf(s, va)})
    requires PageOf(s, va) in m.ledger && PageOf(s, va) in m'.ledger
    requires var l, l' := m.ledger[PageOf(s, va)], m'.ledger[PageOf(s, va)];
             l < |m.mem| && l' < |m'.mem| && m'.mem[l'] == m.mem[l]
    ensures InMemory(m) && InMemory(m') && View(m') == View(m)
  {
    hide Inv, Only;
    Facts(m);
    Facts(m');
    ViewPut(m, m', {PageOf(s, va)}, PageOf(s, va));
  }

  /** A store through a page with one holder is seen by that holder only. */
  lemma StoreOwned(m: Mach, r: Ref, i: nat, w: Word)
    requires Inv(m) && r in m.ledger && r.Leaf? && Holders(m.ledger, m.ledger[r]) == {r} && i < PTRS
    ensures m.ledger[r] < |m.mem| && |m.mem[m.ledger[r]]| == PTRS
    ensures var m' := m.(mem := Poke(m.mem, m.ledger[r], i, w));
            && Inv(m') && Only(m, m', {r}) && InMemory(m) && InMemory(m')
            && View(m') == Apply(View(m), Stored(r, i, w)) && forall r' :: SameAt(m, m', r')
  {
    hide Inv, Only, Holders;
    Facts(m);
    var page := m.mem[m.ledger[r]][i := w];
    FillInv(m, r, page);
    var m' := Fill(m, m.ledger[r], page);
    Facts(m');
    ViewPut(m, m', {r}, r);
  }

  lemma StoreSole(m: Mach, s: nat, va: nat, w: Word)
    requires Inv(m) && PageOf(s, va) in m.ledger && Writable(m, PageOf(s, va))
    ensures m.ledger[PageOf(s, va)] < |m.mem| && |m.mem[m.ledger[PageOf(s, va)]]| == PTRS
    ensures var m' := m.(mem := Poke(m.mem, m.ledger[PageOf(s, va)], va % PAGE / 4, w));
            && Inv(m') && Only(m, m', {PageOf(s, va)}) && InMemory(m) && InMemory(m')
            && View(m') == Apply(View(m), Stored(PageOf(s, va), va % PAGE / 4, w)) && forall r' :: SameAt(m, m', r')
  {
    WritableIsSole(m, PageOf(s, va));
    StoreOwned(m, PageOf(s, va), va % PAGE / 4, w);
  }

  // ---------------------------------------------------------------- vm_verify

  /** The page address of the last byte of a range (32-bit arithmetic). */
  function LastPage(addr: nat, size: nat): nat {
    PgAddr((addr + size + LIMIT - 1) % LIMIT)
  }

  /** Page r is mapped and its frame has no other holder. */
  ghost predicate SolePage(m: Mach, r: Ref) {
    r in m.ledger && Holders(m.ledger, m.ledger[r]) == {r}
  }

  ghost predicate PageKept(m: Mach, m': Mach, s: nat, va: nat) {
    Kept(m, m', PageOf(s, va))
  }

  lemma MappedSole(m: Mach, m': Mach, s: nat, va: nat, page: Page)
    requires Mapped(m, m', s, va, page)
    ensures SolePage(m', PageOf(s, va))
  {
  }

  lemma WritableSole(m: Mach, r: Ref)
    requires Inv(m) && r in m.ledger && r.Leaf? && Writable(m, r)
    ensures SolePage(m, r)
  {
    WritableIsSole(m, r);
  }

  lemma VerifyTable(m0: Mach, m: Mach, s: nat, va: nat)
    requires Inv(m0) && Inv(m) && Only(m0, m, {TableOf(s, va)})
    ensures OnlyPage(m0, m, s, va) && PageKept(m0, m, s, va)
    ensures InMemory(m0) && InMemory(m) && View(m) == View(m0)
    ensures PageOf(s, va) in m0.ledger <==> PageOf(s, va) in m.ledger
    ensures PageOf(s, va) in m.ledger ==> Writable(m, PageOf(s, va)) == Writable(m0, PageOf(s, va))
  {
    Facts(m0);
    Facts(m);
    ViewKept(m0, m, {TableOf(s, va)});
    assert Same(m0, m, PageOf(s, va));
  }

  /** Verifying one page leaves the pages verified before it unshared. */
  lemma SoleKept(m: Mach, m': Mach, s: nat, va: nat, a: nat)
    requires Inv(m) && Inv(m') && OnlyPage(m, m', s, va) && SolePage(m, PageOf(s, a))
    requires KMEM_END <= a < va < LIMIT && a % PAGE == 0 && va % PAGE == 0
    requires SolePage(m', PageOf(s, va)) || PageKept(m, m', s, va)
    ensures SolePage(m', PageOf(s, a))
  {
    hide SameAt, Inv;
    var q, r, tb := PageOf(s, a), PageOf(s, va), TableOf(s, va);
    assert q != r by { Split(a); Split(va); }
    assert Same(m, m', q);
    forall r' | r' in m'.ledger && r' != q ensures m'.ledger[r'] != m'.ledger[q] {
      if r' == tb {
        TablesDiffer(m', tb, q);
      } else if r' == r {
        if SolePage(m', r) {
          assert q !in Holders(m'.ledger, m'.ledger[r]);
        } else {
          assert r !in Holders(m.ledger, m.ledger[q]);
        }
      } else {
        assert Same(m, m', r');
        assert r' !in Holders(m.ledger, m.ledger[q]);
      }
    }
    assert Holders(m'.ledger, m'.ledger[q]) == {q};
  }

  /** Every page from address lo up to, not including, hi is mapped by s alone. */
  ghost predicate SoleRange(m: Mach, s: nat, lo: nat, hi: nat) {
    forall a: nat | lo <= a < hi && a % PAGE == 0 :: SolePage(m, PageOf(s, a))
  }

  lemma SoleEmpty(m: Mach, s: nat, lo: nat)
    ensures SoleRange(m, s, lo, lo)
  {
  }

  lemma SoleShrink(m: Mach, s: nat, lo: nat, hi: nat, hi': nat)
    requires SoleRange(m, s, lo, hi) && hi' <= hi
    ensures SoleRange(m, s, lo, hi')
  {
  }

  lemma SoleExtend(m: Mach, m': Mach, s: nat, lo: nat, va: nat)
    requires Inv(m) && Inv(m') && OnlyPage(m, m', s, va) && SolePage(m', PageOf(s, va))
    requires KMEM_END <= lo && va < LIMIT && va % PAGE == 0 && SoleRange(m, s, lo, va)
    ensures SoleRange(m', s, lo, va + PAGE)
  {
    hide Inv, OnlyPage, SolePage, PageOf;
    forall a: nat | lo <= a < va + PAGE && a % PAGE == 0 ensures SolePage(m', PageOf(s, a)) {
      if a < va { SoleKept(m, m', s, va, a); } else { assert a == va; }
    }
  }

  /** The number of pages that `vm_verify` visits. */
  function PageCount(addr: nat, size: nat): nat {
    if LastPage(addr, size) < PgAddr(addr) then 0 else (LastPage(addr, size) - PgAddr(addr)) / PAGE + 1
  }

  lemma CountPages(addr: nat, size: nat, n: nat)
    requires addr < LIMIT
    ensures n < PageCount(addr, size) <==> PgAddr(addr) + n * PAGE <= LastPage(addr, size)
    ensures addr - PAGE < PgAddr(addr) <= addr && PgAddr(addr) % PAGE == 0
    ensures LastPage(addr, size) <= LIMIT - PAGE && LastPage(addr, size) % PAGE == 0
    ensures KMEM_END <= addr ==> KMEM_END <= PgAddr(addr)
  {
    var last := (addr + size + LIMIT - 1) % LIMIT;
    var x, y := addr / PAGE, last / PAGE;
    PageNumber(addr);
    PageNumber(last);
    PagesBetween(x, y);
  }

  lemma PagesBetween(x: nat, y: nat)
    ensures x <= y ==> (PAGE * y - PAGE * x) / PAGE == y - x
  {
  }

  /** The next page, in 32 bits. */
  lemma NextPage(page: nat)
    requires page < LIMIT && page % PAGE == 0
    ensures page + PAGE <= LIMIT && (page + PAGE) % PAGE == 0
    ensures (page + PAGE) % LIMIT == if page + PAGE == LIMIT then 0 else page + PAGE
  {
  }

  /** The areas of s after n pages from lo on have been verified. */
  ghost function SpaceAfter(m: Mach, s: nat, lo: nat, n: nat): (sp: Space)
    requires s in m.space && |m.space[s].areas| == NVMA
    ensures |sp.areas| == NVMA
  {
    if n == 0 then m.space[s] else FaultSpace(m, SpaceAfter(m, s, lo, n - 1), s, lo + (n - 1) * PAGE)
  }

  function StaleAt(stales: map<nat, Page>, a: nat): Page {
    if a in stales then stales[a] else []
  }

  /** What user programs see of the verification of n pages from lo on: the absent ones that
      have something to hold appear, in order. */
  ghost function VerifyEvents(m: Mach, s: nat, lo: nat, n: nat, file: Page, stales: map<nat, Page>): seq<Event>
    requires s in m.space && |m.space[s].areas| == NVMA
  {
    if n == 0 then []
    else
      var a := lo + (n - 1) * PAGE;
      VerifyEvents(m, s, lo, n - 1, file, stales) +
      FaultEvents(m, SpaceAfter(m, s, lo, n - 1), s, a, file, StaleAt(stales, a))
  }

  /** The contents of a frame that is free in m. */
  ghost predicate Stale(m: Mach, page: Page) {
    exists f :: f in m.free && f < |m.mem| && page == m.mem[f]
  }

  /** Where the stack grows, the new page is a frame that was free. */
  ghost predicate Supplied(m: Mach, s: nat, lo: nat, n: nat, stales: map<nat, Page>)
    requires s in m.space && |m.space[s].areas| == NVMA
  {
    forall i: nat | i < n && PageOf(s, lo + i * PAGE) !in m.ledger && Grows(SpaceAfter(m, s, lo, i), lo + i * PAGE) ::
      lo + i * PAGE in stales && Stale(m, stales[lo + i * PAGE])
  }

  ghost predicate SomeRefused(m: Mach, s: nat, lo: nat, n: nat)
    requires s in m.space && |m.space[s].areas| == NVMA
  {
    exists i: nat :: i < n && Refused(m, SpaceAfter(m, s, lo, i), s, lo + i * PAGE)
  }

  /** No reference of another process, or of the kernel, changed. */
  ghost predicate Elsewhere(m: Mach, m': Mach, s: nat) {
    m'.rsvd == m.rsvd && forall r: Ref | !Of(r, s) :: Same(m, m', r)
  }

  /** The pages of s from address lo on have not been touched. */
  ghost predicate Ahead(m: Mach, m': Mach, s: nat, lo: nat) {
    forall a: nat | lo <= a < LIMIT && a % PAGE == 0 :: Same(m, m', PageOf(s, a))
  }

  /** The state of `vm_verify` after n pages. */
  ghost predicate Verified(m0: Mach, m: Mach, s: nat, lo: nat, n: nat, file: Page, stales: map<nat, Page>, es: seq<Event>, raised: bool)
    requires s in m0.space && |m0.space[s].areas| == NVMA
  {
    && m.space == m0.space[s := SpaceAfter(m0, s, lo, n)]
    && es == VerifyEvents(m0, s, lo, n, file, stales) && Supplied(m0, s, lo, n, stales)
    && (raised <==> SomeRefused(m0, s, lo, n))
    && Ahead(m0, m, s, lo + n * PAGE) && Shrinks(m0, m) && Elsewhere(m0, m, s)
  }

  lemma StartVerify(m: Mach, s: nat, lo: nat, file: Page)
    requires Inv(m) && s in m.space && |m.space[s].areas| == NVMA
    ensures Verified(m, m, s, lo, 0, file, map[], [], false)
  {
    assert m.space[s := m.space[s]] == m.space;
    FreeBelow(m);
    forall r: Ref ensures Same(m, m, r) { Unchanged(m, {}); }
  }

  lemma {:induction false} EventsFrame(m: Mach, s: nat, lo: nat, n: nat, file: Page, stales: map<nat, Page>, a: nat, page: Page)
    requires s in m.space && |m.space[s].areas| == NVMA && lo + n * PAGE <= a
    ensures VerifyEvents(m, s, lo, n, file, stales[a := page]) == VerifyEvents(m, s, lo, n, file, stales)
  {
    if n > 0 { EventsFrame(m, s, lo, n - 1, file, stales, a, page); }
  }

  lemma AheadStep(m0: Mach, m: Mach, m': Mach, s: nat, va: nat)
    requires Ahead(m0, m, s, va) && OnlyPage(m, m', s, va) && KMEM_END <= va < LIMIT && va % PAGE == 0
    ensures Ahead(m0, m', s, va + PAGE)
  {
    hide Same, Pdx, Ptx;
    forall a: nat | va + PAGE <= a < LIMIT && a % PAGE == 0 ensures Same(m0, m', PageOf(s, a)) {
      assert PageOf(s, a) != PageOf(s, va) by { Split(a); Split(va); }
      SameTrans(m0, m, m', PageOf(s, a));
    }
  }

  lemma SameTrans(m: Mach, m1: Mach, m2: Mach, r: Ref)
    requires Same(m, m1, r) && Same(m1, m2, r)
    ensures Same(m, m2, r)
  {
  }

  lemma ElsewhereStep(m0: Mach, m: Mach, m': Mach, s: nat, va: nat)
    requires Elsewhere(m0, m, s) && OnlyPage(m, m', s, va)
    ensures Elsewhere(m0, m', s)
  {
    hide Same, Pdx, Ptx;
    forall r: Ref | !Of(r, s) ensures Same(m0, m', r) { SameTrans(m0, m, m', r); }
  }

  /** One page more. */
  lemma VerifiedStep(m0: Mach, m: Mach, m': Mach, s: nat, lo: nat, n: nat, file: Page, stales: map<nat, Page>,
                     es: seq<Event>, raised: bool, e: seq<Event>, stale: Page, refused: bool)
    requires Inv(m0) && s in m0.space && |m0.space[s].areas| == NVMA && Verified(m0, m, s, lo, n, file, stales, es, raised)
    requires KMEM_END <= lo && lo % PAGE == 0 && lo + n * PAGE < LIMIT
    requires OnlyPage(m, m', s, lo + n * PAGE) && Shrinks(m, m')
    requires s in m.space && |m.space[s].areas| == NVMA
    requires m'.space == m.space[s := FaultSpace(m, m.space[s], s, lo + n * PAGE)]
    requires e == FaultEvents(m, m.space[s], s, lo + n * PAGE, file, stale)
    requires PageOf(s, lo + n * PAGE) !in m.ledger && Grows(m.space[s], lo + n * PAGE) ==> Stale(m, stale)
    requires refused <==> Refused(m, m.space[s], s, lo + n * PAGE)
    ensures Verified(m0, m', s, lo, n + 1, file, stales[lo + n * PAGE := stale], es + e, raised || refused)
  {
    hide Inv, Same, OnlyPage, Grows, InArea, FlagsAt, PageOf, FaultPage, GrownStack, Writable, Shrinks, Ahead, Elsewhere;
    var va, stales' := lo + n * PAGE, stales[lo + n * PAGE := stale];
    AheadStep(m0, m, m', s, va);
    ElsewhereStep(m0, m, m', s, va);
    ShrinksTrans(m0, m, m');
    EventsFrame(m0, s, lo, n, file, stales, va, stale);
    AheadSame(m0, m, s, va);
    assert FaultEvents(m0, m.space[s], s, va, file, stale) == e;
    assert refused <==> Refused(m0, SpaceAfter(m0, s, lo, n), s, va);
    MoreRefused(m0, s, lo, n);
    forall i: nat | i < n + 1 && PageOf(s, lo + i * PAGE) !in m0.ledger && Grows(SpaceAfter(m0, s, lo, i), lo + i * PAGE)
      ensures lo + i * PAGE in stales' && Stale(m0, stales'[lo + i * PAGE])
    {
      if i == n { StaleKept(m0, m, stale); }
    }
  }

  lemma AheadSame(m: Mach, m': Mach, s: nat, va: nat)
    requires Inv(m) && Ahead(m, m', s, va) && va < LIMIT && va % PAGE == 0
    ensures var r := PageOf(s, va); (r in m.ledger <==> r in m'.ledger) && (r in m.ledger ==> Writable(m', r) == Writable(m, r))
  {
    assert Same(m, m', PageOf(s, va));
  }

  lemma MoreRefused(m: Mach, s: nat, lo: nat, n: nat)
    requires s in m.space && |m.space[s].areas| == NVMA
    ensures SomeRefused(m, s, lo, n + 1) <==> SomeRefused(m, s, lo, n) || Refused(m, SpaceAfter(m, s, lo, n), s, lo + n * PAGE)
  {
    hide Refused, SpaceAfter;
    if SomeRefused(m, s, lo, n) {
      var i: nat :| i < n && Refused(m, SpaceAfter(m, s, lo, i), s, lo + i * PAGE);
      assert i < n + 1;
    }
  }

  lemma StaleKept(m: Mach, m': Mach, page: Page)
    requires Shrinks(m, m')
    ensures Stale(m', page) ==> Stale(m, page)
  {
    if Stale(m', page) {
      var f :| f in m'.free && f < |m'.mem| && page == m'.mem[f];
      assert f in m.free && page == m.mem[f];
    }
  }

  lemma VerifiedElsewhere(m0: Mach, m: Mach, s: nat, lo: nat, n: nat, file: Page, stales: map<nat, Page>, es: seq<Event>, raised: bool)
    requires s in m0.space && |m0.space[s].areas| == NVMA && Verified(m0, m, s, lo, n, file, stales, es, raised)
    ensures Elsewhere(m0, m, s)
  {
  }

  lemma ForbiddenIs(m: Mach, s: nat, va: nat)
    requires s in m.space && |m.space[s].areas| == NVMA
    ensures Forbidden(m, s, va) == Refused(m, m.space[s], s, va)
  {
  }

  lemma FaultFacts(m: Mach, s: nat, va: nat, file: Page, stale: Page)
    requires s in m.space && |m.space[s].areas| == NVMA
    ensures PageOf(s, va) in m.ledger || Forbidden(m, s, va) ==> FaultEvents(m, m.space[s], s, va, file, stale) == []
    ensures PageOf(s, va) in m.ledger || Forbidden(m, s, va) ==> m.space[s := FaultSpace(m, m.space[s], s, va)] == m.space
  {
  }

  lemma HeadIsStale(m: Mach)
    ensures m.free != [] && m.free[0] < |m.mem| ==> Stale(m, StaleOf(m))
  {
    if m.free != [] { assert m.free[0] in m.free; }
  }

  /** Breaking the sharing takes the first free frame and writes to it and to a page table. */
  lemma CopiedShrinks(m: Mach, m': Mach, s: nat, va: nat, w: Word)
    requires Inv(m) && Inv(m') && m.free != [] && m'.free == m.free[1..] && PageOf(s, va) in m'.ledger && TableOf(s, va) in m'.ledger
    requires |m'.mem| == |m.mem| && m'.ledger[PageOf(s, va)] < |m.mem| && m'.ledger[TableOf(s, va)] < |m.mem|
    requires forall f: nat | f < |m.mem| && f != m'.ledger[PageOf(s, va)] && f != m'.ledger[TableOf(s, va)] :: m'.mem[f] == m.mem[f]
    ensures Shrinks(m, m')
  {
    hide Inv, Pdx, Ptx;
    HeldNotFree(m', PageOf(s, va));
    HeldNotFree(m', TableOf(s, va));
    FreeBelow(m);
    ShrinksBy(m, m', {m'.ledger[PageOf(s, va)], m'.ledger[TableOf(s, va)]});
  }

  /** The head of the free list in a later machine is a frame that was free before. */
  lemma HeadStale(m0: Mach, m: Mach, page: Page)
    requires Shrinks(m0, m)
    ensures m.free != [] && m.free[0] < |m.mem| && page == m.mem[m.free[0]] ==> Stale(m0, page)
  {
    if m.free != [] { assert m.free[0] in m.free; }
  }

  // ---------------------------------------------------------------- start-up

  const KIMAGE: nat := 160            // first frame of the reserved range: 640 kb

  lemma BootInv(m: Mach, pgd0: nat)
    requires |m.count| == |m.rsvd| == |m.mem| == NPAGE && (forall f: nat | f < NPAGE :: |m.mem[f]| == PTRS)
    requires pgd0 < NPAGE && m.rsvd[pgd0] && m.space.Keys == {0} == m.win.Keys
    requires m.space[0].pgd == pgd0 && |m.space[0].areas| == NVMA && m.win[0] == FULL
    requires m.ledger == map[Dir(0) := pgd0]
    requires forall i: nat | KPD <= i < PTRS :: !m.mem[pgd0][i].p
    requires forall f: nat | f < NPAGE && !m.rsvd[f] :: m.count[f] == 0
    requires FreeOk(m.count, m.rsvd, m.free)
    ensures Inv(m)
  {
    forall f: nat | f < NPAGE && !m.rsvd[f] ensures |Holders(m.ledger, f)| == 0 {
      assert Holders(m.ledger, f) == {};
    }
  }
}
