/** Whole runs of the memory system: whatever sequence of forks, execs, exits, user accesses,
    kernel copies to user space and kernel page allocations is performed, the kernel shows the
    state of the eager one, which differs from a kernel whose `fork` copies every page at once
    exactly by refusing stores to sealed pages. */
module MemoryRuns {
  import opened FrameLedger
  import opened Ledgers
  import opened Paging
  import opened EagerMemory
  import opened ForkSteps
  import opened SpaceSteps
  import opened Sealing
  import opened EagerKernel
  import opened Shows
  import opened AddressSpaces
  import opened Params

  /** `vm_verify` of a range that reaches the last page of the address space: its loop wraps
      round to address 0 and the kernel panics. */
  predicate Wraps(op: Op) {
    || (op.Verify? && KMEM_END <= op.addr && LastPage(op.addr, op.size) == LIMIT - PAGE)
    || (op.CopyOut? && PgAddr(op.va) == LIMIT - PAGE)
  }

  /** The operation can be asked for, and takes effect. */
  ghost predicate Asked(m: Mach, op: Op)
    requires Inv(m)
  {
    Can(Shown(m), op) && (op.KFree? ==> Kern(op.f) in m.ledger)
  }

  /** The operations that may take a frame from the free list. */
  ghost predicate Needs(m: Mach, op: Op)
    requires Inv(m)
  {
    Facts(m);
    Asked(m, op) && match op
      case Fork(_, _, _) => true
      case Load(s, va, _) => s in m.space && PageOf(s, va) !in m.ledger && (Grows(m.space[s], va) || InArea(m.space[s], va))
      case Store(s, va, _, _) =>
        s in m.space && !Forbidden(m, s, va) && !(PageOf(s, va) in m.ledger && Writable(m, PageOf(s, va)))
      case Verify(_, addr, _, _) => KMEM_END <= addr
      case CopyOut(_, _, _, _) => true
      case KAlloc => true
      case _ => false
  }

  // ---------------------------------------------------------------- kernel pages

  /** `held` are the pages that the kernel holds for itself. */
  ghost predicate Holds(m: Mach, held: set<nat>) {
    forall f: nat :: f in held <==> Kern(f) in m.ledger
  }

  /** The kernel's pages other than x are the same, with the same contents. */
  ghost predicate KernKept(m: Mach, m': Mach, x: set<nat>) {
    forall f: nat | f !in x ::
      && Kept(m, m', Kern(f))
      && (Kern(f) in m.ledger ==>
            m.ledger[Kern(f)] < |m.mem| == |m'.mem| && m'.mem[m.ledger[Kern(f)]] == m.mem[m.ledger[Kern(f)]])
  }

  /** What an operation does to the kernel's pages: user memory never overwrites one. */
  ghost predicate KernStep(m: Mach, op: Op, m': Mach) {
    match op
    case KAlloc => m.free != [] && Kern(m.free[0]) !in m.ledger && Kern(m.free[0]) in m'.ledger && KernKept(m, m', {m.free[0]})
    case KFree(f) => Kern(f) !in m'.ledger && KernKept(m, m', {f})
    case _ => KernKept(m, m', {})
  }

  lemma KernSame(m: Mach)
    requires Inv(m)
    ensures KernKept(m, m, {})
  {
    Facts(m);
  }

  lemma KernOnly(m: Mach, m': Mach, x: set<Ref>, y: set<nat>)
    requires Only(m, m', x) && forall r | r in x && r.Kern? :: r.f in y
    ensures KernKept(m, m', y)
  {
    hide SameAt;
    forall f: nat | f !in y ensures Same(m, m', Kern(f)) { assert Kern(f) !in x; }
  }

  lemma KernAccess(m: Mach, m': Mach, s: nat, va: nat)
    requires OnlyPage(m, m', s, va)
    ensures KernKept(m, m', {})
  {
    hide Only;
    KernOnly(m, m', {PageOf(s, va), TableOf(s, va)}, {});
  }

  lemma KernElsewhere(m: Mach, m': Mach, s: nat)
    requires Elsewhere(m, m', s)
    ensures KernKept(m, m', {})
  {
    hide SameAt;
    forall f: nat ensures Same(m, m', Kern(f)) { assert !Of(Kern(f), s); }
  }

  lemma KernCloned(m: Mach, m': Mach, p: nat, c: nat)
    requires Cloned(m, m', p, c)
    ensures KernKept(m, m', {})
  {
    forall f: nat ensures Kept(m, m', Kern(f)) { assert !Of(Kern(f), c); }
  }

  lemma KernTrans(m: Mach, m1: Mach, m2: Mach)
    requires KernKept(m, m1, {}) && KernKept(m1, m2, {})
    ensures KernKept(m, m2, {})
  {
    forall f: nat ensures Kept(m, m2, Kern(f)) { assert Kept(m, m1, Kern(f)) && Kept(m1, m2, Kern(f)); }
  }

  lemma HoldsKept(m: Mach, m': Mach, held: set<nat>)
    requires Holds(m, held) && KernKept(m, m', {})
    ensures Holds(m', held)
  {
    forall f: nat ensures f in held <==> Kern(f) in m'.ledger { assert Kept(m, m', Kern(f)); }
  }

  // ---------------------------------------------------------------- the operations

  /** Between operations every address space is completely populated. */
  ghost predicate Settled(m: Mach) {
    forall s | s in m.win :: m.win[s] == FULL
  }

  /** A kernel thread, with an unused area slot, has no user pages. */
  lemma ThreadHasNoPages(m: Mach, p: nat)
    requires Inv(m) && p in m.space
    ensures UnusedHasNoPages(m, p)
  {
    if i :| 0 <= i < |m.space[p].areas| && m.space[p].areas[i].flags == {} {
      assert !AreaOk(m.space[p].areas[i]);
      assert !Execd(m.space[p]);
    }
  }

  /** What one operation did: to what the kernel shows, to the one who asked, and to the pages
      of the kernel. What was found in new stack pages was in frames that were free. */
  ghost predicate Did(m: Mach, op: Op, found: map<nat, Page>, segv: bool, m': Mach)
    requires Inv(m) && Inv(m')
  {
    && Shown(m') == Next(Shown(m), op, found) && (segv <==> Raises(Shown(m), op))
    && (forall a | a in found :: Stale(m, found[a]))
    && if Asked(m, op) then !Wraps(op) && KernStep(m, op, m') else m' == m
  }

  lemma HoldsAt(m: Mach, held: set<nat>, f: nat)
    requires Holds(m, held)
    ensures f in held <==> Kern(f) in m.ledger
  {
  }

  lemma KernOwned(m: Mach, m': Mach, s: nat)
    requires Only(m, m', Owned(m, s))
    ensures KernKept(m, m', {})
  {
    hide Only;
    KernOnly(m, m', Owned(m, s), {});
  }

  lemma HoldsBut(m: Mach, m': Mach, held: set<nat>, f: nat)
    requires Holds(m, held) && KernKept(m, m', {f})
    ensures Kern(f) in m'.ledger ==> Holds(m', held + {f})
    ensures Kern(f) !in m'.ledger ==> Holds(m', held - {f})
  {
    forall g: nat | g != f ensures g in held <==> Kern(g) in m'.ledger { assert Kept(m, m', Kern(g)); }
  }

  /** Who can ask for what, in terms of the real kernel. */
  lemma CanIs(m: Mach, op: Op)
    requires Inv(m)
    ensures Can(Shown(m), op) <==> match op
      case Fork(p, c, stale) => p in m.space && c !in m.space && c < NPROC && |stale| == NVMA
      case Exec(s, image) => s in m.space && Aligned(image)
      case Exit(s) => s in m.space && m.space[s].pgd < |m.rsvd| && !m.rsvd[m.space[s].pgd]
      case Load(s, va, file) => s in m.space && Execd(m.space[s]) && KMEM_END <= va < LIMIT && |file| == PTRS
      case Store(s, va, _, file) => s in m.space && Execd(m.space[s]) && KMEM_END <= va < LIMIT && |file| == PTRS
      case Verify(s, addr, size, file) =>
        s in m.space && Execd(m.space[s]) && addr < LIMIT && size < LIMIT && |file| == PTRS
      case CopyOut(s, va, _, file) =>
        s in m.space && Execd(m.space[s]) && KMEM_END <= va < LIMIT && va % 4 == 0 && |file| == PTRS
      case KAlloc => true
      case KFree(_) => true
  {
    hide Inv, Sealed, View, Aligned;
    Facts(m);
    forall s | s in m.space { ShownSpace(m, s); }
  }

  method StepFork(k: Kernel, held: set<nat>, op: Op) returns (ok: bool, segv: bool, ghost found: map<nat, Page>)
    requires op.Fork? && k.Valid() && Settled(k.St()) && Holds(k.St(), held)
    modifies k
    ensures !ok ==> k.free == [] && Inv(old(k.St())) && Needs(old(k.St()), op)
    ensures ok ==> k.Valid() && Settled(k.St()) && Holds(k.St(), held)
    ensures ok ==> Inv(old(k.St())) && Did(old(k.St()), op, found, segv, k.St())
  {
    hide Inv, Linked, View, Apply, Execd, Replay, Cloned, Only, Owned, OnlyPage, KernKept, Verified, Elsewhere, Holds, Sealed;
    hide Forbidden, FaultEvents, StaleOf, Stale, PgAddr, LastPage, PageCount, Grows, InArea, Shown, Events, Spaces, Seals;
    ghost var m := k.St();
    Facts(m);
    ok, segv, found := true, false, map[];
    var Fork(p, c, stale) := op;
    CanIs(m, op);
    if p in k.space && c !in k.space && c < NPROC && |stale| == NVMA {
      ThreadHasNoPages(m, p);
      ok := k.VmClone(p, c, stale);
      if ok {
        Facts(k.St());
        ClonedView(m, k.St(), p, c);
        ShownFork(m, k.St(), p, c, stale);
        KernCloned(m, k.St(), p, c);
        HoldsKept(m, k.St(), held);
      }
    }
  }

  method StepExec(k: Kernel, held: set<nat>, op: Op) returns (ok: bool, segv: bool, ghost found: map<nat, Page>)
    requires op.Exec? && k.Valid() && Settled(k.St()) && Holds(k.St(), held)
    modifies k
    ensures ok
    ensures ok ==> k.Valid() && Settled(k.St()) && Holds(k.St(), held)
    ensures ok ==> Inv(old(k.St())) && Did(old(k.St()), op, found, segv, k.St())
  {
    hide Inv, Linked, View, Apply, Execd, Replay, Cloned, Only, Owned, OnlyPage, KernKept, Verified, Elsewhere, Holds, Sealed;
    hide Forbidden, FaultEvents, StaleOf, Stale, PgAddr, LastPage, PageCount, Grows, InArea, Shown, Events, Spaces, Seals;
    ghost var m := k.St();
    Facts(m);
    ok, segv, found := true, false, map[];
    var Exec(s, image) := op;
    CanIs(m, op);
    if s in k.space && Aligned(image) {
      k.Exec(s, image);
      Facts(k.St());
      ShownExec(m, k.St(), s, image);
      KernOwned(m, k.St(), s);
      HoldsKept(m, k.St(), held);
    }
  }

  method StepExit(k: Kernel, held: set<nat>, op: Op) returns (ok: bool, segv: bool, ghost found: map<nat, Page>)
    requires op.Exit? && k.Valid() && Settled(k.St()) && Holds(k.St(), held)
    modifies k
    ensures ok
    ensures ok ==> k.Valid() && Settled(k.St()) && Holds(k.St(), held)
    ensures ok ==> Inv(old(k.St())) && Did(old(k.St()), op, found, segv, k.St())
  {
    hide Inv, Linked, View, Apply, Execd, Replay, Cloned, Only, Owned, OnlyPage, KernKept, Verified, Elsewhere, Holds, Sealed;
    hide Forbidden, FaultEvents, StaleOf, Stale, PgAddr, LastPage, PageCount, Grows, InArea, Shown, Events, Spaces, Seals;
    ghost var m := k.St();
    Facts(m);
    ok, segv, found := true, false, map[];
    var Exit(s) := op;
    CanIs(m, op);
    if s in k.space && k.space[s].pgd < |k.rsvd| && !k.rsvd[k.space[s].pgd] {
      k.Exit(s);
      Facts(k.St());
      ShownExit(m, k.St(), s);
      KernOwned(m, k.St(), s);
      HoldsKept(m, k.St(), held);
    }
  }

  /** Stack pages hold what was in the first free frame. */
  ghost function FoundAt(m: Mach, va: nat): map<nat, Page> {
    if Stale(m, StaleOf(m)) then map[PgAddr(va) := StaleOf(m)] else map[]
  }

  /** A fault of a load or a store, as the eager kernel has it. */
  lemma FaultShown(m: Mach, s: nat, va: nat, file: Page)
    requires Inv(m) && s in m.space && Execd(m.space[s]) && |m.space[s].areas| == NVMA && KMEM_END <= va < LIMIT
    ensures var e, found := Shown(m), FoundAt(m, va);
            && s in e.space && e.space[s] == Bare(m.space[s]) && |e.space[s].areas| == NVMA
            && Stretched(e, e.space[s], s, va) == Bare(FaultSpace(m, m.space[s], s, va))
            && FaultSpace(m, m.space[s], s, va).pgd == m.space[s].pgd
            && (Refuses(e, e.space[s], s, va) <==> Forbidden(m, s, va))
            && (PageOf(s, va) in e.pages <==> PageOf(s, va) in m.ledger)
            && (Grows(e.space[s], va) <==> Grows(m.space[s], va)) && (InArea(e.space[s], va) <==> InArea(m.space[s], va))
            && ((PageOf(s, va) !in m.ledger && Grows(m.space[s], va) ==> Stale(m, StaleOf(m))) ==>
                  Appears(e, e.space[s], s, va, file, StaleAt(found, PgAddr(va))) == FaultEvents(m, m.space[s], s, va, file, StaleOf(m)))
  {
    hide Inv, Execd, Grows, InArea, GrownStack, FlagsAt, Shown, FaultEvents, Appears, Stretched, FaultSpace, Stale, StaleOf, Refuses, Refused, PgAddr;
    ShownSpace(m, s);
    ShownPage(m, PageOf(s, va));
    BareAreas(m.space[s], va);
    AppearsIs(m, m.space[s], s, va, file, StaleOf(m));
    RefusesIs(m, m.space[s], s, va);
    if PageOf(s, va) !in m.ledger && Grows(m.space[s], va) ==> Stale(m, StaleOf(m)) {
      AppearsFound(Shown(m), Bare(m.space[s]), s, va, file, StaleOf(m), StaleAt(FoundAt(m, va), PgAddr(va)));
    }
  }

  method StepLoad(k: Kernel, held: set<nat>, op: Op) returns (ok: bool, segv: bool, ghost found: map<nat, Page>)
    requires op.Load? && k.Valid() && Settled(k.St()) && Holds(k.St(), held)
    modifies k
    ensures !ok ==> k.free == [] && Inv(old(k.St())) && Needs(old(k.St()), op)
    ensures ok ==> k.Valid() && Settled(k.St()) && Holds(k.St(), held)
    ensures ok ==> Inv(old(k.St())) && Did(old(k.St()), op, found, segv, k.St())
  {
    hide Inv, Linked, View, Apply, Execd, Replay, Cloned, Only, Owned, OnlyPage, KernKept, Verified, Elsewhere, Holds, Sealed;
    hide Forbidden, FaultEvents, StaleOf, Stale, PgAddr, LastPage, PageCount, Grows, InArea, Shown, Events, Spaces, Seals;
    ghost var m := k.St();
    Facts(m);
    ok, segv, found := true, false, map[];
    var Load(s, va, file) := op;
    CanIs(m, op);
    if s in k.space && Execd(k.space[s]) && KMEM_END <= va < LIMIT && |file| == PTRS {
      var present, writable, f := k.Translate(s, va);
      if !present {
        ok, segv := LoadFault(k, s, va, file);
        if ok {
          found := FoundAt(m, va);
          LoadShown(m, k.St(), s, va, file);
          HoldsKept(m, k.St(), held);
        }
      } else {
        LoadPresent(m, s, va, file);
        KernSame(m);
      }
    }
  }

  /** A load from an absent page. */
  method LoadFault(k: Kernel, s: nat, va: nat, file: Page) returns (ok: bool, segv: bool)
    requires k.Valid() && Settled(k.St()) && UserAddress(k.St(), s, va) && |k.space[s].areas| == NVMA && |file| == PTRS
    requires PageOf(s, va) !in k.ledger
    modifies k
    ensures segv <==> !Grows(old(k.space)[s], va) && !InArea(old(k.space)[s], va)
    ensures !ok ==> k.free == [] && !segv
    ensures ok ==> k.Valid() && Settled(k.St()) && KernKept(old(k.St()), k.St(), {}) && Inv(old(k.St()))
    ensures ok ==> Loaded(old(k.St()), k.St(), s, va, file)
  {
    hide Inv, Linked, View, Mapped, Execd, Grows, InArea, GrownStack, FlagsAt, Writable, KernKept, OnlyPage, Shrinks, Sealed, Stale;
    ghost var m := k.St();
    Facts(m);
    ReplayNone(View(m));
    KernSame(m);
    StartAccess(m, s, va);
    HeadIsStale(m);
    FaultFacts(m, s, va, file, StaleOf(m));
    var r;
    ghost var page;
    r, page := k.DoNoPage(s, va, file);
    ok, segv := r != Panic, r == Segv;
    if r == Done {
      Facts(k.St());
      MappedView(m, k.St(), s, va, page);
      AccessMapped(m, m, k.St(), s, va, page);
      FaultSealed(m, k.St(), s, va);
      KernAccess(m, k.St(), s, va);
      AccessRsvd(m, k.St(), s, va);
      ReplayOne(View(m), Filled(PageOf(s, va), page));
    }
  }

  /** The page that a load asked for is there, if anything backs it. */
  ghost predicate Loaded(m: Mach, m': Mach, s: nat, va: nat, file: Page)
    requires Inv(m) && Inv(m') && s in m.space && |m.space[s].areas| == NVMA
  {
    && Pages(m') == Replay(Pages(m), FaultEvents(m, m.space[s], s, va, file, StaleOf(m)))
    && m'.space == m.space[s := FaultSpace(m, m.space[s], s, va)] && m'.rsvd == m.rsvd && Sealed(m') == Sealed(m)
    && (PageOf(s, va) !in m.ledger && Grows(m.space[s], va) ==> Stale(m, StaleOf(m)))
  }

  lemma AccessRsvd(m: Mach, m': Mach, s: nat, va: nat)
    requires OnlyPage(m, m', s, va)
    ensures m'.rsvd == m.rsvd
  {
  }

  lemma LoadShown(m: Mach, m': Mach, s: nat, va: nat, file: Page)
    requires Inv(m) && Inv(m') && s in m.space && |m.space[s].areas| == NVMA && Loaded(m, m', s, va, file)
    requires Can(Shown(m), Load(s, va, file)) && Execd(m.space[s])
    ensures Shown(m') == Next(Shown(m), Load(s, va, file), FoundAt(m, va))
    ensures Raises(Shown(m), Load(s, va, file)) <==>
              PageOf(s, va) !in m.ledger && !Grows(m.space[s], va) && !InArea(m.space[s], va)
  {
    hide Inv, Execd, Grows, InArea, Shown, FaultEvents, Appears, Stretched, FaultSpace, Stale, StaleOf, Refuses, PgAddr, Sealed, View, Replay, FoundAt, Forbidden;
    FaultShown(m, s, va, file);
    ShownAfter(m, m', s, FaultSpace(m, m.space[s], s, va), FaultEvents(m, m.space[s], s, va, file, StaleOf(m)));
  }

  lemma LoadPresent(m: Mach, s: nat, va: nat, file: Page)
    requires Inv(m) && s in m.space && Execd(m.space[s]) && KMEM_END <= va < LIMIT && |file| == PTRS && PageOf(s, va) in m.ledger
    requires Can(Shown(m), Load(s, va, file))
    ensures Shown(m) == Next(Shown(m), Load(s, va, file), map[]) && !Raises(Shown(m), Load(s, va, file))
  {
    hide Inv, Grows, InArea, Shown, FaultPage, Sealed, View;
    ShownPage(m, PageOf(s, va));
    var e := Shown(m);
    ReplayNone(e.pages);
    assert e.space[s := e.space[s]] == e.space;
  }

  method StepStore(k: Kernel, held: set<nat>, op: Op) returns (ok: bool, segv: bool, ghost found: map<nat, Page>)
    requires op.Store? && k.Valid() && Settled(k.St()) && Holds(k.St(), held)
    modifies k
    ensures !ok ==> k.free == [] && Inv(old(k.St())) && Needs(old(k.St()), op)
    ensures ok ==> k.Valid() && Settled(k.St()) && Holds(k.St(), held)
    ensures ok ==> Inv(old(k.St())) && Did(old(k.St()), op, found, segv, k.St())
  {
    hide Inv, Linked, View, Apply, Execd, Replay, Cloned, Only, Owned, OnlyPage, KernKept, Verified, Elsewhere, Holds, Sealed;
    hide Forbidden, FaultEvents, StaleOf, Stale, PgAddr, LastPage, PageCount, Grows, InArea, Shown, Events, Spaces, Seals;
    ghost var m := k.St();
    Facts(m);
    ok, segv, found := true, false, map[];
    var Store(s, va, w, file) := op;
    CanIs(m, op);
    if s in k.space && Execd(k.space[s]) && KMEM_END <= va < LIMIT && |file| == PTRS {
      var r;
      ghost var events, faults;
      r, events, faults := k.UserStore(s, va, w, file);
      ok, segv := r != Panic, r == Segv;
      if ok {
        Facts(k.St());
        AccessRsvd(m, k.St(), s, va);
        found := FoundAt(m, va);
        StoreShown(m, k.St(), s, va, w, file, events, segv);
        KernAccess(m, k.St(), s, va);
        HoldsKept(m, k.St(), held);
      }
    }
  }

  lemma StoreShown(m: Mach, m': Mach, s: nat, va: nat, w: Word, file: Page, es: seq<Event>, segv: bool)
    requires Inv(m) && Inv(m') && s in m.space && |m.space[s].areas| == NVMA && Execd(m.space[s]) && Can(Shown(m), Store(s, va, w, file))
    requires segv <==> Forbidden(m, s, va)
    requires es == if segv then [] else FaultEvents(m, m.space[s], s, va, file, StaleOf(m)) + [Stored(PageOf(s, va), va % PAGE / 4, w)]
    requires Pages(m') == Replay(Pages(m), es) && m'.rsvd == m.rsvd && Sealed(m') == Sealed(m)
    requires m'.space == m.space[s := FaultSpace(m, m.space[s], s, va)]
    requires !segv && PageOf(s, va) !in m.ledger && Grows(m.space[s], va) ==> Stale(m, StaleOf(m))
    ensures Shown(m') == Next(Shown(m), Store(s, va, w, file), FoundAt(m, va)) && (segv <==> Raises(Shown(m), Store(s, va, w, file)))
  {
    hide Inv, Execd, Grows, InArea, Shown, FaultEvents, Appears, Stretched, FaultSpace, Stale, StaleOf, Refuses, PgAddr, Sealed, View, Replay, FoundAt, Forbidden;
    FaultShown(m, s, va, file);
    if segv { ForbiddenGrows(m, s, va); }
    ShownAfter(m, m', s, FaultSpace(m, m.space[s], s, va), es);
  }

  lemma ForbiddenGrows(m: Mach, s: nat, va: nat)
    requires s in m.space && |m.space[s].areas| == NVMA && Forbidden(m, s, va)
    ensures PageOf(s, va) in m.ledger || !Grows(m.space[s], va)
  {
  }

  ghost function FoundIn(m: Mach, stales: map<nat, Page>): map<nat, Page> {
    map a | a in stales && Stale(m, stales[a]) :: stales[a]
  }

  /** `vm_verify`, as the eager kernel has it. */
  lemma VerifyShown(m: Mach, m': Mach, s: nat, lo: nat, n: nat, file: Page, stales: map<nat, Page>, es: seq<Event>, raised: bool)
    requires Inv(m) && s in m.space && Execd(m.space[s]) && |m.space[s].areas| == NVMA
    requires KMEM_END <= lo && lo + n * PAGE <= LIMIT && Verified(m, m', s, lo, n, file, stales, es, raised)
    ensures var e, sp := Shown(m), SpaceAfter(m, s, lo, n);
            && s in e.space && |e.space[s].areas| == NVMA && RangeEvents(e, s, lo, n, file, FoundIn(m, stales)) == es
            && (RangeRefuses(e, s, lo, n) <==> raised) && SpaceAt(e, s, lo, n) == Bare(sp)
            && m'.space == m.space[s := sp] && sp.pgd == m.space[s].pgd && m'.rsvd == m.rsvd
  {
    hide Inv, Execd, Shown, RangeEvents, VerifyEvents, RangeRefuses, SomeRefused, SpaceAt, SpaceAfter, Ahead, Shrinks, Supplied, Stale;
    SpaceAtIs(m, s, lo, n);
    RangeIs(m, s, lo, n, file, stales, FoundIn(m, stales));
    RangeRefusesIs(m, s, lo, n);
  }

  method StepVerify(k: Kernel, held: set<nat>, op: Op) returns (ok: bool, segv: bool, ghost found: map<nat, Page>)
    requires op.Verify? && k.Valid() && Settled(k.St()) && Holds(k.St(), held)
    modifies k
    ensures !ok ==> Wraps(op) || (k.free == [] && Inv(old(k.St())) && Needs(old(k.St()), op))
    ensures ok ==> k.Valid() && Settled(k.St()) && Holds(k.St(), held)
    ensures ok ==> Inv(old(k.St())) && Did(old(k.St()), op, found, segv, k.St())
  {
    hide Inv, Linked, View, Apply, Execd, Replay, Cloned, Only, Owned, OnlyPage, KernKept, Verified, Elsewhere, Holds, Sealed;
    hide Forbidden, FaultEvents, StaleOf, Stale, PgAddr, LastPage, PageCount, Grows, InArea, Shown, Events, Spaces, Seals;
    ghost var m := k.St();
    Facts(m);
    ok, segv, found := true, false, map[];
    var Verify(s, addr, size, file) := op;
    CanIs(m, op);
    if s in k.space && Execd(k.space[s]) && addr < LIMIT && size < LIMIT && |file| == PTRS {
      var r, code, raised;
      ghost var events, stales;
      r, code, raised, events, stales := k.VmVerify(s, addr, size, file);
      ok, segv := r == Done, raised;
      if ok {
        Facts(k.St());
        KernElsewhere(m, k.St(), s);
        HoldsKept(m, k.St(), held);
        if code == 0 {
          found := FoundIn(m, stales);
          RangeShown(m, k.St(), op, stales, events, raised);
        } else {
          NoRangeShown(m, op);
        }
      }
    }
  }

  lemma RangeShown(m: Mach, m': Mach, op: Op, stales: map<nat, Page>, es: seq<Event>, raised: bool)
    requires op.Verify? && KMEM_END <= op.addr && Inv(m) && Inv(m') && Can(Shown(m), op)
    requires op.s in m.space && Execd(m.space[op.s]) && |m.space[op.s].areas| == NVMA
    requires Verified(m, m', op.s, PgAddr(op.addr), PageCount(op.addr, op.size), op.file, stales, es, raised)
    requires Pages(m') == Replay(Pages(m), es) && Sealed(m') == Sealed(m)
    ensures Shown(m') == Next(Shown(m), op, FoundIn(m, stales)) && (raised <==> Raises(Shown(m), op))
  {
    hide Inv, Execd, Shown, RangeEvents, RangeRefuses, SpaceAt, SpaceAfter, Verified, Sealed, View, Replay, PgAddr, PageCount, FoundIn;
    var lo, n := PgAddr(op.addr), PageCount(op.addr, op.size);
    CountPages(op.addr, op.size, n);
    if n > 0 { CountPages(op.addr, op.size, n - 1); }
    VerifyShown(m, m', op.s, lo, n, op.file, stales, es, raised);
    ShownAfter(m, m', op.s, SpaceAfter(m, op.s, lo, n), es);
  }

  /** Below the user addresses `vm_verify` does nothing. */
  lemma NoRangeShown(m: Mach, op: Op)
    requires op.Verify? && op.addr < KMEM_END && Inv(m) && Can(Shown(m), op)
    ensures Shown(m) == Next(Shown(m), op, map[]) && !Raises(Shown(m), op)
  {
    hide Inv, Shown, Sealed, View, PgAddr;
    var e := Shown(m);
    ExecdSize(e, op);
    ReplayNone(e.pages);
    assert e.space[op.s := e.space[op.s]] == e.space;
  }

  /** A store by the kernel to a page that `vm_verify` has checked. */
  method KernelStore(k: Kernel, s: nat, va: nat, w: Word)
    requires k.Valid() && UserAddress(k.St(), s, va) && SolePage(k.St(), PageOf(s, va))
    modifies k`mem
    ensures k.Valid() && KernKept(old(k.St()), k.St(), {}) && Sealed(k.St()) == Sealed(old(k.St()))
    ensures Pages(k.St()) == Apply(Pages(old(k.St())), Stored(PageOf(s, va), va % PAGE / 4, w))
  {
    hide Inv, Linked, View, Execd, Holders, Only, KernKept, Sealed, SameAt;
    ghost var m := k.St();
    Facts(m);
    var present, writable, f := k.Translate(s, va);
    StoreOwned(m, PageOf(s, va), va % PAGE / 4, w);
    k.mem := Poke(k.mem, f, va % PAGE / 4, w);
    Facts(k.St());
    PokeSealed(m, k.St(), PageOf(s, va));
    KernOnly(m, k.St(), {PageOf(s, va)}, {});
  }

  lemma RangeSole(m: Mach, s: nat, va: nat)
    requires SoleRange(m, s, PgAddr(va), LastPage(va, 4) + 1) && KMEM_END <= va < LIMIT && va % 4 == 0
    ensures SolePage(m, PageOf(s, va))
  {
    hide SolePage, PgAddr, LastPage, Pdx, Ptx;
    OnePage(va);
    assert SolePage(m, PageOf(s, PgAddr(va)));
    SamePage(s, va);
  }

  /** An aligned word lies in one page. */
  lemma OnePage(va: nat)
    requires va < LIMIT && va % 4 == 0
    ensures PgAddr(va) == LastPage(va, 4) && PgAddr(va) % PAGE == 0 && PageCount(va, 4) == 1
  {
    NoWrap(va + 3);
    assert (va + 4 + LIMIT - 1) % LIMIT == (va + 3 + LIMIT) % LIMIT == va + 3;
    WordInPage(va);
  }

  lemma WordInPage(va: nat)
    requires va % 4 == 0
    ensures va + 3 - (va + 3) % PAGE == va - va % PAGE && (va - va % PAGE) % PAGE == 0
  {
    var k := va / 4;
    var p, x := k / PTRS, k % PTRS;
    assert va == PAGE * p + 4 * x;
    InPage(p, 4 * x);
    InPage(p, 4 * x + 3);
    InPage(p, 0);
  }

  lemma InPage(p: nat, x: nat)
    requires x < PAGE
    ensures (PAGE * p + x) % PAGE == x
  {
  }

  method StepCopyOut(k: Kernel, held: set<nat>, op: Op) returns (ok: bool, segv: bool, ghost found: map<nat, Page>)
    requires op.CopyOut? && k.Valid() && Settled(k.St()) && Holds(k.St(), held)
    modifies k
    ensures !ok ==> Wraps(op) || (k.free == [] && Inv(old(k.St())) && Needs(old(k.St()), op))
    ensures ok ==> k.Valid() && Settled(k.St()) && Holds(k.St(), held)
    ensures ok ==> Inv(old(k.St())) && Did(old(k.St()), op, found, segv, k.St())
  {
    hide Inv, Linked, View, Apply, Execd, Replay, Cloned, Only, Owned, OnlyPage, KernKept, Verified, Elsewhere, Holds, Sealed;
    hide Forbidden, FaultEvents, StaleOf, Stale, PgAddr, LastPage, PageCount, Grows, InArea, Shown, Events, Spaces, Seals;
    ghost var m := k.St();
    Facts(m);
    ok, segv, found := true, false, map[];
    var CopyOut(s, va, w, file) := op;
    CanIs(m, op);
    if s in k.space && Execd(k.space[s]) && KMEM_END <= va < LIMIT && va % 4 == 0 && |file| == PTRS {
      OnePage(va);
      var r, code;
      ghost var events, stales;
      r, code, segv, events, stales := k.VmVerify(s, va, 4, file);
      ok := r == Done;
      if ok {
        ghost var m1 := k.St();
        Facts(m1);
        KernElsewhere(m, m1, s);
        found := FoundIn(m, stales);
        if !segv {
          RangeSole(m1, s, va);
          KernelStore(k, s, va, w);
          KernTrans(m, m1, k.St());
        }
        CopyOutShown(m, m1, k.St(), op, stales, events, segv);
        HoldsKept(m, k.St(), held);
      }
    }
  }

  lemma CopyOutShown(m: Mach, m1: Mach, m': Mach, op: Op, stales: map<nat, Page>, es: seq<Event>, raised: bool)
    requires op.CopyOut? && Inv(m) && Inv(m1) && Inv(m') && Can(Shown(m), op)
    requires op.s in m.space && Execd(m.space[op.s]) && |m.space[op.s].areas| == NVMA
    requires Verified(m, m1, op.s, PgAddr(op.va), 1, op.file, stales, es, raised)
    requires Pages(m1) == Replay(Pages(m), es) && Sealed(m1) == Sealed(m) && Sealed(m') == Sealed(m1)
    requires m'.space == m1.space && m'.rsvd == m1.rsvd
    requires Pages(m') == if raised then Pages(m1) else Apply(Pages(m1), Stored(PageOf(op.s, op.va), op.va % PAGE / 4, op.w))
    ensures Shown(m') == Next(Shown(m), op, FoundIn(m, stales)) && (raised <==> Raises(Shown(m), op))
  {
    hide Inv, Execd, Shown, RangeEvents, RangeRefuses, SpaceAt, SpaceAfter, Verified, Sealed, View, Replay, PgAddr, FoundIn, Apply, PageOf;
    var lo, ev := PgAddr(op.va), Stored(PageOf(op.s, op.va), op.va % PAGE / 4, op.w);
    PageInside(op.va);
    VerifyShown(m, m1, op.s, lo, 1, op.file, stales, es, raised);
    ReplayConcat(Pages(m), es, [ev]);
    ReplayOne(Pages(m1), ev);
    var fs := if raised then es else es + [ev];
    assert Pages(m') == Replay(Pages(m), fs);
    ShownAfter(m, m', op.s, SpaceAfter(m, op.s, lo, 1), fs);
    assert es + [] == es;
  }

  lemma PageInside(va: nat)
    requires KMEM_END <= va < LIMIT
    ensures KMEM_END <= PgAddr(va) && PgAddr(va) + PAGE <= LIMIT
  {
  }

  method StepKAlloc(k: Kernel, held: set<nat>) returns (ok: bool, held': set<nat>)
    requires k.Valid() && Settled(k.St()) && Holds(k.St(), held)
    modifies k
    ensures !ok ==> k.free == [] && Inv(old(k.St())) && Needs(old(k.St()), KAlloc)
    ensures ok ==> k.Valid() && Settled(k.St()) && Holds(k.St(), held')
    ensures ok ==> Inv(old(k.St())) && Did(old(k.St()), KAlloc, map[], false, k.St())
  {
    hide Inv, Linked, View, Only, KernKept, Holds, Replay, Sealed;
    ghost var m := k.St();
    Facts(m);
    ReplayNone(View(m));
    held' := held;
    var f;
    ok, f := k.KmallocPage();
    if ok {
      held' := held + {f};
      Facts(k.St());
      KernShown(m, k.St(), f);
      KernOnly(m, k.St(), {Kern(f)}, {f});
      HoldsBut(m, k.St(), held, f);
    }
  }

  method StepKFree(k: Kernel, held: set<nat>, f: nat) returns (held': set<nat>)
    requires k.Valid() && Settled(k.St()) && Holds(k.St(), held)
    modifies k
    ensures k.Valid() && Settled(k.St()) && Holds(k.St(), held')
    ensures Inv(old(k.St())) && Did(old(k.St()), KFree(f), map[], false, k.St())
  {
    hide Inv, Linked, View, Only, KernKept, Holds, Replay, Sealed;
    ghost var m := k.St();
    Facts(m);
    ReplayNone(View(m));
    HoldsAt(m, held, f);
    held' := held;
    if f in held {
      k.KfreePage(f);
      held' := held - {f};
      Facts(k.St());
      KernShown(m, k.St(), f);
      KernOnly(m, k.St(), {Kern(f)}, {f});
      HoldsBut(m, k.St(), held, f);
    }
  }

  lemma KernShown(m: Mach, m': Mach, f: nat)
    requires Inv(m) && Inv(m') && m'.space == m.space && Only(m, m', {Kern(f)})
    ensures Shown(m') == Shown(m)
  {
    hide Inv, Only, Sealed, View;
    Facts(m);
    Facts(m');
    ViewKept(m, m', {Kern(f)});
    OnlySealed(m, m', {Kern(f)});
    OnlyRsvd(m, m', {Kern(f)});
    ShownSame(m, m');
  }

  /** One operation; those that the system cannot be asked for in this state are skipped. It
      fails only where it needs a frame and none is left, or where `vm_verify` wraps round. */
  method Step(k: Kernel, held: set<nat>, op: Op) returns (ok: bool, segv: bool, held': set<nat>, ghost found: map<nat, Page>)
    requires k.Valid() && Settled(k.St()) && Holds(k.St(), held)
    modifies k
    ensures !ok ==> Wraps(op) || (k.free == [] && Inv(old(k.St())) && Needs(old(k.St()), op))
    ensures ok ==> k.Valid() && Settled(k.St()) && Holds(k.St(), held')
    ensures ok ==> Inv(old(k.St())) && Did(old(k.St()), op, found, segv, k.St())
  {
    hide Inv, Linked, Holds, Did, Needs;
    ok, segv, held', found := true, false, held, map[];
    match op {
      case Fork(_, _, _) => ok, segv, found := StepFork(k, held, op);
      case Exec(_, _) => ok, segv, found := StepExec(k, held, op);
      case Exit(_) => ok, segv, found := StepExit(k, held, op);
      case Load(_, _, _) => ok, segv, found := StepLoad(k, held, op);
      case Store(_, _, _, _) => ok, segv, found := StepStore(k, held, op);
      case Verify(_, _, _, _) => ok, segv, found := StepVerify(k, held, op);
      case CopyOut(_, _, _, _) => ok, segv, found := StepCopyOut(k, held, op);
      case KAlloc => ok, held' := StepKAlloc(k, held);
      case KFree(f) => held' := StepKFree(k, held, f);
    }
  }

  // ---------------------------------------------------------------- runs

  /** The pages of s are the same in a and in b. */
  ghost predicate SamePages(a: Memory, b: Memory, s: nat) {
    forall d: nat, t: nat {:trigger Leaf(s, d, t)} ::
      && (Leaf(s, d, t) in a <==> Leaf(s, d, t) in b)
      && (Leaf(s, d, t) in a ==> a[Leaf(s, d, t)] == b[Leaf(s, d, t)])
  }

  /** No operation from i up to j is one of process s. */
  predicate Quiet(ops: seq<Op>, i: nat, j: nat, s: nat)
    requires i <= j <= |ops|
  {
    forall k | i <= k < j :: !Affects(ops[k], s)
  }

  /** A run: the machines, what they show, what was found in new pages, and who got SIGSEGV. */
  ghost predicate Ran(ops: seq<Op>, found: seq<map<nat, Page>>, segvs: seq<bool>, states: seq<Mach>, shown: seq<Eager>) {
    && |segvs| == |found| <= |ops| && |states| == |shown| == |segvs| + 1
    && (forall i | 0 <= i < |states| :: Inv(states[i]) && shown[i] == Shown(states[i]))
    && (forall i | 0 <= i < |segvs| :: Did(states[i], ops[i], found[i], segvs[i], states[i + 1]))
  }

  lemma RanOne(ops: seq<Op>, m: Mach)
    requires Inv(m)
    ensures Ran(ops, [], [], [m], [Shown(m)])
  {
    hide Inv, Shown;
  }

  lemma RanMore(ops: seq<Op>, found: seq<map<nat, Page>>, segvs: seq<bool>, states: seq<Mach>, shown: seq<Eager>,
                f: map<nat, Page>, segv: bool, m: Mach)
    requires Ran(ops, found, segvs, states, shown) && |segvs| < |ops| && Inv(m)
    requires Inv(states[|segvs|]) && Did(states[|segvs|], ops[|segvs|], f, segv, m)
    ensures Ran(ops, found + [f], segvs + [segv], states + [m], shown + [Shown(m)])
  {
    hide Inv, Did, Shown;
  }

  /** Each operation of a run is a step of the eager kernel, with its outcome. */
  lemma RanStep(ops: seq<Op>, found: seq<map<nat, Page>>, segvs: seq<bool>, states: seq<Mach>, shown: seq<Eager>, i: nat)
    requires Ran(ops, found, segvs, states, shown) && i < |segvs|
    ensures Inv(states[i]) && Inv(states[i + 1]) && Did(states[i], ops[i], found[i], segvs[i], states[i + 1])
    ensures shown[i] == Shown(states[i]) && shown[i + 1] == Shown(states[i + 1])
    ensures shown[i + 1] == Next(shown[i], ops[i], found[i]) && (segvs[i] <==> Raises(shown[i], ops[i]))
  {
    hide Inv, Shown, Next, Raises, KernStep, Asked;
    assert Did(states[i], ops[i], found[i], segvs[i], states[i + 1]);
  }

  /** Copy-on-write refines eager copying, sealed pages included. */
  lemma {:induction false} Refines(ops: seq<Op>, found: seq<map<nat, Page>>, segvs: seq<bool>, states: seq<Mach>, shown: seq<Eager>, i: nat)
    requires Ran(ops, found, segvs, states, shown) && i <= |segvs|
    ensures shown[i] == Reached(shown[0], ops, found, i)
  {
    hide Ran, Next;
    RanSizes(ops, found, segvs, states, shown);
    if i > 0 {
      Refines(ops, found, segvs, states, shown, i - 1);
      RanStep(ops, found, segvs, states, shown, i - 1);
    }
  }

  lemma RanSizes(ops: seq<Op>, found: seq<map<nat, Page>>, segvs: seq<bool>, states: seq<Mach>, shown: seq<Eager>)
    requires Ran(ops, found, segvs, states, shown)
    ensures |segvs| == |found| <= |ops| && |states| == |shown| == |segvs| + 1
  {
  }

  /** A run shows the pages and areas, and has the outcomes, of a kernel whose fork copies every
      page at once, if and only if no store in it goes to a sealed page. */
  lemma CopiedRun(ops: seq<Op>, found: seq<map<nat, Page>>, segvs: seq<bool>, states: seq<Mach>, shown: seq<Eager>, n: nat)
    requires Ran(ops, found, segvs, states, shown) && n <= |segvs|
    ensures |found| == |segvs| <= |ops| && |shown| == |segvs| + 1
    ensures AsCopied(shown[0], ops, found, n) <==> forall i | 0 <= i < n :: !Hits(shown[i], ops[i])
  {
    hide Ran, Shown, Reached, Hits, AsCopied, SealedThere;
    RanSizes(ops, found, segvs, states, shown);
    forall i: nat | i <= n ensures shown[i] == Reached(shown[0], ops, found, i) && SealedThere(shown[i]) {
      Refines(ops, found, segvs, states, shown, i);
      RanSound(ops, found, segvs, states, shown, i);
    }
    CopiesUnlessHit(shown[0], ops, found, n);
  }

  lemma RanSound(ops: seq<Op>, found: seq<map<nat, Page>>, segvs: seq<bool>, states: seq<Mach>, shown: seq<Eager>, i: nat)
    requires Ran(ops, found, segvs, states, shown) && i < |shown|
    ensures Inv(states[i]) && shown[i] == Shown(states[i]) && SealedThere(shown[i])
  {
    hide Inv, Did, Shown, SealedThere;
    ShownSound(states[i]);
  }

  /** A process's pages change only by its own operations: while only others act, whatever
      they fork, store, unmap or have the kernel copy, it reads the same. */
  lemma {:induction false} Undisturbed(ops: seq<Op>, found: seq<map<nat, Page>>, segvs: seq<bool>, states: seq<Mach>, shown: seq<Eager>,
                                       i: nat, j: nat, s: nat)
    requires Ran(ops, found, segvs, states, shown) && i <= j <= |segvs| <= |ops| && |shown| == |segvs| + 1 && Quiet(ops, i, j, s)
    ensures SamePages(shown[i].pages, shown[j].pages, s)
  {
    hide Ran, Affects, Next, SamePages, Did, Shown, Inv;
    RanSizes(ops, found, segvs, states, shown);
    if i == j {
      SameItself(shown[i].pages, s);
    } else {
      Undisturbed(ops, found, segvs, states, shown, i, j - 1, s);
      RanStep(ops, found, segvs, states, shown, j - 1);
      StepQuiet(shown[j - 1], ops[j - 1], found[j - 1], s);
      SameTransit(shown[i].pages, shown[j - 1].pages, shown[j].pages, s);
    }
  }

  lemma SameItself(a: Memory, s: nat)
    ensures SamePages(a, a, s)
  {
  }

  lemma SameTransit(a: Memory, b: Memory, c: Memory, s: nat)
    requires SamePages(a, b, s) && SamePages(b, c, s)
    ensures SamePages(a, c, s)
  {
  }

  lemma StepQuiet(e: Eager, op: Op, found: map<nat, Page>, s: nat)
    requires !Affects(op, s)
    ensures SamePages(e.pages, Next(e, op, found).pages, s)
  {
    hide Replay, Affects, Touches, Events, Can, Spaces, Seals;
    EventsTouch(e, op, found, s);
    forall d: nat, t: nat { Isolation(e.pages, Events(e, op, found), s, d, t); }
  }

  /** A page of the kernel keeps its contents as long as it is not freed. */
  lemma {:induction false} KernelPageKept(ops: seq<Op>, found: seq<map<nat, Page>>, segvs: seq<bool>, states: seq<Mach>, shown: seq<Eager>,
                                          i: nat, j: nat, f: nat)
    requires Ran(ops, found, segvs, states, shown) && i <= j <= |segvs| && Kern(f) in states[i].ledger
    requires forall k | i <= k < j :: ops[k] != KFree(f)
    ensures Kern(f) in states[j].ledger && states[j].ledger[Kern(f)] == states[i].ledger[Kern(f)]
    ensures var g := states[i].ledger[Kern(f)];
            g < |states[i].mem| && g < |states[j].mem| && states[j].mem[g] == states[i].mem[g]
  {
    hide Inv, Shown, Next, Raises, Can;
    RanSound(ops, found, segvs, states, shown, i);
    Facts(states[i]);
    if i < j {
      KernelPageKept(ops, found, segvs, states, shown, i, j - 1, f);
      RanStep(ops, found, segvs, states, shown, j - 1);
      assert Kept(states[j - 1], states[j], Kern(f));
    }
  }

  /** Any sequence of operations: every machine in between is sound and each operation did what
      it stands for in the eager kernel, with the same outcome. The run is that of a kernel
      whose fork copies every page at once exactly up to the first store to a sealed page, and
      nobody disturbs anybody else. It ends early only at an operation that needs a frame when
      none is left, or where `vm_verify` wraps round. */
  method Run(k: Kernel, held: set<nat>, ops: seq<Op>)
    returns (segvs: seq<bool>, held': set<nat>, ghost found: seq<map<nat, Page>>, ghost states: seq<Mach>, ghost shown: seq<Eager>)
    requires k.Valid() && Settled(k.St()) && Holds(k.St(), held)
    modifies k
    ensures Ran(ops, found, segvs, states, shown) && |segvs| == |found| <= |ops| && |states| == |shown| == |segvs| + 1
    ensures states[0] == old(k.St())
    ensures |segvs| == |ops| ==> k.Valid() && Settled(k.St()) && states[|segvs|] == k.St() && Holds(k.St(), held')
    ensures |segvs| < |ops| ==> var op := ops[|segvs|];
              Wraps(op) || (k.free == [] && Inv(states[|segvs|]) && Needs(states[|segvs|], op))
    ensures forall i: nat | i < |segvs| :: shown[i + 1] == Next(shown[i], ops[i], found[i]) && (segvs[i] <==> Raises(shown[i], ops[i]))
    ensures forall n: nat | n <= |segvs| ::
              AsCopied(shown[0], ops, found, n) <==> forall i | 0 <= i < n :: !Hits(shown[i], ops[i])
    ensures forall i: nat, j: nat, s: nat | i <= j <= |segvs| && Quiet(ops, i, j, s) ::
              SamePages(shown[i].pages, shown[j].pages, s)
  {
    hide Inv, Linked, Shown, Did, Ran, Holds, Wraps, Needs, Quiet, SamePages, Next, Raises, AsCopied, Hits;
    segvs, held', found, states, shown := [], held, [], [k.St()], [Shown(k.St())];
    RanOne(ops, k.St());
    while |segvs| < |ops|
      invariant |segvs| == |found| <= |ops| && |states| == |shown| == |segvs| + 1
      invariant states[0] == old(k.St()) && states[|segvs|] == k.St()
      invariant k.Valid() && Settled(k.St()) && Holds(k.St(), held') && Ran(ops, found, segvs, states, shown)
      decreases |ops| - |segvs|
    {
      var ok, segv;
      ghost var f;
      ok, segv, held', f := Step(k, held', ops[|segvs|]);
      if !ok {
        break;
      }
      RanMore(ops, found, segvs, states, shown, f, segv, k.St());
      segvs, found, states, shown := segvs + [segv], found + [f], states + [k.St()], shown + [Shown(k.St())];
    }
    forall i: nat | i < |segvs| ensures shown[i + 1] == Next(shown[i], ops[i], found[i]) && (segvs[i] <==> Raises(shown[i], ops[i])) {
      RanStep(ops, found, segvs, states, shown, i);
    }
    forall n: nat | n <= |segvs| ensures AsCopied(shown[0], ops, found, n) <==> forall i | 0 <= i < n :: !Hits(shown[i], ops[i]) {
      CopiedRun(ops, found, segvs, states, shown, n);
    }
    forall i: nat, j: nat, s: nat | i <= j <= |segvs| && Quiet(ops, i, j, s) ensures SamePages(shown[i].pages, shown[j].pages, s) {
      Undisturbed(ops, found, segvs, states, shown, i, j, s);
    }
  }

  // ---------------------------------------------------------------- when pages are sealed

  /** A fork of process s, or into it. */
  ghost predicate Forks(e: Eager, op: Op, s: nat) {
    op.Fork? && Can(e, op) && (op.p == s || op.c == s)
  }

  /** Page r has been there since such a fork. */
  ghost predicate ForkedSince(ops: seq<Op>, shown: seq<Eager>, j: nat, r: Ref)
    requires j < |shown| && j <= |ops| && r.Leaf?
  {
    exists i: nat :: i < j && Forks(shown[i], ops[i], r.s) && forall k | i < k <= j :: r in shown[k].pages
  }

  /** Page r has been sealed from the start. */
  ghost predicate SealedBefore(shown: seq<Eager>, j: nat, r: Ref)
    requires j < |shown|
  {
    r in shown[0].sealed && forall k | 0 <= k <= j :: r in shown[k].pages
  }

  /** What an area covers keeps its flags through a range of faults. */
  lemma {:induction false} StretchFlags(e: Eager, s: nat, lo: nat, n: nat, a: nat)
    requires s in e.space && Execd(e.space[s]) && |e.space[s].areas| == NVMA && InArea(e.space[s], a)
    requires n > 0 ==> KMEM_END <= lo && lo + n * PAGE <= LIMIT
    ensures var sp := SpaceAt(e, s, lo, n);
            Execd(sp) && InArea(sp, a) && FlagsAt(sp, a) == FlagsAt(e.space[s], a)
  {
    hide Execd, InArea, FlagsAt, Grows, GrownStack, PageOf;
    if n > 0 {
      StretchFlags(e, s, lo, n - 1, a);
      var sp, va := SpaceAt(e, s, lo, n - 1), lo + (n - 1) * PAGE;
      if Grows(sp, va) {
        GrowsBelow(sp, va);
        GrownFlags(sp, va, a);
      }
    }
  }

  /** While a page is there, its area is of the same kind. */
  lemma AreaStays(m: Mach, op: Op, found: map<nat, Page>, r: Ref)
    requires Inv(m) && r.Leaf? && r in Shown(m).pages && r in Next(Shown(m), op, found).pages
    ensures ReadOnly(Next(Shown(m), op, found), r) <==> ReadOnly(Shown(m), r)
  {
    hide Inv, Shown, Events, FlagsAt, InArea, Execd, Grows, SpaceAt, Stretched, PgAddr, PageCount, Replay, Seals, PageAddr;
    var e, a := Shown(m), PageAddr(r.d, r.t);
    PageCovered(m, r);
    if Can(e, op) {
      ExecdSize(e, op);
      match op {
        case Fork(p, c, _) =>
        case Exec(s, _) => GoneAfter(e, op, found, r);
        case Exit(s) => GoneAfter(e, op, found, r);
        case Load(s, va, _) => if r.s == s { OneStretch(e, s, va, a); }
        case Store(s, va, _, _) => if r.s == s { OneStretch(e, s, va, a); }
        case Verify(s, addr, size, _) =>
          if r.s == s {
            SpanInside(op);
            StretchFlags(e, s, PgAddr(addr), Span(op), a);
          }
        case CopyOut(s, va, _, _) =>
          if r.s == s {
            PageInside(va);
            StretchFlags(e, s, PgAddr(va), 1, a);
          }
        case KAlloc =>
        case KFree(_) =>
      }
    }
  }

  lemma PageCovered(m: Mach, r: Ref)
    requires Inv(m) && r in Shown(m).pages
    ensures r.Leaf? && r.s in Shown(m).space && Execd(Shown(m).space[r.s]) && InArea(Shown(m).space[r.s], PageAddr(r.d, r.t))
  {
    hide Inv, Execd, InArea, FlagsAt, Grows, GrownStack, Shown, PageAddr;
    ShownPage(m, r);
    LeafTable(m, r);
    ShownSpace(m, r.s);
    BareAreas(m.space[r.s], PageAddr(r.d, r.t));
  }

  lemma OneStretch(e: Eager, s: nat, va: nat, a: nat)
    requires s in e.space && Execd(e.space[s]) && |e.space[s].areas| == NVMA && InArea(e.space[s], a) && KMEM_END <= va < LIMIT
    ensures FlagsAt(Stretched(e, e.space[s], s, va), a) == FlagsAt(e.space[s], a)
  {
    hide Execd, InArea, FlagsAt, Grows, GrownStack;
    if Grows(e.space[s], va) { GrownFlags(e.space[s], va, a); }
  }

  lemma SpanInside(op: Op)
    requires op.Verify? && op.addr < LIMIT
    ensures Span(op) > 0 ==> KMEM_END <= PgAddr(op.addr) && PgAddr(op.addr) + Span(op) * PAGE <= LIMIT
  {
    hide PgAddr, PageCount, LastPage;
    var n := PageCount(op.addr, op.size);
    if n > 0 { CountPages(op.addr, op.size, n - 1); }
  }

  /** Exec and exit leave no page of the process. */
  lemma GoneAfter(e: Eager, op: Op, found: map<nat, Page>, r: Ref)
    requires (op.Exec? || op.Exit?) && Can(e, op) && r.Leaf? && r in Next(e, op, found).pages
    ensures r.s != op.s
  {
    hide Spaces, Seals, Aligned;
    ReplayOne(e.pages, Dropped(op.s));
  }

  /** One operation: what is sealed stays sealed while it is there, a fork seals, nothing else. */
  lemma SealStep(m: Mach, m': Mach, op: Op, found: map<nat, Page>, r: Ref)
    requires Inv(m) && Inv(m') && Shown(m') == Next(Shown(m), op, found) && r.Leaf?
    ensures r in Shown(m').sealed <==>
              ReadOnly(Shown(m'), r) && (r in Shown(m).sealed || Forks(Shown(m), op, r.s))
  {
    hide Inv, Shown, Events, Spaces, Replay, ReadOnly, Can;
    var e, e' := Shown(m), Shown(m');
    SealedReadOnly(m, r);
    SealedReadOnly(m', r);
    if Can(e, op) {
      if op.Fork? { ForkSealStep(m, m', op, found, r); }
      if (op.Exec? || op.Exit?) && r in e'.pages { GoneAfter(e, op, found, r); }
    }
  }

  lemma SealedReadOnly(m: Mach, r: Ref)
    requires Inv(m)
    ensures r in Shown(m).sealed ==> ReadOnly(Shown(m), r)
    ensures ReadOnly(Shown(m), r) ==> r in Shown(m).pages
  {
    hide Inv, FlagsAt, Writable, Shown, ReadOnly;
    ShownParts(m);
    ReadOnlyIs(m, r);
    ReadOnlyThere(Shown(m), r);
  }

  lemma ReadOnlyThere(e: Eager, r: Ref)
    ensures ReadOnly(e, r) ==> r in e.pages
  {
  }

  lemma ForkSealStep(m: Mach, m': Mach, op: Op, found: map<nat, Page>, r: Ref)
    requires Inv(m) && Inv(m') && Shown(m') == Next(Shown(m), op, found) && r.Leaf? && op.Fork? && Can(Shown(m), op)
    ensures r in Shown(m').sealed <==> ReadOnly(Shown(m'), r) && (r in Shown(m).sealed || r.s == op.p || r.s == op.c)
  {
    hide Inv, Shown, FlagsAt, ForkCopy, Inherited, Replay, Execd, PageAddr;
    var e, e', p, c := Shown(m), Shown(m'), op.p, op.c;
    var twin := Leaf(p, r.d, r.t);
    ReplayOne(e.pages, Forked(p, c));
    AppliedFork(e.pages, p, c);
    ForkAt(e.pages, p, c, r);
    SealedReadOnly(m, r);
    SealedReadOnly(m', r);
    if r in e.pages { PageCovered(m, r); }
    if r.s == c && twin in e.pages {
      PageCovered(m, twin);
      InheritedAll(e.space[p], op.stale);
      SameFlags(e'.space[c], e.space[p], PageAddr(r.d, r.t));
    }
  }

  /** A page of a read-only area is write-protected exactly if it was there at a fork of its
      process, or into it, and has been there since. */
  lemma {:induction false} SealedHistory(ops: seq<Op>, found: seq<map<nat, Page>>, segvs: seq<bool>, states: seq<Mach>, shown: seq<Eager>,
                                         j: nat, r: Ref)
    requires Ran(ops, found, segvs, states, shown) && j <= |segvs| <= |ops| && |shown| == |segvs| + 1 && r.Leaf?
    ensures r in shown[j].sealed <==>
              ReadOnly(shown[j], r) && (ForkedSince(ops, shown, j, r) || SealedBefore(shown, j, r))
  {
    hide Ran, Inv, Shown, Next, ReadOnly, Forks, Did;
    RanSizes(ops, found, segvs, states, shown);
    RanSound(ops, found, segvs, states, shown, j);
    SealedReadOnly(states[j], r);
    if j == 0 {
    } else {
      SealedHistory(ops, found, segvs, states, shown, j - 1, r);
      RanStep(ops, found, segvs, states, shown, j - 1);
      SealedReadOnly(states[j - 1], r);
      SealStep(states[j - 1], states[j], ops[j - 1], found[j - 1], r);
      if r in shown[j - 1].pages && r in shown[j].pages { AreaStays(states[j - 1], ops[j - 1], found[j - 1], r); }
      SinceMore(ops, shown, j, r);
    }
  }

  lemma SinceMore(ops: seq<Op>, shown: seq<Eager>, j: nat, r: Ref)
    requires 0 < j < |shown| && j <= |ops| && r.Leaf?
    ensures ForkedSince(ops, shown, j, r) <==>
              r in shown[j].pages && (Forks(shown[j - 1], ops[j - 1], r.s) || ForkedSince(ops, shown, j - 1, r))
    ensures SealedBefore(shown, j, r) <==> r in shown[j].pages && SealedBefore(shown, j - 1, r)
    ensures ForkedSince(ops, shown, j - 1, r) || SealedBefore(shown, j - 1, r) ==> r in shown[j - 1].pages
  {
    hide Forks;
    if ForkedSince(ops, shown, j, r) {
      var i: nat :| i < j && Forks(shown[i], ops[i], r.s) && forall k | i < k <= j :: r in shown[k].pages;
      assert r in shown[j].pages;
      if i < j - 1 { assert ForkedSince(ops, shown, j - 1, r); }
    }
    if r in shown[j].pages && ForkedSince(ops, shown, j - 1, r) {
      var i: nat :| i < j - 1 && Forks(shown[i], ops[i], r.s) && forall k | i < k <= j - 1 :: r in shown[k].pages;
      assert ForkedSince(ops, shown, j, r);
    }
  }

  /** Before the first exec, and so at start-up, nothing is sealed. */
  lemma StartUnsealed(m: Mach)
    requires Inv(m) && forall s | s in m.space :: !Execd(m.space[s])
    ensures Shown(m).sealed == {}
  {
    hide Inv, Execd, Writable, FlagsAt;
    forall r: Ref ensures r !in Sealed(m) {
      if r in m.ledger && r.Leaf? { LeafTable(m, r); }
    }
  }

  /** The read-only flag protects no page on its first use: over every run, a store to a
      read-only area raises SIGSEGV exactly if the page has been there since a fork of its
      process or into it. */
  lemma ReadOnlyUnenforced(ops: seq<Op>, found: seq<map<nat, Page>>, segvs: seq<bool>, states: seq<Mach>, shown: seq<Eager>, i: nat)
    requires Ran(ops, found, segvs, states, shown) && i < |segvs| <= |ops| && |shown| == |segvs| + 1
    requires ops[i].Store? && Can(shown[i], ops[i]) && RdOnly in FlagsAt(shown[i].space[ops[i].s], ops[i].va)
    ensures var r := PageOf(ops[i].s, ops[i].va);
            segvs[i] <==> r in shown[i].pages && (ForkedSince(ops, shown, i, r) || SealedBefore(shown, i, r))
  {
    hide Ran, Inv, Shown, Next, Did, Grows, FlagsAt, Pdx, Ptx, PageAddr, PgAddr, ForkedSince, SealedBefore, Execd;
    var e, s, va := shown[i], ops[i].s, ops[i].va;
    RanStep(ops, found, segvs, states, shown, i);
    ExecdSize(e, ops[i]);
    FlagsPage(e.space[s], va);
    Split(va);
    FlaggedInside(e.space[s], va);
    SealedHistory(ops, found, segvs, states, shown, i, PageOf(s, va));
  }

  lemma FlaggedInside(sp: Space, va: nat)
    ensures RdOnly in FlagsAt(sp, va) ==> InArea(sp, va)
  {
  }

  // ---------------------------------------------------------------- text after a fork

  /** Exec, a store to the text, a fork, and the store again, by q. */
  function TextOps(s: nat, c: nat, q: nat, image: Image, w: Word, file: Page, stale: seq<Vma>): seq<Op> {
    [Exec(s, image), Store(s, Text(image), w, file), Fork(s, c, stale), Store(q, Text(image), w, file)]
  }

  ghost predicate TextArea(sp: Space, image: Image) {
    |sp.areas| == NVMA && sp.areas[0] == ImageAreas(image)[0] && Execd(sp)
  }

  lemma TextFlags(sp: Space, image: Image)
    requires TextArea(sp, image) && image.tsize > 0
    ensures RdOnly in FlagsAt(sp, Text(image)) && InArea(sp, Text(image))
  {
    assert Within(sp.areas[0], Text(image));
  }

  /** After exec and the first store. */
  lemma TextStored(e: Eager, e1: Eager, s: nat, image: Image, w: Word, file: Page, f: map<nat, Page>, f1: map<nat, Page>)
    requires s in e.space && Aligned(image) && image.tsize > 0 && KMEM_END <= Text(image) && |file| == PTRS
    requires e1 == Next(e, Exec(s, image), f)
    ensures !Raises(e, Exec(s, image)) && !Raises(e1, Store(s, Text(image), w, file))
    ensures PageOf(s, Text(image)) !in e1.pages
    ensures var e2 := Next(e1, Store(s, Text(image), w, file), f1);
            s in e2.space && TextArea(e2.space[s], image) && PageOf(s, Text(image)) in e2.pages && e2.space.Keys == e.space.Keys
  {
    hide Execd, Aligned, FlagsAt, Grows, InArea, Replay, Apply, Seals, ImageAreas, FaultPage, PgAddr, Pdx, Ptx, Text;
    var va, r := Text(image), PageOf(s, Text(image));
    TextBelow(image);
    AlignedExecd(image, 0);
    TextFlags(e1.space[s], image);
    if r in e1.pages { GoneAfter(e, Exec(s, image), f, r); }
    var op := Store(s, va, w, file);
    var fill := Filled(r, FaultPage(e1.space[s], va, file, StaleAt(f1, PgAddr(va))));
    assert Events(e1, op, f1) == [fill] + [Stored(r, va % PAGE / 4, w)];
    FilledThere(e1.pages, fill, Stored(r, va % PAGE / 4, w));
    if Grows(e1.space[s], va) { GrowStack(e1.space[s], va); }
  }

  lemma TextBelow(image: Image)
    ensures Text(image) < LIMIT
  {
  }

  lemma FilledThere(a: Memory, fill: Event, ev: Event)
    requires fill.Filled? && ev.Stored?
    ensures fill.r in Replay(a, [fill] + [ev])
  {
    ReplayConcat(a, [fill], [ev]);
    ReplayOne(a, fill);
    ReplayOne(Replay(a, [fill]), ev);
  }

  /** After the fork the page is sealed on both sides. */
  lemma TextSealed(e: Eager, s: nat, c: nat, q: nat, image: Image, w: Word, file: Page, stale: seq<Vma>, f: map<nat, Page>)
    requires s in e.space && TextArea(e.space[s], image) && image.tsize > 0 && KMEM_END <= Text(image) && |file| == PTRS
    requires PageOf(s, Text(image)) in e.pages && c !in e.space && c < NPROC && |stale| == NVMA && (q == s || q == c)
    ensures !Raises(e, Fork(s, c, stale))
    ensures var e' := Next(e, Fork(s, c, stale), f); var op := Store(q, Text(image), w, file);
            Raises(e', op) && Hits(e', op)
  {
    hide Execd, FlagsAt, Grows, InArea, Replay, ForkCopy, Inherited, Text, PgAddr, PageAddr, ImageAreas, TextArea;
    var va, fork := Text(image), Fork(s, c, stale);
    TextParts(e.space[s], image);
    TextFlags(e.space[s], image);
    TextBelow(image);
    InheritedAll(e.space[s], stale);
    var e' := Next(e, fork, f);
    ReplayOne(e.pages, Forked(s, c));
    AppliedFork(e.pages, s, c);
    ForkAt(e.pages, s, c, PageOf(q, va));
    Split(va);
    FlagsPage(e.space[s], va);
    SameExecd(e.space[s], e'.space[q]);
    assert ReadOnly(e, PageOf(s, va));
    assert PageOf(q, va) in Seals(e, fork);
  }

  lemma TextParts(sp: Space, image: Image)
    requires TextArea(sp, image)
    ensures |sp.areas| == NVMA && Execd(sp)
  {
  }

  lemma SameExecd(sp: Space, sp': Space)
    requires sp'.areas == sp.areas && Execd(sp)
    ensures Execd(sp')
  {
  }

  /** The steps of the run: only the last store hits a sealed page. */
  lemma TextHits(found: seq<map<nat, Page>>, segvs: seq<bool>, states: seq<Mach>, shown: seq<Eager>,
                 s: nat, c: nat, q: nat, image: Image, w: Word, file: Page, stale: seq<Vma>)
    requires Ran(TextOps(s, c, q, image, w, file, stale), found, segvs, states, shown)
    requires |segvs| == |found| == 4 && |shown| == 5 && s in shown[0].space && c !in shown[0].space && c < NPROC && |stale| == NVMA
    requires Aligned(image) && image.tsize > 0 && KMEM_END <= Text(image) && |file| == PTRS && (q == s || q == c)
    ensures segvs == [false, false, false, true]
    ensures var ops := TextOps(s, c, q, image, w, file, stale);
            forall i | 0 <= i < 4 :: Hits(shown[i], ops[i]) <==> i == 3
  {
    hide Ran, Next, Raises, Aligned, Text, TextArea, PageOf, SealedThere, Did, Shown, Inv, Can;
    var ops := TextOps(s, c, q, image, w, file, stale);
    RanStep(ops, found, segvs, states, shown, 0);
    RanStep(ops, found, segvs, states, shown, 1);
    RanStep(ops, found, segvs, states, shown, 2);
    RanStep(ops, found, segvs, states, shown, 3);
    TextStored(shown[0], shown[1], s, image, w, file, found[0], found[1]);
    TextSealed(shown[2], s, c, q, image, w, file, stale, found[2]);
    assert segvs == [segvs[0], segvs[1], segvs[2], segvs[3]];
    RanSound(ops, found, segvs, states, shown, 1);
    NotSealed(shown[1], PageOf(s, Text(image)));
  }

  /** The whole run. */
  lemma TextRun(found: seq<map<nat, Page>>, segvs: seq<bool>, states: seq<Mach>, shown: seq<Eager>,
                s: nat, c: nat, q: nat, image: Image, w: Word, file: Page, stale: seq<Vma>)
    requires Ran(TextOps(s, c, q, image, w, file, stale), found, segvs, states, shown)
    requires |segvs| == |found| == 4 && |shown| == 5 && s in shown[0].space && c !in shown[0].space && c < NPROC && |stale| == NVMA
    requires Aligned(image) && image.tsize > 0 && KMEM_END <= Text(image) && |file| == PTRS && (q == s || q == c)
    ensures segvs == [false, false, false, true]
    ensures var ops := TextOps(s, c, q, image, w, file, stale);
            AsCopied(shown[0], ops, found, 3) && !Raises(Copying(shown[0], ops, found, 3), ops[3])
  {
    hide Ran, Next, Raises, AsCopied, Aligned, Text, Copying, Reached, Unsealed, SealedThere, Did, Shown, Inv, Hits;
    var ops := TextOps(s, c, q, image, w, file, stale);
    TextHits(found, segvs, states, shown, s, c, q, image, w, file, stale);
    CopiedRun(ops, found, segvs, states, shown, 3);
    RanSound(ops, found, segvs, states, shown, 3);
    RanStep(ops, found, segvs, states, shown, 3);
    Refines(ops, found, segvs, states, shown, 3);
    Differs(shown[3], ops[3]);
    CopiedState(shown[0], ops, found, 3);
  }

  lemma NotSealed(e: Eager, r: Ref)
    requires SealedThere(e) && r !in e.pages
    ensures r !in e.sealed
  {
  }

  lemma CopiedState(e: Eager, ops: seq<Op>, found: seq<map<nat, Page>>, n: nat)
    requires n <= |ops| && n <= |found| && AsCopied(e, ops, found, n)
    ensures Unsealed(Reached(e, ops, found, n)) == Copying(e, ops, found, n)
  {
  }

  /** The text of every image, after a fork: a store that went through before is refused, to
      the parent and to the child, where a fork that copies every page would let it through. */
  method TextAfterFork(k: Kernel, held: set<nat>, s: nat, c: nat, q: nat, image: Image, w: Word, file: Page, stale: seq<Vma>)
    returns (segvs: seq<bool>, ghost found: seq<map<nat, Page>>)
    requires k.Valid() && Settled(k.St()) && Holds(k.St(), held) && s in k.space && c !in k.space && c < NPROC && |stale| == NVMA
    requires Aligned(image) && image.tsize > 0 && KMEM_END <= Text(image) && |file| == PTRS && (q == s || q == c)
    modifies k
    ensures |segvs| < 4 ==> k.free == []
    ensures |segvs| == 4 ==> segvs == [false, false, false, true] && |found| == 4 && Inv(old(k.St()))
    ensures |segvs| == 4 ==> var e, ops := Shown(old(k.St())), TextOps(s, c, q, image, w, file, stale);
              AsCopied(e, ops, found, 3) && !Raises(Copying(e, ops, found, 3), ops[3])
  {
    hide Inv, Linked, Shown, Ran, Holds, Needs, Quiet, SamePages, Next, Raises, AsCopied, Hits, Aligned, Text, Copying, Events;
    ghost var m := k.St();
    ShownKeys(m);
    var held';
    ghost var states, shown;
    segvs, held', found, states, shown := Run(k, held, TextOps(s, c, q, image, w, file, stale));
    RanSound(TextOps(s, c, q, image, w, file, stale), found, segvs, states, shown, 0);
    if |segvs| == 4 { TextRun(found, segvs, states, shown, s, c, q, image, w, file, stale); }
  }

  lemma ShownKeys(m: Mach)
    requires Inv(m)
    ensures Shown(m).space.Keys == m.space.Keys
  {
  }

  /** Fork followed by the exit of the child leaves every frame's reference count as it was. */
  method ForkThenExit(k: Kernel, p: nat, c: nat, stale: seq<Vma>) returns (ok: bool)
    requires k.Valid() && Settled(k.St()) && p in k.space && c !in k.space && c < NPROC && |stale| == NVMA
    modifies k
    ensures !ok ==> k.free == []
    ensures ok ==> k.Valid() && k.space == old(k.space) && k.ledger == old(k.ledger)
    ensures ok ==> forall f: nat | f < NPAGE && !old(k.rsvd)[f] :: k.count[f] == old(k.count)[f]
    ensures ok ==> forall f: nat :: f in k.free <==> f in old(k.free)
    ensures ok ==> Pages(k.St()) == Pages(old(k.St()))
  {
    hide Inv, Linked, View, Cloned, Only, Owned, Execd, Apply, UnusedHasNoPages;
    ghost var m := k.St();
    Facts(m);
    ThreadHasNoPages(m, p);
    ok := k.VmClone(p, c, stale);
    if ok {
      ghost var m1 := k.St();
      Facts(m1);
      k.Exit(c);
      ghost var m2 := k.St();
      Restored(m, m1, m2, p, c);
    }
  }

  lemma Restored(m: Mach, m1: Mach, m2: Mach, p: nat, c: nat)
    requires Inv(m) && Inv(m2) && p != c && Cloned(m, m1, p, c)
    requires Only(m1, m2, Owned(m1, c)) && forall r: Ref | r in m2.ledger :: !Of(r, c)
    ensures m2.ledger == m.ledger && m2.rsvd == m.rsvd && |m.rsvd| == |m.count| == |m2.count| == NPAGE
    ensures forall f: nat | f < NPAGE && !m.rsvd[f] :: m2.count[f] == m.count[f]
    ensures forall f: nat :: f in m2.free <==> f in m.free
    ensures Pages(m2) == Pages(m)
  {
    hide Inv, Only, Cloned;
    RestoredLedger(m, m1, m2, p, c);
    RestoredCounts(m, m2);
    RestoredPages(m, m1, m2, p, c);
  }

  lemma RestoredLedger(m: Mach, m1: Mach, m2: Mach, p: nat, c: nat)
    requires Cloned(m, m1, p, c) && Only(m1, m2, Owned(m1, c)) && forall r: Ref | r in m2.ledger :: !Of(r, c)
    ensures m2.ledger == m.ledger && m2.rsvd == m.rsvd
  {
    hide SameAt;
    forall r: Ref ensures (r in m2.ledger <==> r in m.ledger) && (r in m.ledger ==> m2.ledger[r] == m.ledger[r]) {
      if !Of(r, c) {
        assert Same(m1, m2, r) && Kept(m, m1, r);
      }
    }
  }

  /** Equal ledgers have equal counts. */
  lemma RestoredCounts(m: Mach, m2: Mach)
    requires Inv(m) && Inv(m2) && m2.ledger == m.ledger && m2.rsvd == m.rsvd
    ensures |m.rsvd| == |m.count| == |m2.count| == NPAGE
    ensures forall f: nat | f < NPAGE && !m.rsvd[f] :: m2.count[f] == m.count[f]
    ensures forall f: nat :: f in m2.free <==> f in m.free
  {
    hide Agrees, Exclusive, FlagsOk, Covered;
  }

  lemma RestoredPages(m: Mach, m1: Mach, m2: Mach, p: nat, c: nat)
    requires Inv(m) && Inv(m2) && Cloned(m, m1, p, c) && Only(m1, m2, Owned(m1, c)) && m2.ledger == m.ledger
    ensures Pages(m2) == Pages(m)
  {
    hide SameAt, Inv;
    Facts(m);
    Facts(m2);
    forall r: Ref | r in m.ledger && r.Leaf? ensures m2.mem[m.ledger[r]] == m.mem[m.ledger[r]] {
      assert !Of(r, c);
      assert Same(m1, m2, r) && Kept(m, m1, r);
    }
  }

  /** Right after exec, a store to the read-only text segment is not refused. */
  method StoreToText(k: Kernel, s: nat, image: Image, w: Word, file: Page) returns (r: Outcome)
    requires k.Valid() && s in k.space && k.win[s] == FULL && |file| == PTRS
    requires Aligned(image) && image.tsize > 0 && KMEM_END <= Text(image)
    modifies k
    ensures RdOnly in ImageAreas(image)[0].flags && Within(ImageAreas(image)[0], Text(image)) && r != Segv
  {
    hide Inv, Only, Owned, Linked, Execd, Aligned, View, OnlyPage, Replay;
    Facts(k.St());
    k.Exec(s, image);
    Facts(k.St());
    TextAllowed(k.St(), s, image);
    ghost var events, faults;
    r, events, faults := k.UserStore(s, Text(image), w, file);
  }

  lemma TextAllowed(m: Mach, s: nat, image: Image)
    requires InMemory(m) && s in m.space && m.space[s].areas == ImageAreas(image) && Aligned(image) && image.tsize > 0
    requires forall r: Ref | r in View(m) :: !(r.Leaf? && r.s == s)
    ensures Text(image) < LIMIT && Within(ImageAreas(image)[0], Text(image)) && !Forbidden(m, s, Text(image))
  {
    hide Writable;
    assert PageOf(s, Text(image)) !in View(m);
    assert Within(m.space[s].areas[0], Text(image));
  }
}
