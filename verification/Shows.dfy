/** What the real kernel shows of itself: the state of the eager one. */
module Shows {
  import opened FrameLedger
  import opened Ledgers
  import opened Paging
  import opened EagerMemory
  import opened ForkSteps
  import opened SpaceSteps
  import opened Sealing
  import opened EagerKernel
  import opened Params

  ghost function Bares(space: map<nat, Space>): map<nat, Space> {
    map s | s in space :: Bare(space[s])
  }

  /** The processes that have a page directory of their own. */
  ghost function Own(m: Mach): set<nat> {
    set s | s in m.space && m.space[s].pgd < |m.rsvd| && !m.rsvd[m.space[s].pgd]
  }

  ghost function Pages(m: Mach): Memory
    requires Inv(m)
  {
    Facts(m);
    View(m)
  }

  /** Pages, areas and sealed pages, without frames, tables, counts or sharing. */
  ghost function Shown(m: Mach): Eager
    requires Inv(m)
  {
    Eager(Pages(m), Bares(m.space), Own(m), Sealed(m))
  }

  lemma ShownPage(m: Mach, r: Ref)
    requires Inv(m)
    ensures r in Shown(m).pages <==> r in m.ledger && r.Leaf?
  {
  }

  /** Sealed pages are there. */
  lemma ShownSound(m: Mach)
    requires Inv(m)
    ensures SealedThere(Shown(m))
  {
  }

  lemma ShownSpace(m: Mach, s: nat)
    requires Inv(m) && s in m.space
    ensures s in Shown(m).space && Shown(m).space[s] == Bare(m.space[s]) && |m.space[s].areas| == NVMA
    ensures Execd(Shown(m).space[s]) <==> Execd(m.space[s])
  {
  }

  // ---------------------------------------------------------------- directories do not matter

  lemma BareAreas(sp: Space, va: nat)
    ensures FlagsAt(Bare(sp), va) == FlagsAt(sp, va) && (InArea(Bare(sp), va) <==> InArea(sp, va))
    ensures |sp.areas| == NVMA ==> (Grows(Bare(sp), va) <==> Grows(sp, va)) && GrownStack(Bare(sp)) == Bare(GrownStack(sp))
  {
    hide FindArea, Within;
  }

  lemma BarePage(sp: Space, va: nat, file: Page, stale: Page)
    requires |sp.areas| == NVMA
    ensures FaultPage(Bare(sp), va, file, stale) == FaultPage(sp, va, file, stale)
  {
    hide FlagsAt, Grows, GrownStack, InArea;
    BareAreas(sp, va);
  }

  // ---------------------------------------------------------------- one access

  lemma AppearsIs(m: Mach, sp: Space, s: nat, va: nat, file: Page, stale: Page)
    requires Inv(m) && |sp.areas| == NVMA
    ensures Appears(Shown(m), Bare(sp), s, va, file, stale) == FaultEvents(m, sp, s, va, file, stale)
    ensures Stretched(Shown(m), Bare(sp), s, va) == Bare(FaultSpace(m, sp, s, va))
    ensures FaultSpace(m, sp, s, va).pgd == sp.pgd
  {
    hide Inv, FlagsAt, Grows, GrownStack, InArea, FaultPage, Shown;
    ShownPage(m, PageOf(s, va));
    BareAreas(sp, va);
    BarePage(sp, va, file, stale);
    GrownKeeps(sp);
  }

  lemma GrownKeeps(sp: Space)
    requires |sp.areas| == NVMA
    ensures GrownStack(sp).pgd == sp.pgd
  {
  }

  /** What was found in a page matters only where the stack grows. */
  lemma AppearsFound(e: Eager, sp: Space, s: nat, va: nat, file: Page, found: Page, found': Page)
    requires |sp.areas| == NVMA && (PageOf(s, va) !in e.pages && Grows(sp, va) ==> found' == found)
    ensures Appears(e, sp, s, va, file, found') == Appears(e, sp, s, va, file, found)
  {
    hide FlagsAt, Grows, InArea;
  }

  /** Sealed is what the store fault takes a page for. */
  lemma RefusesIs(m: Mach, sp: Space, s: nat, va: nat)
    requires Inv(m) && s in m.space && Execd(m.space[s]) && |sp.areas| == NVMA && KMEM_END <= va < LIMIT
    requires PageOf(s, va) in m.ledger ==> FlagsAt(sp, va) == FlagsAt(m.space[s], va)
    ensures Refuses(Shown(m), Bare(sp), s, va) <==> Refused(m, sp, s, va)
  {
    hide Inv, FlagsAt, Grows, GrownStack, InArea, Writable, PageAddr, PgAddr, Pdx, Ptx, Execd, View;
    ShownPage(m, PageOf(s, va));
    BareAreas(sp, va);
    Split(va);
    FlagsPage(m.space[s], va);
  }

  // ---------------------------------------------------------------- a range of pages

  lemma {:induction false} SpaceAtIs(m: Mach, s: nat, lo: nat, n: nat)
    requires Inv(m) && s in m.space && |m.space[s].areas| == NVMA
    ensures s in Shown(m).space && |Shown(m).space[s].areas| == NVMA
    ensures SpaceAt(Shown(m), s, lo, n) == Bare(SpaceAfter(m, s, lo, n)) && SpaceAfter(m, s, lo, n).pgd == m.space[s].pgd
  {
    hide Inv, FaultSpace, Stretched, Shown, Execd;
    ShownSpace(m, s);
    if n > 0 {
      SpaceAtIs(m, s, lo, n - 1);
      AppearsIs(m, SpaceAfter(m, s, lo, n - 1), s, lo + (n - 1) * PAGE, [], []);
    }
  }

  /** `found` is `stales` where the stack grows. */
  lemma {:induction false} RangeIs(m: Mach, s: nat, lo: nat, n: nat, file: Page, stales: map<nat, Page>, found: map<nat, Page>)
    requires Inv(m) && s in m.space && |m.space[s].areas| == NVMA && Supplied(m, s, lo, n, stales)
    requires forall a | a in stales && Stale(m, stales[a]) :: a in found && found[a] == stales[a]
    ensures s in Shown(m).space && |Shown(m).space[s].areas| == NVMA
    ensures RangeEvents(Shown(m), s, lo, n, file, found) == VerifyEvents(m, s, lo, n, file, stales)
  {
    hide Inv, FaultSpace, Stretched, Shown, Execd, Appears, FaultEvents, SpaceAfter, SpaceAt, Stale, Grows, Pdx, Ptx;
    SpaceAtIs(m, s, lo, 0);
    if n > 0 {
      var i: nat := n - 1;
      var sp, a := SpaceAfter(m, s, lo, i), lo + i * PAGE;
      assert Supplied(m, s, lo, i, stales);
      assert PageOf(s, a) !in m.ledger && Grows(sp, a) ==> a in stales && Stale(m, stales[a]);
      RangeIs(m, s, lo, n - 1, file, stales, found);
      SpaceAtIs(m, s, lo, n - 1);
      AppearsIs(m, sp, s, a, file, StaleAt(stales, a));
      ShownPage(m, PageOf(s, a));
      BareGrows(sp, a);
      AppearsFound(Shown(m), Bare(sp), s, a, file, StaleAt(stales, a), StaleAt(found, a));
    }
  }

  lemma BareGrows(sp: Space, va: nat)
    requires |sp.areas| == NVMA
    ensures Grows(Bare(sp), va) <==> Grows(sp, va)
  {
  }

  lemma GrowsBelow(sp: Space, va: nat)
    requires Execd(sp) && KMEM_END <= va < LIMIT && Grows(sp, va)
    ensures Execd(GrownStack(sp)) && forall a | InArea(sp, a) :: InArea(GrownStack(sp), a)
  {
    hide InArea, Grows;
    GrowStack(sp, va);
    if GrownStack(sp).areas == sp.areas { SameInArea(sp, GrownStack(sp)); }
  }

  lemma SameInArea(sp: Space, sp': Space)
    requires sp'.areas == sp.areas
    ensures forall a | InArea(sp, a) :: InArea(sp', a)
  {
  }

  /** What an area covers keeps its flags through a range of faults. */
  lemma {:induction false} RangeFlags(m: Mach, s: nat, lo: nat, n: nat, a: nat)
    requires Inv(m) && s in m.space && Execd(m.space[s]) && |m.space[s].areas| == NVMA && InArea(m.space[s], a)
    requires KMEM_END <= lo && lo + n * PAGE <= LIMIT
    ensures var sp := SpaceAfter(m, s, lo, n);
            Execd(sp) && InArea(sp, a) && FlagsAt(sp, a) == FlagsAt(m.space[s], a)
  {
    hide Inv, Execd, InArea, FlagsAt, Grows, GrownStack, PageOf;
    if n > 0 {
      RangeFlags(m, s, lo, n - 1, a);
      var sp, va := SpaceAfter(m, s, lo, n - 1), lo + (n - 1) * PAGE;
      if Grows(sp, va) {
        GrowsBelow(sp, va);
        GrownFlags(sp, va, a);
      }
    }
  }

  lemma RangeRefusesAt(m: Mach, s: nat, lo: nat, n: nat, i: nat)
    requires Inv(m) && s in m.space && Execd(m.space[s]) && |m.space[s].areas| == NVMA && i < n
    requires KMEM_END <= lo && lo + n * PAGE <= LIMIT
    ensures s in Shown(m).space && |Shown(m).space[s].areas| == NVMA
    ensures Refuses(Shown(m), SpaceAt(Shown(m), s, lo, i), s, lo + i * PAGE) <==>
            Refused(m, SpaceAfter(m, s, lo, i), s, lo + i * PAGE)
  {
    hide Inv, Execd, InArea, FlagsAt, Grows, Shown, SpaceAfter, SpaceAt, Refuses, Refused, Pdx, Ptx, PageAddr, PgAddr;
    SpaceAtIs(m, s, lo, i);
    var va := lo + i * PAGE;
    if PageOf(s, va) in m.ledger {
      LeafTable(m, PageOf(s, va));
      Split(va);
      WholePage(m.space[s], va);
      RangeFlags(m, s, lo, i, va);
    }
    RefusesIs(m, SpaceAfter(m, s, lo, i), s, va);
  }

  lemma RangeRefusesIs(m: Mach, s: nat, lo: nat, n: nat)
    requires Inv(m) && s in m.space && Execd(m.space[s]) && |m.space[s].areas| == NVMA
    requires KMEM_END <= lo && lo + n * PAGE <= LIMIT
    ensures s in Shown(m).space && |Shown(m).space[s].areas| == NVMA
    ensures RangeRefuses(Shown(m), s, lo, n) <==> SomeRefused(m, s, lo, n)
  {
    hide Inv, Execd, InArea, FlagsAt, Grows, Shown, SpaceAfter, SpaceAt, Refuses, Refused;
    SpaceAtIs(m, s, lo, 0);
    forall i: nat | i < n
      ensures Refuses(Shown(m), SpaceAt(Shown(m), s, lo, i), s, lo + i * PAGE) <==>
              Refused(m, SpaceAfter(m, s, lo, i), s, lo + i * PAGE)
    {
      RangeRefusesAt(m, s, lo, n, i);
    }
  }

  // ---------------------------------------------------------------- what comes after

  /** One address space has other areas, and the pages changed by these events. */
  lemma ShownAfter(m: Mach, m': Mach, s: nat, sp: Space, es: seq<Event>)
    requires Inv(m) && Inv(m') && s in m.space && sp.pgd == m.space[s].pgd
    requires m'.space == m.space[s := sp] && m'.rsvd == m.rsvd && Sealed(m') == Sealed(m)
    requires Pages(m') == Replay(Pages(m), es)
    ensures Shown(m') == Shown(m).(pages := Replay(Shown(m).pages, es), space := Shown(m).space[s := Bare(sp)])
  {
    hide Inv, Sealed, Replay, View;
    assert Bares(m'.space) == Bares(m.space)[s := Bare(sp)];
    assert Own(m') == Own(m);
  }

  /** The kernel's own pages do not show. */
  lemma ShownSame(m: Mach, m': Mach)
    requires Inv(m) && Inv(m') && m'.space == m.space && m'.rsvd == m.rsvd && Sealed(m') == Sealed(m) && Pages(m') == Pages(m)
    ensures Shown(m') == Shown(m)
  {
    hide Inv, Sealed, View;
    assert Own(m') == Own(m);
  }

  lemma ShownFork(m: Mach, m': Mach, p: nat, c: nat, stale: seq<Vma>)
    requires Inv(m) && Inv(m') && p in m.space && c !in m.space && c in m'.space && c < NPROC && |stale| == NVMA
    requires Cloned(m, m', p, c) && m'.space == m.space[c := m'.space[c]] && |m.space[p].areas| == NVMA
    requires m'.space[c].areas == Inherited(m.space[p].areas, stale)
    requires m'.space[c].pgd < |m'.rsvd| && !m'.rsvd[m'.space[c].pgd] && Pages(m') == ForkCopy(Pages(m), p, c)
    ensures Can(Shown(m), Fork(p, c, stale)) && Shown(m') == Next(Shown(m), Fork(p, c, stale), map[])
  {
    hide Inv, Sealed, View, ForkCopy, Cloned, Inherited, ReadOnly, Replay, Apply;
    var e, op := Shown(m), Fork(p, c, stale);
    ShownSpace(m, p);
    ReplayOne(e.pages, Forked(p, c));
    assert Apply(e.pages, Forked(p, c)) == ForkCopy(e.pages, p, c) by { AppliedFork(e.pages, p, c); }
    assert m'.rsvd == m.rsvd by { ClonedRsvd(m, m', p, c); }
    assert Bares(m'.space) == Spaces(e, op);
    assert Own(m') == Own(m) + {c};
    ForkSealed(m, m', p, c, stale);
  }

  lemma AppliedFork(a: Memory, p: nat, c: nat)
    ensures Apply(a, Forked(p, c)) == ForkCopy(a, p, c)
  {
  }

  lemma ClonedRsvd(m: Mach, m': Mach, p: nat, c: nat)
    requires Cloned(m, m', p, c)
    ensures m'.rsvd == m.rsvd
  {
  }

  lemma ReadOnlyIs(m: Mach, r: Ref)
    requires Inv(m)
    ensures ReadOnly(Shown(m), r) <==> ReadOnlyAt(m, r)
  {
    hide Inv, FlagsAt, Sealed;
    ShownPage(m, r);
    if r.Leaf? && r.s in m.space { BareAreas(m.space[r.s], PageAddr(r.d, r.t)); }
  }

  lemma ForkSealed(m: Mach, m': Mach, p: nat, c: nat, stale: seq<Vma>)
    requires Inv(m) && Inv(m') && p in m.space && c !in m.space && c in m'.space && |stale| == NVMA
    requires Cloned(m, m', p, c) && m'.space == m.space[c := m'.space[c]] && |m.space[p].areas| == NVMA
    requires m'.space[c].areas == Inherited(m.space[p].areas, stale) && Pages(m') == ForkCopy(Pages(m), p, c)
    ensures Sealed(m') == Seals(Shown(m), Fork(p, c, stale))
  {
    hide Inv, View, ForkCopy, Cloned, Inherited, ReadOnly, Shown, ReadOnlyAt, Pages;
    var e := Shown(m);
    ClonedSealed(m, m', p, c, stale);
    assert e.sealed == Sealed(m) && e.pages == Pages(m) by { ShownParts(m); }
    forall r: Ref ensures r in Sealed(m') <==> r in Seals(e, Fork(p, c, stale)) {
      ReadOnlyIs(m, r);
      if r.Leaf? { ReadOnlyIs(m, Leaf(p, r.d, r.t)); }
      ShownPage(m', r);
      ShownParts(m');
    }
  }

  lemma ShownParts(m: Mach)
    requires Inv(m)
    ensures Shown(m).sealed == Sealed(m) && Shown(m).pages == Pages(m)
    ensures forall r | r in Sealed(m) :: r in Pages(m) && r.Leaf?
  {
  }

  lemma ShownDrop(m: Mach, m': Mach, s: nat)
    requires Inv(m) && Inv(m') && s in m.space && Only(m, m', Owned(m, s))
    requires forall r: Ref | r in m'.ledger && r.Leaf? :: r.s != s
    requires forall q | q in m.space && q != s :: q in m'.space && m'.space[q] == m.space[q]
    ensures Sealed(m') == set r | r in Shown(m).sealed && r.Leaf? && r.s != s
  {
    hide Inv, Only, Sealed, Shown;
    DroppedSealed(m, m', s);
    ShownParts(m);
  }

  lemma NoPagesLeft(m: Mach, m': Mach, s: nat)
    requires Inv(m) && Inv(m') && Pages(m') == Apply(Pages(m), Dropped(s))
    ensures forall r: Ref | r in m'.ledger && r.Leaf? :: r.s != s
  {
    hide Inv, Apply, Pages;
    forall r: Ref | r in m'.ledger && r.Leaf? ensures r.s != s {
      ShownPage(m', r);
      DroppedAt(Pages(m), s, r);
    }
  }

  lemma DroppedAt(a: Memory, s: nat, r: Ref)
    ensures r in Apply(a, Dropped(s)) <==> r in a && !(r.Leaf? && r.s == s)
  {
  }

  lemma ShownExec(m: Mach, m': Mach, s: nat, image: Image)
    requires Inv(m) && Inv(m') && s in m.space && Aligned(image) && Only(m, m', Owned(m, s))
    requires m'.space == m.space[s := Space(m.space[s].pgd, ImageAreas(image))] && Pages(m') == Apply(Pages(m), Dropped(s))
    ensures Can(Shown(m), Exec(s, image)) && Shown(m') == Next(Shown(m), Exec(s, image), map[])
  {
    hide Inv, Sealed, View, Only, Replay, Apply, Aligned, ImageAreas;
    var e := Shown(m);
    ShownSpace(m, s);
    ReplayOne(e.pages, Dropped(s));
    NoPagesLeft(m, m', s);
    ShownDrop(m, m', s);
    OnlyRsvd(m, m', Owned(m, s));
    assert Bares(m'.space) == Bares(m.space)[s := Space(0, ImageAreas(image))];
    assert Own(m') == Own(m);
  }

  lemma OnlyRsvd(m: Mach, m': Mach, x: set<Ref>)
    requires Only(m, m', x)
    ensures m'.rsvd == m.rsvd
  {
  }

  lemma ShownExit(m: Mach, m': Mach, s: nat)
    requires Inv(m) && Inv(m') && s in Own(m) && Only(m, m', Owned(m, s))
    requires m'.space == m.space - {s} && Pages(m') == Apply(Pages(m), Dropped(s))
    ensures Can(Shown(m), Exit(s)) && Shown(m') == Next(Shown(m), Exit(s), map[])
  {
    hide Inv, Sealed, View, Only, Replay, Apply;
    var e := Shown(m);
    ReplayOne(e.pages, Dropped(s));
    NoPagesLeft(m, m', s);
    ShownDrop(m, m', s);
    OnlyRsvd(m, m', Owned(m, s));
    assert Bares(m'.space) == Bares(m.space) - {s};
    assert Own(m') == Own(m) - {s};
  }
}
