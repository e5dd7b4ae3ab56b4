/** Write protection of pages in read-only areas. Such pages are mapped writable and lose the
    permission only when they are shared; from then on stores to them are refused. */
module Sealing {
  import opened FrameLedger
  import opened Ledgers
  import opened Paging
  import opened EagerMemory
  import opened ForkSteps
  import opened SpaceSteps
  import opened Params

  /** r is a page of a read-only area. */
  ghost predicate ReadOnlyAt(m: Mach, r: Ref) {
    r in m.ledger && r.Leaf? && r.s in m.space && RdOnly in FlagsAt(m.space[r.s], PageAddr(r.d, r.t))
  }

  /** The pages of read-only areas that are write-protected. */
  ghost function Sealed(m: Mach): set<Ref> {
    set r | r in m.ledger && ReadOnlyAt(m, r) && !Writable(m, r)
  }

  ghost predicate SealedSame(m: Mach, m': Mach, r: Ref) {
    r in Sealed(m') <==> r in Sealed(m)
  }

  lemma SealedAll(m: Mach, m': Mach)
    requires forall r: Ref | r.Leaf? :: SealedSame(m, m', r)
    ensures Sealed(m') == Sealed(m)
  {
    forall r: Ref ensures r in Sealed(m') <==> r in Sealed(m) { assert r.Leaf? ==> SealedSame(m, m', r); }
  }

  /** An address that an area covers keeps its flags when the stack, the last area, grows. */
  lemma GrownFlags(sp: Space, va: nat, a: nat)
    requires Execd(sp) && KMEM_END <= va < LIMIT && Grows(sp, va) && InArea(sp, a)
    ensures FlagsAt(GrownStack(sp), a) == FlagsAt(sp, a)
  {
    GrowStack(sp, va);
    var b, b' := sp.areas[STACK], GrownStack(sp).areas[STACK];
    assert AreaOk(b);
    assert b'.base == b.base - PAGE && b'.size == b.size + PAGE;
    var k, k' := FindArea(sp.areas, a, 0), FindArea(GrownStack(sp).areas, a, 0);
    assert k < NVMA && Within(GrownStack(sp).areas[k], a);
    assert k' <= k;
    assert k' < STACK ==> Within(sp.areas[k'], a);
  }

  /** A page that is the same, in areas that cover it as before. */
  lemma SealedKept(m: Mach, m': Mach, r: Ref)
    requires Inv(m) && r.Leaf? && Same(m, m', r)
    requires r in m.ledger ==> r.s in m.space && r.s in m'.space
    requires r in m.ledger ==> FlagsAt(m'.space[r.s], PageAddr(r.d, r.t)) == FlagsAt(m.space[r.s], PageAddr(r.d, r.t))
    ensures SealedSame(m, m', r)
  {
    hide FlagsAt, Writable, Live;
    LiveOf(m, r);
  }

  lemma LiveOf(m: Mach, r: Ref)
    requires Inv(m)
    ensures r in m.ledger ==> Live(m, r)
  {
  }

  /** A fault at va seals nothing and unseals nothing, if the page of va keeps its permission
      or appears writable. */
  lemma FaultSealed(m: Mach, m': Mach, s: nat, va: nat)
    requires Inv(m) && Inv(m') && UserAddress(m, s, va) && |m.space[s].areas| == NVMA && OnlyPage(m, m', s, va)
    requires m'.space == m.space[s := FaultSpace(m, m.space[s], s, va)]
    requires PageOf(s, va) in m.ledger ==> PageOf(s, va) in m'.ledger
    requires PageOf(s, va) in m'.ledger && RdOnly in FlagsAt(m'.space[s], va) ==>
               (Writable(m', PageOf(s, va)) <==> (PageOf(s, va) in m.ledger ==> Writable(m, PageOf(s, va))))
    ensures Sealed(m') == Sealed(m)
  {
    hide Inv, Writable, FlagsAt, Grows, InArea, Execd, GrownStack, Same, Sealed, Pdx, Ptx;
    forall r: Ref | r.Leaf? ensures SealedSame(m, m', r) {
      if r == PageOf(s, va) {
        FaultedSealed(m, m', s, va);
      } else {
        assert Same(m, m', r);
        if r in m.ledger { CoveredFlags(m, m', s, va, r); }
        SealedKept(m, m', r);
      }
    }
    SealedAll(m, m');
  }

  lemma CoveredFlags(m: Mach, m': Mach, s: nat, va: nat, r: Ref)
    requires Inv(m) && UserAddress(m, s, va) && |m.space[s].areas| == NVMA && r in m.ledger && r.Leaf?
    requires m'.space == m.space[s := FaultSpace(m, m.space[s], s, va)]
    ensures r.s in m.space && r.s in m'.space
    ensures FlagsAt(m'.space[r.s], PageAddr(r.d, r.t)) == FlagsAt(m.space[r.s], PageAddr(r.d, r.t))
  {
    hide Inv, FlagsAt, Grows, InArea, GrownStack, PageAddr;
    LeafTable(m, r);
    if r.s == s && Grows(m.space[s], va) { GrownFlags(m.space[s], va, PageAddr(r.d, r.t)); }
  }

  lemma FaultedSealed(m: Mach, m': Mach, s: nat, va: nat)
    requires Inv(m) && Inv(m') && UserAddress(m, s, va) && |m.space[s].areas| == NVMA
    requires m'.space == m.space[s := FaultSpace(m, m.space[s], s, va)]
    requires PageOf(s, va) in m.ledger ==> PageOf(s, va) in m'.ledger
    requires PageOf(s, va) in m'.ledger && RdOnly in FlagsAt(m'.space[s], va) ==>
               (Writable(m', PageOf(s, va)) <==> (PageOf(s, va) in m.ledger ==> Writable(m, PageOf(s, va))))
    ensures SealedSame(m, m', PageOf(s, va))
  {
    hide Inv, Writable, FlagsAt, Grows, InArea, GrownStack, Execd, Pdx, Ptx, PageAddr, PgAddr;
    Split(va);
    FlagsPage(m.space[s], va);
    if PageOf(s, va) in m'.ledger {
      LeafTable(m', PageOf(s, va));
      FlagsPage(m'.space[s], va);
    }
  }

  /** Steps that leave all user pages and areas as they are. */
  lemma SameSealed(m: Mach, m': Mach)
    requires Inv(m) && m'.space == m.space
    requires forall r: Ref | r.Leaf? :: (r in m'.ledger <==> r in m.ledger) && SameAt(m, m', r)
    ensures Sealed(m') == Sealed(m)
  {
    hide FlagsAt, Writable;
    forall r: Ref ensures r in Sealed(m') <==> r in Sealed(m) { LiveOf(m, r); }
  }

  /** A store to a page changes no permission. */
  lemma PokeSealed(m: Mach, m': Mach, r: Ref)
    requires Inv(m) && m'.space == m.space && m'.ledger == m.ledger && forall r' :: SameAt(m, m', r')
    ensures Sealed(m') == Sealed(m) && (r in m.ledger ==> Writable(m', r) == Writable(m, r))
  {
    hide Inv, Writable, FlagsAt;
    LiveOf(m, r);
    assert SameAt(m, m', r);
    SameSealed(m, m');
  }

  lemma OnlySealed(m: Mach, m': Mach, x: set<Ref>)
    requires Inv(m) && m'.space == m.space && Only(m, m', x) && forall r | r in x :: !r.Leaf?
    ensures Sealed(m') == Sealed(m)
  {
    hide SameAt, FlagsAt, Writable, Inv;
    forall r: Ref | r.Leaf? ensures (r in m'.ledger <==> r in m.ledger) && SameAt(m, m', r) {
      assert Same(m, m', r);
    }
    SameSealed(m, m');
  }

  /** The pages of s. */
  ghost function PagesOf(x: set<Ref>, s: nat): set<Ref> {
    set r | r in x && r.Leaf? && r.s == s
  }

  /** An address space that is given up takes its sealed pages with it. */
  lemma DroppedSealed(m: Mach, m': Mach, s: nat)
    requires Inv(m) && Only(m, m', Owned(m, s)) && forall r: Ref | r in m'.ledger && r.Leaf? :: r.s != s
    requires forall q | q in m.space && q != s :: q in m'.space && m'.space[q] == m.space[q]
    ensures Sealed(m') == Sealed(m) - PagesOf(Sealed(m), s)
  {
    hide SameAt, FlagsAt, Writable, Inv, SealedSame;
    forall r: Ref ensures r in Sealed(m') <==> r in Sealed(m) && r.s != s {
      if r.Leaf? && r.s != s {
        assert Same(m, m', r);
        if r in m.ledger { LeafTable(m, r); }
        SealedKept(m, m', r);
        SealedIs(m, m', r);
      }
    }
  }

  lemma SealedIs(m: Mach, m': Mach, r: Ref)
    requires SealedSame(m, m', r)
    ensures r in Sealed(m') <==> r in Sealed(m)
  {
  }

  /** A fork seals the pages of read-only areas on both sides. */
  ghost predicate ForkSeals(m: Mach, m': Mach, p: nat, c: nat) {
    forall r: Ref :: r in Sealed(m') <==>
      || r in Sealed(m)
      || (ReadOnlyAt(m, r) && r.s == p)
      || (r.Leaf? && r.s == c && ReadOnlyAt(m, Leaf(p, r.d, r.t)))
  }

  lemma ClonedSealed(m: Mach, m': Mach, p: nat, c: nat, stale: seq<Vma>)
    requires Inv(m) && Inv(m') && Cloned(m, m', p, c) && p != c && p in m.space && c in m'.space && |stale| == NVMA
    requires |m.space[p].areas| == NVMA && m'.space == m.space[c := m'.space[c]] && c !in m.space
    requires m'.space[c].areas == Inherited(m.space[p].areas, stale)
    ensures ForkSeals(m, m', p, c)
  {
    hide Inv, FlagsAt, Writable, Cloned, SameAt, Inherited;
    forall r: Ref ensures r in Sealed(m') <==>
      || r in Sealed(m)
      || (ReadOnlyAt(m, r) && r.s == p)
      || (r.Leaf? && r.s == c && ReadOnlyAt(m, Leaf(p, r.d, r.t)))
    {
      if r.Leaf? {
        ClonedLeaf(m, m', p, c, r);
        if r.s == c && r in m'.ledger {
          LeafTable(m, Leaf(p, r.d, r.t));
          InheritedAll(m.space[p], stale);
          assert FlagsAt(m'.space[c], PageAddr(r.d, r.t)) == FlagsAt(m.space[p], PageAddr(r.d, r.t)) by {
            SameFlags(m'.space[c], m.space[p], PageAddr(r.d, r.t));
          }
        }
        if r in m.ledger { LeafTable(m, r); LiveOf(m, r); }
      }
    }
  }

  lemma SameFlags(sp: Space, sp': Space, a: nat)
    requires sp.areas == sp'.areas
    ensures FlagsAt(sp, a) == FlagsAt(sp', a)
  {
  }

  lemma InheritedAll(sp: Space, stale: seq<Vma>)
    requires Execd(sp) && |stale| == NVMA
    ensures Inherited(sp.areas, stale) == sp.areas
  {
    forall i | 0 <= i < NVMA ensures Inherited(sp.areas, stale)[i] == sp.areas[i] { assert AreaOk(sp.areas[i]); }
  }

  /** After a clone the pages of both sides are write-protected; the others are as before. */
  lemma ClonedLeaf(m: Mach, m': Mach, p: nat, c: nat, r: Ref)
    requires Inv(m) && Inv(m') && Cloned(m, m', p, c) && p != c && r.Leaf?
    ensures r.s == c ==> r !in m.ledger && (r in m'.ledger <==> Leaf(p, r.d, r.t) in m.ledger)
    ensures r.s != c ==> (r in m'.ledger <==> r in m.ledger)
    ensures (r.s == c || r.s == p) && r in m'.ledger ==> !Writable(m', r)
    ensures r.s != c && r.s != p && r in m.ledger ==> Writable(m', r) == Writable(m, r)
  {
    hide Writable, FreeOk, Counted, FlagsOk, Covered, Live;
    assert r == Leaf(r.s, r.d, r.t);
    var a, b := Leaf(p, r.d, r.t), Leaf(c, r.d, r.t);
    assert !Of(a, c) && Kept(m, m', a);
    assert r.s != c ==> !Of(r, c) && Kept(m, m', r);
    assert a in m.ledger ==> b in m'.ledger && m'.ledger[b] == m.ledger[a] == m'.ledger[a];
    LiveOf(m, r);
  }

  // ---------------------------------------------------------------- vm_verify

  /** The state of `vm_verify` after n pages, as a whole. */
  ghost predicate Checked(m0: Mach, m: Mach, s: nat, lo: nat, n: nat, file: Page, stales: map<nat, Page>, es: seq<Event>, raised: bool)
    requires s in m0.space && |m0.space[s].areas| == NVMA
  {
    && InMemory(m0) && InMemory(m) && View(m) == Replay(View(m0), es) && Sealed(m) == Sealed(m0)
    && Verified(m0, m, s, lo, n, file, stales, es, raised) && m.space.Keys == m0.space.Keys
    && (!raised ==> SoleRange(m, s, lo, lo + n * PAGE))
  }

  lemma StartCheck(m: Mach, s: nat, lo: nat, file: Page)
    requires Inv(m) && s in m.space && |m.space[s].areas| == NVMA
    ensures Checked(m, m, s, lo, 0, file, map[], [], false)
  {
    hide Inv, Sealed, View, SoleRange, Verified;
    Facts(m);
    ReplayNone(View(m));
    StartVerify(m, s, lo, file);
    SoleEmpty(m, s, lo);
  }

  /** One page more. */
  lemma CheckedStep(m0: Mach, m: Mach, m': Mach, s: nat, lo: nat, n: nat, file: Page, stales: map<nat, Page>,
                    es: seq<Event>, raised: bool, e: seq<Event>, stale: Page, refused: bool)
    requires Inv(m0) && Inv(m) && Inv(m') && s in m0.space && |m0.space[s].areas| == NVMA
    requires Checked(m0, m, s, lo, n, file, stales, es, raised)
    requires KMEM_END <= lo && lo % PAGE == 0 && lo + n * PAGE < LIMIT
    requires OnlyPage(m, m', s, lo + n * PAGE) && Shrinks(m, m') && Sealed(m') == Sealed(m)
    requires s in m.space && |m.space[s].areas| == NVMA
    requires m'.space == m.space[s := FaultSpace(m, m.space[s], s, lo + n * PAGE)]
    requires e == FaultEvents(m, m.space[s], s, lo + n * PAGE, file, stale)
    requires InMemory(m) && InMemory(m') && View(m') == Replay(View(m), e)
    requires PageOf(s, lo + n * PAGE) !in m.ledger && Grows(m.space[s], lo + n * PAGE) ==> Stale(m, stale)
    requires refused <==> Forbidden(m, s, lo + n * PAGE)
    requires !refused ==> SolePage(m', PageOf(s, lo + n * PAGE))
    ensures Checked(m0, m', s, lo, n + 1, file, stales[lo + n * PAGE := stale], es + e, raised || refused)
  {
    hide Inv, View, Replay, OnlyPage, SolePage, SoleRange, Shrinks, Verified, FaultEvents, FaultSpace, Forbidden, Refused, PageOf, Grows, Sealed, Stale;
    var va := lo + n * PAGE;
    ReplayConcat(View(m0), es, e);
    ForbiddenIs(m, s, va);
    VerifiedStep(m0, m, m', s, lo, n, file, stales, es, raised, e, stale, refused);
    if !raised && !refused {
      AlignedStep(lo, n);
      SoleExtend(m, m', s, lo, va);
    }
  }

  lemma AlignedStep(lo: nat, n: nat)
    requires lo % PAGE == 0
    ensures (lo + n * PAGE) % PAGE == 0
  {
  }

  lemma CheckedFacts(m0: Mach, m: Mach, s: nat, lo: nat, n: nat, file: Page, stales: map<nat, Page>, es: seq<Event>, raised: bool)
    requires s in m0.space && |m0.space[s].areas| == NVMA && Checked(m0, m, s, lo, n, file, stales, es, raised)
    ensures InMemory(m0) && InMemory(m) && View(m) == Replay(View(m0), es) && Sealed(m) == Sealed(m0)
    ensures Verified(m0, m, s, lo, n, file, stales, es, raised) && Elsewhere(m0, m, s) && m.space.Keys == m0.space.Keys
    ensures !raised ==> SoleRange(m, s, lo, lo + n * PAGE)
  {
    hide Sealed, View, SoleRange, Verified, Elsewhere;
    VerifiedElsewhere(m0, m, s, lo, n, file, stales, es, raised);
  }
}
