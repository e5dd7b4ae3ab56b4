/** The kernel as programs may think of it: every process owns its pages outright, `fork`
    copies them at once, and what an operation does is decided from pages and areas alone.
    One trace of the real kernel is left, the set of sealed pages. */
module EagerKernel {
  import opened FrameLedger
  import opened Paging
  import opened EagerMemory
  import opened SpaceSteps
  import opened Params

  datatype Op =
    | Fork(p: nat, c: nat, stale: seq<Vma>)
    | Exec(s: nat, image: Image)
    | Exit(s: nat)
    | Load(s: nat, va: nat, file: Page)                         // a user load
    | Store(s: nat, va: nat, w: Word, file: Page)               // a user store
    | Verify(s: nat, addr: nat, size: nat, file: Page)          // vm_verify
    | CopyOut(s: nat, va: nat, w: Word, file: Page)             // vm_verify, then a store by the kernel
    | KAlloc                                                    // kmalloc of a page
    | KFree(f: nat)                                             // kfree of a page

  /** Contents of all pages; areas of all processes, with no directory; the processes that
      can exit; the pages of read-only areas to which stores are refused. */
  datatype Eager = Eager(pages: Memory, space: map<nat, Space>, own: set<nat>, sealed: set<Ref>)

  function Bare(sp: Space): Space { sp.(pgd := 0) }

  /** The operations that can be asked for. */
  ghost predicate Can(e: Eager, op: Op) {
    match op
    case Fork(p, c, stale) =>
      p in e.space && c !in e.space && c < NPROC && |stale| == NVMA && |e.space[p].areas| == NVMA
    case Exec(s, image) => s in e.space && Aligned(image)
    case Exit(s) => s in e.space && s in e.own
    case Load(s, va, file) => s in e.space && Execd(e.space[s]) && KMEM_END <= va < LIMIT && |file| == PTRS
    case Store(s, va, _, file) => s in e.space && Execd(e.space[s]) && KMEM_END <= va < LIMIT && |file| == PTRS
    case Verify(s, addr, size, file) =>
      s in e.space && Execd(e.space[s]) && addr < LIMIT && size < LIMIT && |file| == PTRS
    case CopyOut(s, va, _, file) =>
      s in e.space && Execd(e.space[s]) && KMEM_END <= va < LIMIT && va % 4 == 0 && |file| == PTRS
    case KAlloc => true
    case KFree(_) => true
  }

  // ---------------------------------------------------------------- one access

  /** An absent page appears if something backs it: zeros, a page of the file or, where the
      stack grows, what was found in the new frame. */
  ghost function Appears(e: Eager, sp: Space, s: nat, va: nat, file: Page, found: Page): seq<Event>
    requires |sp.areas| == NVMA
  {
    if PageOf(s, va) !in e.pages && (Grows(sp, va) || InArea(sp, va)) then
      [Filled(PageOf(s, va), FaultPage(sp, va, file, found))]
    else []
  }

  ghost function Stretched(e: Eager, sp: Space, s: nat, va: nat): (sp': Space)
    requires |sp.areas| == NVMA
    ensures |sp'.areas| == NVMA
  {
    if PageOf(s, va) !in e.pages && Grows(sp, va) then GrownStack(sp) else sp
  }

  /** A store that raises SIGSEGV: to an absent page that nothing backs, or to a sealed one. */
  ghost predicate Refuses(e: Eager, sp: Space, s: nat, va: nat)
    requires |sp.areas| == NVMA
  {
    if PageOf(s, va) in e.pages then PageOf(s, va) in e.sealed else !Grows(sp, va) && !InArea(sp, va)
  }

  // ---------------------------------------------------------------- a range of pages

  ghost function SpaceAt(e: Eager, s: nat, lo: nat, n: nat): (sp: Space)
    requires s in e.space && |e.space[s].areas| == NVMA
    ensures |sp.areas| == NVMA
  {
    if n == 0 then e.space[s] else Stretched(e, SpaceAt(e, s, lo, n - 1), s, lo + (n - 1) * PAGE)
  }

  ghost function RangeEvents(e: Eager, s: nat, lo: nat, n: nat, file: Page, found: map<nat, Page>): seq<Event>
    requires s in e.space && |e.space[s].areas| == NVMA
  {
    if n == 0 then []
    else
      var a := lo + (n - 1) * PAGE;
      RangeEvents(e, s, lo, n - 1, file, found) + Appears(e, SpaceAt(e, s, lo, n - 1), s, a, file, StaleAt(found, a))
  }

  ghost predicate RangeRefuses(e: Eager, s: nat, lo: nat, n: nat)
    requires s in e.space && |e.space[s].areas| == NVMA
  {
    exists i: nat :: i < n && Refuses(e, SpaceAt(e, s, lo, i), s, lo + i * PAGE)
  }

  // ---------------------------------------------------------------- one operation

  /** How many pages `vm_verify` looks at; below the user addresses it refuses to look. */
  function Span(op: Op): nat {
    if op.Verify? then if op.addr < KMEM_END then 0 else PageCount(op.addr, op.size) else 1
  }

  /** What the operation does to the pages; `found` holds what was in new stack pages. */
  ghost function Events(e: Eager, op: Op, found: map<nat, Page>): seq<Event> {
    if !Can(e, op) then []
    else match op
      case Fork(p, c, _) => [Forked(p, c)]
      case Exec(s, _) => [Dropped(s)]
      case Exit(s) => [Dropped(s)]
      case Load(s, va, file) => Appears(e, e.space[s], s, va, file, StaleAt(found, PgAddr(va)))
      case Store(s, va, w, file) =>
        if Refuses(e, e.space[s], s, va) then []
        else Appears(e, e.space[s], s, va, file, StaleAt(found, PgAddr(va))) + [Stored(PageOf(s, va), va % PAGE / 4, w)]
      case Verify(s, addr, _, file) => RangeEvents(e, s, PgAddr(addr), Span(op), file, found)
      case CopyOut(s, va, w, file) =>
        RangeEvents(e, s, PgAddr(va), 1, file, found) +
        (if RangeRefuses(e, s, PgAddr(va), 1) then [] else [Stored(PageOf(s, va), va % PAGE / 4, w)])
      case KAlloc => []
      case KFree(_) => []
  }

  /** Does the operation raise SIGSEGV? */
  ghost predicate Raises(e: Eager, op: Op) {
    Can(e, op) && match op
      case Load(s, va, _) => PageOf(s, va) !in e.pages && !Grows(e.space[s], va) && !InArea(e.space[s], va)
      case Store(s, va, _, _) => Refuses(e, e.space[s], s, va)
      case Verify(s, addr, _, _) => RangeRefuses(e, s, PgAddr(addr), Span(op))
      case CopyOut(s, va, _, _) => RangeRefuses(e, s, PgAddr(va), 1)
      case _ => false
  }

  /** The areas afterwards. */
  ghost function Spaces(e: Eager, op: Op): map<nat, Space>
    requires Can(e, op)
  {
    match op
    case Fork(p, c, stale) => e.space[c := Space(0, Inherited(e.space[p].areas, stale))]
    case Exec(s, image) => e.space[s := Space(0, ImageAreas(image))]
    case Exit(s) => e.space - {s}
    case Load(s, va, _) => e.space[s := Stretched(e, e.space[s], s, va)]
    case Store(s, va, _, _) => e.space[s := Stretched(e, e.space[s], s, va)]
    case Verify(s, addr, _, _) => e.space[s := SpaceAt(e, s, PgAddr(addr), Span(op))]
    case CopyOut(s, va, _, _) => e.space[s := SpaceAt(e, s, PgAddr(va), 1)]
    case KAlloc => e.space
    case KFree(_) => e.space
  }

  function Owns(e: Eager, op: Op): set<nat> {
    match op
    case Fork(_, c, _) => e.own + {c}
    case Exit(s) => e.own - {s}
    case _ => e.own
  }

  /** r is a page of a read-only area. */
  ghost predicate ReadOnly(e: Eager, r: Ref) {
    r in e.pages && r.Leaf? && r.s in e.space && RdOnly in FlagsAt(e.space[r.s], PageAddr(r.d, r.t))
  }

  /** A fork seals the pages of read-only areas, of the parent and of the child. */
  ghost predicate SealsAt(e: Eager, p: nat, c: nat, r: Ref) {
    || r in e.sealed
    || (ReadOnly(e, r) && r.s == p)
    || (r.Leaf? && r.s == c && ReadOnly(e, Leaf(p, r.d, r.t)))
  }

  ghost function Seals(e: Eager, op: Op): set<Ref> {
    match op
    case Fork(p, c, _) => set r | r in ForkCopy(e.pages, p, c) && SealsAt(e, p, c, r)
    case Exec(s, _) => set r | r in e.sealed && r.Leaf? && r.s != s
    case Exit(s) => set r | r in e.sealed && r.Leaf? && r.s != s
    case _ => e.sealed
  }

  ghost function Next(e: Eager, op: Op, found: map<nat, Page>): Eager {
    if !Can(e, op) then e
    else Eager(Replay(e.pages, Events(e, op, found)), Spaces(e, op), Owns(e, op), Seals(e, op))
  }

  /** The state after i operations. */
  ghost function Reached(e: Eager, ops: seq<Op>, found: seq<map<nat, Page>>, i: nat): Eager
    requires i <= |ops| && i <= |found|
  {
    if i == 0 then e else Next(Reached(e, ops, found, i - 1), ops[i - 1], found[i - 1])
  }

  // ---------------------------------------------------------------- whose pages change

  /** Whose pages an operation may change. */
  predicate Affects(op: Op, s: nat) {
    match op
    case Fork(_, c, _) => c == s
    case Exec(s', _) => s' == s
    case Exit(s') => s' == s
    case Load(s', _, _) => s' == s
    case Store(s', _, _, _) => s' == s
    case Verify(s', _, _, _) => s' == s
    case CopyOut(s', _, _, _) => s' == s
    case KAlloc => false
    case KFree(_) => false
  }

  /** The events of an operation are those of the process it belongs to. */
  lemma EventsTouch(e: Eager, op: Op, found: map<nat, Page>, s: nat)
    requires !Affects(op, s)
    ensures forall ev | ev in Events(e, op, found) :: !Touches(ev, s)
  {
    hide FaultPage, Grows, InArea, Execd, RangeRefuses, Refuses, RangeEvents, PageCount, PgAddr;
    if Can(e, op) {
      ExecdSize(e, op);
      if op.Verify? { RangeTouch(e, op.s, PgAddr(op.addr), Span(op), op.file, found, s); }
      if op.CopyOut? { RangeTouch(e, op.s, PgAddr(op.va), 1, op.file, found, s); }
    }
  }

  lemma ExecdSize(e: Eager, op: Op)
    requires Can(e, op)
    ensures op.Load? || op.Store? || op.Verify? || op.CopyOut? ==> op.s in e.space && |e.space[op.s].areas| == NVMA
  {
  }

  lemma {:induction false} RangeTouch(e: Eager, p: nat, lo: nat, n: nat, file: Page, found: map<nat, Page>, s: nat)
    requires p in e.space && |e.space[p].areas| == NVMA && p != s
    ensures forall ev | ev in RangeEvents(e, p, lo, n, file, found) :: !Touches(ev, s)
  {
    hide FaultPage, Grows, InArea;
    if n > 0 { RangeTouch(e, p, lo, n - 1, file, found, s); }
  }

  // ---------------------------------------------------------------- a fork that copies every page

  /** A kernel whose fork copies every page at once never shares one, so it never seals one. */
  function Unsealed(e: Eager): Eager { e.(sealed := {}) }

  ghost function Copying(e: Eager, ops: seq<Op>, found: seq<map<nat, Page>>, i: nat): Eager
    requires i <= |ops| && i <= |found|
  {
    if i == 0 then Unsealed(e) else Unsealed(Next(Copying(e, ops, found, i - 1), ops[i - 1], found[i - 1]))
  }

  ghost predicate SealedThere(e: Eager) {
    e.sealed <= e.pages.Keys
  }

  /** A page of the range is sealed, and nothing else in it is refused. */
  ghost predicate RangeHits(e: Eager, s: nat, lo: nat, n: nat)
    requires s in e.space && |e.space[s].areas| == NVMA
  {
    && (exists i: nat :: i < n && PageOf(s, lo + i * PAGE) in e.sealed)
    && !RangeRefuses(Unsealed(e), s, lo, n)
  }

  /** The operation stores, or asks to store, to a sealed page. */
  ghost predicate Hits(e: Eager, op: Op) {
    Can(e, op) && match op
      case Store(s, va, _, _) => PageOf(s, va) in e.sealed
      case Verify(s, addr, _, _) => RangeHits(e, s, PgAddr(addr), Span(op))
      case CopyOut(s, va, _, _) => RangeHits(e, s, PgAddr(va), 1)
      case _ => false
  }

  lemma {:induction false} SpaceAtUnsealed(e: Eager, s: nat, lo: nat, n: nat)
    requires s in e.space && |e.space[s].areas| == NVMA
    ensures SpaceAt(Unsealed(e), s, lo, n) == SpaceAt(e, s, lo, n)
  {
    hide Grows, GrownStack, PageOf;
    if n > 0 { SpaceAtUnsealed(e, s, lo, n - 1); }
  }

  lemma {:induction false} RangeUnsealed(e: Eager, s: nat, lo: nat, n: nat, file: Page, found: map<nat, Page>)
    requires s in e.space && |e.space[s].areas| == NVMA
    ensures RangeEvents(Unsealed(e), s, lo, n, file, found) == RangeEvents(e, s, lo, n, file, found)
  {
    hide Grows, GrownStack, PageOf, InArea, FaultPage;
    if n > 0 {
      SpaceAtUnsealed(e, s, lo, n - 1);
      RangeUnsealed(e, s, lo, n - 1, file, found);
    }
  }

  lemma RangeDiffers(e: Eager, s: nat, lo: nat, n: nat)
    requires SealedThere(e) && s in e.space && |e.space[s].areas| == NVMA
    ensures RangeRefuses(e, s, lo, n) != RangeRefuses(Unsealed(e), s, lo, n) <==> RangeHits(e, s, lo, n)
  {
    hide Grows, InArea, SpaceAt, PageOf;
    var u := Unsealed(e);
    if i: nat :| i < n && Refuses(e, SpaceAt(e, s, lo, i), s, lo + i * PAGE) {
      SpaceAtUnsealed(e, s, lo, i);
      assert PageOf(s, lo + i * PAGE) in e.sealed || Refuses(u, SpaceAt(u, s, lo, i), s, lo + i * PAGE);
    }
    if i: nat :| i < n && Refuses(u, SpaceAt(u, s, lo, i), s, lo + i * PAGE) {
      SpaceAtUnsealed(e, s, lo, i);
      assert Refuses(e, SpaceAt(e, s, lo, i), s, lo + i * PAGE);
    }
    if i: nat :| i < n && PageOf(s, lo + i * PAGE) in e.sealed {
      assert Refuses(e, SpaceAt(e, s, lo, i), s, lo + i * PAGE);
    }
  }

  /** An access has another outcome than under a fork that copies, exactly if it is a store,
      or the check for one, that nothing but a sealed page refuses. */
  lemma Differs(e: Eager, op: Op)
    requires SealedThere(e)
    ensures Raises(e, op) != Raises(Unsealed(e), op) <==> Hits(e, op)
  {
    hide Grows, InArea, Execd, RangeRefuses, RangeHits, PageCount, PgAddr, PageOf;
    if Can(e, op) {
      ExecdSize(e, op);
      if op.Verify? { RangeDiffers(e, op.s, PgAddr(op.addr), Span(op)); }
      if op.CopyOut? { RangeDiffers(e, op.s, PgAddr(op.va), 1); }
    }
  }

  /** An operation with the same outcome does the same. */
  lemma SameNext(e: Eager, op: Op, found: map<nat, Page>)
    requires SealedThere(e) && !Hits(e, op)
    ensures Unsealed(Next(e, op, found)) == Unsealed(Next(Unsealed(e), op, found))
  {
    hide Grows, InArea, Execd, RangeRefuses, RangeHits, PageCount, PgAddr, PageOf, Replay, RangeEvents, SpaceAt, FaultPage, GrownStack;
    Differs(e, op);
    if Can(e, op) {
      ExecdSize(e, op);
      if op.Verify? {
        RangeUnsealed(e, op.s, PgAddr(op.addr), Span(op), op.file, found);
        SpaceAtUnsealed(e, op.s, PgAddr(op.addr), Span(op));
      }
      if op.CopyOut? {
        RangeUnsealed(e, op.s, PgAddr(op.va), 1, op.file, found);
        SpaceAtUnsealed(e, op.s, PgAddr(op.va), 1);
      }
      assert Events(e, op, found) == Events(Unsealed(e), op, found);
      assert Spaces(e, op) == Spaces(Unsealed(e), op);
    }
  }

  /** The first n operations have the outcomes, and show the pages and areas, that they have
      under a fork that copies. */
  ghost predicate AsCopied(e: Eager, ops: seq<Op>, found: seq<map<nat, Page>>, n: nat)
    requires n <= |ops| && n <= |found|
  {
    && (forall i: nat | i <= n :: Unsealed(Reached(e, ops, found, i)) == Copying(e, ops, found, i))
    && (forall i: nat | i < n :: Raises(Reached(e, ops, found, i), ops[i]) == Raises(Copying(e, ops, found, i), ops[i]))
  }

  ghost predicate NoHits(e: Eager, ops: seq<Op>, found: seq<map<nat, Page>>, n: nat)
    requires n <= |ops| && n <= |found|
  {
    forall i: nat | i < n :: !Hits(Reached(e, ops, found, i), ops[i])
  }

  lemma AsCopiedMore(e: Eager, ops: seq<Op>, found: seq<map<nat, Page>>, n: nat)
    requires 0 < n <= |ops| && n <= |found|
    ensures AsCopied(e, ops, found, n) <==>
              && AsCopied(e, ops, found, n - 1)
              && Raises(Reached(e, ops, found, n - 1), ops[n - 1]) == Raises(Copying(e, ops, found, n - 1), ops[n - 1])
              && Unsealed(Reached(e, ops, found, n)) == Copying(e, ops, found, n)
    ensures AsCopied(e, ops, found, n - 1) ==> Unsealed(Reached(e, ops, found, n - 1)) == Copying(e, ops, found, n - 1)
  {
    hide Raises, Reached, Copying, Unsealed;
  }

  lemma NoHitsMore(e: Eager, ops: seq<Op>, found: seq<map<nat, Page>>, n: nat)
    requires 0 < n <= |ops| && n <= |found|
    ensures NoHits(e, ops, found, n) <==> NoHits(e, ops, found, n - 1) && !Hits(Reached(e, ops, found, n - 1), ops[n - 1])
  {
    hide Hits, Reached;
  }

  /** A run is what it is under a fork that copies every page at once, if and only if no store
      in it goes to a sealed page. */
  lemma {:induction false} CopiesUnlessHit(e: Eager, ops: seq<Op>, found: seq<map<nat, Page>>, n: nat)
    requires n <= |ops| && n <= |found| && forall i: nat | i < n :: SealedThere(Reached(e, ops, found, i))
    ensures AsCopied(e, ops, found, n) <==> NoHits(e, ops, found, n)
  {
    hide Hits, Raises, Next, SealedThere, AsCopied, NoHits;
    if n == 0 {
      CopiesNone(e, ops, found);
    } else {
      CopiesUnlessHit(e, ops, found, n - 1);
      AsCopiedMore(e, ops, found, n);
      NoHitsMore(e, ops, found, n);
      var x := Reached(e, ops, found, n - 1);
      Differs(x, ops[n - 1]);
      if !Hits(x, ops[n - 1]) { SameNext(x, ops[n - 1], found[n - 1]); }
    }
  }

  lemma CopiesNone(e: Eager, ops: seq<Op>, found: seq<map<nat, Page>>)
    ensures AsCopied(e, ops, found, 0) && NoHits(e, ops, found, 0)
  {
  }
}
