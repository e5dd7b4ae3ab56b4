/** `vm_verify` told by the addresses of its range, [addr, addr + size). */
module Ranges {
  import opened FrameLedger
  import opened Ledgers
  import opened Paging
  import opened EagerMemory
  import opened SpaceSteps
  import opened Sealing
  import opened Params

  /** The range is not empty and does not wrap round in 32 bits. */
  predicate Plain(addr: nat, size: nat) {
    0 < size && addr + size <= LIMIT
  }

  /** Every address of the range lies in a page that s holds alone. */
  ghost predicate RangeHeld(m: Mach, s: nat, addr: nat, size: nat) {
    forall a: nat | addr <= a < addr + size :: SolePage(m, PageOf(s, a))
  }

  /** Some page that meets the range is refused when its turn comes. */
  ghost predicate TurnRefused(m: Mach, s: nat, addr: nat, size: nat)
    requires s in m.space && |m.space[s].areas| == NVMA
  {
    exists i: nat :: addr - addr % PAGE + i * PAGE < addr + size &&
                     Refused(m, SpaceAfter(m, s, addr - addr % PAGE, i), s, addr - addr % PAGE + i * PAGE)
  }

  /** No page changes, and pages appear only where they meet the range. */
  ghost predicate OnlyRange(m: Mach, m': Mach, s: nat, addr: nat, size: nat)
    requires InMemory(m) && InMemory(m')
  {
    && (forall r | r in View(m) :: r in View(m') && View(m')[r] == View(m)[r])
    && (forall r | r in View(m') && r !in View(m) :: exists a: nat :: addr <= a < addr + size && r == PageOf(s, a))
  }

  /** The pages visited are those that meet the range. */
  lemma Visited(addr: nat, size: nat, i: nat)
    requires addr < LIMIT && Plain(addr, size)
    ensures i < PageCount(addr, size) <==> addr - addr % PAGE + i * PAGE < addr + size
    ensures PgAddr(addr) == addr - addr % PAGE
    ensures LastPage(addr, size) == LIMIT - PAGE <==> LIMIT - PAGE < addr + size
  {
    hide PageCount;
    var end, at := addr + size - 1, addr - addr % PAGE + i * PAGE;
    assert (addr + size + LIMIT - 1) % LIMIT == end by { Unwrapped(end); }
    CountPages(addr, size, i);
    AlignedStep(PgAddr(addr), i);
    PageBelow(at, end);
    TopPage(end);
  }

  lemma Unwrapped(a: nat)
    requires a < LIMIT
    ensures (a + LIMIT) % LIMIT == a
  {
  }

  lemma TopPage(a: nat)
    requires a < LIMIT
    ensures PgAddr(a) == LIMIT - PAGE <==> LIMIT - PAGE <= a
  {
  }

  /** A range that wraps round to before its first page is not looked at. */
  lemma Unvisited(addr: nat, size: nat)
    requires addr < LIMIT && size < LIMIT && LIMIT < addr + size && addr + size - LIMIT <= addr - addr % PAGE
    ensures LastPage(addr, size) < PgAddr(addr)
  {
    var end := addr + size - 1 - LIMIT;
    assert (addr + size + LIMIT - 1) % LIMIT == end by { Twice(end); }
    PageBelow(PgAddr(addr), end);
  }

  /** The end of the range, one byte before it or round 32 bits, lies in the page it starts in:
      an empty range that starts inside a page, or nearly all of the address space. */
  predicate OwnPage(addr: nat, size: nat) {
    (size == 0 && addr % PAGE != 0) || (LIMIT < addr + size && addr - addr % PAGE < addr + size - LIMIT)
  }

  /** No page: an empty range at the start of one, or one that wraps to before its first page. */
  predicate NoPage(addr: nat, size: nat) {
    (size == 0 && addr % PAGE == 0) || (LIMIT < addr + size && addr + size - LIMIT <= addr - addr % PAGE)
  }

  lemma Kinds(addr: nat, size: nat)
    requires 0 < addr < LIMIT && size < LIMIT
    ensures Plain(addr, size) || NoPage(addr, size) || OwnPage(addr, size)
    ensures NoPage(addr, size) ==> LastPage(addr, size) < PgAddr(addr)
    ensures OwnPage(addr, size) ==> LastPage(addr, size) == LastPage(addr, 1) && PageCount(addr, size) == PageCount(addr, 1)
    ensures OwnPage(addr, size) ==> (LastPage(addr, size) == LIMIT - PAGE <==> LIMIT - PAGE <= addr)
  {
    assert (addr + 1 + LIMIT - 1) % LIMIT == addr;
    TopPage(addr);
    if size == 0 {
      EmptyRange(addr);
    } else if NoPage(addr, size) {
      Unvisited(addr, size);
    } else if OwnPage(addr, size) {
      Wrapped(addr, size);
    }
  }

  lemma Wrapped(addr: nat, size: nat)
    requires addr < LIMIT && size < LIMIT && LIMIT < addr + size && addr - addr % PAGE < addr + size - LIMIT
    ensures LastPage(addr, size) == LastPage(addr, 1) && PageCount(addr, size) == PageCount(addr, 1)
  {
    var end := addr + size - 1 - LIMIT;
    assert (addr + size + LIMIT - 1) % LIMIT == end by { Twice(end); }
    assert (addr + 1 + LIMIT - 1) % LIMIT == addr;
    BytesOf(addr, end);
  }

  lemma BytesOf(a: nat, b: nat)
    requires a - a % PAGE <= b <= a
    ensures PgAddr(a) == PgAddr(b)
  {
  }

  lemma EmptyRange(addr: nat)
    requires 0 < addr < LIMIT
    ensures addr % PAGE == 0 ==> LastPage(addr, 0) < PgAddr(addr)
    ensures addr % PAGE != 0 ==> LastPage(addr, 0) == LastPage(addr, 1) && PageCount(addr, 0) == PageCount(addr, 1)
  {
    assert (addr + LIMIT - 1) % LIMIT == addr - 1;
    assert (addr + 1 + LIMIT - 1) % LIMIT == addr;
    if addr % PAGE == 0 { PageBelow(PgAddr(addr), addr - 1); } else { BytesOf(addr, addr - 1); }
  }

  lemma Twice(a: nat)
    requires a < LIMIT
    ensures (a + 2 * LIMIT) % LIMIT == a
  {
  }

  /** The addresses of a page from lo on. */
  lemma PageOfAddress(addr: nat, a: nat) returns (i: nat)
    requires addr <= a < LIMIT
    ensures PgAddr(a) == addr - addr % PAGE + i * PAGE && PgAddr(a) <= a
  {
    PageNumber(addr);
    PageNumber(a);
    QuotientGrows(addr, a);
    i := a / PAGE - addr / PAGE;
  }

  lemma QuotientGrows(x: nat, y: nat)
    requires x <= y
    ensures x / PAGE <= y / PAGE
  {
  }

  lemma RangeIsHeld(m: Mach, s: nat, addr: nat, size: nat)
    requires KMEM_END <= addr < LIMIT && Plain(addr, size) && SoleRange(m, s, PgAddr(addr), LastPage(addr, size) + 1)
    ensures RangeHeld(m, s, addr, size)
  {
    hide SolePage, PgAddr, LastPage, PageCount, PageOf;
    forall a: nat | addr <= a < addr + size ensures SolePage(m, PageOf(s, a)) {
      var i := PageOfAddress(addr, a);
      Visited(addr, size, i);
      CountPages(addr, size, i);
      PageNumber(a);
      assert SolePage(m, PageOf(s, PgAddr(a)));
      SamePage(s, a);
    }
  }

  lemma TurnsRefused(m: Mach, s: nat, addr: nat, size: nat)
    requires s in m.space && |m.space[s].areas| == NVMA && addr < LIMIT && Plain(addr, size)
    ensures SomeRefused(m, s, PgAddr(addr), PageCount(addr, size)) <==> TurnRefused(m, s, addr, size)
  {
    hide Refused, SpaceAfter, PgAddr, PageCount;
    Visited(addr, size, 0);
    var lo := addr - addr % PAGE;
    if i: nat :| i < PageCount(addr, size) && Refused(m, SpaceAfter(m, s, lo, i), s, lo + i * PAGE) { Visited(addr, size, i); }
    if i: nat :| lo + i * PAGE < addr + size && Refused(m, SpaceAfter(m, s, lo, i), s, lo + i * PAGE) { Visited(addr, size, i); }
  }

  /** Verification keeps the pages that are there, and fills only pages of its range. */
  lemma {:induction false} EventsInside(m: Mach, s: nat, lo: nat, n: nat, file: Page, stales: map<nat, Page>, r: Ref)
    requires InMemory(m) && s in m.space && |m.space[s].areas| == NVMA
    ensures var v := Replay(View(m), VerifyEvents(m, s, lo, n, file, stales));
            && (r in View(m) ==> r in v && v[r] == View(m)[r])
            && (r in v && r !in View(m) ==> exists i: nat :: i < n && r == PageOf(s, lo + i * PAGE))
  {
    hide Replay, PageOf, FaultPage, Grows, InArea, SpaceAfter;
    if n == 0 {
      ReplayNone(View(m));
    } else {
      var i: nat := n - 1;
      EventsInside(m, s, lo, i, file, stales, r);
      var es := VerifyEvents(m, s, lo, i, file, stales);
      var e := FaultEvents(m, SpaceAfter(m, s, lo, i), s, lo + i * PAGE, file, StaleAt(stales, lo + i * PAGE));
      ReplayConcat(View(m), es, e);
      if e == [] { ReplayNone(Replay(View(m), es)); } else { ReplayOne(Replay(View(m), es), e[0]); }
    }
  }

  lemma RangeOnly(m: Mach, m': Mach, s: nat, addr: nat, size: nat, file: Page, stales: map<nat, Page>)
    requires InMemory(m) && InMemory(m') && s in m.space && |m.space[s].areas| == NVMA
    requires KMEM_END <= addr < LIMIT && Plain(addr, size)
    requires View(m') == Replay(View(m), VerifyEvents(m, s, PgAddr(addr), PageCount(addr, size), file, stales))
    ensures OnlyRange(m, m', s, addr, size)
  {
    hide Replay, VerifyEvents, PgAddr, PageCount, PageOf, View;
    var n := PageCount(addr, size);
    forall r: Ref ensures r in View(m) ==> r in View(m') && View(m')[r] == View(m)[r] {
      EventsInside(m, s, PgAddr(addr), n, file, stales, r);
    }
    forall r: Ref | r in View(m') && r !in View(m) ensures exists a: nat :: addr <= a < addr + size && r == PageOf(s, a) {
      EventsInside(m, s, PgAddr(addr), n, file, stales, r);
      var i: nat :| i < n && r == PageOf(s, PgAddr(addr) + i * PAGE);
      Visited(addr, size, i);
      var a: nat := if i == 0 then addr else PgAddr(addr) + i * PAGE;
      InRange(addr, i);
      SamePage(s, addr);
      assert addr <= a < addr + size && r == PageOf(s, a);
    }
  }

  lemma InRange(addr: nat, i: nat)
    ensures i > 0 ==> addr < addr - addr % PAGE + i * PAGE
  {
  }

  /** What `vm_verify` has done when its loop ends. */
  lemma RangeTold(m: Mach, m': Mach, s: nat, addr: nat, size: nat, file: Page, stales: map<nat, Page>, es: seq<Event>, raised: bool)
    requires s in m.space && |m.space[s].areas| == NVMA && KMEM_END <= addr < LIMIT && Plain(addr, size)
    requires InMemory(m) && InMemory(m') && View(m') == Replay(View(m), es)
    requires Verified(m, m', s, PgAddr(addr), PageCount(addr, size), file, stales, es, raised)
    requires !raised ==> SoleRange(m', s, PgAddr(addr), LastPage(addr, size) + 1)
    ensures !raised ==> RangeHeld(m', s, addr, size)
    ensures (raised <==> TurnRefused(m, s, addr, size)) && OnlyRange(m, m', s, addr, size)
  {
    hide Replay, View, VerifyEvents, PgAddr, PageCount, LastPage, SoleRange, RangeHeld, TurnRefused, OnlyRange, SomeRefused, Supplied, SpaceAfter;
    hide Ahead, Shrinks, Elsewhere;
    if !raised { RangeIsHeld(m', s, addr, size); }
    TurnsRefused(m, s, addr, size);
    RangeOnly(m, m', s, addr, size, file, stales);
  }
}
