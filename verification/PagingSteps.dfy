/** The elementary transitions of the paging machine.  Each is a function on machine
    states with a lemma that it keeps the invariant and says which references it
    changes; the kernel routines in `AddressSpaces` are sequences of them. */
module PagingSteps {
  import opened FrameLedger
  import opened Ledgers
  import opened Paging

  // ---------------------------------------------------------------- the free list

  lemma FreePop(count: seq<nat>, rsvd: seq<bool>, free: seq<nat>)
    requires FreeOk(count, rsvd, free) && free != []
    ensures free[0] < |count| && !rsvd[free[0]] && count[free[0]] == 0
    ensures FreeOk(count[free[0] := 1], rsvd, free[1..])
  {
    assert free[0] in free;
    forall f: nat ensures f in free[1..] <==> f < NPAGE && !rsvd[f] && count[free[0] := 1][f] == 0 {
      assert f in free <==> f == free[0] || f in free[1..];
    }
  }

  /** `pgfree` of a frame's last reference puts it back at the head of the free list. */
  function Freed(count: seq<nat>, free: seq<nat>, f: nat): seq<nat>
    requires f < |count|
  {
    if count[f] == 1 then [f] + free else free
  }

  lemma FreePush(count: seq<nat>, rsvd: seq<bool>, free: seq<nat>, f: nat)
    requires FreeOk(count, rsvd, free) && f < NPAGE && !rsvd[f] && count[f] > 0
    ensures FreeOk(count[f := count[f] - 1], rsvd, Freed(count, free, f))
    ensures f !in free
  {
    assert f !in free;
  }

  // ---------------------------------------------------------------- frames held by the kernel

  /** `pgalloc`: the head of the free list becomes a block of the kernel. */
  ghost function Take(m: Mach): Mach
    requires m.free != [] && m.free[0] < |m.count|
  {
    var f := m.free[0];
    m.(count := m.count[f := 1], free := m.free[1..], ledger := m.ledger[Kern(f) := f])
  }

  lemma Unreferenced(m: Mach, f: nat)
    requires Counted(m.count, m.rsvd, m.ledger) && f < |m.count| && !m.rsvd[f] && m.count[f] == 0
    ensures forall r | r in m.ledger :: m.ledger[r] != f
  {
    forall r | r in m.ledger ensures m.ledger[r] != f {
      assert Holders(m.ledger, f) == {};
      assert r !in Holders(m.ledger, f);
    }
  }

  lemma TakeInv(m: Mach)
    requires Inv(m) && m.free != []
    ensures m.free[0] < NPAGE && Kern(m.free[0]) !in m.ledger
    ensures Inv(Take(m)) && Only(m, Take(m), {Kern(m.free[0])})
    ensures forall r | r in m.ledger :: m.ledger[r] != m.free[0]
  {
    var f := m.free[0];
    FreePop(m.count, m.rsvd, m.free);
    Unreferenced(m, f);
    assert Kern(f) in m.ledger ==> Live(m, Kern(f));
    CountedAdd(m.count, m.rsvd, m.ledger, Kern(f), f);
    StepInv(m, Take(m), {Kern(f)});
  }

  /** A frame held by the kernel has no other holder. */
  lemma KernSole(m: Mach, f: nat)
    requires Agrees(m) && Exclusive(m) && Kern(f) in m.ledger
    ensures f < NPAGE && m.ledger[Kern(f)] == f && !m.rsvd[f]
    ensures forall r | r in m.ledger && r != Kern(f) :: m.ledger[r] != f
  {
    assert Live(m, Kern(f));
  }

  /** Giving up reference r: the counter falls, and at zero the frame is free again. */
  ghost function Release(m: Mach, r: Ref): Mach
    requires r in m.ledger && m.ledger[r] < |m.count| && m.count[m.ledger[r]] > 0
  {
    var f := m.ledger[r];
    m.(count := m.count[f := m.count[f] - 1], free := Freed(m.count, m.free, f), ledger := m.ledger - {r})
  }

  lemma ReleaseCounts(m: Mach, r: Ref)
    requires Inv(m) && r in m.ledger && !m.rsvd[m.ledger[r]]
    ensures m.ledger[r] < NPAGE && m.count[m.ledger[r]] > 0
    ensures Counted(Release(m, r).count, m.rsvd, Release(m, r).ledger)
    ensures FreeOk(Release(m, r).count, m.rsvd, Release(m, r).free)
  {
    CountedDrop(m.count, m.rsvd, m.ledger, r);
    FreePush(m.count, m.rsvd, m.free, m.ledger[r]);
  }

  lemma ReleaseKernInv(m: Mach, f: nat)
    requires Inv(m) && Kern(f) in m.ledger
    ensures f < NPAGE && !m.rsvd[f] && m.ledger[Kern(f)] == f && m.count[f] > 0
    ensures Inv(Release(m, Kern(f))) && Only(m, Release(m, Kern(f)), {Kern(f)})
  {
    KernSole(m, f);
    ReleaseCounts(m, Kern(f));
    assert Sound(Release(m, Kern(f)), Kern(f));
    assert Only(m, Release(m, Kern(f)), {Kern(f)});
    StepInv(m, Release(m, Kern(f)), {Kern(f)});
  }

  // ---------------------------------------------------------------- contents

  /** Filling a whole frame. */
  ghost function Fill(m: Mach, f: nat, page: Page): Mach
    requires f < |m.mem|
  {
    m.(mem := m.mem[f := page])
  }

  /** Filling a frame with one holder, the kernel or a user page, changes what that
      holder sees and nothing else. */
  lemma FillInv(m: Mach, r: Ref, page: Page)
    requires Inv(m) && r in m.ledger && (r.Kern? || r.Leaf?) && |page| == PTRS
    requires Holders(m.ledger, m.ledger[r]) == {r}
    ensures m.ledger[r] < NPAGE && Inv(Fill(m, m.ledger[r], page))
    ensures Only(m, Fill(m, m.ledger[r], page), {r})
    ensures forall r' :: SameAt(m, Fill(m, m.ledger[r], page), r')
  {
    var f := m.ledger[r];
    var m' := Fill(m, f, page);
    assert Live(m, r);
    forall r' | r' in m.ledger && r' != r ensures m.ledger[r'] != f { assert r' !in Holders(m.ledger, f); }
    DataWrite(m, m', f);
    assert Only(m, m', {r});
    FillSound(m, r, page);
    StepInv(m, m', {r});
  }

  lemma FillSound(m: Mach, r: Ref, page: Page)
    requires Inv(m) && r in m.ledger && m.ledger[r] < |m.mem|
    requires forall r' :: SameAt(m, Fill(m, m.ledger[r], page), r')
    ensures Sound(Fill(m, m.ledger[r], page), r)
  {
    var m' := Fill(m, m.ledger[r], page);
    forall r' ensures Apart(m', r, r') { assert SameAt(m, m', r) && SameAt(m, m', r'); }
  }

  // ---------------------------------------------------------------- page tables

  /** Frame f, held by the kernel, becomes page table d of s. */
  ghost function AddTable(m: Mach, s: nat, d: nat, f: nat, w: Word): Mach
    requires s in m.space && m.space[s].pgd < |m.mem| && d < |m.mem[m.space[s].pgd]|
  {
    m.(mem := Poke(m.mem, m.space[s].pgd, d, w), ledger := (m.ledger - {Kern(f)})[Table(s, d) := f])
  }

  ghost predicate CanAddTable(m: Mach, s: nat, d: nat, f: nat, w: Word) {
    && s in m.space && Kern(f) in m.ledger
    && Visible(m, Table(s, d)) && !Pde(m, s, d).p
    && f < |m.mem| && m.mem[f] == ZeroPage()
    && w.off == f && w.p && w.w && w.u
  }

  lemma AddTableSame(m: Mach, s: nat, d: nat, f: nat, w: Word)
    requires Sizes(m) && Agrees(m) && Exclusive(m) && CanAddTable(m, s, d, f, w)
    requires Dir(s) in m.ledger && m.space[s].pgd < NPAGE
    ensures Only(m, AddTable(m, s, d, f, w), {Table(s, d), Kern(f)})
    ensures Pde(AddTable(m, s, d, f, w), s, d) == w
  {
    var m' := AddTable(m, s, d, f, w);
    KernSole(m, f);
    DirWrite(m, m', s, d, w);
    forall r: Ref | r.Leaf? && r.s == s && r.d == d ensures SameAt(m, m', r) {
      assert Entry(m'.mem, f, r.t) == Entry(m.mem, f, r.t) == ZERO;
    }
  }

  lemma AddTableInv(m: Mach, s: nat, d: nat, f: nat, w: Word)
    requires Inv(m) && CanAddTable(m, s, d, f, w)
    ensures m.space[s].pgd < NPAGE && d < PTRS && Table(s, d) !in m.ledger
    ensures Inv(AddTable(m, s, d, f, w)) && Only(m, AddTable(m, s, d, f, w), {Table(s, d), Kern(f)})
  {
    assert Live(m, Dir(s));
    assert Table(s, d) in m.ledger ==> Live(m, Table(s, d));
    var m' := AddTable(m, s, d, f, w);
    KernSole(m, f);
    CountedRename(m.count, m.rsvd, m.ledger, Kern(f), Table(s, d));
    AddTableSame(m, s, d, f, w);
    assert Sound(m', Table(s, d));
    StepInv(m, m', {Table(s, d), Kern(f)});
  }

  /** Writing a table entry. */
  ghost function PutPte(m: Mach, s: nat, d: nat, t: nat, w: Word): Mach
    requires Table(s, d) in m.ledger && m.ledger[Table(s, d)] < |m.mem| && t < |m.mem[m.ledger[Table(s, d)]]|
  {
    m.(mem := Poke(m.mem, m.ledger[Table(s, d)], t, w))
  }

  /** Writing an entry outside the populated window changes no reference. */
  lemma PutHiddenPteInv(m: Mach, s: nat, d: nat, t: nat, w: Word)
    requires Inv(m) && Table(s, d) in m.ledger && t < PTRS && !Visible(m, Leaf(s, d, t))
    ensures m.ledger[Table(s, d)] < NPAGE
    ensures Inv(PutPte(m, s, d, t, w)) && Only(m, PutPte(m, s, d, t, w), {})
    ensures Pte(PutPte(m, s, d, t, w), s, d, t) == w
  {
    TableWrite(m, PutPte(m, s, d, t, w), s, d, t, w);
    assert Only(m, PutPte(m, s, d, t, w), {});
    StepInv(m, PutPte(m, s, d, t, w), {});
  }

  /** Changing the write permission of a mapped page: allowed if it ends up
      write-protected, or if nobody else maps the frame. */
  lemma SetWriteInv(m: Mach, s: nat, d: nat, t: nat, w: Word)
    requires Inv(m) && Leaf(s, d, t) in m.ledger
    requires w.off == Pte(m, s, d, t).off && w.p && w.u
    requires !w.w || m.count[m.ledger[Leaf(s, d, t)]] == 1
    ensures Table(s, d) in m.ledger && t < PTRS && m.ledger[Table(s, d)] < NPAGE
    ensures Inv(PutPte(m, s, d, t, w)) && Only(m, PutPte(m, s, d, t, w), {Leaf(s, d, t)})
    ensures Writable(PutPte(m, s, d, t, w), Leaf(s, d, t)) == w.w
    ensures PutPte(m, s, d, t, w).mem[m.ledger[Leaf(s, d, t)]] == m.mem[m.ledger[Leaf(s, d, t)]]
  {
    var r := Leaf(s, d, t);
    assert Live(m, r);
    assert Live(m, Table(s, d));
    var m' := PutPte(m, s, d, t, w);
    TableWrite(m, m', s, d, t, w);
    forall r' ensures Apart(m', r, r') {
      if r' in m.ledger && r' != r && m.ledger[r'] == m.ledger[r] {
        if w.w { SoleHolder(m.ledger, r, r'); } else { assert SameAt(m, m', r'); }
      }
    }
    assert Sound(m', r);
    assert Only(m, m', {r});
    StepInv(m, m', {r});
  }

  /** Pointing entry (s, d, t) at a frame of the kernel's, once the counters account for it. */
  lemma PlaceInv(m: Mach, m': Mach, s: nat, d: nat, t: nat, f: nat, w: Word)
    requires Inv(m) && Table(s, d) in m.ledger && Kern(f) in m.ledger && t < PTRS
    requires m' == PutPte(m, s, d, t, w).(count := m'.count, ledger := (m.ledger - {Kern(f)})[Leaf(s, d, t) := f])
    requires Counted(m'.count, m.rsvd, m'.ledger) && FreeOk(m'.count, m.rsvd, m.free)
    requires Visible(m, Leaf(s, d, t)) && w.off == f && w.p && w.u
    requires Execd(m.space[s]) && InArea(m.space[s], PageAddr(d, t))
    ensures Inv(m') && Only(m, m', {Leaf(s, d, t), Kern(f)})
    ensures Writable(m', Leaf(s, d, t)) == w.w && m'.mem[f] == m.mem[f]
    ensures Holders(m'.ledger, f) == {Leaf(s, d, t)}
  {
    hide Execd, InArea, PageAddr, FreeOk, Counted, Covered, FlagsOk, Holders, Sound, Only, Agrees, Exclusive, Visible, Live;
    var r := Leaf(s, d, t);
    PlaceSizes(m, m', s, d, t, f, w);
    PlaceOnly(m, m', s, d, t, f, w);
    PlaceSound(m, m', r, f);
    StepInv(m, m', {r, Kern(f)});
  }

  lemma PlaceSizes(m: Mach, m': Mach, s: nat, d: nat, t: nat, f: nat, w: Word)
    requires Inv(m) && Table(s, d) in m.ledger && t < PTRS && FreeOk(m'.count, m.rsvd, m.free)
    ensures m.ledger[Table(s, d)] < |m.mem| && t < |m.mem[m.ledger[Table(s, d)]]|
    ensures m' == PutPte(m, s, d, t, w).(count := m'.count, ledger := (m.ledger - {Kern(f)})[Leaf(s, d, t) := f]) ==> Sizes(m')
    ensures forall r | r in m.ledger && r.Leaf? :: r.s in m.space
  {
  }

  lemma PlaceOnly(m: Mach, m': Mach, s: nat, d: nat, t: nat, f: nat, w: Word)
    requires Sizes(m) && Agrees(m) && Exclusive(m) && Table(s, d) in m.ledger && Kern(f) in m.ledger && t < PTRS
    requires m.ledger[Table(s, d)] < |m.mem| && t < |m.mem[m.ledger[Table(s, d)]]|
    requires m' == PutPte(m, s, d, t, w).(count := m'.count, ledger := (m.ledger - {Kern(f)})[Leaf(s, d, t) := f])
    requires Visible(m, Leaf(s, d, t)) && w.off == f && w.p && w.u
    ensures Only(m, m', {Leaf(s, d, t), Kern(f)}) && s in m.space
    ensures Live(m', Leaf(s, d, t)) && Target(m', Leaf(s, d, t)) == f && User(m', Leaf(s, d, t))
    ensures f < NPAGE && Writable(m', Leaf(s, d, t)) == w.w && m'.mem[f] == m.mem[f]
  {
    hide Execd, InArea, PageAddr, FreeOk, Counted, Holders;
    assert Live(m, Table(s, d)) && Live(m, Kern(f));
    TableWrite(m, m', s, d, t, w);
  }

  lemma PlaceSound(m: Mach, m': Mach, r: Ref, f: nat)
    requires Agrees(m) && Exclusive(m) && Kern(f) in m.ledger && r.Leaf? && r.s in m.space
    requires m'.ledger == (m.ledger - {Kern(f)})[r := f] && m'.rsvd == m.rsvd && m'.space == m.space
    requires Live(m', r) && Target(m', r) == f && User(m', r)
    requires Execd(m.space[r.s]) && InArea(m.space[r.s], PageAddr(r.d, r.t))
    ensures Sound(m', r) && Sound(m', Kern(f))
    ensures f < NPAGE && m.ledger[Kern(f)] == f && Holders(m'.ledger, f) == {r}
  {
    KernSole(m, f);
  }

  /** Mapping frame f, held by the kernel, at an empty entry. */
  ghost function Attach(m: Mach, s: nat, d: nat, t: nat, f: nat, w: Word): Mach
    requires Table(s, d) in m.ledger && m.ledger[Table(s, d)] < |m.mem| && t < |m.mem[m.ledger[Table(s, d)]]|
  {
    PutPte(m, s, d, t, w).(ledger := (m.ledger - {Kern(f)})[Leaf(s, d, t) := f])
  }

  lemma AttachInv(m: Mach, s: nat, d: nat, t: nat, f: nat, w: Word)
    requires Inv(m) && Table(s, d) in m.ledger && Kern(f) in m.ledger
    requires Visible(m, Leaf(s, d, t)) && Leaf(s, d, t) !in m.ledger
    requires w.off == f && w.p && w.u
    requires Execd(m.space[s]) && InArea(m.space[s], PageAddr(d, t))
    ensures f < NPAGE && m.ledger[Table(s, d)] < NPAGE
    ensures var m' := Attach(m, s, d, t, f, w);
            && Inv(m') && Only(m, m', {Leaf(s, d, t), Kern(f)})
            && Writable(m', Leaf(s, d, t)) == w.w && m'.mem[f] == m.mem[f]
            && Holders(m'.ledger, f) == {Leaf(s, d, t)}
  {
    KernSole(m, f);
    CountedRename(m.count, m.rsvd, m.ledger, Kern(f), Leaf(s, d, t));
    PlaceInv(m, Attach(m, s, d, t, f, w), s, d, t, f, w);
  }

  /** The copy in copy-on-write: entry (s, d, t) moves to frame g, held by the kernel,
      and gives up its share of the old frame. */
  ghost function Move(m: Mach, s: nat, d: nat, t: nat, g: nat, w: Word): Mach
    requires Table(s, d) in m.ledger && m.ledger[Table(s, d)] < |m.mem| && t < |m.mem[m.ledger[Table(s, d)]]|
    requires Leaf(s, d, t) in m.ledger && m.ledger[Leaf(s, d, t)] < |m.count| && m.count[m.ledger[Leaf(s, d, t)]] > 0
  {
    var f := m.ledger[Leaf(s, d, t)];
    PutPte(m, s, d, t, w).(count := m.count[f := m.count[f] - 1], ledger := (m.ledger - {Kern(g)})[Leaf(s, d, t) := g])
  }

  lemma MoveCounts(m: Mach, r: Ref, g: nat)
    requires Counted(m.count, m.rsvd, m.ledger) && FreeOk(m.count, m.rsvd, m.free)
    requires r in m.ledger && r.Leaf? && m.ledger[r] < NPAGE && !m.rsvd[m.ledger[r]] && m.count[m.ledger[r]] > 1
    requires Kern(g) in m.ledger && m.ledger[Kern(g)] == g
    ensures var f := m.ledger[r];
            var count := m.count[f := m.count[f] - 1];
            Counted(count, m.rsvd, (m.ledger - {Kern(g)})[r := g]) && FreeOk(count, m.rsvd, m.free)
  {
    CountedDrop(m.count, m.rsvd, m.ledger, r);
    var f := m.ledger[r];
    CountedRename(m.count[f := m.count[f] - 1], m.rsvd, m.ledger - {r}, Kern(g), r);
    assert (m.ledger - {r} - {Kern(g)})[r := g] == (m.ledger - {Kern(g)})[r := g];
  }

  lemma MoveInv(m: Mach, s: nat, d: nat, t: nat, g: nat, w: Word)
    requires Inv(m) && Leaf(s, d, t) in m.ledger && Kern(g) in m.ledger
    requires m.count[m.ledger[Leaf(s, d, t)]] > 1
    requires w.off == g && w.p && w.u
    ensures Table(s, d) in m.ledger && t < PTRS && g < NPAGE && m.ledger[Table(s, d)] < NPAGE
    ensures var m' := Move(m, s, d, t, g, w);
            && Inv(m') && Only(m, m', {Leaf(s, d, t), Kern(g)})
            && Writable(m', Leaf(s, d, t)) == w.w && m'.mem[g] == m.mem[g]
  {
    var r := Leaf(s, d, t);
    assert Live(m, r) && Live(m, Table(s, d));
    KernSole(m, g);
    MoveCounts(m, r, g);
    PlaceInv(m, Move(m, s, d, t, g, w), s, d, t, g, w);
  }
}
