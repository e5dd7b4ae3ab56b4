/** Transitions that grow, shrink, create and remove whole address spaces: the steps
    of `pt_copy`, `pt_free`, `vm_clone`, `vm_renew` and `do_exit`. */
module WindowSteps {
  import opened FrameLedger
  import opened Ledgers
  import opened Paging
  import opened PagingSteps
  import opened Params

  ghost function SetWindow(m: Mach, s: nat, w: Window): Mach {
    m.(win := m.win[s := w])
  }

  lemma PageNumber(d: nat, t: nat, d': nat, t': nat)
    requires t' < PTRS
    ensures t < PTRS && d * PTRS + t == d' * PTRS + t' ==> d == d' && t == t'
  {
  }

  // ---------------------------------------------------------------- copying page tables

  /** `pt_copy`, one present entry: page (d, t) of the child c comes into view, sharing
      the frame that its entry names. */
  ghost function CopyEntry(m: Mach, c: nat, d: nat, t: nat): Mach
    requires c in m.win && Pte(m, c, d, t).off < |m.count|
  {
    var f := Pte(m, c, d, t).off;
    m.(win := m.win[c := m.win[c].(hi := d * PTRS + t + 1)],
       count := m.count[f := m.count[f] + 1], ledger := m.ledger[Leaf(c, d, t) := f])
  }

  /** So far the child's pages are those of the parent, frame by frame. */
  ghost predicate Twins(m: Mach, p: nat, c: nat) {
    forall d: nat, t: nat | Leaf(c, d, t) in m.ledger ::
      Leaf(p, d, t) in m.ledger && m.ledger[Leaf(p, d, t)] == m.ledger[Leaf(c, d, t)]
  }

  /** Entry (d, t) of the child is the next one to come into view, and is a copy of the
      parent's, write-protected in both. */
  ghost predicate CanCopyEntry(m: Mach, p: nat, c: nat, d: nat, t: nat) {
    && p in m.space && c in m.space && p != c && Table(c, d) in m.ledger && t < PTRS
    && c in m.win && m.win[c].hi == d * PTRS + t && m.win[c].lo <= m.win[c].hi && d < m.win[c].thi
    && Twins(m, p, c)
    && (Leaf(p, d, t) in m.ledger <==> Pte(m, c, d, t).p)
    && (Leaf(p, d, t) in m.ledger ==>
          && m.ledger[Leaf(p, d, t)] == Pte(m, c, d, t).off
          && !Writable(m, Leaf(p, d, t)) && !Pte(m, c, d, t).w && Pte(m, c, d, t).u)
    && (Leaf(p, d, t) in m.ledger ==> m.space[c].areas == m.space[p].areas)
  }

  lemma WidenSame(m: Mach, m': Mach, c: nat, d: nat, t: nat, r: Ref)
    requires c in m.win && m.win[c].lo <= m.win[c].hi == d * PTRS + t && t < PTRS && r != Leaf(c, d, t)
    requires m'.mem == m.mem && m'.space == m.space && m'.win == m.win[c := m.win[c].(hi := d * PTRS + t + 1)]
    ensures SameAt(m, m', r)
  {
    if r.Leaf? && r.s == c {
      PageNumber(r.d, r.t, d, t);
      assert Visible(m, r) == Visible(m', r);
    }
  }

  lemma CopyEntryFrame(m: Mach, p: nat, c: nat, d: nat, t: nat)
    requires Inv(m) && CanCopyEntry(m, p, c, d, t) && Pte(m, c, d, t).p
    ensures Leaf(c, d, t) !in m.ledger && Leaf(p, d, t) in m.ledger
    ensures Pte(m, c, d, t).off < NPAGE && !m.rsvd[Pte(m, c, d, t).off]
    ensures 0 < m.count[Pte(m, c, d, t).off] <= NPROC
  {
    var q := Leaf(p, d, t);
    assert Live(m, q) && !Visible(m, Leaf(c, d, t));
    assert q in Holders(m.ledger, m.ledger[q]);
    CountBound(m, m.ledger[q]);
  }

  lemma CopyEntryApart(m: Mach, m': Mach, p: nat, c: nat, d: nat, t: nat, r: Ref)
    requires Agrees(m) && Exclusive(m) && CanCopyEntry(m, p, c, d, t) && Leaf(p, d, t) in m.ledger
    requires m'.ledger == m.ledger[Leaf(c, d, t) := Pte(m, c, d, t).off] && Leaf(c, d, t) !in m.ledger
    requires m'.mem == m.mem && m'.space == m.space
    ensures Apart(m', Leaf(c, d, t), r)
  {
    var q := Leaf(p, d, t);
    if r in m.ledger && m.ledger[r] == m.ledger[q] && r != q {
      assert r.Leaf? && r.s != p;
      if r.s == c { assert Leaf(p, r.d, r.t) in m.ledger; }
    }
  }

  lemma CopyEntrySound(m: Mach, m': Mach, p: nat, c: nat, d: nat, t: nat)
    requires Agrees(m) && Exclusive(m) && Covered(m) && CanCopyEntry(m, p, c, d, t) && Leaf(p, d, t) in m.ledger
    requires m'.ledger == m.ledger[Leaf(c, d, t) := Pte(m, c, d, t).off] && Leaf(c, d, t) !in m.ledger
    requires m'.mem == m.mem && m'.space == m.space && m'.rsvd == m.rsvd && Live(m', Leaf(c, d, t))
    ensures Sound(m', Leaf(c, d, t))
  {
    forall r ensures Apart(m', Leaf(c, d, t), r) { CopyEntryApart(m, m', p, c, d, t, r); }
  }

  lemma CopyEntryInv(m: Mach, p: nat, c: nat, d: nat, t: nat)
    requires Inv(m) && CanCopyEntry(m, p, c, d, t) && Pte(m, c, d, t).p
    ensures Pte(m, c, d, t).off < NPAGE && 0 < m.count[Pte(m, c, d, t).off] <= NPROC
    ensures Inv(CopyEntry(m, c, d, t)) && Only(m, CopyEntry(m, c, d, t), {Leaf(c, d, t)})
    ensures Twins(CopyEntry(m, c, d, t), p, c) && Leaf(p, d, t) in m.ledger
  {
    CopyEntryFrame(m, p, c, d, t);
    var r := Leaf(c, d, t);
    var m' := CopyEntry(m, c, d, t);
    CountedAdd(m.count, m.rsvd, m.ledger, r, Pte(m, c, d, t).off);
    CopyEntryOnly(m, p, c, d, t);
    CopyEntrySound(m, m', p, c, d, t);
    StepInv(m, m', {r});
  }

  lemma CopyEntryOnly(m: Mach, p: nat, c: nat, d: nat, t: nat)
    requires Sizes(m) && Agrees(m) && CanCopyEntry(m, p, c, d, t) && Pte(m, c, d, t).p
    requires Pte(m, c, d, t).off < NPAGE && Leaf(c, d, t) !in m.ledger
    ensures Only(m, CopyEntry(m, c, d, t), {Leaf(c, d, t)}) && Live(CopyEntry(m, c, d, t), Leaf(c, d, t))
  {
    var m' := CopyEntry(m, c, d, t);
    assert Live(m, Table(c, d));
    forall r | r != Leaf(c, d, t) ensures SameAt(m, m', r) { WidenSame(m, m', c, d, t, r); }
  }

  /** `pt_copy`, one entry that is not present. */
  lemma SkipEntryInv(m: Mach, p: nat, c: nat, d: nat, t: nat)
    requires Inv(m) && CanCopyEntry(m, p, c, d, t) && !Pte(m, c, d, t).p
    ensures var m' := SetWindow(m, c, m.win[c].(hi := d * PTRS + t + 1)); Inv(m') && Only(m, m', {})
  {
    assert Live(m, Table(c, d));
    var m' := SetWindow(m, c, m.win[c].(hi := d * PTRS + t + 1));
    forall r | r != Leaf(c, d, t) ensures SameAt(m, m', r) { WidenSame(m, m', c, d, t, r); }
    assert Only(m, m', {});
    StepInv(m, m', {});
  }

  /** Writing a directory entry. */
  ghost function PutPde(m: Mach, s: nat, d: nat, w: Word): Mach
    requires s in m.space && m.space[s].pgd < |m.mem| && d < |m.mem[m.space[s].pgd]|
  {
    m.(mem := Poke(m.mem, m.space[s].pgd, d, w))
  }

  /** Writing a directory entry above the populated tables changes no reference. */
  lemma PutHiddenPdeInv(m: Mach, s: nat, d: nat, w: Word)
    requires Inv(m) && s in m.space && m.win[s].thi <= d < PTRS
    ensures m.space[s].pgd < NPAGE
    ensures Inv(PutPde(m, s, d, w)) && Only(m, PutPde(m, s, d, w), {}) && Pde(PutPde(m, s, d, w), s, d) == w
  {
    assert Live(m, Dir(s));
    var m' := PutPde(m, s, d, w);
    DirWrite(m, m', s, d, w);
    forall r: Ref | r == Table(s, d) || (r.Leaf? && r.s == s && r.d == d) ensures SameAt(m, m', r) {
      assert !Visible(m, r);
    }
    assert Only(m, m', {});
    StepInv(m, m', {});
  }

  /** `pt_copy`, start of a table: frame f, held by the kernel, becomes table d of c,
      with none of its entries in view yet. */
  ghost function CopyTable(m: Mach, c: nat, d: nat, f: nat): Mach
    requires c in m.win
  {
    m.(win := m.win[c := m.win[c].(thi := d + 1)], ledger := (m.ledger - {Kern(f)})[Table(c, d) := f])
  }

  lemma CopyTableSound(m: Mach, c: nat, d: nat, f: nat)
    requires Agrees(m) && Exclusive(m) && c in m.space && c in m.win && Kern(f) in m.ledger && KPD <= d < PTRS
    requires m.win[c].tlo <= d
    requires var w := Pde(m, c, d); w.p && w.off == f && w.w && w.u
    ensures Sound(CopyTable(m, c, d, f), Table(c, d)) && Sound(CopyTable(m, c, d, f), Kern(f))
  {
    KernSole(m, f);
  }

  lemma CopyTableInv(m: Mach, c: nat, d: nat, f: nat)
    requires Inv(m) && c in m.space && Kern(f) in m.ledger && KPD <= d < PTRS
    requires m.win[c].thi == d && m.win[c].tlo <= d && m.win[c].hi <= d * PTRS
    requires var w := Pde(m, c, d); w.p && w.off == f && w.w && w.u
    ensures Inv(CopyTable(m, c, d, f)) && Only(m, CopyTable(m, c, d, f), {Table(c, d), Kern(f)})
    ensures Table(c, d) !in m.ledger
  {
    var r := Table(c, d);
    assert !Live(m, r);
    var m' := CopyTable(m, c, d, f);
    KernSole(m, f);
    CountedRename(m.count, m.rsvd, m.ledger, Kern(f), r);
    forall r' | r' !in {r, Kern(f)} ensures SameAt(m, m', r') { assert Visible(m', r') == Visible(m, r'); }
    assert Only(m, m', {r, Kern(f)});
    CopyTableSound(m, c, d, f);
    StepInv(m, m', {r, Kern(f)});
  }

  /** `pt_copy`, a directory entry that is not present. */
  lemma SkipTableInv(m: Mach, c: nat, d: nat)
    requires Inv(m) && c in m.space && KPD <= d < PTRS && !Pde(m, c, d).p
    requires m.win[c].thi == d && m.win[c].hi == d * PTRS
    ensures var m' := SetWindow(m, c, m.win[c].(thi := d + 1, hi := (d + 1) * PTRS)); Inv(m') && Only(m, m', {})
  {
    var m' := SetWindow(m, c, m.win[c].(thi := d + 1, hi := (d + 1) * PTRS));
    forall r: Ref | (r.Table? || r.Leaf?) && r.s == c ensures SameAt(m, m', r) {
      if r.d != d && r.Leaf? && r.t < PTRS {
        assert (r.d * PTRS + r.t < d * PTRS) == (r.d < d);
        assert (r.d * PTRS + r.t < (d + 1) * PTRS) == (r.d < d + 1);
      }
    }
    assert Only(m, m', {});
    StepInv(m, m', {});
  }

  // ---------------------------------------------------------------- freeing page tables

  /** `pt_free`, one present entry: page (d, t) of s is given up. */
  ghost function DropEntry(m: Mach, s: nat, d: nat, t: nat): Mach
    requires s in m.win
    requires Leaf(s, d, t) in m.ledger && m.ledger[Leaf(s, d, t)] < |m.count| && m.count[m.ledger[Leaf(s, d, t)]] > 0
  {
    SetWindow(Release(m, Leaf(s, d, t)), s, m.win[s].(lo := d * PTRS + t + 1))
  }

  lemma NarrowSame(m: Mach, m': Mach, s: nat, d: nat, t: nat, r: Ref)
    requires s in m.win && m.win[s].lo == d * PTRS + t && t < PTRS && r != Leaf(s, d, t)
    requires m'.mem == m.mem && m'.space == m.space && m'.win == m.win[s := m.win[s].(lo := d * PTRS + t + 1)]
    ensures SameAt(m, m', r)
  {
    if r.Leaf? && r.s == s {
      PageNumber(r.d, r.t, d, t);
      assert Visible(m, r) == Visible(m', r);
    }
  }

  lemma DropEntryInv(m: Mach, s: nat, d: nat, t: nat)
    requires Inv(m) && s in m.space && t < PTRS && m.win[s].lo == d * PTRS + t && Leaf(s, d, t) in m.ledger
    ensures var f := m.ledger[Leaf(s, d, t)]; f < NPAGE && !m.rsvd[f] && m.count[f] > 0
    ensures Inv(DropEntry(m, s, d, t)) && Only(m, DropEntry(m, s, d, t), {Leaf(s, d, t)})
  {
    var r := Leaf(s, d, t);
    assert Live(m, r);
    ReleaseCounts(m, r);
    var m' := DropEntry(m, s, d, t);
    assert Sound(m', r);
    forall r' | r' != r ensures SameAt(m, m', r') { NarrowSame(m, m', s, d, t, r'); }
    assert Only(m, m', {r});
    StepInv(m, m', {r});
  }

  /** `pt_free`, one entry that is not present. */
  lemma PassEntryInv(m: Mach, s: nat, d: nat, t: nat)
    requires Inv(m) && s in m.space && t < PTRS && m.win[s].lo == d * PTRS + t && Leaf(s, d, t) !in m.ledger
    ensures var m' := SetWindow(m, s, m.win[s].(lo := d * PTRS + t + 1)); Inv(m') && Only(m, m', {})
  {
    var m' := SetWindow(m, s, m.win[s].(lo := d * PTRS + t + 1));
    assert !Live(m, Leaf(s, d, t));
    forall r | r != Leaf(s, d, t) ensures SameAt(m, m', r) { NarrowSame(m, m', s, d, t, r); }
    assert Only(m, m', {});
    StepInv(m, m', {});
  }

  /** `pt_free`, end of a table: the emptied table d of s itself is given up. */
  ghost function DropTable(m: Mach, s: nat, d: nat): Mach
    requires s in m.win && Table(s, d) in m.ledger
    requires m.ledger[Table(s, d)] < |m.count| && m.count[m.ledger[Table(s, d)]] > 0
  {
    SetWindow(Release(m, Table(s, d)), s, m.win[s].(tlo := d + 1))
  }

  lemma DropTableInv(m: Mach, s: nat, d: nat)
    requires Inv(m) && s in m.space && m.win[s].tlo == d && m.win[s].lo == (d + 1) * PTRS && Table(s, d) in m.ledger
    ensures var f := m.ledger[Table(s, d)]; f < NPAGE && !m.rsvd[f] && m.count[f] > 0
    ensures Inv(DropTable(m, s, d)) && Only(m, DropTable(m, s, d), {Table(s, d)})
  {
    var r := Table(s, d);
    assert Live(m, r);
    ReleaseCounts(m, r);
    var m' := DropTable(m, s, d);
    assert Sound(m', r);
    forall r' | r' != r ensures SameAt(m, m', r') { assert Visible(m', r') == Visible(m, r'); }
    assert Only(m, m', {r});
    StepInv(m, m', {r});
  }

  /** `pt_free`, a directory entry that is not present. */
  lemma PassTableInv(m: Mach, s: nat, d: nat)
    requires Inv(m) && s in m.space && m.win[s].tlo == d && m.win[s].lo == d * PTRS && !Pde(m, s, d).p
    ensures var m' := SetWindow(m, s, m.win[s].(tlo := d + 1, lo := (d + 1) * PTRS)); Inv(m') && Only(m, m', {})
  {
    var m' := SetWindow(m, s, m.win[s].(tlo := d + 1, lo := (d + 1) * PTRS));
    forall r: Ref | (r.Table? || r.Leaf?) && r.s == s ensures SameAt(m, m', r) {
      if r.d != d && r.Leaf? && r.t < PTRS {
        assert (r.d * PTRS + r.t < d * PTRS) == (r.d < d);
        assert (r.d * PTRS + r.t < (d + 1) * PTRS) == (r.d < d + 1);
      }
    }
    assert Only(m, m', {});
    StepInv(m, m', {});
  }

  // ---------------------------------------------------------------- whole address spaces

  /** `vm_clone`: frame f, held by the kernel, becomes the directory of a new address
      space with nothing in it yet. */
  ghost function AddSpace(m: Mach, s: nat, f: nat, areas: seq<Vma>): Mach {
    m.(space := m.space[s := Space(f, areas)],
       win := m.win[s := Window(KPD, KPD, KPD * PTRS, KPD * PTRS)],
       ledger := (m.ledger - {Kern(f)})[Dir(s) := f])
  }

  lemma AddSpaceSound(m: Mach, s: nat, f: nat, areas: seq<Vma>)
    requires Agrees(m) && Exclusive(m) && s !in m.space && Kern(f) in m.ledger
    ensures Sound(AddSpace(m, s, f, areas), Dir(s)) && Sound(AddSpace(m, s, f, areas), Kern(f))
  {
    KernSole(m, f);
  }

  lemma AddSpaceOnly(m: Mach, s: nat, f: nat, areas: seq<Vma>)
    requires Sizes(m) && Agrees(m) && s !in m.space && Kern(f) in m.ledger
    ensures Only(m, AddSpace(m, s, f, areas), {Dir(s), Kern(f)})
  {
  }

  lemma AddSpaceInv(m: Mach, s: nat, f: nat, areas: seq<Vma>)
    requires Inv(m) && s !in m.space && s < NPROC && Kern(f) in m.ledger && |areas| == NVMA
    ensures Inv(AddSpace(m, s, f, areas)) && Only(m, AddSpace(m, s, f, areas), {Dir(s), Kern(f)})
    ensures forall r: Ref | r in m.ledger :: r.Kern? || r.s != s
  {
    forall r: Ref | r in m.ledger ensures r.Kern? || r.s != s { assert Live(m, r); }
    var m' := AddSpace(m, s, f, areas);
    KernSole(m, f);
    CountedRename(m.count, m.rsvd, m.ledger, Kern(f), Dir(s));
    AddSpaceOnly(m, s, f, areas);
    AddSpaceSound(m, s, f, areas);
    StepInv(m, m', {Dir(s), Kern(f)});
  }

  /** `kfree` of the page directory: an emptied address space disappears. */
  ghost function DropSpace(m: Mach, s: nat): Mach
    requires Dir(s) in m.ledger && m.ledger[Dir(s)] < |m.count| && m.count[m.ledger[Dir(s)]] > 0
  {
    Release(m, Dir(s)).(space := m.space - {s}, win := m.win - {s})
  }

  lemma DropSpaceInv(m: Mach, s: nat)
    requires Inv(m) && s in m.space && m.space[s].pgd < NPAGE && !m.rsvd[m.space[s].pgd] && m.win[s].tlo == PTRS
    ensures Dir(s) in m.ledger && m.ledger[Dir(s)] == m.space[s].pgd && m.count[m.ledger[Dir(s)]] > 0
    ensures Inv(DropSpace(m, s)) && Only(m, DropSpace(m, s), {Dir(s)})
  {
    assert Live(m, Dir(s));
    ReleaseCounts(m, Dir(s));
    var m' := DropSpace(m, s);
    assert Sound(m', Dir(s));
    forall r: Ref | (r.Leaf? || r.Table?) && r.s == s ensures SameAt(m, m', r) && r !in m.ledger {
      assert !Visible(m, r);
    }
    assert Only(m, m', {Dir(s)});
    StepInv(m, m', {Dir(s)});
  }

  /** `vm_renew`: an emptied directory is rewritten with no user table present, and
      the process gets new areas. */
  ghost function Renew(m: Mach, s: nat, page: Page, areas: seq<Vma>): Mach
    requires s in m.space && m.space[s].pgd < |m.mem|
  {
    m.(mem := m.mem[m.space[s].pgd := page], win := m.win[s := FULL],
       space := m.space[s := Space(m.space[s].pgd, areas)])
  }

  lemma RenewSame(m: Mach, s: nat, page: Page, areas: seq<Vma>, r: Ref)
    requires Sizes(m) && Agrees(m) && Exclusive(m) && s in m.space && m.win[s].tlo == PTRS && |page| == PTRS
    requires forall d | KPD <= d < PTRS :: !page[d].p
    requires m.space[s].pgd < NPAGE && Dir(s) in m.ledger
    ensures SameAt(m, Renew(m, s, page, areas), r)
  {
    var m' := Renew(m, s, page, areas);
    if r.Table? || r.Leaf? {
      if r.s == s {
        assert !Visible(m, r);
      } else if Visible(m, r) {
        assert Live(m, Dir(r.s)) && Dir(r.s) in m.ledger;
        assert Pde(m', r.s, r.d) == Pde(m, r.s, r.d);
        if r.Leaf? && Pde(m, r.s, r.d).p {
          assert Live(m, Table(r.s, r.d)) && Table(r.s, r.d) in m.ledger;
          assert Pte(m', r.s, r.d, r.t) == Pte(m, r.s, r.d, r.t);
        }
      }
    }
  }

  lemma RenewInv(m: Mach, s: nat, page: Page, areas: seq<Vma>)
    requires Inv(m) && s in m.space && m.win[s].tlo == PTRS && |page| == PTRS && |areas| == NVMA
    requires forall d | KPD <= d < PTRS :: !page[d].p
    ensures m.space[s].pgd < NPAGE
    ensures Inv(Renew(m, s, page, areas)) && Only(m, Renew(m, s, page, areas), {})
  {
    assert Live(m, Dir(s));
    var m' := Renew(m, s, page, areas);
    forall r ensures SameAt(m, m', r) { RenewSame(m, s, page, areas, r); }
    assert Only(m, m', {});
    forall r | r in m.ledger && r.Leaf? ensures r.s != s { assert Visible(m, r); }
    StepInv(m, m', {});
  }

  /** Areas may change as long as they cover what the old ones covered. */
  lemma SetAreasInv(m: Mach, s: nat, areas: seq<Vma>)
    requires Inv(m) && s in m.space
    requires Grown(m.space[s], Space(m.space[s].pgd, areas)) && |areas| == NVMA
    ensures var m' := m.(space := m.space[s := Space(m.space[s].pgd, areas)]); Inv(m') && Only(m, m', {})
  {
    var m' := m.(space := m.space[s := Space(m.space[s].pgd, areas)]);
    assert Only(m, m', {});
    StepInv(m, m', {});
  }
}
