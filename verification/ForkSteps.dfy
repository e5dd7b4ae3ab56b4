/** Composite steps of `pt_copy` and `pt_free`, entry by entry. */
module ForkSteps {
  import opened FrameLedger
  import opened Ledgers
  import opened Paging
  import opened PagingSteps
  import opened WindowSteps
  import opened Params

  /** r belongs to address space s. */
  predicate Of(r: Ref, s: nat) { !r.Kern? && r.s == s }

  /** While the tables of p are copied to c, everybody else is untouched; p keeps its pages
      and their contents and at most loses write permission. */
  ghost predicate CopyFrame(m0: Mach, m: Mach, p: nat, c: nat) {
    && m.space == m0.space && m.rsvd == m0.rsvd && |m.mem| == |m0.mem|
    && (forall r: Ref | !Of(r, c) :: Kept(m0, m, r))
    && (forall r: Ref | !Of(r, c) && r in m0.ledger && (r.Leaf? || r.Kern?) ::
          m0.ledger[r] < |m0.mem| && m.mem[m0.ledger[r]] == m0.mem[m0.ledger[r]])
    && (forall r: Ref | !Of(r, c) && !Of(r, p) :: SameAt(m0, m, r))
  }

  /** The child has the areas of the parent, unless the parent has no user pages at all. */
  ghost predicate InheritsAreas(m: Mach, p: nat, c: nat) {
    && p in m.space && c in m.space
    && (m.space[c].areas == m.space[p].areas || forall r: Ref | r in m.ledger && r.Leaf? :: r.s != p)
  }

  lemma InheritsAt(m0: Mach, m: Mach, p: nat, c: nat, d: nat, t: nat)
    requires InheritsAreas(m0, p, c) && CopyFrame(m0, m, p, c) && p != c && Leaf(p, d, t) in m.ledger
    ensures m.space[c].areas == m.space[p].areas
  {
    assert Kept(m0, m, Leaf(p, d, t));
  }

  /** The pages of p numbered below n are shared with c, write-protected. */
  ghost predicate CopiedBelow(m: Mach, p: nat, c: nat, n: nat) {
    && Twins(m, p, c)
    && (forall d: nat, t: nat | Leaf(p, d, t) in m.ledger && d * PTRS + t < n ::
          Leaf(c, d, t) in m.ledger && !Writable(m, Leaf(p, d, t)))
  }

  lemma CopyFrameStep(m0: Mach, m: Mach, m': Mach, p: nat, c: nat, x: set<Ref>)
    requires CopyFrame(m0, m, p, c) && Only(m, m', x) && m'.space == m.space && |m'.mem| == |m.mem|
    requires forall r | r in x :: Of(r, c)
    ensures CopyFrame(m0, m', p, c)
  {
    forall r: Ref | !Of(r, c) ensures Same(m, m', r) { assert r !in x; }
  }

  lemma CopyFrameProtect(m0: Mach, m: Mach, m': Mach, p: nat, c: nat, q: Ref)
    requires CopyFrame(m0, m, p, c) && Only(m, m', {q}) && m'.space == m.space && |m'.mem| == |m.mem|
    requires q.Leaf? && q.s == p && p != c && m'.ledger == m.ledger
    requires q in m.ledger && m.ledger[q] < |m.mem| && m'.mem[m.ledger[q]] == m.mem[m.ledger[q]]
    ensures CopyFrame(m0, m', p, c)
  {
    forall r: Ref | !Of(r, c) && r in m0.ledger && (r.Leaf? || r.Kern?)
      ensures m'.mem[m0.ledger[r]] == m0.mem[m0.ledger[r]]
    {
      assert Kept(m0, m, r);
      if r != q { assert Same(m, m', r); }
    }
    forall r: Ref | !Of(r, c) && !Of(r, p) ensures SameAt(m0, m', r) {
      assert SameAt(m0, m, r) && Same(m, m', r);
    }
  }

  /** Steps that change only references of c other than its pages keep the progress. */
  lemma CopiedKept(m: Mach, m': Mach, p: nat, c: nat, n: nat, x: set<Ref>)
    requires CopiedBelow(m, p, c, n) && Agrees(m) && Only(m, m', x) && forall r | r in x :: !r.Leaf?
    ensures CopiedBelow(m', p, c, n)
  {
    hide SameAt, Live, Writable;
    forall r: Ref | r.Leaf? ensures Same(m, m', r) { assert r !in x; }
    forall d: nat, t: nat | Leaf(p, d, t) in m'.ledger && d * PTRS + t < n
      ensures Leaf(c, d, t) in m'.ledger && !Writable(m', Leaf(p, d, t))
    {
      assert Same(m, m', Leaf(p, d, t)) && Same(m, m', Leaf(c, d, t));
      StillProtected(m, m', Leaf(p, d, t));
    }
    forall d: nat, t: nat | Leaf(c, d, t) in m'.ledger
      ensures Leaf(p, d, t) in m'.ledger && m'.ledger[Leaf(p, d, t)] == m'.ledger[Leaf(c, d, t)]
    {
      assert Same(m, m', Leaf(p, d, t)) && Same(m, m', Leaf(c, d, t));
    }
  }

  lemma StillProtected(m: Mach, m': Mach, r: Ref)
    requires Agrees(m) && Same(m, m', r) && r in m.ledger && !Writable(m, r)
    ensures !Writable(m', r)
  {
  }

  // ---------------------------------------------------------------- one entry of pt_copy

  ghost predicate CopyState(m: Mach, p: nat, c: nat, d: nat, t: nat) {
    && p in m.space && c in m.space && p != c && KPD <= d < PTRS && t < PTRS
    && p in m.win && m.win[p] == FULL
    && c in m.win && m.win[c] == Window(KPD, d + 1, KPD * PTRS, d * PTRS + t)
    && Table(p, d) in m.ledger && Table(c, d) in m.ledger
    && (Leaf(p, d, t) in m.ledger ==> m.space[c].areas == m.space[p].areas)
    && CopiedBelow(m, p, c, d * PTRS + t)
  }

  /** First the child's entry is written, out of sight. */
  lemma WriteChild(m: Mach, p: nat, c: nat, d: nat, t: nat, w: Word)
    requires Inv(m) && CopyState(m, p, c, d, t)
    ensures m.ledger[Table(c, d)] < |m.mem| && t < |m.mem[m.ledger[Table(c, d)]]|
    ensures var m' := PutPte(m, c, d, t, w);
            Inv(m') && Only(m, m', {}) && CopyState(m', p, c, d, t) && Pte(m', c, d, t) == w
  {
    hide Inv, Only, CopiedBelow, Pte;
    Facts(m);
    ReadDir(m, c, d);
    PutHiddenPteInv(m, c, d, t, w);
    AgreesOf(m);
    CopiedKept(m, PutPte(m, c, d, t, w), p, c, d * PTRS + t, {});
  }

  lemma AgreesOf(m: Mach)
    requires Inv(m)
    ensures Agrees(m)
  {
  }

  /** Then, for a present page, the parent's entry is write-protected. */
  lemma ProtectParent(m: Mach, p: nat, c: nat, d: nat, t: nat, w: Word)
    requires Inv(m) && CopyState(m, p, c, d, t) && Leaf(p, d, t) in m.ledger
    requires w.off == Pte(m, p, d, t).off && w.p && w.u && !w.w
    ensures m.ledger[Table(p, d)] < |m.mem| && t < |m.mem[m.ledger[Table(p, d)]]|
    ensures var m' := PutPte(m, p, d, t, w);
            && Inv(m') && Only(m, m', {Leaf(p, d, t)}) && CopyState(m', p, c, d, t)
            && !Writable(m', Leaf(p, d, t)) && Pte(m', c, d, t) == Pte(m, c, d, t)
            && m.ledger[Leaf(p, d, t)] < |m.mem| && m'.mem[m.ledger[Leaf(p, d, t)]] == m.mem[m.ledger[Leaf(p, d, t)]]
  {
    hide Inv, Only, Live, SameAt, Writable, Visible;
    var q := Leaf(p, d, t);
    Facts(m);
    SetWriteInv(m, p, d, t, w);
    var m' := PutPte(m, p, d, t, w);
    AgreesOf(m);
    ReadTable(m, c, d, t);
    ReadTable(m', c, d, t);
    assert m.ledger[Table(c, d)] != m.ledger[Table(p, d)] by { TablesDiffer(m, Table(c, d), Table(p, d)); }
    forall d': nat, t': nat | Leaf(p, d', t') in m'.ledger && d' * PTRS + t' < d * PTRS + t
      ensures Leaf(c, d', t') in m'.ledger && !Writable(m', Leaf(p, d', t'))
    {
      OnlySame(m, m', {q}, Leaf(p, d', t'));
      StillProtected(m, m', Leaf(p, d', t'));
    }
  }

  lemma OnlySame(m: Mach, m': Mach, x: set<Ref>, r: Ref)
    requires Only(m, m', x) && r !in x
    ensures Same(m, m', r)
  {
  }

  lemma TablesDiffer(m: Mach, r: Ref, r': Ref)
    requires Inv(m) && r in m.ledger && r' in m.ledger && r != r' && r.Table?
    ensures m.ledger[r] != m.ledger[r']
  {
  }

  /** Finally the child's page comes into view. */
  lemma RevealChild(m: Mach, p: nat, c: nat, d: nat, t: nat)
    requires Inv(m) && CopyState(m, p, c, d, t) && Leaf(p, d, t) in m.ledger && !Writable(m, Leaf(p, d, t))
    requires Pte(m, c, d, t).p && Pte(m, c, d, t).off == m.ledger[Leaf(p, d, t)] && Pte(m, c, d, t).u && !Pte(m, c, d, t).w
    ensures Pte(m, c, d, t).off < |m.count| && m.count[Pte(m, c, d, t).off] <= NPROC
    ensures var m' := CopyEntry(m, c, d, t);
            && Inv(m') && Only(m, m', {Leaf(c, d, t)}) && CopiedBelow(m', p, c, d * PTRS + t + 1)
  {
    hide Inv, Only, Live, SameAt, Visible, Writable;
    Facts(m);
    CopyEntryInv(m, p, c, d, t);
    var m' := CopyEntry(m, c, d, t);
    AgreesOf(m);
    forall d': nat, t': nat | Leaf(p, d', t') in m'.ledger && d' * PTRS + t' < d * PTRS + t + 1
      ensures Leaf(c, d', t') in m'.ledger && !Writable(m', Leaf(p, d', t'))
    {
      OnlySame(m, m', {Leaf(c, d, t)}, Leaf(p, d', t'));
      LeafBounds(m, Leaf(p, d', t'));
      if d' * PTRS + t' == d * PTRS + t { PageNumber(d', t', d, t); }
      StillProtected(m, m', Leaf(p, d', t'));
    }
  }

  lemma LeafBounds(m: Mach, r: Ref)
    requires Inv(m) && r in m.ledger && r.Leaf?
    ensures KPD <= r.d < PTRS && r.t < PTRS
  {
    assert Live(m, r);
  }

  /** An entry that is not present. */
  lemma SkipChild(m: Mach, p: nat, c: nat, d: nat, t: nat)
    requires Inv(m) && CopyState(m, p, c, d, t) && Leaf(p, d, t) !in m.ledger && !Pte(m, c, d, t).p
    ensures var m' := SetWindow(m, c, m.win[c].(hi := d * PTRS + t + 1));
            && Inv(m') && Only(m, m', {}) && CopiedBelow(m', p, c, d * PTRS + t + 1)
  {
    hide Inv, Only, Live, SameAt, Visible, Writable;
    var m' := SetWindow(m, c, m.win[c].(hi := d * PTRS + t + 1));
    SkipEntryInv(m, p, c, d, t);
    AgreesOf(m);
    CopiedKept(m, m', p, c, d * PTRS + t, {});
    forall d': nat, t': nat | Leaf(p, d', t') in m'.ledger && d' * PTRS + t' < d * PTRS + t + 1
      ensures Leaf(c, d', t') in m'.ledger && !Writable(m', Leaf(p, d', t'))
    {
      LeafBounds(m', Leaf(p, d', t'));
      if d' * PTRS + t' == d * PTRS + t { PageNumber(d', t', d, t); }
    }
  }
}
