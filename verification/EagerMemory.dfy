/** The memory that user programs are promised: every process owns its pages outright,
    and `fork` copies all of them at once. */
module EagerMemory {
  import opened FrameLedger
  import opened Ledgers
  import opened Paging

  /** Contents of every mapped user page, keyed by process, directory and table index. */
  type Memory = map<Ref, Page>

  datatype Event =
    | Forked(p: nat, c: nat)                  // c starts as a copy of p
    | Filled(r: Ref, page: Page)              // page r appears with these contents
    | Stored(r: Ref, i: nat, w: Word)         // word i of page r is written
    | Dropped(s: nat)                         // all pages of s disappear

  ghost function ForkCopy(a: Memory, p: nat, c: nat): Memory {
    a + map r | r in a && r.Leaf? && r.s == p :: Leaf(c, r.d, r.t) := a[r]
  }

  lemma ForkAt(a: Memory, p: nat, c: nat, r: Ref)
    ensures var twin := r.Leaf? && r.s == c && Leaf(p, r.d, r.t) in a;
            && (r in ForkCopy(a, p, c) <==> r in a || twin)
            && (twin ==> ForkCopy(a, p, c)[r] == a[Leaf(p, r.d, r.t)])
            && (r in a && !twin ==> ForkCopy(a, p, c)[r] == a[r])
  {
    assert r.Leaf? && r.s == c ==> Leaf(c, r.d, r.t) == r;
  }

  ghost function Apply(a: Memory, e: Event): Memory {
    match e
    case Forked(p, c) => ForkCopy(a, p, c)
    case Filled(r, page) => a[r := page]
    case Stored(r, i, w) => if r in a && i < |a[r]| then a[r := a[r][i := w]] else a
    case Dropped(s) => map r | r in a && !(r.Leaf? && r.s == s) :: a[r]
  }

  ghost function Replay(a: Memory, es: seq<Event>): Memory {
    if es == [] then a else Apply(Replay(a, es[..|es| - 1]), es[|es| - 1])
  }

  lemma {:induction false} ReplayConcat(a: Memory, es: seq<Event>, fs: seq<Event>)
    ensures Replay(a, es + fs) == Replay(Replay(a, es), fs)
  {
    if fs == [] {
      assert es + fs == es;
    } else {
      var gs := es + fs;
      assert gs[..|gs| - 1] == es + fs[..|fs| - 1];
      ReplayConcat(a, es, fs[..|fs| - 1]);
    }
  }

  lemma ReplayNone(a: Memory)
    ensures Replay(a, []) == a
  {
  }

  lemma ReplayOne(a: Memory, e: Event)
    ensures Replay(a, []) == a && Replay(a, [e]) == Apply(a, e)
  {
    assert [e][..0] == [];
    assert Replay(a, []) == a;
  }

  /** Whose memory an event changes. */
  predicate Touches(e: Event, s: nat) {
    match e
    case Forked(_, c) => c == s
    case Filled(r, _) => r.Leaf? && r.s == s
    case Stored(r, _, _) => r.Leaf? && r.s == s
    case Dropped(s') => s' == s
  }

  /** A process's pages change only by events of its own: whatever the other processes do
      after a fork is invisible to it. */
  lemma {:induction false} Isolation(a: Memory, es: seq<Event>, s: nat, d: nat, t: nat)
    requires forall e | e in es :: !Touches(e, s)
    ensures Leaf(s, d, t) in Replay(a, es) <==> Leaf(s, d, t) in a
    ensures Leaf(s, d, t) in a ==> Replay(a, es)[Leaf(s, d, t)] == a[Leaf(s, d, t)]
  {
    if es != [] {
      var e := es[|es| - 1];
      assert e in es;
      Isolation(a, es[..|es| - 1], s, d, t);
    }
  }
}
