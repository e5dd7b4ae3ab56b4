/** The bucket allocator, as the set of its blocks: size classes of 32 to 2048 bytes live in
    pages that a bucket describes; 4096 bytes are a page of their own. */
module Buckets {
  import opened Sequences

  const PAGE: nat := 4096
  const STRUCT: nat := 16       // bytes of a struct bucket
  const WHOLE: nat := 7         // the class of whole pages

  /** i blocks of class sn. */
  function Times(sn: nat, i: nat): nat {
    if sn == 0 then 32 * i else if sn == 1 then 64 * i else if sn == 2 then 128 * i else if sn == 3 then 256 * i
    else if sn == 4 then 512 * i else if sn == 5 then 1024 * i else if sn == 6 then 2048 * i else PAGE * i
  }

  function Size(sn: nat): nat {
    Times(sn, 1)
  }

  /** The number of blocks of class sn in a page. */
  function Count(sn: nat): nat {
    if sn == 0 then 128 else if sn == 1 then 64 else if sn == 2 then 32 else if sn == 3 then 16
    else if sn == 4 then 8 else if sn == 5 then 4 else if sn == 6 then 2 else 1
  }

  lemma TimesFacts(sn: nat, i: nat, j: nat)
    requires i < j
    ensures Times(sn, i) + Size(sn) <= Times(sn, j) && Times(sn, Count(sn)) == PAGE && Size(sn) >= 32
    ensures Times(sn, i + 1) == Times(sn, i) + Size(sn) && Times(sn, 0) == 0
  {
  }

  /** What a page is used for. */
  datatype Role = Idle | Tables | Bucket(sn: nat, s: nat) | Whole

  /** role: all pages of the allocator; pages: the free ones; spare: free bucket structs;
      chain: the buckets of each class; page, free: each bucket's page and free entries;
      out: the blocks handed out, with their class. */
  datatype Heap = Heap(role: map<nat, Role>, pages: seq<nat>, spare: seq<nat>, chain: seq<seq<nat>>,
                       page: map<nat, nat>, free: map<nat, seq<nat>>, out: map<nat, nat>)

  ghost predicate InChain(h: Heap, sn: nat, s: nat) {
    sn < |h.chain| && s in h.chain[sn]
  }

  function SlotAt(p: nat, sn: nat, i: nat): nat {
    p * PAGE + Times(sn, i)
  }

  /** a is one of the slots of size Size(sn) that page p divides into. */
  ghost predicate IsSlot(a: nat, p: nat, sn: nat) {
    exists i: nat | i < Count(sn) :: a == SlotAt(p, sn, i)
  }

  // ---------------------------------------------------------------- the invariant

  ghost predicate PagesOk(h: Heap) {
    && Distinct(h.pages) && (forall p | p in h.role :: p > 0)
    && (forall p | p in h.pages :: p in h.role && h.role[p] == Idle)
  }

  /** Bucket structs lie in pages of their own and are each in one list. */
  ghost predicate StructAt(h: Heap, s: nat) {
    s % STRUCT == 0 && s / PAGE in h.role && h.role[s / PAGE] == Tables
  }

  ghost predicate StructsOk(h: Heap) {
    && |h.chain| == WHOLE && Distinct(h.spare) && (forall sn: nat | sn < WHOLE :: Distinct(h.chain[sn]))
    && (forall s | s in h.spare :: StructAt(h, s))
    && (forall sn, s | InChain(h, sn, s) :: StructAt(h, s) && s !in h.spare)
  }

  /** Each bucket has a page, and each bucket page its bucket. */
  ghost predicate Owned(h: Heap) {
    && (forall sn, s | InChain(h, sn, s) ::
          s in h.page && s in h.free && h.page[s] in h.role && h.role[h.page[s]] == Bucket(sn, s))
    && (forall p | p in h.role && h.role[p].Bucket? ::
          InChain(h, h.role[p].sn, h.role[p].s) && h.page[h.role[p].s] == p)
  }

  /** Free entries and blocks handed out tile the page of a bucket. */
  ghost predicate TiledBy(h: Heap, sn: nat, s: nat)
    requires s in h.page && s in h.free
  {
    && Distinct(h.free[s])
    && (forall a | a in h.free[s] :: IsSlot(a, h.page[s], sn) && a !in h.out)
    && (forall a: nat | IsSlot(a, h.page[s], sn) :: a in h.free[s] || a in h.out)
  }

  ghost predicate Tiled(h: Heap)
    requires Owned(h)
  {
    forall sn, s | InChain(h, sn, s) :: TiledBy(h, sn, s)
  }

  ghost predicate Held(h: Heap, a: nat) {
    && a in h.out && a / PAGE in h.role
    && match h.role[a / PAGE]
       case Bucket(sn, _) => h.out[a] == sn && IsSlot(a, a / PAGE, sn)
       case Whole => h.out[a] == WHOLE && IsSlot(a, a / PAGE, WHOLE)
       case _ => false
  }

  ghost predicate Given(h: Heap) {
    && (forall a | a in h.out :: Held(h, a))
    && (forall p | p in h.role && h.role[p] == Whole :: p * PAGE in h.out)
  }

  ghost predicate Inv(h: Heap) {
    PagesOk(h) && StructsOk(h) && Owned(h) && Tiled(h) && Given(h)
  }

  // ---------------------------------------------------------------- blocks do not overlap

  predicate Apart(a: nat, m: nat, b: nat, n: nat) {
    a + m <= b || b + n <= a
  }

  lemma SlotInPage(a: nat, p: nat, sn: nat)
    requires IsSlot(a, p, sn)
    ensures a / PAGE == p && a % PAGE + Size(sn) <= PAGE
  {
    hide Times, Size, Count;
    var i: nat :| i < Count(sn) && a == SlotAt(p, sn, i);
    TimesFacts(sn, i, Count(sn));
  }

  lemma SlotsApart(a: nat, b: nat, p: nat, sn: nat)
    requires IsSlot(a, p, sn) && IsSlot(b, p, sn) && a != b
    ensures Apart(a, Size(sn), b, Size(sn))
  {
    hide Times, Size, Count;
    var i: nat :| i < Count(sn) && a == SlotAt(p, sn, i);
    var j: nat :| j < Count(sn) && b == SlotAt(p, sn, j);
    if i < j { TimesFacts(sn, i, j); } else { TimesFacts(sn, j, i); }
  }

  /** a is a multiple of the size of class sn. */
  predicate Aligned(a: nat, sn: nat) {
    if sn == 0 then a % 32 == 0 else if sn == 1 then a % 64 == 0 else if sn == 2 then a % 128 == 0
    else if sn == 3 then a % 256 == 0 else if sn == 4 then a % 512 == 0 else if sn == 5 then a % 1024 == 0
    else if sn == 6 then a % 2048 == 0 else a % PAGE == 0
  }

  lemma Aligned32(p: nat, i: nat)
    ensures (4096 * p + 32 * i) % 32 == 0 && (4096 * p + 64 * i) % 64 == 0
  {
    assert 4096 * p + 32 * i == 32 * (128 * p + i);
    assert 4096 * p + 64 * i == 64 * (64 * p + i);
  }

  lemma Aligned128(p: nat, i: nat)
    ensures (4096 * p + 128 * i) % 128 == 0 && (4096 * p + 256 * i) % 256 == 0
  {
    assert 4096 * p + 128 * i == 128 * (32 * p + i);
    assert 4096 * p + 256 * i == 256 * (16 * p + i);
  }

  lemma Aligned512(p: nat, i: nat)
    ensures (4096 * p + 512 * i) % 512 == 0 && (4096 * p + 1024 * i) % 1024 == 0
  {
    assert 4096 * p + 512 * i == 512 * (8 * p + i);
    assert 4096 * p + 1024 * i == 1024 * (4 * p + i);
  }

  lemma Aligned2048(p: nat, i: nat)
    ensures (4096 * p + 2048 * i) % 2048 == 0 && (4096 * p + 4096 * i) % 4096 == 0
  {
    assert 4096 * p + 2048 * i == 2048 * (2 * p + i);
    assert 4096 * p + 4096 * i == 4096 * (p + i);
  }

  lemma SlotAligned(a: nat, p: nat, sn: nat)
    requires IsSlot(a, p, sn)
    ensures Aligned(a, sn)
  {
    var i: nat :| i < Count(sn) && a == SlotAt(p, sn, i);
    Aligned32(p, i);
    Aligned128(p, i);
    Aligned512(p, i);
    Aligned2048(p, i);
  }

  lemma PagesApart(a: nat, m: nat, b: nat, n: nat)
    requires a / PAGE != b / PAGE && a % PAGE + m <= PAGE && b % PAGE + n <= PAGE
    ensures Apart(a, m, b, n)
  {
  }

  /** Any two blocks handed out are disjoint. */
  lemma BlocksApart(h: Heap, a: nat, b: nat)
    requires Inv(h) && a in h.out && b in h.out && a != b
    ensures Apart(a, Size(h.out[a]), b, Size(h.out[b]))
  {
    hide Times, Size, Count, IsSlot;
    assert Held(h, a) && Held(h, b);
    if a / PAGE == b / PAGE {
      SlotsApart(a, b, a / PAGE, h.out[a]);
    } else {
      SlotInPage(a, a / PAGE, h.out[a]);
      SlotInPage(b, b / PAGE, h.out[b]);
      PagesApart(a, Size(h.out[a]), b, Size(h.out[b]));
    }
  }

  lemma BlockAligned(h: Heap, a: nat)
    requires Inv(h) && a in h.out
    ensures Aligned(a, h.out[a])
  {
    hide IsSlot, Aligned;
    assert Held(h, a);
    SlotAligned(a, a / PAGE, h.out[a]);
  }

  // ---------------------------------------------------------------- steps

  /** `pgalloc`, for a page put to use as r. */
  function UsePage(h: Heap, r: Role): Heap
    requires h.pages != []
  {
    h.(pages := h.pages[1..], role := h.role[h.pages[0] := r])
  }

  /** The structs in a page. */
  function StructsIn(p: nat): (ss: seq<nat>)
    ensures |ss| == PAGE / STRUCT && forall i | 0 <= i < |ss| :: ss[i] == p * PAGE + i * STRUCT
  {
    seq(PAGE / STRUCT, i requires 0 <= i < PAGE / STRUCT => p * PAGE + i * STRUCT)
  }

  /** `bkalloc` without a free struct: a page becomes structs. */
  function Refill(h: Heap): Heap
    requires h.pages != []
  {
    UsePage(h, Tables).(spare := StructsIn(h.pages[0]))
  }

  lemma RefillInv(h: Heap)
    requires Inv(h) && h.pages != [] && h.spare == []
    ensures Inv(Refill(h))
  {
    var p, h' := h.pages[0], Refill(h);
    hide TiledBy, Times, Size, Count, IsSlot;
    assert h.role[p] == Idle;
    assert forall s | s in h'.spare :: s / PAGE == p && s % STRUCT == 0;
    forall sn, s | InChain(h', sn, s) ensures StructAt(h', s) && s !in h'.spare {
      assert InChain(h, sn, s) && StructAt(h, s);
    }
    forall sn, s | InChain(h', sn, s)
      ensures s in h'.page && s in h'.free && h'.page[s] in h'.role && h'.role[h'.page[s]] == Bucket(sn, s)
    {
      assert InChain(h, sn, s);
    }
    forall sn, s | InChain(h', sn, s) ensures TiledBy(h', sn, s) { SameTiles(h, h', sn, s); }
    forall a | a in h'.out ensures Held(h', a) { assert Held(h, a); }
  }

  lemma SameTiles(h: Heap, h': Heap, sn: nat, s: nat)
    requires Inv(h) && InChain(h, sn, s)
    requires s in h'.page && s in h'.free && h'.page[s] == h.page[s] && h'.free[s] == h.free[s]
    requires forall a: nat | a / PAGE == h.page[s] :: a in h'.out <==> a in h.out
    ensures TiledBy(h', sn, s)
  {
    hide Times, Size, Count, IsSlot;
    assert TiledBy(h, sn, s);
    forall a: nat | IsSlot(a, h.page[s], sn) ensures a / PAGE == h.page[s] { SlotInPage(a, h.page[s], sn); }
  }

  /** The slots of a page. */
  function SlotsIn(p: nat, sn: nat): (es: seq<nat>)
    ensures |es| == Count(sn) && forall i: nat | i < |es| :: es[i] == SlotAt(p, sn, i)
  {
    seq(Count(sn), i requires 0 <= i < Count(sn) => SlotAt(p, sn, i))
  }

  lemma SlotsTile(p: nat, sn: nat)
    ensures Distinct(SlotsIn(p, sn)) && forall a: nat :: a in SlotsIn(p, sn) <==> IsSlot(a, p, sn)
  {
    hide Times, Size, Count;
    var es := SlotsIn(p, sn);
    forall a: nat | IsSlot(a, p, sn) ensures a in es {
      var i: nat :| i < Count(sn) && a == SlotAt(p, sn, i);
      assert es[i] == a;
    }
    forall i: nat, j: nat | i < j < |es| ensures es[i] != es[j] { TimesFacts(sn, i, j); }
  }

  /** A free struct becomes a bucket for class sn on a new page, at the head of its chain. */
  function NewBucket(h: Heap, sn: nat): Heap
    requires h.pages != [] && h.spare != [] && sn < |h.chain|
  {
    var s, p := h.spare[0], h.pages[0];
    UsePage(h, Bucket(sn, s)).(spare := h.spare[1..], chain := h.chain[sn := [s] + h.chain[sn]],
                               page := h.page[s := p], free := h.free[s := SlotsIn(p, sn)])
  }

  lemma NewBucketInv(h: Heap, sn: nat)
    requires Inv(h) && h.pages != [] && h.spare != [] && sn < WHOLE
    ensures Inv(NewBucket(h, sn))
  {
    hide TiledBy, Times, Size, Count, IsSlot, StructAt;
    var s, p, h' := h.spare[0], h.pages[0], NewBucket(h, sn);
    assert h.role[p] == Idle && StructAt(h, s);
    NewBucketChains(h, sn);
    forall t | StructAt(h, t) ensures StructAt(h', t) { StructKept(h, h', Bucket(sn, s), t); }
    forall n, t | InChain(h', n, t) ensures TiledBy(h', n, t) {
      if t == s { FreshTiles(h, h', sn); } else { SameTiles(h, h', n, t); }
    }
    forall a | a in h'.out ensures Held(h', a) { assert Held(h, a); }
  }

  lemma StructKept(h: Heap, h': Heap, r: Role, t: nat)
    requires StructAt(h, t) && h.pages != []
    requires h.pages[0] in h.role && h.role[h.pages[0]] == Idle && h'.role == h.role[h.pages[0] := r]
    ensures StructAt(h', t)
  {
  }

  lemma NewBucketChains(h: Heap, sn: nat)
    requires Inv(h) && h.pages != [] && h.spare != [] && sn < WHOLE
    ensures forall n, t :: InChain(NewBucket(h, sn), n, t) <==> InChain(h, n, t) || (n == sn && t == h.spare[0])
    ensures forall n: nat | n < WHOLE :: Distinct(NewBucket(h, sn).chain[n])
    ensures forall n :: !InChain(h, n, h.spare[0])
  {
  }

  lemma FreshTiles(h: Heap, h': Heap, sn: nat)
    requires Inv(h) && h.pages != [] && h.spare != [] && sn < WHOLE && h' == NewBucket(h, sn)
    ensures TiledBy(h', sn, h.spare[0])
  {
    hide Times, Size, Count, IsSlot;
    var p := h.pages[0];
    SlotsTile(p, sn);
    forall a | a in SlotsIn(p, sn) ensures a !in h'.out {
      SlotInPage(a, p, sn);
      assert a in h.out ==> Held(h, a);
    }
  }

  /** The first free entry of bucket s is handed out. */
  function TakeEntry(h: Heap, sn: nat, s: nat): Heap
    requires s in h.free && h.free[s] != []
  {
    h.(free := h.free[s := h.free[s][1..]], out := h.out[h.free[s][0] := sn])
  }

  /** Steps that move entries between a free chain and the blocks handed out. */
  lemma MoveInv(h: Heap, h': Heap, sn: nat, s: nat)
    requires Inv(h) && InChain(h, sn, s)
    requires h' == h.(free := h'.free, out := h'.out) && h'.free.Keys == h.free.Keys
    requires forall t | t in h.free && t != s :: h'.free[t] == h.free[t]
    requires forall a: nat | a / PAGE != h.page[s] :: a in h'.out <==> a in h.out
    requires s in h'.page && s in h'.free && TiledBy(h', sn, s) && forall a | a in h'.out :: Held(h', a)
    ensures Inv(h')
  {
    hide TiledBy, Times, Size, Count, IsSlot, Held, Distinct;
    assert PagesOk(h') && StructsOk(h') && Owned(h') by { MoveShape(h, h'); }
    forall n, t | InChain(h', n, t) ensures TiledBy(h', n, t) {
      MoveShape(h, h');
      assert InChain(h, n, t);
      if t != s {
        assert h.page[t] != h.page[s];
        SameTiles(h, h', n, t);
      }
    }
    forall q | q in h'.role && h'.role[q] == Whole ensures q * PAGE in h'.out { assert (q * PAGE) / PAGE == q; }
  }

  lemma MoveShape(h: Heap, h': Heap)
    requires Inv(h) && h' == h.(free := h'.free, out := h'.out) && h'.free.Keys == h.free.Keys
    ensures PagesOk(h') && StructsOk(h') && Owned(h') && forall n, t :: InChain(h', n, t) <==> InChain(h, n, t)
  {
    hide TiledBy, Held, Distinct;
    forall n, t ensures InChain(h', n, t) <==> InChain(h, n, t) { }
    forall t | StructAt(h, t) ensures StructAt(h', t) { }
  }

  lemma TakeEntryInv(h: Heap, sn: nat, s: nat)
    requires Inv(h) && InChain(h, sn, s) && h.free[s] != []
    ensures Inv(TakeEntry(h, sn, s)) && h.free[s][0] !in h.out
  {
    hide TiledBy, Times, Size, Count, IsSlot;
    var h', a := TakeEntry(h, sn, s), h.free[s][0];
    TakenTiles(h, sn, s);
    forall b | b in h'.out ensures Held(h', b) { if b != a { assert Held(h, b); } }
    MoveInv(h, h', sn, s);
  }

  lemma TakenTiles(h: Heap, sn: nat, s: nat)
    requires Inv(h) && InChain(h, sn, s) && h.free[s] != []
    ensures TiledBy(TakeEntry(h, sn, s), sn, s) && h.free[s][0] !in h.out
    ensures h.free[s][0] / PAGE == h.page[s] && IsSlot(h.free[s][0], h.page[s], sn)
  {
    hide Times, Size, Count, IsSlot;
    assert TiledBy(h, sn, s);
    assert h.free[s][0] in h.free[s];
    SlotInPage(h.free[s][0], h.page[s], sn);
  }

  /** Block a goes back to bucket s. */
  function GiveEntry(h: Heap, s: nat, a: nat): Heap
    requires s in h.free
  {
    h.(free := h.free[s := [a] + h.free[s]], out := h.out - {a})
  }

  lemma GiveEntryInv(h: Heap, s: nat, a: nat)
    requires Inv(h) && a in h.out && h.out[a] < WHOLE && InChain(h, h.out[a], s) && h.page[s] == a / PAGE
    ensures Inv(GiveEntry(h, s, a))
  {
    hide TiledBy, Times, Size, Count, IsSlot;
    var h' := GiveEntry(h, s, a);
    GivenTiles(h, s, a);
    forall b | b in h'.out ensures Held(h', b) { assert Held(h, b); }
    MoveInv(h, h', h.out[a], s);
  }

  lemma GivenTiles(h: Heap, s: nat, a: nat)
    requires Inv(h) && a in h.out && h.out[a] < WHOLE && InChain(h, h.out[a], s) && h.page[s] == a / PAGE
    ensures TiledBy(GiveEntry(h, s, a), h.out[a], s)
  {
    hide Times, Size, Count, IsSlot;
    assert TiledBy(h, h.out[a], s) && Held(h, a);
  }

  /** Every block of a bucket class has its bucket. */
  lemma BucketOf(h: Heap, a: nat) returns (s: nat)
    requires Inv(h) && a in h.out && h.out[a] < WHOLE
    ensures InChain(h, h.out[a], s) && h.page[s] == a / PAGE
  {
    assert Held(h, a);
    s := h.role[a / PAGE].s;
  }

  /** A whole page is handed out, or comes back. */
  function TakePage(h: Heap): Heap
    requires h.pages != []
  {
    UsePage(h, Whole).(out := h.out[h.pages[0] * PAGE := WHOLE])
  }

  function GivePage(h: Heap, a: nat): Heap {
    h.(role := h.role[a / PAGE := Idle], pages := [a / PAGE] + h.pages, out := h.out - {a})
  }

  lemma PageOwned(h: Heap, h': Heap, p: nat, r: Role)
    requires StructsOk(h) && Owned(h) && p in h.role && (h.role[p] == Idle || h.role[p] == Whole)
    requires h' == h.(role := h'.role, pages := h'.pages, out := h'.out) && h'.role == h.role[p := r] && !r.Bucket?
    ensures StructsOk(h') && Owned(h')
  {
    forall n, t | InChain(h', n, t) ensures StructAt(h', t) && t !in h'.spare {
      assert InChain(h, n, t) && StructAt(h, t);
    }
    forall t | t in h'.spare ensures StructAt(h', t) { assert StructAt(h, t); }
    forall n, t | InChain(h', n, t)
      ensures t in h'.page && t in h'.free && h'.page[t] in h'.role && h'.role[h'.page[t]] == Bucket(n, t)
    {
      assert InChain(h, n, t);
    }
  }

  lemma PageGiven(h: Heap, h': Heap, p: nat, r: Role)
    requires Given(h) && h'.role == h.role[p := r]
    requires forall a: nat | a / PAGE != p :: a in h'.out <==> a in h.out
    requires forall a | a / PAGE != p && a in h.out :: h'.out[a] == h.out[a]
    requires forall a | a in h'.out && a / PAGE == p :: Held(h', a)
    requires h'.role[p] == Whole ==> p * PAGE in h'.out
    ensures Given(h')
  {
    hide IsSlot;
    forall a | a in h'.out ensures Held(h', a) { if a / PAGE != p { assert Held(h, a); } }
    forall q | q in h'.role && h'.role[q] == Whole ensures q * PAGE in h'.out { if q != p { assert (q * PAGE) / PAGE == q; } }
  }

  lemma PageInv(h: Heap, h': Heap, p: nat, r: Role)
    requires Inv(h) && p in h.role && (h.role[p] == Idle || h.role[p] == Whole)
    requires h' == h.(role := h'.role, pages := h'.pages, out := h'.out) && PagesOk(h')
    requires h'.role == h.role[p := r] && !r.Bucket?
    requires forall a: nat | a / PAGE != p :: a in h'.out <==> a in h.out
    requires forall a | a / PAGE != p && a in h.out :: h'.out[a] == h.out[a]
    requires forall a | a in h'.out && a / PAGE == p :: Held(h', a)
    requires h'.role[p] == Whole ==> p * PAGE in h'.out
    ensures Inv(h')
  {
    hide TiledBy, Times, Size, Count, IsSlot, Given, StructsOk, PagesOk, Held;
    PageOwned(h, h', p, r);
    PageGiven(h, h', p, r);
    forall n, t | InChain(h', n, t) ensures TiledBy(h', n, t) { SameTiles(h, h', n, t); }
  }

  lemma TakePageInv(h: Heap)
    requires Inv(h) && h.pages != []
    ensures Inv(TakePage(h)) && h.pages[0] * PAGE !in h.out
  {
    hide Times, Size, Count, IsSlot;
    var p: nat, h' := h.pages[0], TakePage(h);
    assert h.role[p] == Idle && p * PAGE / PAGE == p;
    PageSlot(p);
    forall a: nat | a in h.out ensures a / PAGE != p { assert Held(h, a); }
    PageInv(h, h', p, Whole);
  }

  /** A page has one slot of its own size. */
  lemma PageSlot(p: nat)
    ensures forall a: nat :: IsSlot(a, p, WHOLE) <==> a == p * PAGE
  {
    assert SlotAt(p, WHOLE, 0) == p * PAGE;
  }

  lemma GivePageInv(h: Heap, a: nat)
    requires Inv(h) && a in h.out && h.out[a] == WHOLE
    ensures Inv(GivePage(h, a))
  {
    hide Times, Size, Count, IsSlot;
    var p, h' := a / PAGE, GivePage(h, a);
    assert Held(h, a) && h.role[p] == Whole by { ClassOf(h, a); }
    forall b: nat | b in h'.out ensures b / PAGE != p { SoleBlock(h, a, b); }
    PageInv(h, h', p, Idle);
  }

  /** A whole page holds one block. */
  lemma SoleBlock(h: Heap, a: nat, b: nat)
    requires Inv(h) && a in h.out && b in h.out && h.out[a] == WHOLE && a != b
    ensures a / PAGE != b / PAGE
  {
    hide Times, Size, Count, IsSlot;
    ClassOf(h, a);
    ClassOf(h, b);
    PageSlot(a / PAGE);
  }

  lemma ClassOf(h: Heap, a: nat)
    requires Inv(h) && a in h.out
    ensures Held(h, a) && (h.out[a] == WHOLE <==> h.role[a / PAGE] == Whole)
  {
    assert Held(h, a);
    if h.role[a / PAGE].Bucket? { assert InChain(h, h.role[a / PAGE].sn, h.role[a / PAGE].s); }
  }
}
