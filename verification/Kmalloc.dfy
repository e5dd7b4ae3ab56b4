/** `kmalloc` and `kfree`. */
module Kmalloc {
  import opened Buckets
  import opened KernelHeap
  import opened Sequences

  /** The least class that fits, if any. */
  function Class(size: int): (sn: int)
    ensures -1 <= sn <= WHOLE && (sn == -1 <==> size <= 0 || size > PAGE)
    ensures sn >= 0 ==> size <= Size(sn) && (sn > 0 ==> size > Size(sn - 1))
  {
    if size <= 0 || size > PAGE then -1
    else if size <= 32 then 0 else if size <= 64 then 1 else if size <= 128 then 2 else if size <= 256 then 3
    else if size <= 512 then 4 else if size <= 1024 then 5 else if size <= 2048 then 6 else 7
  }

  /** `bkslot`. */
  method BkSlot(size: int) returns (sn: int)
    ensures sn == Class(size)
  {
    if size <= 0 {
      return -1;
    }
    var n := 32;
    sn := 0;
    while n <= 4096
      invariant 0 <= sn <= 8 && n == (if sn < 8 then Size(sn) else 8192)
      invariant sn > 0 ==> size > Size(sn - 1)
      decreases 8 - sn
    {
      if size <= n {
        return;
      }
      n := n * 2;
      sn := sn + 1;
    }
    return -1;
  }

  datatype Outcome = Block(a: nat) | BadSize | NoPage

  class Allocator {
    var mem: Memory
    var head: seq<nat>        // bktab[sn].bk_next
    var spare: nat            // bkfreelist.bk_next
    var pages: seq<nat>       // the pages that pgalloc has left
    ghost var h: Heap

    ghost predicate Valid()
      reads this
    {
      Inv(h) && Linked(h, mem, head, spare) && pages == h.pages
    }

    constructor (pages: seq<nat>)
      requires Distinct(pages) && forall p | p in pages :: p > 0
      ensures Valid() && h.pages == pages && h.out == map[] && h.spare == [] && forall sn: nat | sn < WHOLE :: h.chain[sn] == []
    {
      mem, head, spare := map[], seq(WHOLE, _ => 0), 0;
      this.pages := pages;
      h := Heap(map p | p in pages :: Idle, pages, [], seq(WHOLE, _ => []), map[], map[], map[]);
    }

    // -------------------------------------------------------------- buckets

    /** The loop of `bkalloc`: link the structs of a page. */
    method LinkStructs(p: nat)
      requires p > 0 && spare == 0
      modifies this`mem, this`spare
      ensures Chained(mem, spare, StructsIn(p), BK_NEXT)
      ensures forall a: nat | a / PAGE != p :: Get(mem, a) == Get(old(mem), a)
    {
      hide Chained;
      ghost var ss := StructsIn(p);
      var prev, i := 0, 0;
      EmptyChained(mem, BK_NEXT);
      assert ss[..0] == [];
      while i < PAGE / STRUCT
        invariant 0 <= i <= |ss| && prev == (if i == 0 then 0 else ss[i - 1]) && spare == (if i == 0 then 0 else ss[0])
        invariant Chained(mem, spare, ss[..i], BK_NEXT)
        invariant forall a: nat | a / PAGE != p :: Get(mem, a) == Get(old(mem), a)
      {
        var bk := p * PAGE + i * STRUCT;
        StructPlace(p, i);
        if i > 0 { StructPlace(p, i - 1); }
        ghost var was := mem;
        if prev == 0 {
          spare := bk;
        } else {
          mem := mem[prev + BK_NEXT := bk];
        }
        mem := mem[bk + BK_NEXT := 0];
        StructsDistinct(p);
        assert ss[..i + 1] == ss[..i] + [bk];
        SnocChained(was, mem, ss[..i], bk, BK_NEXT);
        prev := bk;
        i := i + 1;
      }
      assert ss[..i] == ss;
    }

    /** The loop of `bkinit`: link the entries of a page. */
    method LinkEntries(p: nat, sn: nat)
      requires p > 0 && sn < WHOLE
      modifies this`mem
      ensures Chained(mem, p * PAGE, SlotsIn(p, sn), 0)
      ensures forall a: nat | a / PAGE != p :: Get(mem, a) == Get(old(mem), a)
    {
      hide Chained, Times, Count, Size;
      ghost var es := SlotsIn(p, sn);
      SlotsTile(p, sn);
      TimesFacts(sn, 0, 1);
      CountPositive(sn);
      var beh, i := p * PAGE, 0;
      EmptyChained(mem, 0);
      assert es[..0] == [];
      while i < Count(sn)
        invariant 0 <= i <= |es| && beh == (if i == 0 then es[0] else es[i - 1])
        invariant Chained(mem, if i == 0 then 0 else es[0], es[..i], 0)
        invariant forall a: nat | a / PAGE != p :: Get(mem, a) == Get(old(mem), a)
      {
        var be := SlotAt(p, sn, i);
        SlotPlace(p, sn, i);
        if i > 0 { SlotPlace(p, sn, i - 1); }
        ghost var was := mem;
        mem := mem[beh := be];
        mem := mem[be := 0];
        assert es[..i + 1] == es[..i] + [be];
        SnocChained(was, mem, es[..i], be, 0);
        beh := be;
        i := i + 1;
      }
      assert es[..i] == es;
    }

    /** `bkalloc`: on success bk is off the free list. */
    method BkAlloc() returns (ok: bool, bk: nat)
      requires Valid()
      modifies this
      ensures head == old(head)
      ensures ok <==> old(h.spare) != [] || old(h.pages) != []
      ensures ok ==> && h == Refilled(old(h)) && Inv(h) && h.spare != [] && bk == h.spare[0] && pages == h.pages
                     && Inv(DropSpare(h)) && Linked(DropSpare(h), mem, head, spare)
    {
      hide Inv, Linked, Meta, Chained;
      InvOwned(h);
      SpareHead(h, mem, head, spare);
      if spare == 0 {
        if pages == [] {
          return false, 0;
        }
        var p := pages[0];
        pages := pages[1..];
        ghost var was := mem;
        PagePositive(h);
        LinkStructs(p);
        RefillInv(h);
        RefillLinked(h, was, mem, head, spare);
        h := Refill(h);
      }
      DropLinked(h, mem, head, spare);
      DropSpareInv(h);
      bk := spare;
      spare := Get(mem, bk + BK_NEXT);
      ok := true;
    }

    /** `bkinit`, for a bucket that is on no list. */
    method BkInit(bk: nat, sn: nat) returns (ok: bool)
      requires sn < WHOLE && Inv(h) && h.spare != [] && bk == h.spare[0] && pages == h.pages
      requires Inv(DropSpare(h)) && Linked(DropSpare(h), mem, head, spare)
      modifies this`mem, this`pages
      ensures ok <==> h.pages != []
      ensures ok ==> && pages == h.pages[1..] && Linked(DropSpare(h), mem, head, spare)
                     && Get(mem, bk + BK_PAGE) == h.pages[0] * PAGE
                     && Chained(mem, Get(mem, bk + BK_ENTRY), SlotsIn(h.pages[0], sn), 0)
    {
      hide Inv, Linked, Chained, Meta, SlotsIn;
      if pages == [] {
        return false;
      }
      InvOwned(DropSpare(h));
      var p := pages[0];
      pages := pages[1..];
      ghost var was := mem;
      PagePositive(h);
      StructElsewhere(h);
      mem := mem[bk + BK_PAGE := p * PAGE];
      mem := mem[bk + BK_SIZE := Size(sn)];
      mem := mem[bk + BK_ENTRY := p * PAGE];
      LinkEntries(p, sn);
      forall a: nat | Meta(DropSpare(h), a) ensures Get(mem, a) == Get(was, a) {
        if bk <= a < bk + STRUCT || a / PAGE == p { Unused(h, a); }
      }
      LinkedFrame(DropSpare(h), was, mem, head, spare);
      ok := true;
    }

    /** A new bucket of class sn at the head of its chain. */
    method AddBucket(sn: nat) returns (ok: bool)
      requires Valid() && sn < WHOLE
      modifies this
      ensures ok <==> CanGrow(old(h))
      ensures ok ==> Valid() && |old(h.chain)| == WHOLE && h == Grown(old(h), sn)
    {
      hide Inv, Linked, Chained, Meta, SlotsIn;
      InvOwned(h);
      var bk;
      ok, bk := BkAlloc();
      if !ok {
        return;
      }
      ok := BkInit(bk, sn);
      if !ok {
        return;
      }
      InvOwned(h);
      InvOwned(DropSpare(h));
      ghost var was := mem;
      StructElsewhere(h);
      HeadLength(DropSpare(h), mem, head, spare);
      mem := mem[bk + BK_NEXT := head[sn]];
      forall a: nat | Meta(DropSpare(h), a) ensures Get(mem, a) == Get(was, a) {
        if bk <= a < bk + STRUCT { Unused(h, a); }
      }
      LinkedFrame(DropSpare(h), was, mem, head, spare);
      FreshFrame(h, was, mem, bk, sn);
      InsertLinked(h, mem, head, spare, sn);
      head := head[sn := bk];
      h := NewBucket(h, sn);
    }

    // -------------------------------------------------------------- kmalloc and kfree

    /** The inner loop of `kmalloc`: from the k0-th bucket of the chain on, the first that has
        a free entry. */
    method Walk(sn: nat, from: nat, ghost k0: nat) returns (bk: nat, ghost k: nat)
      requires Valid() && sn < WHOLE && |h.chain| == WHOLE && k0 <= |h.chain[sn]| && from == At(h.chain[sn], k0)
      ensures k0 <= k <= |h.chain[sn]| && bk == At(h.chain[sn], k)
      ensures k < |h.chain[sn]| ==> bk in h.free && h.free[bk] != [] && bk != 0
      ensures forall j | k0 <= j < k :: h.chain[sn][j] in h.free && h.free[h.chain[sn][j]] == []
    {
      hide Inv, Linked;
      bk, k := from, k0;
      while bk != 0
        invariant k0 <= k <= |h.chain[sn]| && bk == At(h.chain[sn], k)
        invariant forall j | k0 <= j < k :: h.chain[sn][j] in h.free && h.free[h.chain[sn][j]] == []
        decreases |h.chain[sn]| - k
      {
        BucketWords(h, mem, head, spare, sn, k);
        if Get(mem, bk + BK_ENTRY) != 0 {
          return;
        }
        bk := Get(mem, bk + BK_NEXT);
        k := k + 1;
      }
      ChainNonzero(h, sn);
    }

    /** `kmalloc`. */
    method KMalloc(size: int) returns (r: Outcome)
      requires Valid()
      modifies this
      ensures |old(h.chain)| == WHOLE
      ensures r == BadSize <==> size <= 0 || size > PAGE
      ensures r == BadSize ==> h == old(h) && Valid()
      ensures r == NoPage <==> 0 < size <= PAGE && NoRoom(old(h), Class(size))
      ensures r.Block? ==> && Valid() && Took(old(h), h, Class(size), r.a)
                           && r.a !in old(h.out) && h.out == old(h.out)[r.a := Class(size)]
                           && Aligned(r.a, Class(size)) && size <= Size(Class(size))
                           && forall b | b in old(h.out) :: Apart(r.a, size, b, Size(h.out[b]))
    {
      hide Inv, Linked, Grown, Size, Class, CanGrow, Aligned;
      InvOwned(h);
      ghost var h0 := h;
      var slot := BkSlot(size);
      if slot < 0 {
        return BadSize;
      }
      var sn: nat := slot;
      if sn == WHOLE {
        if pages == [] {
          return NoPage;
        }
        TakePageInv(h);
        TakePageLinked(h, mem, head, spare);
        var p := pages[0];
        pages := pages[1..];
        h := TakePage(h);
        TookBlock(h0, h, sn, p * PAGE, size);
        return Block(p * PAGE);
      }
      HeadIs(h, mem, head, spare, sn);
      var bk; ghost var k;
      bk, k := Walk(sn, head[sn], 0);
      ghost var made := 0;
      while bk == 0
        invariant Valid() && |h.chain| == WHOLE && made <= 2
        invariant bk == 0 ==> made < 2
        invariant made == 0 ==> h == h0 && k <= |h0.chain[sn]| && bk == At(h0.chain[sn], k) && EmptyUpTo(h0, sn, k)
        invariant made > 0 ==> Exhausted(h0, sn) && CanGrow(h0)
        invariant made == 1 ==> h == Grown(h0, sn) && bk == 0
        invariant made == 2 ==> |Grown(h0, sn).chain| == WHOLE && CanGrow(Grown(h0, sn)) && h == Grown(Grown(h0, sn), sn)
        invariant made == 2 ==> bk == Newest(Grown(h0, sn), sn)
        invariant bk != 0 ==> InChain(h, sn, bk) && bk in h.free && h.free[bk] != []
        decreases 2 - made
      {
        if made == 0 { ChainNonzero(h0, sn); }
        ghost var h1 := h;
        var ok := AddBucket(sn);
        if !ok {
          return NoPage;
        }
        InvOwned(h);
        GrownChain(h1, sn);
        if made == 1 { GrownChain(h0, sn); }
        NextIs(h, mem, head, spare, sn);
        bk, k := Walk(sn, Get(mem, head[sn] + BK_NEXT), 1);
        made := made + 1;
      }
      TakeLinked(h, mem, head, spare, sn, bk);
      var be := Get(mem, bk + BK_ENTRY);
      mem := mem[bk + BK_ENTRY := Get(mem, be)];
      h := TakeEntry(h, sn, bk);
      TookBlock(h0, h, sn, be, size);
      r := Block(be);
    }

    /** `kfree`, of a block with the size it was asked for. */
    method KFree(a: nat, size: int) returns (ok: bool)
      requires Valid() && (0 < size <= PAGE ==> a in h.out && h.out[a] == Class(size))
      modifies this
      ensures ok <==> 0 < size <= PAGE
      ensures ok ==> Valid() && Gave(old(h), h, a)
      ensures !ok ==> h == old(h) && Valid()
    {
      hide Inv, Linked, Class;
      InvOwned(h);
      var slot := BkSlot(size);
      if slot < 0 {
        return false;
      }
      var sn: nat := slot;
      if sn == WHOLE {
        GivePageInv(h, a);
        GivePageLinked(h, mem, head, spare, a);
        pages := [a / PAGE] + pages;
        h := GivePage(h, a);
        return true;
      }
      ghost var s := BucketOf(h, a);
      ghost var j :| 0 <= j < |h.chain[sn]| && h.chain[sn][j] == s;
      HeadIs(h, mem, head, spare, sn);
      var bk := head[sn];
      ghost var k := 0;
      BucketWords(h, mem, head, spare, sn, k);
      while Get(mem, bk + BK_PAGE) != a / PAGE * PAGE
        invariant h == old(h) && mem == old(mem) && head == old(head) && spare == old(spare) && pages == old(pages)
        invariant 0 <= k <= j && bk == h.chain[sn][k] && InChain(h, sn, bk)
        invariant bk in h.page && Get(mem, bk + BK_PAGE) == h.page[bk] * PAGE
        decreases j - k
      {
        BucketWords(h, mem, head, spare, sn, k);
        bk := Get(mem, bk + BK_NEXT);
        k := k + 1;
        BucketWords(h, mem, head, spare, sn, k);
      }
      GiveLinked(h, mem, head, spare, bk, a);
      mem := mem[a := Get(mem, bk + BK_ENTRY)];
      mem := mem[bk + BK_ENTRY := a];
      h := GiveEntry(h, bk, a);
      ok := true;
    }

    /** The holder of a block writes to it. */
    method Store(a: nat, k: nat, v: nat)
      requires Valid() && a in h.out && k < Size(h.out[a])
      modifies this`mem
      ensures Valid()
    {
      BlockWrite(h, mem, head, spare, a, k, v);
      mem := mem[a + k := v];
    }
  }

  // ---------------------------------------------------------------- what kmalloc does to the heap

  ghost predicate EmptyUpTo(h: Heap, sn: nat, k: nat)
    requires sn < |h.chain| && k <= |h.chain[sn]|
  {
    forall j | 0 <= j < k :: h.chain[sn][j] in h.free && h.free[h.chain[sn][j]] == []
  }

  ghost predicate Exhausted(h: Heap, sn: nat)
    requires sn < |h.chain|
  {
    EmptyUpTo(h, sn, |h.chain[sn]|)
  }

  ghost function Newest(h: Heap, sn: nat): nat
    requires sn < |h.chain|
  {
    At(h.chain[sn], 0)
  }

  /** A request of class sn cannot be met: no entry, and not the pages for two buckets. */
  ghost predicate NoRoom(h: Heap, sn: nat)
    requires |h.chain| == WHOLE && sn <= WHOLE
  {
    if sn == WHOLE then h.pages == []
    else Exhausted(h, sn) && !(CanGrow(h) && CanGrow(Grown(h, sn)))
  }

  /** How a request is met: by a page; by the first bucket with a free entry; or, without one,
      by the first of two new buckets. The second new one stays whole, ahead of it. */
  ghost predicate Took(h: Heap, h': Heap, sn: nat, a: nat)
    requires |h.chain| == WHOLE && sn <= WHOLE
  {
    if sn == WHOLE then h.pages != [] && h' == TakePage(h) && a == h.pages[0] * PAGE
    else if Exhausted(h, sn) then
      && CanGrow(h) && |Grown(h, sn).chain| == WHOLE && CanGrow(Grown(h, sn))
      && var s := Newest(Grown(h, sn), sn);
         var h2 := Grown(Grown(h, sn), sn);
         s in h2.free && h2.free[s] != [] && h' == TakeEntry(h2, sn, s) && a == h2.free[s][0]
    else
      exists k: nat | k < |h.chain[sn]| && EmptyUpTo(h, sn, k) ::
        var s := h.chain[sn][k];
        s in h.free && h.free[s] != [] && h' == TakeEntry(h, sn, s) && a == h.free[s][0]
  }

  ghost predicate Gave(h: Heap, h': Heap, a: nat)
    requires a in h.out
  {
    if h.out[a] == WHOLE then h' == GivePage(h, a)
    else exists s: nat :: InChain(h, h.out[a], s) && s in h.page && h.page[s] == a / PAGE && s in h.free && h' == GiveEntry(h, s, a)
  }

  function At(xs: seq<nat>, k: nat): nat {
    if k < |xs| then xs[k] else 0
  }

  lemma EmptyChained(mem: Memory, off: nat)
    ensures Chained(mem, 0, [], off)
  {
  }

  lemma SnocChained(mem: Memory, mem': Memory, xs: seq<nat>, x: nat, off: nat)
    requires Chained(mem, Head(xs), xs, off) && x != 0 && Get(mem', x + off) == 0
    requires forall i: nat | i + 1 < |xs| :: Get(mem', xs[i] + off) == Get(mem, xs[i] + off)
    requires xs != [] ==> Get(mem', xs[|xs| - 1] + off) == x
    ensures Chained(mem', Head(xs + [x]), xs + [x], off)
  {
    var ys := xs + [x];
    forall i: nat | i < |ys| ensures ys[i] != 0 && Get(mem', ys[i] + off) == Next(ys, i) {
      if i < |xs| { assert ys[i] == xs[i] && Get(mem, xs[i] + off) == Next(xs, i); }
    }
  }

  lemma StructPlace(p: nat, i: nat)
    requires p > 0 && i < PAGE / STRUCT
    ensures (p * PAGE + i * STRUCT + BK_NEXT) / PAGE == p && p * PAGE + i * STRUCT > 0
  {
  }

  lemma StructsDistinct(p: nat)
    ensures Distinct(StructsIn(p))
  {
  }

  lemma CountPositive(sn: nat)
    ensures Count(sn) > 0
  {
  }

  lemma SlotPlace(p: nat, sn: nat, i: nat)
    requires p > 0 && i < Count(sn)
    ensures SlotAt(p, sn, i) / PAGE == p && SlotAt(p, sn, i) > 0
  {
    hide Times, Count, Size;
    assert IsSlot(SlotAt(p, sn, i), p, sn);
    SlotInPage(SlotAt(p, sn, i), p, sn);
  }

  lemma SpareHead(h: Heap, mem: Memory, head: seq<nat>, spare: nat)
    requires Inv(h) && Linked(h, mem, head, spare)
    ensures spare == 0 <==> h.spare == []
  {
    assert h.spare != [] ==> StructAt(h, h.spare[0]);
  }

  lemma PagePositive(h: Heap)
    requires Inv(h) && h.pages != []
    ensures h.pages[0] > 0
  {
    assert h.pages[0] in h.pages;
  }

  lemma HeadLength(h: Heap, mem: Memory, head: seq<nat>, spare: nat)
    requires Owned(h) && Linked(h, mem, head, spare)
    ensures |head| == WHOLE
  {
  }

  lemma RefillLinked(h: Heap, mem: Memory, mem': Memory, head: seq<nat>, spare: nat)
    requires Inv(h) && h.pages != [] && h.spare == [] && Linked(h, mem, head, 0) && Inv(Refill(h))
    requires forall a: nat | a / PAGE != h.pages[0] :: Get(mem', a) == Get(mem, a)
    requires Chained(mem', spare, StructsIn(h.pages[0]), BK_NEXT)
    ensures Linked(Refill(h), mem', head, spare)
  {
    hide Chained, Tiled, Given, Distinct, StructsIn, Meta;
    forall a: nat | Meta(h, a) ensures Get(mem', a) == Get(mem, a) { MetaPage(h, a); }
    LinkedFrame(h, mem, mem', head, 0);
    forall n: nat, t: nat | InChain(Refill(h), n, t) ensures BucketOk(Refill(h), mem', t) {
      assert InChain(h, n, t) && BucketOk(h, mem', t);
    }
  }

  lemma DropLinked(h: Heap, mem: Memory, head: seq<nat>, spare: nat)
    requires Inv(h) && h.spare != [] && Linked(h, mem, head, spare)
    ensures Owned(DropSpare(h)) && spare == h.spare[0] && Linked(DropSpare(h), mem, head, Get(mem, spare + BK_NEXT))
  {
    hide Chained, Tiled, Given, Distinct;
    DropSpareInv(h);
    TailChained(mem, spare, h.spare, BK_NEXT);
    forall n: nat, t: nat | InChain(DropSpare(h), n, t) ensures BucketOk(DropSpare(h), mem, t) {
      assert InChain(h, n, t) && BucketOk(h, mem, t);
    }
  }

  lemma StructElsewhere(h: Heap)
    requires Inv(h) && h.spare != [] && h.pages != []
    ensures var s, p := h.spare[0], h.pages[0];
            && s / PAGE != p && (s + BK_PAGE) / PAGE != p && (s + BK_NEXT) / PAGE != p && (s + BK_ENTRY) / PAGE != p
  {
    hide Tiled, Given, Distinct, Owned;
    var s := h.spare[0];
    assert StructAt(h, s) && h.role[h.pages[0]] == Idle;
    SameStruct(s, s + BK_PAGE);
    SameStruct(s, s + BK_NEXT);
    SameStruct(s, s + BK_ENTRY);
  }

  lemma FreshFrame(h: Heap, mem: Memory, mem': Memory, bk: nat, sn: nat)
    requires Inv(h) && h.spare != [] && h.pages != [] && bk == h.spare[0]
    requires mem' == mem[bk + BK_NEXT := Get(mem', bk + BK_NEXT)]
    requires Chained(mem, Get(mem, bk + BK_ENTRY), SlotsIn(h.pages[0], sn), 0)
    ensures Chained(mem', Get(mem', bk + BK_ENTRY), SlotsIn(h.pages[0], sn), 0)
    ensures Get(mem', bk + BK_PAGE) == Get(mem, bk + BK_PAGE)
  {
    hide Chained, Times, Count, Size, Inv;
    StructElsewhere(h);
    SlotsTile(h.pages[0], sn);
    forall x | x in SlotsIn(h.pages[0], sn) ensures Get(mem', x + 0) == Get(mem, x + 0) {
      SlotInPage(x, h.pages[0], sn);
    }
    ChainedFrame(mem, mem', Get(mem, bk + BK_ENTRY), SlotsIn(h.pages[0], sn), 0);
  }

  // ---------------------------------------------------------------- facts for kmalloc and kfree

  lemma ChainNonzero(h: Heap, sn: nat)
    requires Inv(h) && sn < WHOLE
    ensures |h.chain| == WHOLE && forall k: nat | k < |h.chain[sn]| :: At(h.chain[sn], k) != 0
  {
    forall k: nat | k < |h.chain[sn]| ensures h.chain[sn][k] != 0 {
      assert InChain(h, sn, h.chain[sn][k]) && StructAt(h, h.chain[sn][k]);
    }
  }

  lemma HeadIs(h: Heap, mem: Memory, head: seq<nat>, spare: nat, sn: nat)
    requires Inv(h) && Linked(h, mem, head, spare) && sn < WHOLE
    ensures |head| == WHOLE && head[sn] == At(h.chain[sn], 0)
  {
  }

  /** The words of the k-th bucket of a chain. */
  lemma BucketWords(h: Heap, mem: Memory, head: seq<nat>, spare: nat, sn: nat, k: nat)
    requires Inv(h) && Linked(h, mem, head, spare) && sn < WHOLE && k < |h.chain[sn]|
    ensures var s := h.chain[sn][k];
            && InChain(h, sn, s) && s in h.free && s in h.page && Get(mem, s + BK_NEXT) == At(h.chain[sn], k + 1)
            && Get(mem, s + BK_PAGE) == h.page[s] * PAGE && (Get(mem, s + BK_ENTRY) == 0 <==> h.free[s] == [])
  {
    var s := h.chain[sn][k];
    assert InChain(h, sn, s) && BucketOk(h, mem, s);
    assert Get(mem, s + BK_NEXT) == Next(h.chain[sn], k);
    if h.free[s] != [] { assert Get(mem, h.free[s][0] + 0) == Next(h.free[s], 0); }
  }

  lemma NextIs(h: Heap, mem: Memory, head: seq<nat>, spare: nat, sn: nat)
    requires Inv(h) && Linked(h, mem, head, spare) && sn < WHOLE && h.chain[sn] != []
    ensures |head| == WHOLE && Get(mem, head[sn] + BK_NEXT) == At(h.chain[sn], 1)
  {
    BucketWords(h, mem, head, spare, sn, 0);
  }

  lemma GrownChain(h: Heap, sn: nat)
    requires Inv(h) && CanGrow(h) && sn < WHOLE && |h.chain| == WHOLE
    ensures var h' := Grown(h, sn);
            && |h'.chain| == WHOLE && h'.chain[sn] != [] && h'.chain[sn][1..] == h.chain[sn]
            && Newest(h', sn) in h'.free && h'.free[Newest(h', sn)] != [] && h'.out == h.out
            && forall t | t in h.chain[sn] :: t in h.free && t in h'.free && h'.free[t] == h.free[t]
  {
    var h1 := Refilled(h);
    if h.spare == [] { RefillInv(h); }
    DropSpareInv(h1);
    CountPositive(sn);
    forall t | t in h.chain[sn] ensures t in h.free && t != h1.spare[0] { assert InChain(h, sn, t) && InChain(h1, sn, t); }
  }

  lemma TakePageLinked(h: Heap, mem: Memory, head: seq<nat>, spare: nat)
    requires Inv(h) && h.pages != [] && Linked(h, mem, head, spare) && Inv(TakePage(h))
    ensures Linked(TakePage(h), mem, head, spare)
  {
    hide Chained, Tiled, Given, Distinct;
    forall n: nat, t: nat | InChain(TakePage(h), n, t) ensures BucketOk(TakePage(h), mem, t) {
      assert InChain(h, n, t) && BucketOk(h, mem, t);
    }
  }

  lemma GivePageLinked(h: Heap, mem: Memory, head: seq<nat>, spare: nat, a: nat)
    requires Inv(h) && Linked(h, mem, head, spare) && Inv(GivePage(h, a))
    ensures Linked(GivePage(h, a), mem, head, spare)
  {
    hide Chained, Tiled, Given, Distinct;
    forall n: nat, t: nat | InChain(GivePage(h, a), n, t) ensures BucketOk(GivePage(h, a), mem, t) {
      assert InChain(h, n, t) && BucketOk(h, mem, t);
    }
  }

  /** The block is new, aligned to its class, and apart from all others. */
  lemma TookBlock(h: Heap, h': Heap, sn: nat, a: nat, size: nat)
    requires Inv(h) && Inv(h') && sn <= WHOLE && |h.chain| == WHOLE && Took(h, h', sn, a) && size <= Size(sn)
    ensures a !in h.out && h'.out == h.out[a := sn] && Aligned(a, sn)
    ensures forall b | b in h.out :: Apart(a, size, b, Size(h'.out[b]))
  {
    hide Size, Aligned, Grown, CanGrow, TakePage;
    assert a !in h.out && h'.out == h.out[a := sn] by { TookOut(h, h', sn, a); }
    BlockAligned(h', a);
    forall b | b in h.out ensures Apart(a, size, b, Size(h'.out[b])) { BlocksApart(h', a, b); }
  }

  lemma TookOut(h: Heap, h': Heap, sn: nat, a: nat)
    requires Inv(h) && sn <= WHOLE && |h.chain| == WHOLE && Took(h, h', sn, a)
    ensures a !in h.out && h'.out == h.out[a := sn]
  {
    hide Inv, Grown, CanGrow;
    if sn == WHOLE {
      TakePageInv(h);
    } else if Exhausted(h, sn) {
      GrownInv(h, sn);
      GrownChain(h, sn);
      GrownInv(Grown(h, sn), sn);
      GrownChain(Grown(h, sn), sn);
      var h2, s := Grown(Grown(h, sn), sn), Newest(Grown(h, sn), sn);
      assert h2.chain[sn][1] == s;
      TakeEntryInv(h2, sn, s);
    } else {
      var k: nat :| k < |h.chain[sn]| && EmptyUpTo(h, sn, k) && h.chain[sn][k] in h.free && h.free[h.chain[sn][k]] != []
                    && h' == TakeEntry(h, sn, h.chain[sn][k]) && a == h.free[h.chain[sn][k]][0];
      TakeEntryInv(h, sn, h.chain[sn][k]);
    }
  }

  lemma GrownInv(h: Heap, sn: nat)
    requires Inv(h) && CanGrow(h) && sn < WHOLE && |h.chain| == WHOLE
    ensures Inv(Grown(h, sn))
  {
    hide Inv, NewBucket;
    if h.spare == [] { RefillInv(h); }
    NewBucketInv(Refilled(h), sn);
  }

  /** Freeing undoes allocating, entry by entry and link by link. */
  lemma GiveAfterTake(h: Heap, sn: nat, s: nat)
    requires Inv(h) && InChain(h, sn, s) && h.free[s] != []
    ensures GiveEntry(TakeEntry(h, sn, s), s, h.free[s][0]) == h
  {
    hide Inv;
    TakeEntryInv(h, sn, s);
    InvOwned(h);
    var a, h' := h.free[s][0], TakeEntry(h, sn, s);
    assert h'.out - {a} == h.out && [a] + h'.free[s] == h.free[s];
    assert h'.free[s := h.free[s]] == h.free;
  }
}
