/** `kmalloc` and `kfree` on memory: bucket structs and free entries are linked through the
    words of the pages themselves. */
module KernelHeap {
  import opened Buckets
  import opened Sequences

  type Memory = map<nat, nat>

  // struct bucket: the page address is at +4, the next bucket at +8, the first entry at +12
  const BK_SIZE: nat := 0
  const BK_PAGE: nat := 4
  const BK_NEXT: nat := 8
  const BK_ENTRY: nat := 12

  function Get(mem: Memory, a: nat): nat {
    if a in mem then mem[a] else 0
  }

  function Head(xs: seq<nat>): nat {
    if xs == [] then 0 else xs[0]
  }

  function Next(xs: seq<nat>, i: nat): nat {
    if i + 1 < |xs| then xs[i + 1] else 0
  }

  /** A list that starts at `head` and is linked through the words at offset `off`. */
  ghost predicate Chained(mem: Memory, head: nat, xs: seq<nat>, off: nat) {
    head == Head(xs) && forall i: nat {:trigger Next(xs, i)} | i < |xs| :: xs[i] != 0 && Get(mem, xs[i] + off) == Next(xs, i)
  }

  ghost predicate BucketOk(h: Heap, mem: Memory, s: nat)
    requires s in h.page && s in h.free
  {
    Get(mem, s + BK_PAGE) == h.page[s] * PAGE && Chained(mem, Get(mem, s + BK_ENTRY), h.free[s], 0)
  }

  ghost predicate Linked(h: Heap, mem: Memory, head: seq<nat>, spare: nat)
    requires Owned(h)
  {
    && |head| == WHOLE && |h.chain| == WHOLE
    && Chained(mem, spare, h.spare, BK_NEXT)
    && (forall sn: nat | sn < WHOLE :: Chained(mem, head[sn], h.chain[sn], BK_NEXT))
    && (forall sn: nat, s: nat | InChain(h, sn, s) :: BucketOk(h, mem, s))
  }

  // ---------------------------------------------------------------- what the allocator reads

  /** The words that the lists are made of. */
  ghost predicate Meta(h: Heap, a: nat)
    requires Owned(h)
  {
    || (exists s: nat :: s in h.spare && a == s + BK_NEXT)
    || (exists sn: nat, s: nat :: InChain(h, sn, s) && (a == s + BK_PAGE || a == s + BK_NEXT || a == s + BK_ENTRY))
    || (exists sn: nat, s: nat :: InChain(h, sn, s) && a in h.free[s])
  }

  lemma ChainedFrame(mem: Memory, mem': Memory, head: nat, xs: seq<nat>, off: nat)
    requires Chained(mem, head, xs, off) && forall x | x in xs :: Get(mem', x + off) == Get(mem, x + off)
    ensures Chained(mem', head, xs, off)
  {
    forall i: nat | i < |xs| ensures Get(mem', xs[i] + off) == Next(xs, i) { assert xs[i] in xs; }
  }

  /** Writes elsewhere do not disturb the allocator. */
  lemma LinkedFrame(h: Heap, mem: Memory, mem': Memory, head: seq<nat>, spare: nat)
    requires Owned(h) && Linked(h, mem, head, spare)
    requires forall a: nat | Meta(h, a) :: Get(mem', a) == Get(mem, a)
    ensures Linked(h, mem', head, spare)
  {
    hide Chained, Get;
    forall s | s in h.spare ensures Get(mem', s + BK_NEXT) == Get(mem, s + BK_NEXT) { assert Meta(h, s + BK_NEXT); }
    ChainedFrame(mem, mem', spare, h.spare, BK_NEXT);
    forall sn: nat | sn < WHOLE ensures Chained(mem', head[sn], h.chain[sn], BK_NEXT) {
      forall s | s in h.chain[sn] ensures Get(mem', s + BK_NEXT) == Get(mem, s + BK_NEXT) {
        assert InChain(h, sn, s) && Meta(h, s + BK_NEXT);
      }
      ChainedFrame(mem, mem', head[sn], h.chain[sn], BK_NEXT);
    }
    forall sn: nat, s: nat | InChain(h, sn, s) ensures BucketOk(h, mem', s) {
      assert BucketOk(h, mem, s) && Meta(h, s + BK_PAGE) && Meta(h, s + BK_ENTRY);
      forall e | e in h.free[s] ensures Get(mem', e + 0) == Get(mem, e + 0) { assert Meta(h, e); }
      ChainedFrame(mem, mem', Get(mem, s + BK_ENTRY), h.free[s], 0);
    }
  }

  /** The lists lie in pages that are in use, and in no block that has been handed out. */
  lemma MetaPage(h: Heap, a: nat)
    requires Inv(h) && Meta(h, a)
    ensures a / PAGE in h.role && (h.role[a / PAGE] == Tables || h.role[a / PAGE].Bucket?)
    ensures h.role[a / PAGE].Bucket? ==>
              InChain(h, h.role[a / PAGE].sn, h.role[a / PAGE].s) && a in h.free[h.role[a / PAGE].s]
  {
    hide Times, Size, Count, IsSlot;
    if sn: nat, s: nat :| InChain(h, sn, s) && a in h.free[s] {
      assert TiledBy(h, sn, s);
      SlotInPage(a, h.page[s], sn);
    } else if sn: nat, s: nat :| InChain(h, sn, s) && (a == s + BK_PAGE || a == s + BK_NEXT || a == s + BK_ENTRY) {
      assert StructAt(h, s);
      SameStruct(s, a);
    } else {
      var s :| s in h.spare && a == s + BK_NEXT;
      assert StructAt(h, s);
      SameStruct(s, a);
    }
  }

  lemma SameStruct(s: nat, a: nat)
    requires s % STRUCT == 0
    ensures s <= a < s + STRUCT ==> a / PAGE == s / PAGE && a - a % STRUCT == s
  {
  }

  lemma NotInBlock(h: Heap, a: nat, k: nat)
    requires Inv(h) && a in h.out && k < Size(h.out[a])
    ensures !Meta(h, a + k)
  {
    hide Times, Size, Count, IsSlot, Meta;
    assert Held(h, a);
    SlotInPage(a, a / PAGE, h.out[a]);
    assert (a + k) / PAGE == a / PAGE;
    if Meta(h, a + k) {
      MetaPage(h, a + k);
      var sn, s := h.role[a / PAGE].sn, h.role[a / PAGE].s;
      assert TiledBy(h, sn, s);
      SlotsApart(a, a + k, a / PAGE, sn);
    }
  }

  // ---------------------------------------------------------------- taking and giving entries

  lemma BucketFrame(h: Heap, mem: Memory, mem': Memory, s: nat)
    requires s in h.page && s in h.free && BucketOk(h, mem, s)
    requires Get(mem', s + BK_PAGE) == Get(mem, s + BK_PAGE) && Get(mem', s + BK_ENTRY) == Get(mem, s + BK_ENTRY)
    requires forall e | e in h.free[s] :: Get(mem', e) == Get(mem, e)
    ensures BucketOk(h, mem', s)
  {
    ChainedFrame(mem, mem', Get(mem, s + BK_ENTRY), h.free[s], 0);
  }

  /** A change of the entry word of bucket s reaches no other list. */
  lemma EntryWord(h: Heap, mem: Memory, head: seq<nat>, spare: nat, sn: nat, s: nat, v: nat)
    requires Inv(h) && Linked(h, mem, head, spare) && InChain(h, sn, s)
    ensures var mem' := mem[s + BK_ENTRY := v];
            && Chained(mem', spare, h.spare, BK_NEXT)
            && (forall n: nat | n < WHOLE :: Chained(mem', head[n], h.chain[n], BK_NEXT))
            && (forall n: nat, t: nat | InChain(h, n, t) && t != s :: BucketOk(h, mem', t))
            && Get(mem', s + BK_PAGE) == Get(mem, s + BK_PAGE)
            && forall n: nat, t: nat, e: nat | InChain(h, n, t) && e in h.free[t] :: Get(mem', e) == Get(mem, e)
  {
    hide Chained, TiledBy, Held, Distinct;
    var mem' := mem[s + BK_ENTRY := v];
    assert StructAt(h, s);
    forall x | x in h.spare ensures Get(mem', x + BK_NEXT) == Get(mem, x + BK_NEXT) { assert StructAt(h, x); }
    ChainedFrame(mem, mem', spare, h.spare, BK_NEXT);
    forall n: nat | n < WHOLE ensures Chained(mem', head[n], h.chain[n], BK_NEXT) {
      forall x | x in h.chain[n] ensures Get(mem', x + BK_NEXT) == Get(mem, x + BK_NEXT) {
        assert InChain(h, n, x) && StructAt(h, x);
      }
      ChainedFrame(mem, mem', head[n], h.chain[n], BK_NEXT);
    }
    forall n: nat, t: nat, e: nat | InChain(h, n, t) && e in h.free[t] ensures Get(mem', e) == Get(mem, e) {
      EntryPage(h, n, t, e);
      SameStruct(s, s + BK_ENTRY);
    }
    forall n: nat, t: nat | InChain(h, n, t) && t != s ensures BucketOk(h, mem', t) {
      assert StructAt(h, t) && BucketOk(h, mem, t);
      BucketFrame(h, mem, mem', t);
    }
  }

  /** Free entries lie in bucket pages. */
  lemma EntryPage(h: Heap, n: nat, t: nat, e: nat)
    requires Inv(h) && InChain(h, n, t) && e in h.free[t]
    ensures e / PAGE == h.page[t] && e / PAGE in h.role && h.role[e / PAGE] == Bucket(n, t)
  {
    hide Times, Size, Count, IsSlot;
    assert TiledBy(h, n, t);
    SlotInPage(e, h.page[t], n);
  }

  lemma TakeLinked(h: Heap, mem: Memory, head: seq<nat>, spare: nat, sn: nat, s: nat)
    requires Inv(h) && Linked(h, mem, head, spare) && InChain(h, sn, s) && h.free[s] != []
    ensures h.free[s][0] != 0 && Get(mem, s + BK_ENTRY) == h.free[s][0]
    ensures var h', mem' := TakeEntry(h, sn, s), mem[s + BK_ENTRY := Get(mem, h.free[s][0])];
            Inv(h') && Linked(h', mem', head, spare)
  {
    hide Tiled, Held, Distinct, StructAt, Inv, PagesOk, StructsOk, Given, Chained;
    TakeEntryInv(h, sn, s);
    InvOwned(h);
    var h', mem', xs := TakeEntry(h, sn, s), mem[s + BK_ENTRY := Get(mem, h.free[s][0])], h.free[s];
    InvOwned(h');
    EntryWord(h, mem, head, spare, sn, s, Get(mem, xs[0]));
    assert BucketOk(h, mem, s);
    TailChained(mem, Get(mem, s + BK_ENTRY), xs, 0);
    ChainedFrame(mem, mem', Get(mem, xs[0]), xs[1..], 0);
    forall n: nat, t: nat | InChain(h', n, t) ensures BucketOk(h', mem', t) { assert InChain(h, n, t); }
  }

  lemma TailChained(mem: Memory, head: nat, xs: seq<nat>, off: nat)
    requires Chained(mem, head, xs, off) && xs != []
    ensures head == xs[0] != 0 && Chained(mem, Get(mem, xs[0] + off), xs[1..], off)
  {
    assert Get(mem, xs[0] + off) == Next(xs, 0);
    forall i: nat | i < |xs[1..]| ensures xs[1..][i] != 0 && Get(mem, xs[1..][i] + off) == Next(xs[1..], i) {
      assert Get(mem, xs[i + 1] + off) == Next(xs, i + 1);
    }
  }

  lemma InvOwned(h: Heap)
    requires Inv(h)
    ensures Owned(h) && |h.chain| == WHOLE
  {
  }

  lemma GiveLinked(h: Heap, mem: Memory, head: seq<nat>, spare: nat, s: nat, a: nat)
    requires Inv(h) && Linked(h, mem, head, spare)
    requires a in h.out && h.out[a] < WHOLE && InChain(h, h.out[a], s) && h.page[s] == a / PAGE
    ensures var h', mem' := GiveEntry(h, s, a), mem[a := Get(mem, s + BK_ENTRY)][s + BK_ENTRY := a];
            Inv(h') && Linked(h', mem', head, spare)
  {
    hide Tiled, Held, Distinct, StructAt, Inv, PagesOk, StructsOk, Given, Chained;
    InvOwned(h);
    var sn, xs, mem1 := h.out[a], h.free[s], mem[a := Get(mem, s + BK_ENTRY)];
    var h', mem' := GiveEntry(h, s, a), mem1[s + BK_ENTRY := a];
    GiveEntryInv(h, s, a);
    InvOwned(h');
    assert a != 0 && a != s + BK_ENTRY && a !in xs by { BlockPlace(h, s, a); }
    assert Linked(h, mem1, head, spare) by { BlockWrite(h, mem, head, spare, a, 0, Get(mem, s + BK_ENTRY)); }
    EntryWord(h, mem1, head, spare, sn, s, a);
    assert BucketOk(h, mem1, s);
    ChainedFrame(mem1, mem', Get(mem1, s + BK_ENTRY), xs, 0);
    ConsChained(mem', a, Get(mem1, s + BK_ENTRY), xs, 0);
    forall n: nat, t: nat | InChain(h', n, t) ensures BucketOk(h', mem', t) { assert InChain(h, n, t); }
  }

  lemma ConsChained(mem: Memory, x: nat, head: nat, xs: seq<nat>, off: nat)
    requires x != 0 && Get(mem, x + off) == head && Chained(mem, head, xs, off)
    ensures Chained(mem, x, [x] + xs, off)
  {
    var ys := [x] + xs;
    forall i: nat | i < |ys| ensures ys[i] != 0 && Get(mem, ys[i] + off) == Next(ys, i) {
      if i > 0 { assert ys[i] == xs[i - 1] && Get(mem, xs[i - 1] + off) == Next(xs, i - 1); }
    }
  }

  lemma BlockPlace(h: Heap, s: nat, a: nat)
    requires Inv(h) && a in h.out && h.out[a] < WHOLE && InChain(h, h.out[a], s)
    ensures a != 0 && a != s + BK_ENTRY && a !in h.free[s]
  {
    hide Times, Size, Count, IsSlot, Distinct;
    assert Held(h, a) && StructAt(h, s) && TiledBy(h, h.out[a], s);
    SameStruct(s, s + BK_ENTRY);
  }

  /** What the holder of a block writes into it does not disturb the allocator. */
  lemma BlockWrite(h: Heap, mem: Memory, head: seq<nat>, spare: nat, a: nat, k: nat, v: nat)
    requires Inv(h) && Linked(h, mem, head, spare) && a in h.out && k < Size(h.out[a])
    ensures Linked(h, mem[a + k := v], head, spare)
  {
    hide Times, Size, Count, Linked, Meta, Inv;
    InvOwned(h);
    NotInBlock(h, a, k);
    LinkedFrame(h, mem, mem[a + k := v], head, spare);
  }

  // ---------------------------------------------------------------- new buckets

  /** The state while `bkalloc` has taken a struct off the free list. */
  function DropSpare(h: Heap): Heap
    requires h.spare != []
  {
    h.(spare := h.spare[1..])
  }

  lemma DropSpareInv(h: Heap)
    requires Inv(h) && h.spare != []
    ensures Inv(DropSpare(h)) && StructAt(h, h.spare[0])
    ensures h.spare[0] !in DropSpare(h).spare && forall n: nat :: !InChain(h, n, h.spare[0])
  {
    hide TiledBy, Times, Size, Count, IsSlot, Held;
    var h' := DropSpare(h);
    forall n: nat, t: nat | InChain(h', n, t) ensures StructAt(h', t) && t !in h'.spare { assert InChain(h, n, t) && StructAt(h, t); }
    forall t | t in h'.spare ensures StructAt(h', t) { assert StructAt(h, t); }
    forall n: nat, t: nat | InChain(h', n, t)
      ensures t in h'.page && t in h'.free && h'.page[t] in h'.role && h'.role[h'.page[t]] == Bucket(n, t)
    {
      assert InChain(h, n, t);
    }
    forall n: nat, t: nat | InChain(h', n, t) ensures TiledBy(h', n, t) { SameTiles(h, h', n, t); }
    forall a | a in h'.out ensures Held(h', a) { HeldSame(h, h', a); }
  }

  lemma HeldSame(h: Heap, h': Heap, a: nat)
    requires Given(h) && a in h.out && h'.out == h.out && h'.role == h.role
    ensures Held(h', a)
  {
    assert Held(h, a);
  }

  /** Neither a struct taken off the free list nor a free page has words that matter. */
  lemma Unused(h: Heap, a: nat)
    requires Inv(h) && h.spare != [] && h.pages != [] && Owned(DropSpare(h))
    requires h.spare[0] <= a < h.spare[0] + STRUCT || a / PAGE == h.pages[0]
    ensures !Meta(DropSpare(h), a)
  {
    hide TiledBy, Held, Distinct;
    DropSpareInv(h);
    var h', s := DropSpare(h), h.spare[0];
    assert h.role[h.pages[0]] == Idle;
    SameStruct(s, a);
    if Meta(h', a) {
      MetaPage(h', a);
      if t: nat :| t in h'.spare && a == t + BK_NEXT {
        assert StructAt(h', t);
        SameStruct(t, a);
      } else if n: nat, t: nat :| InChain(h', n, t) && (a == t + BK_PAGE || a == t + BK_NEXT || a == t + BK_ENTRY) {
        assert StructAt(h', t) && InChain(h, n, t);
        SameStruct(t, a);
      } else {
        var n: nat, t: nat :| InChain(h', n, t) && a in h'.free[t];
        EntryPage(h', n, t, a);
      }
    }
  }

  /** The new bucket enters its chain. */
  lemma InsertLinked(h: Heap, mem: Memory, head: seq<nat>, spare: nat, sn: nat)
    requires Inv(h) && h.spare != [] && h.pages != [] && sn < WHOLE
    requires Owned(DropSpare(h)) && Linked(DropSpare(h), mem, head, spare)
    requires var s := h.spare[0];
             && Get(mem, s + BK_PAGE) == h.pages[0] * PAGE && Get(mem, s + BK_NEXT) == head[sn]
             && Chained(mem, Get(mem, s + BK_ENTRY), SlotsIn(h.pages[0], sn), 0)
    ensures Inv(NewBucket(h, sn)) && Linked(NewBucket(h, sn), mem, head[sn := h.spare[0]], spare)
  {
    hide Tiled, Held, Distinct, Inv, PagesOk, StructsOk, Given, StructAt, SlotsIn, Chained;
    NewBucketInv(h, sn);
    InvOwned(h);
    var h', h1, s := NewBucket(h, sn), DropSpare(h), h.spare[0];
    InvOwned(h');
    assert s != 0 && forall n, t :: InChain(h', n, t) <==> InChain(h, n, t) || (n == sn && t == s) by { Insertion(h, sn); }
    ConsChained(mem, s, head[sn], h.chain[sn], BK_NEXT);
    forall n: nat, t: nat | InChain(h', n, t) ensures BucketOk(h', mem, t) {
      if t != s { assert InChain(h1, n, t) && BucketOk(h1, mem, t); }
    }
  }

  lemma Insertion(h: Heap, sn: nat)
    requires Inv(h) && h.spare != [] && h.pages != [] && sn < WHOLE
    ensures h.spare[0] != 0 && |h.chain| == WHOLE
    ensures forall n, t :: InChain(NewBucket(h, sn), n, t) <==> InChain(h, n, t) || (n == sn && t == h.spare[0])
  {
    NewBucketChains(h, sn);
    assert StructAt(h, h.spare[0]);
  }

  /** `bkalloc` when no struct is left. */
  function Refilled(h: Heap): Heap
    requires h.spare != [] || h.pages != []
  {
    if h.spare == [] then Refill(h) else h
  }

  /** The pages that one more bucket takes. */
  predicate CanGrow(h: Heap) {
    |h.pages| >= if h.spare == [] then 2 else 1
  }

  function Grown(h: Heap, sn: nat): Heap
    requires CanGrow(h) && sn < |h.chain|
  {
    NewBucket(Refilled(h), sn)
  }
}
