/** What a program finds in memory after `exec`, told by addresses and the fields of the
    image. */
module ExecRuns {
  import opened FrameLedger
  import opened Paging
  import opened EagerMemory
  import opened SpaceSteps
  import opened Sealing
  import opened EagerKernel
  import opened Shows
  import opened AddressSpaces
  import opened MemoryRuns
  import opened Params

  /** What an address holds on its first use. */
  datatype Backing =
    | FromFile                // a page of the program
    | Zeros
    | AsFound                 // a new stack page, as it was found
    | Nothing                 // SIGSEGV

  /** The layout: text and data from the file, then bss and a page of heap as zeros; the stack
      page at 2 GB, and next to it pages that are not cleared. The test for the stack
      comes first. */
  function Layout(image: Image, va: nat): Backing {
    var text := (image.entry + 0x1_0000_0000 - 32) % 0x1_0000_0000;
    var bss := text + image.tsize + image.dsize;
    if 0x7FFF_F000 <= va <= 0x8000_0000 then AsFound
    else if text <= va < bss then FromFile
    else if bss <= va < bss + image.bsize + 0x1000 then Zeros
    else if 0x8000_0000 < va < 0x8000_1000 then Zeros
    else Nothing
  }

  predicate InText(image: Image, va: nat) {
    var text := (image.entry + 0x1_0000_0000 - 32) % 0x1_0000_0000;
    text <= va < text + image.tsize
  }

  // ---------------------------------------------------------------- the areas of an image

  lemma GrowsAt(sp: Space, va: nat)
    requires Execd(sp) && KMEM_END <= va < LIMIT
    ensures Grows(sp, va) <==> sp.areas[STACK].base - PAGE <= va <= sp.areas[STACK].base
  {
    assert AreaOk(sp.areas[STACK]);
    GrowsIs(sp.areas[STACK].base, va);
  }

  /** The bounds of the areas, which do not wrap. */
  lemma Bounds(image: Image)
    requires Aligned(image)
    ensures var text := (image.entry + 0x1_0000_0000 - 32) % 0x1_0000_0000; var areas := ImageAreas(image);
            var data := text + image.tsize; var bss := data + image.dsize; var heap := bss + image.bsize;
            && areas[0] == Vma({Mmap, RdOnly, Private}, text, image.tsize) && areas[1] == Vma({Mmap, Private}, data, image.dsize)
            && areas[2] == Vma({DemandZero, Private}, bss, image.bsize) && areas[3] == Vma({DemandZero, Private}, heap, 0x1000)
            && areas[4] == Vma({Stack, DemandZero, Private}, 0x8000_0000, 0x1000)
  {
    var text := Text(image);
    NoWrap(text + image.tsize);
    NoWrap(text + image.tsize + image.dsize);
    NoWrap(text + image.tsize + image.dsize + image.bsize);
  }

  lemma ImageFlags(image: Image, va: nat)
    requires Aligned(image)
    ensures var sp := Space(0, ImageAreas(image));
            && (RdOnly in FlagsAt(sp, va) <==> InText(image, va))
            && (va < 0x7FFF_F000 || 0x8000_0000 < va ==> (InArea(sp, va) <==> Layout(image, va) != Nothing))
            && (va < 0x7FFF_F000 || 0x8000_0000 < va ==> (DemandZero in FlagsAt(sp, va) <==> Layout(image, va) == Zeros))
  {
    hide Aligned, ImageAreas;
    var sp := Space(0, ImageAreas(image));
    Bounds(image);
    var k := FindArea(sp.areas, va, 0);
    assert k == 0 || k == 1 || k == 2 || k == 3 || k == 4 || k == 5;
    assert InArea(sp, va) <==> k < 5 by {
      if i :| 0 <= i < |sp.areas| && Within(sp.areas[i], va) { assert k <= i; }
    }
  }

  lemma ImageGrows(image: Image, va: nat)
    requires Aligned(image) && KMEM_END <= va < LIMIT
    ensures Execd(Space(0, ImageAreas(image)))
    ensures Grows(Space(0, ImageAreas(image)), va) <==> Layout(image, va) == AsFound
  {
    hide Aligned, ImageAreas, Grows, Execd;
    AlignedExecd(image, 0);
    GrowsAt(Space(0, ImageAreas(image)), va);
    Bounds(image);
  }

  // ---------------------------------------------------------------- exec, then a load

  function LoadOps(s: nat, image: Image, va: nat, file: Page): seq<Op> {
    [Exec(s, image), Load(s, va, file)]
  }

  /** The page of va is there after the load, with these contents, or SIGSEGV was raised. */
  ghost predicate Found(e: Eager, s: nat, va: nat, b: Backing, segv: bool, file: Page, stalePage: Page) {
    var r := PageOf(s, va);
    match b
    case Nothing => segv && r !in e.pages
    case FromFile => !segv && r in e.pages && e.pages[r] == file
    case Zeros => !segv && r in e.pages && e.pages[r] == ZeroPage()
    case AsFound => !segv && r in e.pages && e.pages[r] == stalePage
  }

  /** Right after exec nothing of the process is there but its areas. */
  lemma Fresh(e: Eager, s: nat, image: Image, f: map<nat, Page>, va: nat)
    requires s in e.space && Aligned(image)
    ensures var e1 := Next(e, Exec(s, image), f);
            && !Raises(e, Exec(s, image)) && e1.space == e.space[s := Space(0, ImageAreas(image))]
            && PageOf(s, va) !in e1.pages && Can(e, Exec(s, image))
  {
    hide Aligned, ImageAreas, Replay, Seals, Pdx, Ptx;
    var e1 := Next(e, Exec(s, image), f);
    if PageOf(s, va) in e1.pages { GoneAfter(e, Exec(s, image), f, PageOf(s, va)); }
  }

  lemma LoadFinds(e: Eager, s: nat, image: Image, va: nat, file: Page, f: map<nat, Page>, f1: map<nat, Page>)
    requires s in e.space && Aligned(image) && KMEM_END <= va < LIMIT && |file| == PTRS
    ensures var e1 := Next(e, Exec(s, image), f);
            && !Raises(e, Exec(s, image)) && Can(e1, Load(s, va, file))
            && Found(Next(e1, Load(s, va, file), f1), s, va, Layout(image, va), Raises(e1, Load(s, va, file)), file, StaleAt(f1, PgAddr(va)))
  {
    hide Aligned, ImageAreas, Replay, Seals, Pdx, Ptx, Execd, Grows, InArea, FlagsAt, Layout, PgAddr, GrownStack;
    var e1 := Next(e, Exec(s, image), f);
    Fresh(e, s, image, f, va);
    ImageGrows(image, va);
    ImageFlags(image, va);
    LayoutCases(image, va);
    var es := Events(e1, Load(s, va, file), f1);
    if es == [] { ReplayNone(e1.pages); } else { ReplayOne(e1.pages, es[0]); }
  }

  lemma LayoutCases(image: Image, va: nat)
    ensures Layout(image, va) == AsFound <==> 0x7FFF_F000 <= va <= 0x8000_0000
  {
  }

  /** Exec, then a load: the page of the address holds what the layout says, for every address
      and every image. */
  method ExecThenLoad(k: Kernel, held: set<nat>, s: nat, image: Image, va: nat, file: Page)
    returns (segvs: seq<bool>, ghost mid: Mach, ghost stalePage: Page)
    requires k.Valid() && Settled(k.St()) && Holds(k.St(), held) && s in k.space
    requires Aligned(image) && KMEM_END <= va < LIMIT && |file| == PTRS
    modifies k
    ensures |segvs| < 2 ==> k.free == []
    ensures |segvs| == 2 ==> !segvs[0] && k.Valid() && Found(Shown(k.St()), s, va, Layout(image, va), segvs[1], file, stalePage)
    ensures |segvs| == 2 && Layout(image, va) == AsFound ==> Stale(mid, stalePage)
  {
    hide Inv, Linked, Shown, Ran, Holds, Needs, Quiet, SamePages, Next, Raises, AsCopied, Hits, Aligned, Events, Found, Layout, Stale, Reached, Copying;
    ghost var ops := LoadOps(s, image, va, file);
    ShownKeys(k.St());
    var held';
    ghost var found, states, shown;
    segvs, held', found, states, shown := Run(k, held, LoadOps(s, image, va, file));
    mid, stalePage := states[0], [];
    RanSound(ops, found, segvs, states, shown, 0);
    if |segvs| == 2 {
      RanSound(ops, found, segvs, states, shown, 2);
      LoadFinds(shown[0], s, image, va, file, found[0], found[1]);
      mid, stalePage := states[1], StaleAt(found[1], PgAddr(va));
      if Layout(image, va) == AsFound { FreshStale(ops, found, segvs, states, shown, s, va, image, file); }
    }
  }

  /** What was found in a new stack page was in a frame that was free. */
  lemma FreshStale(ops: seq<Op>, found: seq<map<nat, Page>>, segvs: seq<bool>, states: seq<Mach>, shown: seq<Eager>,
                   s: nat, va: nat, image: Image, file: Page)
    requires Ran(ops, found, segvs, states, shown) && |segvs| == 2 && ops == LoadOps(s, image, va, file)
    requires |states| == |shown| == 3 && |found| == 2
    requires Found(shown[2], s, va, AsFound, segvs[1], file, StaleAt(found[1], PgAddr(va)))
    ensures Stale(states[1], StaleAt(found[1], PgAddr(va)))
  {
    hide Inv, Shown, Next, Raises, KernStep, Asked, Stale, PgAddr, Ran;
    RanStep(ops, found, segvs, states, shown, 1);
    PagesWhole(states[2], PageOf(s, va));
  }

  lemma PagesWhole(m: Mach, r: Ref)
    requires Inv(m) && r in Shown(m).pages
    ensures |Shown(m).pages[r]| == PTRS
  {
    Facts(m);
  }

  // ---------------------------------------------------------------- only text is read-only

  function ForkOps(s: nat, c: nat, q: nat, image: Image, va: nat, w: Word, file: Page, stale: seq<Vma>): seq<Op> {
    [Exec(s, image), Store(s, va, w, file), Fork(s, c, stale), Store(q, va, w, file)]
  }

  /** Where nothing was, the stack is the only area that growing adds. */
  lemma GrownOver(sp: Space, va: nat)
    requires Execd(sp) && KMEM_END <= va < LIMIT && Grows(sp, va) && !InArea(sp, va)
    ensures RdOnly in FlagsAt(GrownStack(sp), va) ==> RdOnly in sp.areas[STACK].flags
  {
    GrowStack(sp, va);
    var k := FindArea(GrownStack(sp).areas, va, 0);
    assert forall i | 0 <= i < |sp.areas| :: !Within(sp.areas[i], va);
  }

  /** The first store: its page is there if anything backs it, in an area that is read-only
      exactly in the text. */
  lemma StoreLands(e: Eager, s: nat, image: Image, va: nat, w: Word, file: Page, f: map<nat, Page>, f1: map<nat, Page>)
    requires s in e.space && Aligned(image) && KMEM_END <= va < LIMIT && |file| == PTRS
    ensures var e1, op := Next(e, Exec(s, image), f), Store(s, va, w, file); var e2 := Next(e1, op, f1);
            && (Raises(e1, op) <==> Layout(image, va) == Nothing) && s in e2.space && e2.space.Keys == e.space.Keys
            && Execd(e2.space[s]) && |e2.space[s].areas| == NVMA
            && (PageOf(s, va) in e2.pages <==> Layout(image, va) != Nothing)
            && (Layout(image, va) != Nothing ==> (RdOnly in FlagsAt(e2.space[s], va) <==> InText(image, va)))
            && (Layout(image, va) == Nothing ==> !Grows(e2.space[s], va) && !InArea(e2.space[s], va))
  {
    hide Aligned, ImageAreas, Replay, Seals, Pdx, Ptx, Execd, Grows, InArea, FlagsAt, Layout, PgAddr, GrownStack, InText, FaultPage;
    var e1, op := Next(e, Exec(s, image), f), Store(s, va, w, file);
    var sp := Space(0, ImageAreas(image));
    Fresh(e, s, image, f, va);
    ImageGrows(image, va);
    ImageFlags(image, va);
    LayoutCases(image, va);
    if Grows(sp, va) {
      GrowsBelow(sp, va);
      if InArea(sp, va) { GrownFlags(sp, va, va); } else { Uncovered(image, va); }
    }
    if Refuses(e1, sp, s, va) {
      ReplayNone(e1.pages);
    } else {
      var fill := Filled(PageOf(s, va), FaultPage(sp, va, file, StaleAt(f1, PgAddr(va))));
      var ev := Stored(PageOf(s, va), va % PAGE / 4, w);
      assert Events(e1, op, f1) == [fill] + [ev];
      FilledThere(e1.pages, fill, ev);
    }
  }

  lemma Uncovered(image: Image, va: nat)
    requires Aligned(image) && KMEM_END <= va < LIMIT
    requires var sp := Space(0, ImageAreas(image)); Execd(sp) && Grows(sp, va) && !InArea(sp, va)
    ensures RdOnly !in FlagsAt(GrownStack(Space(0, ImageAreas(image))), va) && !InText(image, va)
  {
    hide Aligned, ImageAreas, Grows, FindArea, GrownStack;
    var sp := Space(0, ImageAreas(image));
    Bounds(image);
    GrownOver(sp, va);
    assert !Within(sp.areas[0], va);
  }

  /** The second store, after the fork. */
  lemma StoreAgain(e: Eager, s: nat, c: nat, q: nat, image: Image, va: nat, w: Word, file: Page, stale: seq<Vma>, f: map<nat, Page>)
    requires s in e.space && Execd(e.space[s]) && |e.space[s].areas| == NVMA && KMEM_END <= va < LIMIT && |file| == PTRS
    requires c !in e.space && c < NPROC && |stale| == NVMA && (q == s || q == c)
    requires PageOf(s, va) !in e.sealed && PageOf(c, va) !in e.sealed && PageOf(c, va) !in e.pages
    requires PageOf(s, va) !in e.pages ==> !Grows(e.space[s], va) && !InArea(e.space[s], va)
    ensures !Raises(e, Fork(s, c, stale))
    ensures Raises(Next(e, Fork(s, c, stale), f), Store(q, va, w, file)) <==>
              PageOf(s, va) !in e.pages || RdOnly in FlagsAt(e.space[s], va)
  {
    hide Execd, FlagsAt, Grows, InArea, Replay, ForkCopy, Inherited, PgAddr, PageAddr;
    var fork := Fork(s, c, stale);
    InheritedAll(e.space[s], stale);
    var e' := Next(e, fork, f);
    ReplayOne(e.pages, Forked(s, c));
    AppliedFork(e.pages, s, c);
    ForkAt(e.pages, s, c, PageOf(q, va));
    Split(va);
    FlagsPage(e.space[s], va);
    SameExecd(e.space[s], e'.space[q]);
    SameAccess(e.space[s], e'.space[q], va);
    assert ReadOnly(e, PageOf(s, va)) <==> PageOf(s, va) in e.pages && RdOnly in FlagsAt(e.space[s], va);
    assert PageOf(q, va) in Seals(e, fork) <==> ReadOnly(e, PageOf(s, va));
  }

  lemma SameAccess(sp: Space, sp': Space, va: nat)
    requires sp'.areas == sp.areas && |sp.areas| == NVMA
    ensures Grows(sp', va) == Grows(sp, va) && InArea(sp', va) == InArea(sp, va)
  {
  }

  /** For every address: after exec, a store, a fork and the store again, by parent or child, the
      last store is refused exactly if nothing backs the address or it lies in the text. */
  method StoreAfterFork(k: Kernel, held: set<nat>, s: nat, c: nat, q: nat, image: Image, va: nat, w: Word, file: Page, stale: seq<Vma>)
    returns (segvs: seq<bool>)
    requires k.Valid() && Settled(k.St()) && Holds(k.St(), held) && s in k.space && c !in k.space && c < NPROC && |stale| == NVMA
    requires Aligned(image) && KMEM_END <= va < LIMIT && |file| == PTRS && (q == s || q == c)
    modifies k
    ensures |segvs| < 4 ==> k.free == []
    ensures |segvs| == 4 ==> var none := Layout(image, va) == Nothing; segvs == [false, none, false, none || InText(image, va)]
  {
    hide Inv, Linked, Shown, Ran, Holds, Needs, Quiet, SamePages, Next, Raises, AsCopied, Hits, Aligned, Events, Layout, InText, Reached, Copying;
    ShownKeys(k.St());
    var held';
    ghost var found, states, shown;
    segvs, held', found, states, shown := Run(k, held, ForkOps(s, c, q, image, va, w, file, stale));
    RanSound(ForkOps(s, c, q, image, va, w, file, stale), found, segvs, states, shown, 0);
    if |segvs| == 4 { ForkRun(found, segvs, states, shown, s, c, q, image, va, w, file, stale); }
  }

  lemma ForkRun(found: seq<map<nat, Page>>, segvs: seq<bool>, states: seq<Mach>, shown: seq<Eager>,
                s: nat, c: nat, q: nat, image: Image, va: nat, w: Word, file: Page, stale: seq<Vma>)
    requires Ran(ForkOps(s, c, q, image, va, w, file, stale), found, segvs, states, shown)
    requires |segvs| == |found| == 4 && |shown| == |states| == 5 && s in shown[0].space && c !in shown[0].space && c < NPROC
    requires |stale| == NVMA && Aligned(image) && KMEM_END <= va < LIMIT && |file| == PTRS && (q == s || q == c)
    ensures var none := Layout(image, va) == Nothing; segvs == [false, none, false, none || InText(image, va)]
  {
    hide Ran, Next, Raises, Aligned, Pdx, Ptx, SealedThere, Did, Shown, Inv, Can, Layout, InText, Execd, FlagsAt, Grows, InArea, ReadOnly;
    var ops := ForkOps(s, c, q, image, va, w, file, stale);
    RanStep(ops, found, segvs, states, shown, 0);
    RanStep(ops, found, segvs, states, shown, 1);
    RanStep(ops, found, segvs, states, shown, 2);
    RanStep(ops, found, segvs, states, shown, 3);
    Fresh(shown[0], s, image, found[0], va);
    StoreLands(shown[0], s, image, va, w, file, found[0], found[1]);
    RanSound(ops, found, segvs, states, shown, 2);
    NobodysPage(states[2], c, va);
    RanSound(ops, found, segvs, states, shown, 1);
    NotSealed(shown[1], PageOf(s, va));
    SealStep(states[1], states[2], ops[1], found[1], PageOf(s, va));
    NotSealed(shown[2], PageOf(c, va));
    StoreAgain(shown[2], s, c, q, image, va, w, file, stale, found[2]);
    assert segvs == [segvs[0], segvs[1], segvs[2], segvs[3]];
  }

  /** A process that is not there has no pages. */
  lemma NobodysPage(m: Mach, c: nat, va: nat)
    requires Inv(m) && c !in Shown(m).space
    ensures PageOf(c, va) !in Shown(m).pages
  {
    hide Inv, Shown, Execd, InArea, Pdx, Ptx;
    if PageOf(c, va) in Shown(m).pages { PageCovered(m, PageOf(c, va)); }
  }
}
