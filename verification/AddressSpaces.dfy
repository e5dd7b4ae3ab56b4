/** The page-frame allocator, page tables, page-fault handlers and address-space
    life cycle of the kernel, as routines that update physical memory in place. */
module AddressSpaces {
  import opened FrameLedger
  import opened Ledgers
  import opened Paging
  import opened PagingSteps
  import opened WindowSteps
  import opened ForkSteps
  import opened EagerMemory
  import opened SpaceSteps
  import opened Params
  import opened Sealing
  import opened Ranges

  /** `pm_init`, first part: mark frame 0 and the frames from 640 kb to the end of the kernel. */
  method MarkReserved(kend: nat) returns (count: seq<nat>, rsvd: seq<bool>)
    requires KIMAGE <= kend < NPAGE
    ensures |count| == |rsvd| == NPAGE
    ensures forall f: nat | f < NPAGE :: rsvd[f] <==> f == 0 || KIMAGE <= f <= kend
    ensures forall f: nat | f < NPAGE :: count[f] == if rsvd[f] then 100 else 0
  {
    count, rsvd := seq(NPAGE, _ => 0)[0 := 100], seq(NPAGE, _ => false)[0 := true];
    var pn := KIMAGE;
    while pn < kend + 1
      invariant KIMAGE <= pn <= kend + 1 && |count| == |rsvd| == NPAGE
      invariant forall f: nat | f < NPAGE :: rsvd[f] <==> f == 0 || KIMAGE <= f < pn
      invariant forall f: nat | f < NPAGE :: count[f] == if rsvd[f] then 100 else 0
    {
      count, rsvd := count[pn := 100], rsvd[pn := true];
      pn := pn + 1;
    }
  }

  /** `pm_init`, second part: link the other frames in ascending order. */
  method LinkFree(count: seq<nat>, rsvd: seq<bool>) returns (next: seq<int>, head: int, ghost free: seq<nat>)
    requires |count| == |rsvd| == NPAGE
    ensures Linked(head, next, free) && FreeOk(count, rsvd, free)
    ensures forall i, j | 0 <= i < j < |free| :: free[i] < free[j]
  {
    hide Linked;
    next := seq(NPAGE, _ => NIL);
    free, head := [], NIL;
    LinkedNone(next);
    var pn, last := 0, NIL;
    while pn < NPAGE
      invariant pn <= NPAGE && Linked(head, next, free) && last == (if free == [] then NIL else free[|free| - 1])
      invariant forall f: nat :: f in free <==> f < pn && !rsvd[f] && count[f] == 0
      invariant forall i | 0 <= i < |free| :: free[i] < pn
      invariant forall i, j | 0 <= i < j < |free| :: free[i] < free[j]
    {
      if !rsvd[pn] && count[pn] == 0 {
        LinkedAppend(head, next, free, pn);
        next := next[pn := NIL];
        if last == NIL {
          head := pn;
        } else {
          next := next[last := pn];
        }
        last := pn;
        free := free + [pn];
      }
      pn := pn + 1;
    }
  }

  class Kernel {
    var count: seq<nat>         // pg_count of each frame
    var rsvd: seq<bool>         // PG_RSVD of each frame
    var next: seq<int>          // pg_next of each frame
    var head: int               // pgfreelist.pg_next
    var mem: seq<Page>          // physical memory
    var space: map<nat, Space>  // p_vm of each process
    ghost var free: seq<nat>
    ghost var win: map<nat, Window>
    ghost var ledger: Ledger

    ghost function St(): Mach
      reads this
    {
      Mach(count, rsvd, free, mem, space, win, ledger)
    }

    ghost predicate Valid()
      reads this
    {
      Inv(St()) && Linked(head, next, free)
    }

    /** `pm_init`, and process 0 with its directory `pgd0` inside the kernel image, which
        ends in frame `kend`.  The free list holds the other frames in ascending order. */
    constructor (kend: nat, pgd0: nat, ram: seq<Page>)
      requires |ram| == NPAGE && forall f | 0 <= f < NPAGE :: |ram[f]| == PTRS
      requires KIMAGE <= pgd0 <= kend < NPAGE
      ensures Valid() && space == map[0 := Space(pgd0, seq(NVMA, _ => Vma({}, 0, 0)))] && win == map[0 := FULL]
      ensures forall f: nat | f < NPAGE :: rsvd[f] <==> f == 0 || KIMAGE <= f <= kend
      ensures forall f: nat | f < NPAGE :: count[f] == if rsvd[f] then 100 else 0
      ensures forall i, j | 0 <= i < j < |free| :: free[i] < free[j]
    {
      var cnt, rs := MarkReserved(kend);
      var nx, hd;
      ghost var fr;
      nx, hd, fr := LinkFree(cnt, rs);
      count, rsvd, next, head, mem := cnt, rs, nx, hd, ram;
      space := map[0 := Space(pgd0, seq(NVMA, _ => Vma({}, 0, 0)))];
      free, win, ledger := fr, map[0 := FULL], map[Dir(0) := pgd0];
      new;
      PgdInit(pgd0);
      BootInv(St(), pgd0);
    }

    // -------------------------------------------------------------- pm.c, malloc.c

    method PgAlloc() returns (ok: bool, f: nat)
      requires FreeOk(count, rsvd, free) && Linked(head, next, free)
      modifies this`count, this`head, this`free
      ensures ok <==> old(free) != []
      ensures !ok ==> count == old(count) && free == old(free) && head == old(head)
      ensures ok ==> f == old(free)[0] < NPAGE && free == old(free)[1..] && count == old(count)[f := 1]
      ensures FreeOk(count, rsvd, free) && Linked(head, next, free)
    {
      if head == NIL {
        return false, 0;
      }
      FreePop(count, rsvd, free);
      LinkedPop(head, next, free);
      f := head;
      head := next[f];
      count := count[f := 1];
      free := free[1..];
      ok := true;
    }

    method PgFree(f: nat) returns (ok: bool)
      requires FreeOk(count, rsvd, free) && Linked(head, next, free)
      requires f < NPAGE && !rsvd[f]
      modifies this`count, this`next, this`head, this`free
      ensures ok <==> old(count)[f] > 0
      ensures !ok ==> count == old(count) && free == old(free) && head == old(head) && next == old(next)
      ensures ok ==> count == old(count)[f := old(count)[f] - 1] && free == Freed(old(count), old(free), f)
      ensures FreeOk(count, rsvd, free) && Linked(head, next, free)
    {
      if count[f] == 0 {
        return false;
      }
      FreePush(count, rsvd, free, f);
      LinkedPush(head, next, free, f);
      free := Freed(count, free, f);
      count := count[f := count[f] - 1];
      if count[f] == 0 {
        next := next[f := head];
        head := f;
      }
      ok := true;
    }

    /** `kmalloc(PAGE)`. */
    method KmallocPage() returns (ok: bool, f: nat)
      requires Valid()
      modifies this`count, this`head, this`free, this`ledger
      ensures Valid()
      ensures ok <==> old(free) != []
      ensures !ok ==> St() == old(St())
      ensures ok ==> f == old(free)[0] < NPAGE && St() == Take(old(St()))
      ensures ok ==> Kern(f) !in old(ledger) && Only(old(St()), St(), {Kern(f)})
    {
      hide Inv, Only;
      Facts(St());
      if free != [] { TakeInv(St()); }
      ok, f := PgAlloc();
      if ok {
        ledger := ledger[Kern(f) := f];
      }
    }

    /** `kfree(p, PAGE)`. */
    method KfreePage(f: nat)
      requires Valid() && Kern(f) in ledger
      modifies this`count, this`next, this`head, this`free, this`ledger
      ensures Valid() && Kern(f) !in ledger
      ensures Only(old(St()), St(), {Kern(f)})
    {
      hide Inv, Only;
      Facts(St());
      ReleaseKernInv(St(), f);
      var ok := PgFree(f);
      ledger := ledger - {Kern(f)};
    }

    // -------------------------------------------------------------- pte.c

    /** Makes sure the page table for va exists. */
    method FindPte(s: nat, va: nat) returns (ok: bool)
      requires Valid() && s in space && win[s] == FULL && KMEM_END <= va < LIMIT
      modifies this`count, this`head, this`free, this`ledger, this`mem
      ensures ok ==> Valid() && TableOf(s, va) in ledger && Only(old(St()), St(), {TableOf(s, va)})
      ensures TableOf(s, va) in old(ledger) ==> ok && St() == old(St())
      ensures !ok ==> free == []
      ensures ok ==> Shrinks(old(St()), St())
    {
      hide Inv, Only;
      Split(va);
      var d, pgd := Pdx(va), space[s].pgd;
      Facts(St());
      ReadDir(St(), s, d);
      ghost var m := St();
      if !mem[pgd][d].p {
        var f;
        ok, f := KmallocPage();
        if !ok {
          return;
        }
        ghost var m1 := St();
        var w := mem[pgd][d].(off := f, p := true, w := true, u := true, misc := 0);
        NewTable(m, m1, s, d, w);
        mem := Poke(mem, pgd, d, w);
        mem := mem[f := ZeroPage()];
        ledger := (ledger - {Kern(f)})[Table(s, d) := f];
        assert mem == AddTable(Fill(m1, f, ZeroPage()), s, d, f, w).mem;
        HeldNotFree(St(), Table(s, d));
        ReadDir(St(), s, d);
        HeldNotFree(St(), Dir(s));
        FreeBelow(m);
        ShrinksBy(m, St(), {pgd, f});
      } else {
        ok := true;
        FreeBelow(m);
        assert Only(m, St(), {TableOf(s, va)}) by { Unchanged(m, {TableOf(s, va)}); }
      }
    }

    // -------------------------------------------------------------- vm.c, pgfault.c

    /** `find_vma`: the first area of s that contains va. */
    method FindVma(s: nat, va: nat) returns (found: bool, i: nat)
      requires s in space && |space[s].areas| == NVMA
      ensures found <==> InArea(space[s], va)
      ensures found ==> i < NVMA && i == FindArea(space[s].areas, va, 0)
      ensures found ==> space[s].areas[i].base <= va < space[s].areas[i].base + space[s].areas[i].size
      ensures forall j | 0 <= j < (if found then i else NVMA) ::
                !(space[s].areas[j].base <= va < space[s].areas[j].base + space[s].areas[j].size)
    {
      i := 0;
      while i < NVMA
        invariant i <= NVMA
        invariant forall j | 0 <= j < i :: !Within(space[s].areas[j], va)
        invariant FindArea(space[s].areas, va, i) == FindArea(space[s].areas, va, 0)
      {
        if Within(space[s].areas[i], va) {
          return true, i;
        }
        i := i + 1;
      }
      found := false;
    }

    /** `pgalloc` followed by `pgattach`: a frame from the free list, with whatever it
        contains, becomes the page at va. */
    method PgAttach(s: nat, va: nat) returns (ok: bool)
      requires Valid() && UserAddress(St(), s, va)
      requires PageOf(s, va) !in ledger && InArea(space[s], PgAddr(va))
      modifies this`count, this`head, this`free, this`ledger, this`mem
      ensures !ok ==> free == []
      ensures ok ==> Valid() && old(free) != [] && old(free)[0] < |old(mem)|
      ensures ok ==> Mapped(old(St()), St(), s, va, old(mem)[old(free)[0]]) && Writable(St(), PageOf(s, va))
      ensures ok ==> Shrinks(old(St()), St())
    {
      hide Inv, Only, Shrinks, Holders, Mapped, Writable, Execd, InArea, Linked;
      ghost var m := St();
      Facts(m);
      FreeBelow(m);
      var f;
      ok, f := KmallocPage();
      if !ok {
        return;
      }
      ghost var m1 := St();
      TakeShrinks(m, m1);
      ok := FindPte(s, va);
      if !ok {
        return;
      }
      ghost var m2 := St();
      ShrinksTrans(m, m1, m2);
      Split(va);
      Facts(m2);
      var d, t := Pdx(va), Ptx(va);
      ReadDir(m2, s, d);
      var pt := mem[space[s].pgd][d].off;
      var w := mem[pt][t].(off := f, p := true, w := true, u := true, misc := 0);
      AttachNew(m, m1, m2, s, va, w);
      mem := Poke(mem, pt, t, w);
      ledger := (ledger - {Kern(f)})[Leaf(s, d, t) := f];
      ShrinksStore(m2, St(), Table(s, d));
      ShrinksTrans(m, m2, St());
    }

    /** `do_no_page`, first case: the stack grows by a page, whose contents are left as found. */
    method GrowStackPage(s: nat, va: nat) returns (ok: bool)
      requires Valid() && UserAddress(St(), s, va) && |space[s].areas| == NVMA && Grows(space[s], va)
      requires PageOf(s, va) !in ledger
      modifies this`count, this`head, this`free, this`ledger, this`mem, this`space
      ensures !ok ==> free == []
      ensures ok ==> Valid() && UserAddress(St(), s, va) && old(free) != [] && old(free)[0] < |old(mem)|
      ensures ok ==> Mapped(old(St()), St(), s, va, old(mem)[old(free)[0]]) && Writable(St(), PageOf(s, va))
      ensures space == old(space)[s := GrownStack(old(space)[s])] && LongerStack(old(space)[s], space[s])
      ensures ok ==> Shrinks(old(St()), St())
    {
      hide Inv, Only, Mapped, Grown, Execd, InArea, Writable, Grows, LongerStack;
      ghost var m := St();
      GrowStack(space[s], va);
      Facts(m);
      SetAreasInv(m, s, GrownStack(space[s]).areas);
      space := space[s := GrownStack(space[s])];
      ghost var m0 := St();
      ok := PgAttach(s, va);
      if ok {
        GrownMapped(m, m0, St(), s, va, m.mem[m.free[0]]);
      }
    }

    /** `do_no_page`, last two cases: a page of zeros, or a page from a file. */
    method BackedPage(s: nat, va: nat, i: nat, file: Page) returns (ok: bool)
      requires Valid() && UserAddress(St(), s, va) && |space[s].areas| == NVMA && i < NVMA && |file| == PTRS
      requires PageOf(s, va) !in ledger && InArea(space[s], PgAddr(va))
      modifies this`count, this`head, this`free, this`ledger, this`mem
      ensures !ok ==> free == []
      ensures ok ==> Valid()
      ensures ok ==> Mapped(old(St()), St(), s, va, if DemandZero in space[s].areas[i].flags then ZeroPage() else file)
      ensures ok ==> (Writable(St(), PageOf(s, va)) <==>
                        DemandZero in space[s].areas[i].flags || RdOnly in space[s].areas[i].flags)
      ensures ok ==> Shrinks(old(St()), St())
    {
      hide Inv, Only, Execd, InArea, Holders, Writable, Shrinks, Mapped, Linked;
      ghost var m := St();
      Facts(m);
      ok := PgAttach(s, va);
      if !ok {
        return;
      }
      ghost var m1 := St();
      ghost var page0 := m.mem[m.free[0]];
      var d, t := Pdx(va), Ptx(va);
      Split(va);
      Facts(m1);
      MappedThere(m, m1, s, va, page0);
      LeafTable(m1, PageOf(s, va));
      ReadDir(m1, s, d);
      ReadTable(m1, s, d, t);
      var pt := mem[space[s].pgd][d].off;
      var f := mem[pt][t].off;
      if DemandZero in space[s].areas[i].flags {
        FillMapped(m, m1, s, va, page0, ZeroPage());
        mem := mem[f := ZeroPage()];
        ShrinksStore(m1, St(), PageOf(s, va));
        ShrinksTrans(m, m1, St());
        return;
      }
      FillMapped(m, m1, s, va, page0, file);
      mem := mem[f := file];
      ShrinksStore(m1, St(), PageOf(s, va));
      ShrinksTrans(m, m1, St());
      if RdOnly !in space[s].areas[i].flags {
        ghost var m2 := St();
        Facts(m2);
        ReadDir(m2, s, d);
        ReadTable(m2, s, d, t);
        ProtectMapped(m, m2, s, va, file, mem[pt][t].(w := false));
        mem := Poke(mem, pt, t, mem[pt][t].(w := false));
        ShrinksStore(m2, St(), TableOf(s, va));
        ShrinksTrans(m, m2, St());
      }
    }

    /** The handler for a page that is not present.  `file` is the page as `readi` leaves
        it, for areas backed by a file. */
    method DoNoPage(s: nat, va: nat, file: Page) returns (r: Outcome, ghost page: Page)
      requires Valid() && UserAddress(St(), s, va) && |space[s].areas| == NVMA
      requires PageOf(s, va) !in ledger && |file| == PTRS
      modifies this`count, this`head, this`free, this`ledger, this`mem, this`space
      ensures r == Panic ==> free == []
      ensures r != Panic ==> Valid() && UserAddress(St(), s, va)
      ensures r == Segv <==> !Grows(old(space)[s], va) && !InArea(old(space)[s], va)
      ensures r == Segv <==> Nowhere(old(space)[s], va)
      ensures r == Segv ==> St() == old(St())
      ensures r == Done ==> Mapped(old(St()), St(), s, va, page)
      ensures r == Done && Grows(old(space)[s], va) ==>
                && space == old(space)[s := GrownStack(old(space)[s])] && LongerStack(old(space)[s], space[s])
                && old(free) != [] && old(free)[0] < |old(mem)| && page == old(mem)[old(free)[0]]
                && Writable(St(), PageOf(s, va))
      ensures r == Done && !Grows(old(space)[s], va) ==>
                var flags := FlagsAt(old(space)[s], va);
                && space == old(space)
                && page == (if DemandZero in flags then ZeroPage() else file)
                && (Writable(St(), PageOf(s, va)) <==> DemandZero in flags || RdOnly in flags)
      ensures r == Done ==> Shrinks(old(St()), St())
    {
      hide Inv, Only, Mapped, Execd, InArea, Holders, Writable, Grows, GrownStack, Nowhere, LongerStack;
      page := [];
      NowhereIs(space[s], va);
      if Grows(space[s], va) {
        ghost var m := St();
        var ok := GrowStackPage(s, va);
        if !ok {
          return Panic, page;
        }
        return Done, m.mem[m.free[0]];
      }
      WholePage(space[s], va);
      var found, i := FindVma(s, va);
      if !found {
        return Segv, page;
      }
      var ok := BackedPage(s, va, i, file);
      if !ok {
        return Panic, page;
      }
      return Done, if DemandZero in space[s].areas[i].flags then ZeroPage() else file;
    }

    /** `do_wp_page`, shared frame f: drop one reference to it, copy it to a new frame and
        point entry va of page table pt there, writable. */
    method BreakSharing(s: nat, va: nat, pt: nat, f: nat) returns (ok: bool)
      requires Valid() && UserAddress(St(), s, va) && PageOf(s, va) in ledger && TableOf(s, va) in ledger
      requires pt == ledger[TableOf(s, va)] && f == ledger[PageOf(s, va)]
      requires f < |count| && count[f] > 1
      modifies this`count, this`head, this`free, this`ledger, this`mem
      ensures !ok ==> free == []
      ensures ok ==> Valid() && Only(old(St()), St(), {PageOf(s, va)}) && PageOf(s, va) in ledger
      ensures ok ==> Writable(St(), PageOf(s, va))
      ensures ok ==> f < |old(mem)| && ledger[PageOf(s, va)] < |mem| && mem[ledger[PageOf(s, va)]] == old(mem)[f]
      ensures ok ==> Shrinks(old(St()), St())
    {
      hide Inv, Only, Execd, Holders, Writable, FreeOk, Linked, Pte, Pde, InArea, Pdx, Ptx, Shrinks;
      ghost var m := St();
      Split(va);
      var d, t := Pdx(va), Ptx(va);
      Facts(m);
      ReadTable(m, s, d, t);
      count := count[f := count[f] - 1];
      FreeKept(m, f);
      var g;
      ok, g := PgAlloc();
      if !ok {
        return;
      }
      var w := mem[pt][t].(off := g, w := true);
      CopyOnWrite(m, s, va, w);
      mem := mem[g := mem[f]];
      mem := Poke(mem, pt, t, w);
      ledger := ledger[PageOf(s, va) := g];
      assert St() == Copied(m, PageOf(s, va), w);
      LeafTable(St(), PageOf(s, va));
      CopiedShrinks(m, St(), s, va, w);
    }

    /** The handler for a write to a write-protected page: copy it if it is shared,
        otherwise just make it writable. */
    method DoWpPage(s: nat, va: nat) returns (r: Outcome)
      requires Valid() && UserAddress(St(), s, va) && PageOf(s, va) in ledger
      modifies this`count, this`head, this`free, this`ledger, this`mem
      ensures r == Panic ==> free == []
      ensures r != Panic ==> Valid()
      ensures r == Segv <==> RdOnly in FlagsAt(space[s], va)
      ensures r == Segv ==> St() == old(St())
      ensures r == Done ==> Only(old(St()), St(), {PageOf(s, va)}) && PageOf(s, va) in ledger && Writable(St(), PageOf(s, va))
      ensures r == Done ==> var l, l' := old(ledger)[PageOf(s, va)], ledger[PageOf(s, va)];
                l < |old(mem)| && l' < |mem| && mem[l'] == old(mem)[l]
      ensures r == Done ==> Shrinks(old(St()), St())
    {
      hide Inv, Only, InArea, Holders, Writable, FreeOk, Execd, Shrinks;
      ghost var m := St();
      var d, t := Pdx(va), Ptx(va);
      Split(va);
      Facts(m);
      LeafTable(m, PageOf(s, va));
      WholePage(space[s], va);
      var found, i := FindVma(s, va);
      if RdOnly in space[s].areas[i].flags {
        return Segv;
      }
      AllPrivate(space[s], i);
      if Private in space[s].areas[i].flags {
        var ok := FindPte(s, va);
        ReadDir(m, s, d);
        ReadTable(m, s, d, t);
        var pt := mem[space[s].pgd][d].off;
        var f := mem[pt][t].off;
        if count[f] > 1 {
          ok := BreakSharing(s, va, pt, f);
          if !ok {
            return Panic;
          }
        } else {
          SetWriteInv(m, s, d, t, mem[pt][t].(w := true));
          mem := Poke(mem, pt, t, mem[pt][t].(w := true));
          HeldNotFree(St(), TableOf(s, va));
          FreeBelow(m);
          ShrinksBy(m, St(), {pt});
        }
      }
      return Done;
    }

    // -------------------------------------------------------------- pte.c, tables as a whole

    /** `pt_copy`, one page-table entry. */
    method CopyPte(ghost m0: Mach, p: nat, c: nat, d: nat, t: nat, opt: nat, npt: nat)
      requires Valid() && CopyState(St(), p, c, d, t) && CopyFrame(m0, St(), p, c)
      requires opt == ledger[Table(p, d)] && npt == ledger[Table(c, d)]
      modifies this`count, this`mem, this`win, this`ledger
      ensures Valid() && CopyFrame(m0, St(), p, c) && CopiedBelow(St(), p, c, d * PTRS + t + 1)
      ensures win == old(win)[c := Window(KPD, d + 1, KPD * PTRS, d * PTRS + t + 1)]
      ensures Table(p, d) in ledger && Table(c, d) in ledger && opt == ledger[Table(p, d)] && npt == ledger[Table(c, d)]
    {
      hide Inv, Only, CopyFrame, CopiedBelow, Writable, Linked, Pde, InMemory, FreeOk, Execd;
      ghost var m := St();
      Facts(m);
      ReadTable(m, p, d, t);
      ReadTable(m, c, d, t);
      TablesDiffer(m, Table(p, d), Table(c, d));
      var ow := mem[opt][t];
      var nw := mem[npt][t].(off := ow.off, p := ow.p, w := ow.w && !ow.p, u := ow.u, misc := ow.misc);
      mem := Poke(mem, npt, t, nw);
      if ow.p {
        ghost var m1, m2, m3 := SharedEntry(m0, m, p, c, d, t, nw, ow.(w := false));
        mem := Poke(mem, opt, t, ow.(w := false));
        count := count[ow.off := (count[ow.off] + 1) % 256];
        ledger := ledger[Leaf(c, d, t) := ow.off];
        win := win[c := win[c].(hi := d * PTRS + t + 1)];
      } else {
        AbsentEntry(m0, m, p, c, d, t, nw);
        win := win[c := win[c].(hi := d * PTRS + t + 1)];
      }
    }

    /** `pt_copy`, one page table: the loop over its 1024 entries. */
    method CopyEntries(ghost m0: Mach, p: nat, c: nat, d: nat, opt: nat, npt: nat)
      requires Valid() && CopyState(St(), p, c, d, 0) && CopyFrame(m0, St(), p, c) && InheritsAreas(m0, p, c)
      requires opt == ledger[Table(p, d)] && npt == ledger[Table(c, d)]
      modifies this`count, this`mem, this`win, this`ledger
      ensures Valid() && CopyFrame(m0, St(), p, c) && CopiedBelow(St(), p, c, (d + 1) * PTRS)
      ensures win == old(win)[c := Window(KPD, d + 1, KPD * PTRS, (d + 1) * PTRS)]
    {
      hide Inv, Only, CopyFrame, CopiedBelow, InheritsAreas, Linked;
      var t := 0;
      while t < PTRS
        invariant t <= PTRS
        invariant c in space && p in space
        invariant Valid() && CopyFrame(m0, St(), p, c) && CopiedBelow(St(), p, c, d * PTRS + t)
        invariant win == old(win)[c := Window(KPD, d + 1, KPD * PTRS, d * PTRS + t)]
        invariant Table(p, d) in ledger && Table(c, d) in ledger && opt == ledger[Table(p, d)] && npt == ledger[Table(c, d)]
      {
        if Leaf(p, d, t) in ledger { InheritsAt(m0, St(), p, c, d, t); }
        CopyPte(m0, p, c, d, t, opt, npt);
        t := t + 1;
      }
    }

    /** `pt_copy`, one directory entry. */
    method CopyPde(ghost m0: Mach, p: nat, c: nat, d: nat) returns (ok: bool)
      requires Valid() && p in space && c in space && p != c && KPD <= d < PTRS
      requires win[p] == FULL && win[c] == Window(KPD, d, KPD * PTRS, d * PTRS)
      requires CopyFrame(m0, St(), p, c) && CopiedBelow(St(), p, c, d * PTRS) && InheritsAreas(m0, p, c)
      modifies this`count, this`head, this`free, this`mem, this`win, this`ledger
      ensures !ok ==> free == []
      ensures ok ==> Valid() && CopyFrame(m0, St(), p, c) && CopiedBelow(St(), p, c, (d + 1) * PTRS)
      ensures ok ==> win == old(win)[c := Window(KPD, d + 1, KPD * PTRS, (d + 1) * PTRS)]
    {
      hide Inv, Only, CopyFrame, CopiedBelow, InheritsAreas, Linked;
      ghost var m := St();
      Facts(m);
      ReadDir(m, p, d);
      ReadDir(m, c, d);
      var opde := mem[space[p].pgd][d];
      var npgd := space[c].pgd;
      var npde := mem[npgd][d].(p := opde.p, w := opde.w, u := opde.u, misc := opde.misc);
      ok := true;
      if opde.p {
        var npt;
        ok, npt := KmallocPage();
        if !ok {
          return;
        }
        npde := npde.(off := npt);
        StartTable(m0, m, St(), p, c, d, npt, npde);
        mem := Poke(mem, npgd, d, npde);
        win := win[c := win[c].(thi := d + 1)];
        ledger := (ledger - {Kern(npt)})[Table(c, d) := npt];
        CopyEntries(m0, p, c, d, opde.off, npt);
      } else {
        SkipTable(m0, m, p, c, d, npde);
        mem := Poke(mem, npgd, d, npde);
        win := win[c := win[c].(thi := d + 1, hi := (d + 1) * PTRS)];
      }
    }

    /** `pt_copy`: the loop over the user half of the directory. */
    method PtCopy(p: nat, c: nat) returns (ok: bool)
      requires Valid() && p in space && c in space && p != c
      requires win[p] == FULL && win[c] == Window(KPD, KPD, KPD * PTRS, KPD * PTRS)
      requires InheritsAreas(St(), p, c)
      modifies this`count, this`head, this`free, this`mem, this`win, this`ledger
      ensures !ok ==> free == []
      ensures ok ==> Valid() && win == old(win)[c := FULL]
      ensures ok ==> CopyFrame(old(St()), St(), p, c) && CopiedBelow(St(), p, c, PTRS * PTRS)
    {
      hide Inv, Only, CopyFrame, CopiedBelow, InheritsAreas, Linked;
      ghost var m0 := St();
      Facts(m0);
      StartCopy(m0, p, c);
      var d := KPD;
      ok := true;
      while d < PTRS
        invariant KPD <= d <= PTRS
        invariant Valid() && CopyFrame(m0, St(), p, c) && CopiedBelow(St(), p, c, d * PTRS)
        invariant win == old(win)[c := Window(KPD, d, KPD * PTRS, d * PTRS)]
      {
        ok := CopyPde(m0, p, c, d);
        if !ok {
          return;
        }
        d := d + 1;
      }
    }

    /** `pt_free`, one page-table entry. */
    method FreePte(ghost m0: Mach, s: nat, d: nat, t: nat, pt: nat)
      requires Valid() && s in space && KPD <= d < PTRS && t < PTRS
      requires win[s] == Window(d, PTRS, d * PTRS + t, PTRS * PTRS)
      requires Table(s, d) in ledger && pt == ledger[Table(s, d)] && Only(m0, St(), Owned(m0, s))
      modifies this`count, this`next, this`head, this`free, this`win, this`ledger
      ensures Valid() && win == old(win)[s := Window(d, PTRS, d * PTRS + t + 1, PTRS * PTRS)]
      ensures Table(s, d) in ledger && pt == ledger[Table(s, d)] && Only(m0, St(), Owned(m0, s))
    {
      hide Inv, Only, Owned, Linked, Pde, Pte;
      ghost var m := St();
      Facts(m);
      ReadTable(m, s, d, t);
      if mem[pt][t].p {
        DropEntryInv(m, s, d, t);
        var ok := PgFree(mem[pt][t].off);
        ledger := ledger - {Leaf(s, d, t)};
        win := win[s := win[s].(lo := d * PTRS + t + 1)];
        OwnedStep(m0, m, St(), s, Leaf(s, d, t));
      } else {
        PassEntryInv(m, s, d, t);
        win := win[s := win[s].(lo := d * PTRS + t + 1)];
        OwnedKept(m0, m, St(), s);
      }
    }

    /** `pt_free`, one directory entry: all its pages, then the page table itself. */
    method FreePde(ghost m0: Mach, s: nat, d: nat)
      requires Valid() && s in space && KPD <= d < PTRS
      requires win[s] == Window(d, PTRS, d * PTRS, PTRS * PTRS) && Only(m0, St(), Owned(m0, s))
      modifies this`count, this`next, this`head, this`free, this`win, this`ledger
      ensures Valid() && win == old(win)[s := Window(d + 1, PTRS, (d + 1) * PTRS, PTRS * PTRS)]
      ensures Only(m0, St(), Owned(m0, s))
    {
      hide Inv, Only, Owned, Linked, Pte;
      ghost var m := St();
      Facts(m);
      ReadDir(m, s, d);
      var pde := mem[space[s].pgd][d];
      if pde.p {
        var t := 0;
        while t < PTRS
          invariant t <= PTRS
          invariant Valid() && win == old(win)[s := Window(d, PTRS, d * PTRS + t, PTRS * PTRS)]
          invariant Table(s, d) in ledger && pde.off == ledger[Table(s, d)] && Only(m0, St(), Owned(m0, s))
        {
          FreePte(m0, s, d, t, pde.off);
          t := t + 1;
        }
        ghost var m1 := St();
        Facts(m1);
        DropTableInv(m1, s, d);
        var ok := PgFree(pde.off);
        ledger := ledger - {Table(s, d)};
        win := win[s := win[s].(tlo := d + 1)];
        OwnedStep(m0, m1, St(), s, Table(s, d));
      } else {
        PassTableInv(m, s, d);
        win := win[s := win[s].(tlo := d + 1, lo := (d + 1) * PTRS)];
        OwnedKept(m0, m, St(), s);
      }
    }

    /** `pt_free`. */
    method PtFree(s: nat)
      requires Valid() && s in space && win[s] == FULL
      modifies this`count, this`next, this`head, this`free, this`win, this`ledger
      ensures Valid() && win == old(win)[s := Window(PTRS, PTRS, PTRS * PTRS, PTRS * PTRS)]
      ensures Only(old(St()), St(), Owned(old(St()), s))
    {
      hide Inv, Only, Owned, Linked;
      ghost var m0 := St();
      Facts(m0);
      assert win == win[s := FULL];
      Unchanged(m0, Owned(m0, s));
      var d := KPD;
      while d < PTRS
        invariant KPD <= d <= PTRS
        invariant Valid() && win == old(win)[s := Window(d, PTRS, d * PTRS, PTRS * PTRS)]
        invariant Only(m0, St(), Owned(m0, s))
      {
        FreePde(m0, s, d);
        d := d + 1;
      }
    }

    /** `pgd_init` on frame f. */
    method PgdInit(f: nat)
      requires f < |mem| && |mem[f]| == PTRS
      modifies this`mem
      ensures |mem| == |old(mem)| && |mem[f]| == PTRS && mem == old(mem)[f := mem[f]]
      ensures forall i | 0 <= i < PTRS :: mem[f][i] == DirWord(old(mem)[f][i], i)
    {
      var i := 0;
      while i < KPD
        invariant i <= KPD
        invariant |mem| == |old(mem)| && |mem[f]| == PTRS && mem == old(mem)[f := mem[f]]
        invariant forall j | 0 <= j < i :: mem[f][j] == DirWord(old(mem)[f][j], j)
        invariant forall j | i <= j < PTRS :: mem[f][j] == old(mem)[f][j]
      {
        mem := mem[f := mem[f][i := mem[f][i].(off := i * PTRS, p := true, w := true, u := false, misc := 0x10)]];
        i := i + 1;
      }
      while i < PTRS
        invariant KPD <= i <= PTRS
        invariant |mem| == |old(mem)| && |mem[f]| == PTRS && mem == old(mem)[f := mem[f]]
        invariant forall j | 0 <= j < i :: mem[f][j] == DirWord(old(mem)[f][j], j)
        invariant forall j | i <= j < PTRS :: mem[f][j] == old(mem)[f][j]
      {
        mem := mem[f := mem[f][i := mem[f][i].(off := 0, p := false, w := false, u := true, misc := 0)]];
        i := i + 1;
      }
    }

    // -------------------------------------------------------------- vm.c, address spaces

    /** `vm_clone`: the address space of process c becomes a copy of that of p.  An area
        slot that p does not use is left in c as it was found (`stale`). */
    method VmClone(p: nat, c: nat, stale: seq<Vma>) returns (ok: bool)
      requires Valid() && p in space && win[p] == FULL && c !in space && c < NPROC && |stale| == NVMA
      requires UnusedHasNoPages(St(), p)
      modifies this`count, this`head, this`free, this`mem, this`win, this`ledger, this`space
      ensures !ok ==> free == []
      ensures ok ==> Valid() && c in space && space == old(space)[c := space[c]] && win == old(win)[c := FULL]
      ensures ok ==> Cloned(old(St()), St(), p, c) && space[c].pgd < |rsvd| && !rsvd[space[c].pgd]
      ensures ok && Execd(space[p]) ==> Execd(space[c])
      ensures ok ==> space[c].areas == Inherited(space[p].areas, stale)
    {
      hide Inv, Only, Owned, Linked, CopyFrame, CopiedBelow, Cloned, Execd, InheritsAreas, UnusedHasNoPages;
      ghost var m := St();
      Facts(m);
      ReadDir(m, p, KPD);
      var pgd;
      ok, pgd := KmallocPage();
      if !ok {
        return;
      }
      ghost var m1 := St();
      Facts(m1);
      PgdInit(pgd);
      ghost var m2 := St();
      var areas := stale;
      var i := 0;
      while i < NVMA
        invariant i <= NVMA && |areas| == NVMA
        invariant St() == m2
        invariant forall j | 0 <= j < NVMA :: areas[j] == if j < i && space[p].areas[j].flags != {} then space[p].areas[j] else stale[j]
      {
        if space[p].areas[i].flags != {} {
          areas := areas[i := space[p].areas[i]];
        }
        i := i + 1;
      }
      assert areas == Inherited(space[p].areas, stale);
      assert !rsvd[pgd] by { FreePop(m.count, m.rsvd, m.free); }
      BeginClone(m, m1, m2, p, c, pgd, areas);
      space := space[c := Space(pgd, areas)];
      win := win[c := Window(KPD, KPD, KPD * PTRS, KPD * PTRS)];
      ledger := (ledger - {Kern(pgd)})[Dir(c) := pgd];
      ghost var m3 := St();
      ok := PtCopy(p, c);
      if ok {
        EndClone(m, m3, St(), p, c);
      }
    }

    /** `vm_clear`: gives up the areas, the pages and the page tables of s, but not its
        directory.  The areas are blanked last, when no page needs them any more. */
    method VmClear(s: nat)
      requires Valid() && s in space && win[s] == FULL
      modifies this`count, this`next, this`head, this`free, this`win, this`ledger, this`space
      ensures Valid() && win == old(win)[s := Window(PTRS, PTRS, PTRS * PTRS, PTRS * PTRS)]
      ensures Only(old(St()), St(), Owned(old(St()), s))
      ensures s in space && space == old(space)[s := Space(old(space)[s].pgd, space[s].areas)]
      ensures space[s].areas == Blanked(old(space)[s].areas)
    {
      hide Inv, Only, Owned, Linked;
      ghost var m := St();
      Facts(m);
      var areas := space[s].areas;
      var i := 0;
      while i < NVMA
        invariant i <= NVMA && |areas| == NVMA
        invariant forall j | 0 <= j < NVMA :: areas[j] == if j < i then Blanked(m.space[s].areas)[j] else m.space[s].areas[j]
      {
        if areas[i].flags != {} {
          areas := areas[i := Vma({}, 0, 0)];
        }
        i := i + 1;
      }
      assert areas == Blanked(m.space[s].areas);
      PtFree(s);
      ghost var m1 := St();
      ClearAreas(m, m1, s, areas);
      space := space[s := Space(space[s].pgd, areas)];
    }

    /** `vm_renew`: a blank directory and the five areas of an executable image. */
    method VmRenew(s: nat, image: Image)
      requires Valid() && s in space && win[s] == Window(PTRS, PTRS, PTRS * PTRS, PTRS * PTRS)
      modifies this`mem, this`win, this`space
      ensures Valid() && win == old(win)[s := FULL] && Only(old(St()), St(), {})
      ensures space == old(space)[s := Space(old(space)[s].pgd, ImageAreas(image))]
    {
      hide Inv, Only, Linked;
      ghost var m := St();
      Facts(m);
      ReadDir(m, s, KPD);
      var pgd := space[s].pgd;
      PgdInit(pgd);
      RenewInv(m, s, mem[pgd], ImageAreas(image));
      space := space[s := Space(pgd, ImageAreas(image))];
      win := win[s := FULL];
    }

    /** `do_exec`, the part that replaces the address space. */
    method Exec(s: nat, image: Image)
      requires Valid() && s in space && win[s] == FULL && Aligned(image)
      modifies this`count, this`next, this`head, this`free, this`mem, this`win, this`ledger, this`space
      ensures Valid() && win == old(win) && space == old(space)[s := Space(old(space)[s].pgd, ImageAreas(image))]
      ensures Execd(space[s]) && Only(old(St()), St(), Owned(old(St()), s))
      ensures View(St()) == Apply(View(old(St())), Dropped(s))
    {
      hide Inv, Only, Owned, Linked, View, Apply, Execd;
      ghost var m := St();
      Facts(m);
      VmClear(s);
      ghost var m1 := St();
      VmRenew(s, image);
      OwnedKept(m, m1, St(), s);
      AlignedExecd(image, space[s].pgd);
      Facts(St());
      EmptyNow(m1, s);
      OnlyEmpty(m, m1, St(), s);
      DroppedView(m, St(), s);
      assert win == old(win);
    }

    /** `do_exit`, the part that releases the address space. */
    method Exit(s: nat)
      requires Valid() && s in space && win[s] == FULL
      requires space[s].pgd < |rsvd| && !rsvd[space[s].pgd]
      modifies this`count, this`next, this`head, this`free, this`win, this`ledger, this`space
      ensures Valid() && win == old(win) - {s} && space == old(space) - {s}
      ensures Only(old(St()), St(), Owned(old(St()), s))
      ensures forall r: Ref | r in ledger :: !Of(r, s)
      ensures View(St()) == Apply(View(old(St())), Dropped(s))
    {
      hide Inv, Only, Owned, Linked, View, Apply;
      ghost var m := St();
      Facts(m);
      VmClear(s);
      ghost var m1 := St();
      Facts(m1);
      ReadDir(m1, s, KPD);
      DropSpaceInv(m1, s);
      var ok := PgFree(space[s].pgd);
      space := space - {s};
      win := win - {s};
      ledger := ledger - {Dir(s)};
      OwnedStep(m, m1, St(), s, Dir(s));
      Facts(St());
      GoneNow(St(), s);
      DroppedView(m, St(), s);
    }

    // -------------------------------------------------------------- memory accesses

    /** What the MMU finds in the tables for a user access to va. */
    method Translate(s: nat, va: nat) returns (present: bool, writable: bool, f: nat)
      requires Valid() && UserAddress(St(), s, va)
      ensures present <==> PageOf(s, va) in ledger
      ensures present ==> f == ledger[PageOf(s, va)] < |mem|
      ensures writable <==> present && Writable(St(), PageOf(s, va))
    {
      hide Inv, Linked, Execd;
      ghost var m := St();
      var d, t := Pdx(va), Ptx(va);
      Split(va);
      Facts(m);
      ReadDir(m, s, d);
      present, writable, f := false, false, 0;
      var pde := mem[space[s].pgd][d];
      if pde.p && pde.u {
        ReadTable(m, s, d, t);
        var pte := mem[pde.off][t];
        present, writable, f := pte.p && pte.u, pte.p && pte.u && pde.w && pte.w, pte.off;
      } else if PageOf(s, va) in ledger {
        LeafTable(m, PageOf(s, va));
      }
    }

    /** A page fault raised by a store: map the page if it is absent, or break its sharing. */
    method StoreFault(s: nat, va: nat, present: bool, file: Page) returns (r: Outcome, ghost es: seq<Event>)
      requires Valid() && UserAddress(St(), s, va) && |space[s].areas| == NVMA && |file| == PTRS
      requires present <==> PageOf(s, va) in ledger
      requires present ==> !Writable(St(), PageOf(s, va))
      modifies this`count, this`head, this`free, this`ledger, this`mem, this`space
      ensures r == Panic ==> free == []
      ensures r == Segv <==> Forbidden(old(St()), s, va)
      ensures r == Segv ==> Valid() && St() == old(St())
      ensures r == Done ==> Valid() && UserAddress(St(), s, va) && space.Keys == old(space).Keys && |space[s].areas| == NVMA
      ensures r == Done ==> OnlyPage(old(St()), St(), s, va) && View(St()) == Replay(View(old(St())), es)
      ensures r != Panic ==> es == FaultEvents(old(St()), old(space)[s], s, va, file, StaleOf(old(St())))
      ensures r == Done ==> space == old(space)[s := FaultSpace(old(St()), old(space)[s], s, va)]
      ensures r == Done ==> PageOf(s, va) in ledger && (present ==> Writable(St(), PageOf(s, va)))
      ensures r == Done && !present && Grows(old(space)[s], va) ==> Stale(old(St()), StaleOf(old(St())))
      ensures r == Done ==> Forbidden(St(), s, va) == Forbidden(old(St()), s, va) && Sealed(St()) == Sealed(old(St()))
    {
      hide Inv, Only, Linked, Execd, Writable, View, Mapped, Holders, Grows, InArea, FlagsAt, OnlyPage, PageOf, FreeOk, InMemory, GrownStack, Shrinks, Sealed;
      ghost var m := St();
      Facts(m);
      StartAccess(m, s, va);
      ReplayNone(View(m));
      es := [];
      assert space[s := space[s]] == space;
      if !present {
        ghost var page;
        HeadIsStale(m);
        r, page := DoNoPage(s, va, file);
        if r == Done {
          MappedView(m, St(), s, va, page);
          es := [Filled(PageOf(s, va), page)];
          ReplayOne(View(m), es[0]);
          AccessMapped(m, m, St(), s, va, page);
          Facts(St());
          FaultSealed(m, St(), s, va);
        }
      } else {
        r := DoWpPage(s, va);
        if r == Done {
          WrittenView(m, St(), s, va);
          AccessOnly(m, m, St(), s, va);
          Facts(St());
          FaultSealed(m, St(), s, va);
        }
      }
    }

    /** A store of word w by user code at va: the processor retries it after each page
        fault.  At most two faults happen, and the store ends in the page of va alone. */
    method UserStore(s: nat, va: nat, w: Word, file: Page) returns (r: Outcome, ghost events: seq<Event>, ghost faults: nat)
      requires Valid() && UserAddress(St(), s, va) && |space[s].areas| == NVMA && |file| == PTRS
      modifies this`count, this`head, this`free, this`ledger, this`mem, this`space
      ensures r == Panic ==> free == []
      ensures r != Panic ==> Valid() && UserAddress(St(), s, va) && space.Keys == old(space).Keys
      ensures r != Panic ==> OnlyPage(old(St()), St(), s, va)
      ensures r != Panic ==> View(St()) == Replay(View(old(St())), events)
      ensures r == Segv <==> Forbidden(old(St()), s, va)
      ensures r == Segv ==> events == [] && St() == old(St())
      ensures r != Panic ==> space == old(space)[s := FaultSpace(old(St()), old(space)[s], s, va)] && Sealed(St()) == Sealed(old(St()))
      ensures r == Done && PageOf(s, va) !in old(ledger) && Grows(old(space)[s], va) ==> Stale(old(St()), StaleOf(old(St())))
      ensures r == Done ==> PageOf(s, va) in ledger && Writable(St(), PageOf(s, va))
      ensures r == Panic ==> !(PageOf(s, va) in old(ledger) && Writable(old(St()), PageOf(s, va)))
      ensures r == Done ==> events == FaultEvents(old(St()), old(space)[s], s, va, file, StaleOf(old(St())))
                                      + [Stored(PageOf(s, va), va % PAGE / 4, w)]
      ensures faults <= 2
    {
      hide Inv, Only, Linked, Execd, Writable, View, Mapped, Holders, Grows, InArea, FlagsAt, OnlyPage, PageOf;
      hide GrownStack, FreeOk, InMemory, Replay, Apply, Forbidden, FaultEvents, FaultSpace, StaleOf, Sealed, SameAt, Stale;
      ghost var m0 := St();
      Facts(m0);
      StartAccess(m0, s, va);
      events, faults := [], 0;
      ReplayNone(View(m0));
      ghost var fill := FaultEvents(m0, m0.space[s], s, va, file, StaleOf(m0));
      FaultFacts(m0, s, va, file, StaleOf(m0));
      var present, writable, f := Translate(s, va);
      while !writable
        invariant Valid() && UserAddress(St(), s, va) && space.Keys == old(space).Keys && |space[s].areas| == NVMA
        invariant present <==> PageOf(s, va) in ledger
        invariant writable <==> present && Writable(St(), PageOf(s, va))
        invariant present ==> f == ledger[PageOf(s, va)] < |mem|
        invariant OnlyPage(m0, St(), s, va)
        invariant InMemory(m0) && InMemory(St()) && View(St()) == Replay(View(m0), events)
        invariant events == if present then fill else []
        invariant !present ==> St() == m0
        invariant space == if present then m0.space[s := FaultSpace(m0, m0.space[s], s, va)] else m0.space
        invariant Sealed(St()) == Sealed(m0)
        invariant if faults == 0 then St() == m0 else !Forbidden(m0, s, va)
        invariant present && PageOf(s, va) !in m0.ledger && Grows(m0.space[s], va) ==> Stale(m0, StaleOf(m0))
        invariant Forbidden(St(), s, va) == Forbidden(m0, s, va)
        invariant faults <= if writable then 2 else if present then 1 else 0
        decreases if writable then 0 else if present then 1 else 2
      {
        ghost var m := St();
        FaultFacts(m, s, va, file, StaleOf(m));
        ghost var es;
        r, es := StoreFault(s, va, present, file);
        if r != Done {
          return;
        }
        AccessTrans(m0, m, St(), s, va);
        ReplayConcat(View(m0), events, es);
        events := events + es;
        faults := faults + 1;
        Facts(St());
        present, writable, f := Translate(s, va);
      }
      ghost var m := St();
      Facts(m);
      WritableAllowed(m, s, va);
      StoreSole(m, s, va, w);
      mem := Poke(mem, f, va % PAGE / 4, w);
      AccessOnly(m0, m, St(), s, va);
      PokeSealed(m, St(), PageOf(s, va));
      Facts(St());
      ghost var e := Stored(PageOf(s, va), va % PAGE / 4, w);
      ReplayConcat(View(m0), events, [e]);
      ReplayOne(View(m), e);
      events := events + [e];
      r := Done;
    }

    /** `vm_verify`, one page: make it present and unshared, or raise SIGSEGV. A page that is
        present keeps its contents. */
    method VerifyPage(s: nat, page: nat, file: Page) returns (r: Outcome, ghost events: seq<Event>, ghost stale: Page)
      requires Valid() && UserAddress(St(), s, page) && |space[s].areas| == NVMA && |file| == PTRS
      modifies this`count, this`head, this`free, this`ledger, this`mem, this`space
      ensures r == Panic ==> free == []
      ensures r != Panic ==> Valid() && UserAddress(St(), s, page) && OnlyPage(old(St()), St(), s, page)
      ensures r != Panic ==> space == old(space)[s := FaultSpace(old(St()), old(space)[s], s, page)]
      ensures r == Done ==> SolePage(St(), PageOf(s, page))
      ensures r == Segv ==> PageKept(old(St()), St(), s, page)
      ensures r != Panic ==> (r == Segv <==> Forbidden(old(St()), s, page))
      ensures r != Panic ==> View(St()) == Replay(View(old(St())), events) && Shrinks(old(St()), St())
      ensures r != Panic ==> Sealed(St()) == Sealed(old(St()))
      ensures r != Panic ==> events == FaultEvents(old(St()), old(space)[s], s, page, file, stale)
      ensures r != Panic && PageOf(s, page) !in old(ledger) && Grows(old(space)[s], page) ==> Stale(old(St()), stale)
    {
      hide Inv, Only, Linked, Execd, Writable, View, Mapped, Holders, Grows, InArea, FlagsAt, GrownStack, OnlyPage;
      hide SolePage, PageKept, Shrinks, Replay, FreeOk, Pdx, Ptx, Sealed;
      ghost var m0 := St();
      events, stale := [], [];
      Facts(m0);
      ReplayNone(View(m0));
      assert space[s := space[s]] == space;
      var ok := FindPte(s, page);
      if !ok {
        return Panic, events, stale;
      }
      ghost var m := St();
      Facts(m);
      VerifyTable(m0, m, s, page);
      OnlySealed(m0, m, {TableOf(s, page)});
      StartAccess(m, s, page);
      var present, writable, f := Translate(s, page);
      if !present {
        ghost var contents;
        r, contents := DoNoPage(s, page, file);
        if r == Done {
          Facts(St());
          MappedView(m, St(), s, page, contents);
          AccessMapped(m0, m, St(), s, page, contents);
          MappedSole(m, St(), s, page, contents);
          AccessMapped(m, m, St(), s, page, contents);
          FaultSealed(m, St(), s, page);
          events := [Filled(PageOf(s, page), contents)];
          ReplayOne(View(m0), events[0]);
          ShrinksTrans(m0, m, St());
          stale := contents;
          HeadStale(m0, m, contents);
        }
      } else if !writable {
        r := DoWpPage(s, page);
        if r == Done {
          Facts(St());
          WrittenView(m, St(), s, page);
          AccessOnly(m0, m, St(), s, page);
          AccessOnly(m, m, St(), s, page);
          FaultSealed(m, St(), s, page);
          WritableSole(St(), PageOf(s, page));
          ShrinksTrans(m0, m, St());
        }
      } else {
        WritableSole(m, PageOf(s, page));
        r := Done;
      }
    }

    /** `vm_verify` of `size` bytes at `addr`: unless SIGSEGV was raised, every page of the
        range ends up present and held by this process alone.  A range that reaches the
        last page of the address space wraps round and panics. An empty range, and one that
        itself wraps round, is taken for its first page or for none. */
    method VmVerify(s: nat, addr: nat, size: nat, file: Page)
      returns (r: Outcome, code: int, raised: bool, ghost events: seq<Event>, ghost stales: map<nat, Page>)
      requires Valid() && s in space && win[s] == FULL && Execd(space[s]) && addr < LIMIT && size < LIMIT && |file| == PTRS
      modifies this`count, this`head, this`free, this`ledger, this`mem, this`space
      ensures |old(space)[s].areas| == NVMA
      ensures r == Panic ==> free == [] || (code == 0 && LastPage(addr, size) == LIMIT - PAGE)
      ensures code == 0 && LastPage(addr, size) == LIMIT - PAGE ==> r == Panic
      ensures r == Done ==> Valid() && space.Keys == old(space).Keys && Execd(space[s])
      ensures r == Done ==> Sealed(St()) == Sealed(old(St()))
      ensures r == Done ==> View(St()) == Replay(View(old(St())), events) && Elsewhere(old(St()), St(), s)
      ensures code == if addr < KMEM_END then -1 else 0
      ensures code == -1 ==> r == Done && St() == old(St()) && events == [] && !raised
      ensures r == Done && code == 0 ==>
                Verified(old(St()), St(), s, PgAddr(addr), PageCount(addr, size), file, stales, events, raised)
      ensures r == Done && code == 0 && !raised ==>
                SoleRange(St(), s, PgAddr(addr), LastPage(addr, size) + 1)
      ensures r != Segv
      ensures r == Done && code == 0 && Plain(addr, size) && !raised ==> RangeHeld(St(), s, addr, size)
      ensures r == Done && code == 0 && Plain(addr, size) ==> (raised <==> TurnRefused(old(St()), s, addr, size))
      ensures r == Done && code == 0 && Plain(addr, size) ==> OnlyRange(old(St()), St(), s, addr, size)
      ensures code == 0 && Plain(addr, size) && LIMIT - PAGE < addr + size ==> r == Panic
      ensures code == 0 && Plain(addr, size) && addr + size <= LIMIT - PAGE && r == Panic ==> free == []
      ensures code == 0 && NoPage(addr, size) ==> r == Done && St() == old(St()) && events == [] && !raised
      ensures r == Done && code == 0 && OwnPage(addr, size) ==>
                && (!raised ==> RangeHeld(St(), s, addr, 1)) && (raised <==> TurnRefused(old(St()), s, addr, 1))
                && OnlyRange(old(St()), St(), s, addr, 1)
      ensures code == 0 && OwnPage(addr, size) && LIMIT - PAGE <= addr ==> r == Panic
      ensures code == 0 && OwnPage(addr, size) && addr < LIMIT - PAGE && r == Panic ==> free == []
    {
      hide Inv, Linked, Execd, View, Replay, SoleRange, Verified, Elsewhere, PgAddr, LastPage, PageCount, Sealed, Checked;
      hide RangeHeld, TurnRefused, OnlyRange;
      Facts(St());
      ReplayNone(View(St()));
      events, raised, r, stales := [], false, Done, map[];
      ghost var m0, top, at, n := St(), PgAddr(addr), PgAddr(addr), 0;
      StartCheck(m0, s, top, file);
      CheckedFacts(m0, m0, s, top, 0, file, stales, events, raised);
      if addr < KMEM_END {
        code := -1;
        return;
      }
      code := 0;
      var page, last := PgAddr(addr), LastPage(addr, size);
      CountPages(addr, size, 0);
      if Plain(addr, size) { Visited(addr, size, 0); }
      Kinds(addr, size);
      while page <= last
        invariant last < top ==> n == 0 && St() == m0 && events == [] && !raised
        invariant at == top + n * PAGE <= LIMIT && page == (if at == LIMIT then 0 else at) && n <= PageCount(addr, size)
        invariant KMEM_END <= top < LIMIT && top % PAGE == 0 && at % PAGE == 0
        invariant at == LIMIT ==> last == LIMIT - PAGE
        invariant Valid() && s in space && win[s] == FULL && Execd(space[s]) && |space[s].areas| == NVMA
        invariant Checked(m0, St(), s, top, n, file, stales, events, raised)
        decreases LIMIT - at
      {
        if page < KMEM_END {
          return Panic, code, raised, events, stales;
        }
        r, raised, events, stales := VerifyRound(m0, s, page, file, top, n, raised, events, stales);
        if r == Panic {
          return;
        }
        CountPages(addr, size, n);
        NextPage(page);
        n, at := n + 1, at + PAGE;
        page := (page + PAGE) % LIMIT;
      }
      CountPages(addr, size, n);
      CheckedFacts(m0, St(), s, top, n, file, stales, events, raised);
      if !raised {
        SoleShrink(St(), s, top, at, last + 1);
      }
      if Plain(addr, size) {
        RangeTold(m0, St(), s, addr, size, file, stales, events, raised);
      } else if OwnPage(addr, size) {
        RangeTold(m0, St(), s, addr, 1, file, stales, events, raised);
      }
      r := Done;
    }

    /** One round of its loop. */
    method VerifyRound(ghost m0: Mach, s: nat, page: nat, file: Page, ghost top: nat, ghost n: nat,
                       raised: bool, ghost events: seq<Event>, ghost stales: map<nat, Page>)
      returns (r: Outcome, raised': bool, ghost events': seq<Event>, ghost stales': map<nat, Page>)
      requires Valid() && s in space && win[s] == FULL && Execd(space[s]) && |space[s].areas| == NVMA && |file| == PTRS
      requires Inv(m0) && s in m0.space && |m0.space[s].areas| == NVMA && Checked(m0, St(), s, top, n, file, stales, events, raised)
      requires KMEM_END <= top && top % PAGE == 0 && page == top + n * PAGE < LIMIT
      modifies this`count, this`head, this`free, this`ledger, this`mem, this`space
      ensures r == Panic ==> free == []
      ensures r != Panic ==> Valid() && s in space && win[s] == FULL && Execd(space[s]) && |space[s].areas| == NVMA
      ensures r != Panic ==> Checked(m0, St(), s, top, n + 1, file, stales', events', raised')
    {
      hide Inv, Linked, Execd, View, Replay, OnlyPage, SolePage, PageKept, Shrinks, Checked, Only;
      hide FaultEvents, FaultSpace, Forbidden, PageOf, Grows, Sealed, Stale;
      raised', events', stales' := raised, events, stales;
      ghost var m := St();
      Facts(m);
      ghost var es, stale;
      r, es, stale := VerifyPage(s, page, file);
      if r == Panic {
        return;
      }
      Facts(St());
      CheckedStep(m0, m, St(), s, top, n, file, stales, events, raised, es, stale, r == Segv);
      raised', events', stales' := raised || r == Segv, events + es, stales[page := stale];
    }
  }
}
