/** The heap's page table as a map is what the processor finds by walking the kernel's tables. */
module HeapPaging {
  import opened Bits
  import opened PageTables
  import opened Mmu
  import opened HeapState
  import opened HeapSteps
  import opened HeapMemory
  import opened HeapPages

  /** The heap's pages start at K_HEAP_START. */
  const FIRST: nat := HEAP_START / 4096

  /** What the processor makes of page i of the heap. */
  function Reach(ram: Ram, dir: nat, i: nat): Target {
    if FIRST + i < PAGES then Walk(ram, dir, FIRST + i) else Fault
  }

  /** Page i of the heap leads to frame kbase + pt[i], or nowhere. */
  ghost predicate PtIs(ram: Ram, dir: nat, kbase: nat, size: nat, pt: map<nat, nat>) {
    && FIRST + size <= PAGES - 1024 && (forall i :: i in pt ==> i < size)
    && forall i :: 0 <= i < size ==> Reach(ram, dir, i) == if i in pt then To(kbase + pt[i]) else Fault
  }

  /** No two pages of the heap are read off one table entry, the loader's shared table or not. */
  lemma HeapEntriesApart(ram: Ram, dir: nat, i: nat, j: nat)
    ensures SameEntry(ram, dir, FIRST + i, FIRST + j) <==> i == j
  {
  }

  /** page_table_add on the tables is an update of the map; it succeeds where the map has no entry. */
  lemma AddIsUpdate(ram: Ram, ram': Ram, dir: nat, kbase: nat, size: nat, pt: map<nat, nat>, i: nat, f: nat)
    requires PtIs(ram, dir, kbase, size, pt) && i < size && Mapped(ram, ram', dir, FIRST + i, kbase + f)
    ensures i !in pt && PtIs(ram', dir, kbase, size, pt[i := f])
  {
    hide Walk, SpaceOk, SameEntry;
    HeapEntriesApart(ram, dir, i, i);
    forall j: nat | j < size && j != i ensures Reach(ram', dir, j) == Reach(ram, dir, j) {
      HeapEntriesApart(ram, dir, i, j);
    }
    assert Reach(ram', dir, i) == Walk(ram', dir, FIRST + i);
  }

  /** page_table_pte_remove takes the entry away. */
  lemma RemoveIsUpdate(ram: Ram, ram': Ram, dir: nat, kbase: nat, size: nat, pt: map<nat, nat>, i: nat)
    requires PtIs(ram, dir, kbase, size, pt) && i < size
    requires forall q :: 0 <= q < PAGES - 1024 ==>
               Walk(ram', dir, q) == if SameEntry(ram, dir, FIRST + i, q) then Fault else Walk(ram, dir, q)
    ensures PtIs(ram', dir, kbase, size, pt - {i})
  {
    hide Walk, SameEntry;
    HeapEntriesApart(ram, dir, i, i);
    forall j: nat | j < size && j != i ensures Reach(ram', dir, j) == Reach(ram, dir, j) {
      HeapEntriesApart(ram, dir, i, j);
    }
    assert Reach(ram', dir, i) == Walk(ram', dir, FIRST + i);
  }

  /** In the loader's directory a heap page of the first table appears a second time, below 4 MiB. */
  lemma HeapPageTwice(ram: Ram, ram': Ram, dir: nat, i: nat, f: nat)
    requires Twins(ram, dir) && i < 768 && Mapped(ram, ram', dir, FIRST + i, f)
    ensures Walk(ram, dir, 0x100 + i) == Fault && Walk(ram', dir, 0x100 + i) == To(f)
  {
    assert SameEntry(ram, dir, FIRST + i, 0x100 + i);
    hide Walk, SpaceOk, SameEntry;
  }

  /** The tables of the kernel's half are there, as the loader leaves them. */
  ghost predicate TablesThere(ram: Ram, dir: nat) {
    forall d :: USER_DIRS <= d < SELF ==> Present(Pde(ram, dir, d))
  }

  /** The frames of the heap's pages are marked in the kernel's pool, one frame for each page, and none of them
      is a table. */
  ghost predicate FramesHeld(ram: Ram, dir: nat, kbase: nat, pool: seq<bool>, pt: map<nat, nat>) {
    && (forall i :: i in pt ==> pt[i] < |pool| && pool[pt[i]] && !IsTable(ram, dir, kbase + pt[i]))
    && forall i, j :: i in pt && j in pt && i != j ==> pt[i] != pt[j]
  }

  /** The entries of heap pages that lead nowhere are zero. */
  ghost predicate RestZero(ram: Ram, dir: nat, size: nat, pt: map<nat, nat>) {
    forall i :: 0 <= i < size && i !in pt ==> EntryOf(ram, dir, i) == 0
  }

  /** The table entry of page i of the heap. */
  function EntryOf(ram: Ram, dir: nat, i: nat): nat {
    if FIRST + i < PAGES then Pte(ram, dir, DirOf(FIRST + i), SlotOf(FIRST + i)) else 0
  }

  /** Page vp is read off the entry of page i of the heap. */
  predicate OnHeapEntry(ram: Ram, dir: nat, vp: nat, i: nat) {
    SameEntry(ram, dir, vp, FIRST + i)
  }

  /** The tables of the active directory, the map, and the one bitmap of the kernel's pool agree: no free frame is
      a table, and no page of the heap is one. */
  ghost predicate TablesAgree(ram: Ram, dir: nat, kbase: nat, pool: seq<bool>, size: nat, pt: map<nat, nat>) {
    && 0 < kbase && SpaceOk(ram, dir) && TablesThere(ram, dir) && PtIs(ram, dir, kbase, size, pt)
    && (forall i :: 0 <= i < |pool| && !pool[i] ==> !IsTable(ram, dir, kbase + i))
    && FramesHeld(ram, dir, kbase, pool, pt) && RestZero(ram, dir, size, pt)
  }

  /** They do when the kernel starts. */
  lemma LoaderAgrees(kbase: nat, pool: seq<bool>, size: nat)
    requires kbase >= 0x200 && FIRST + size <= PAGES - 1024
    ensures TablesAgree(LoaderRam(), 0x100, kbase, pool, size, map[])
  {
    LoaderSpace();
    LoaderTables();
    forall i | 0 <= i < size ensures EntryOf(LoaderRam(), 0x100, i) == 0 { LoaderPage(FIRST + i); }
    hide LoaderRam, Walk, SpaceOk, IsTable, Pte;
  }

  lemma LoaderTables()
    ensures forall g :: IsTable(LoaderRam(), 0x100, g) ==> g < 0x200
  {
    forall g | IsTable(LoaderRam(), 0x100, g) ensures g < 0x200 {
      if g != 0x100 {
        var d :| 0 <= d < SELF && Present(Pde(LoaderRam(), 0x100, d)) && FrameOf(Pde(LoaderRam(), 0x100, d)) == g;
        LoaderEntries(d);
      }
    }
  }

  /** A free frame becomes a page of the heap. */
  lemma AgreeAdd(ram: Ram, ram': Ram, dir: nat, kbase: nat, pool: seq<bool>, size: nat, pt: map<nat, nat>, i: nat,
                 f: nat)
    requires TablesAgree(ram, dir, kbase, pool, size, pt) && i < size && f < |pool| && !pool[f]
    requires Mapped(ram, ram', dir, FIRST + i, kbase + f)
    requires forall g :: IsTable(ram', dir, g) <==>
               IsTable(ram, dir, g) || g == FrameOf(Pde(ram', dir, DirOf(FIRST + i)))
    ensures TablesAgree(ram', dir, kbase, pool[f := true], size, pt[i := f])
  {
    hide RestZero, FramesHeld, Pte, SameEntry;
    KernelSlot(i, size);
    TableThere(ram, dir, FIRST + i);
    AddIsUpdate(ram, ram', dir, kbase, size, pt, i, f);
    ZeroAdd(ram, ram', dir, kbase, size, pt, i, f);
    FramesAdd(ram, ram', dir, kbase, pool, pt, i, f);
    hide Walk, IsTable, Pde, PtIs;
    assert SpaceOk(ram', dir);
    hide SpaceOk;
  }

  lemma FramesAdd(ram: Ram, ram': Ram, dir: nat, kbase: nat, pool: seq<bool>, pt: map<nat, nat>, i: nat, f: nat)
    requires FramesHeld(ram, dir, kbase, pool, pt) && f < |pool| && !pool[f]
    requires forall k :: 0 <= k < |pool| && !pool[k] ==> !IsTable(ram, dir, kbase + k)
    requires forall g :: IsTable(ram', dir, g) <==> IsTable(ram, dir, g)
    ensures FramesHeld(ram', dir, kbase, pool[f := true], pt[i := f])
  {
    hide IsTable;
  }

  lemma ZeroAdd(ram: Ram, ram': Ram, dir: nat, kbase: nat, size: nat, pt: map<nat, nat>, i: nat, f: nat)
    requires FIRST + size <= PAGES - 1024 && i < size && SpaceOk(ram, dir) && TablesThere(ram, dir)
    requires RestZero(ram, dir, size, pt) && Mapped(ram, ram', dir, FIRST + i, kbase + f)
    ensures RestZero(ram', dir, size, pt[i := f])
  {
    hide Mapped, SpaceOk, SameEntry, Pte;
    forall j | 0 <= j < size && j !in pt[i := f] ensures EntryOf(ram', dir, j) == 0 {
      KernelSlot(j, size);
      HeapEntriesApart(ram, dir, i, j);
      OtherEntries(ram, ram', dir, FIRST + i, kbase + f, FIRST + j);
    }
  }

  /** A page of the same directory outside the heap is mapped, with a new table from the same pool if needed. */
  lemma AgreeOther(ram: Ram, ram': Ram, dir: nat, kbase: nat, pool: seq<bool>, pool': seq<bool>, size: nat,
                   pt: map<nat, nat>, vp: nat, f: nat)
    requires TablesAgree(ram, dir, kbase, pool, size, pt) && vp < PAGES - 1024
    requires forall j :: 0 <= j < size ==> !OnHeapEntry(ram, dir, vp, j)
    requires Mapped(ram, ram', dir, vp, f) && NewTable(ram, pool, ram', pool', dir, kbase, vp)
    requires forall g :: IsTable(ram', dir, g) <==> IsTable(ram, dir, g) || g == FrameOf(Pde(ram', dir, DirOf(vp)))
    ensures TablesAgree(ram', dir, kbase, pool', size, pt)
  {
    OtherReach(ram, ram', dir, kbase, size, pt, vp, f);
    OtherTable(ram, ram', dir, kbase, pool, pool', pt, vp);
    hide Walk, IsTable, Pte, FramesHeld;
    assert SpaceOk(ram', dir);
    hide SpaceOk;
  }

  lemma OtherReach(ram: Ram, ram': Ram, dir: nat, kbase: nat, size: nat, pt: map<nat, nat>, vp: nat, f: nat)
    requires SpaceOk(ram, dir) && TablesThere(ram, dir) && PtIs(ram, dir, kbase, size, pt)
    requires vp < PAGES - 1024 && Mapped(ram, ram', dir, vp, f) && RestZero(ram, dir, size, pt)
    requires forall j :: 0 <= j < size ==> !OnHeapEntry(ram, dir, vp, j)
    ensures PtIs(ram', dir, kbase, size, pt) && RestZero(ram', dir, size, pt)
  {
    hide SpaceOk, SameEntry, Walk, Pte;
    forall j | 0 <= j < size
      ensures Reach(ram', dir, j) == Reach(ram, dir, j) && EntryOf(ram', dir, j) == EntryOf(ram, dir, j)
    {
      KernelSlot(j, size);
      assert !OnHeapEntry(ram, dir, vp, j);
      OtherEntries(ram, ram', dir, vp, f, FIRST + j);
    }
  }

  /** A table taken from the pool is no page of the heap. */
  lemma OtherTable(ram: Ram, ram': Ram, dir: nat, kbase: nat, pool: seq<bool>, pool': seq<bool>, pt: map<nat, nat>,
                   vp: nat)
    requires vp < PAGES - 1024 && NewTable(ram, pool, ram', pool', dir, kbase, vp)
    requires Present(Pde(ram, dir, DirOf(vp))) ==> Pde(ram', dir, DirOf(vp)) == Pde(ram, dir, DirOf(vp))
    requires forall g :: IsTable(ram', dir, g) <==> IsTable(ram, dir, g) || g == FrameOf(Pde(ram', dir, DirOf(vp)))
    requires FramesHeld(ram, dir, kbase, pool, pt)
    requires forall i :: 0 <= i < |pool| && !pool[i] ==> !IsTable(ram, dir, kbase + i)
    ensures FramesHeld(ram', dir, kbase, pool', pt)
    ensures forall i :: 0 <= i < |pool'| && !pool'[i] ==> !IsTable(ram', dir, kbase + i)
  {
    if Present(Pde(ram, dir, DirOf(vp))) { TableThere(ram, dir, vp); }
    hide IsTable, Pde;
  }

  lemma KernelSlot(i: nat, size: nat)
    requires i < size && FIRST + size <= PAGES - 1024
    ensures USER_DIRS <= DirOf(FIRST + i) < SELF
  {
  }

  /** A page's frame goes back to the pool. */
  lemma AgreeRemove(ram: Ram, ram': Ram, dir: nat, kbase: nat, pool: seq<bool>, size: nat, pt: map<nat, nat>, i: nat)
    requires TablesAgree(ram, dir, kbase, pool, size, pt) && i < size && i in pt && SpaceOk(ram', dir)
    requires At(ram', dir) == At(ram, dir)
    requires forall q :: 0 <= q < PAGES - 1024 ==>
               Walk(ram', dir, q) == if SameEntry(ram, dir, FIRST + i, q) then Fault else Walk(ram, dir, q)
    requires var table := FrameOf(Pde(ram, dir, DirOf(FIRST + i)));
             ram' == ram[table := At(ram, table)[SlotOf(FIRST + i) := 0]]
    ensures pt[i] < |pool| && TablesAgree(ram', dir, kbase, pool[pt[i] := false], size, pt - {i})
  {
    RemoveIsUpdate(ram, ram', dir, kbase, size, pt, i);
    SameDirectory(ram, ram', dir);
    ZeroRemove(ram, ram', dir, size, pt, i);
    hide Walk, SameEntry, IsTable, Pde, PtIs, SpaceOk, RestZero;
  }

  lemma ZeroRemove(ram: Ram, ram': Ram, dir: nat, size: nat, pt: map<nat, nat>, i: nat)
    requires FIRST + size <= PAGES - 1024 && i < size && RestZero(ram, dir, size, pt)
    requires forall d :: 0 <= d < 1024 ==> Pde(ram', dir, d) == Pde(ram, dir, d)
    requires var table := FrameOf(Pde(ram, dir, DirOf(FIRST + i)));
             ram' == ram[table := At(ram, table)[SlotOf(FIRST + i) := 0]]
    ensures RestZero(ram', dir, size, pt - {i})
  {
    forall j | 0 <= j < size && j !in pt - {i} ensures EntryOf(ram', dir, j) == 0 {
      KernelSlot(j, size);
    }
  }

  /** A client's write to a page of the heap changes no table: every page leads where it did. */
  lemma ClientWrite(ram: Ram, dir: nat, kbase: nat, pool: seq<bool>, size: nat, pt: map<nat, nat>, i: nat,
                    words: seq<nat>)
    requires TablesAgree(ram, dir, kbase, pool, size, pt) && i in pt && |words| == 1024
    ensures TablesAgree(ram[kbase + pt[i] := words], dir, kbase, pool, size, pt)
    ensures forall q :: 0 <= q < PAGES - 1024 ==> Walk(ram[kbase + pt[i] := words], dir, q) == Walk(ram, dir, q)
  {
    hide RestZero, Pte, Pde, Walk, SpaceOk, IsTable, FramesHeld, TablesThere;
    var f := kbase + pt[i];
    FrameHeld(ram, dir, kbase, pool, pt, i);
    OtherFrame(ram, dir, f, words);
    ZeroStays(ram, dir, size, pt, f, words);
    FramesStay(ram, ram[f := words], dir, kbase, pool, pt);
    WalksStay(ram, ram[f := words], dir, kbase, size, pt);
  }

  lemma FrameHeld(ram: Ram, dir: nat, kbase: nat, pool: seq<bool>, pt: map<nat, nat>, i: nat)
    requires FramesHeld(ram, dir, kbase, pool, pt) && i in pt
    ensures !IsTable(ram, dir, kbase + pt[i])
  {
  }

  lemma WalksStay(ram: Ram, ram': Ram, dir: nat, kbase: nat, size: nat, pt: map<nat, nat>)
    requires PtIs(ram, dir, kbase, size, pt) && TablesThere(ram, dir)
    requires forall q :: 0 <= q < PAGES - 1024 ==> Walk(ram', dir, q) == Walk(ram, dir, q)
    requires forall d :: 0 <= d < 1024 ==> Pde(ram', dir, d) == Pde(ram, dir, d)
    ensures PtIs(ram', dir, kbase, size, pt) && TablesThere(ram', dir)
  {
    hide Walk;
    assert forall j :: 0 <= j < size ==> Reach(ram', dir, j) == Reach(ram, dir, j);
  }

  lemma FramesStay(ram: Ram, ram': Ram, dir: nat, kbase: nat, pool: seq<bool>, pt: map<nat, nat>)
    requires FramesHeld(ram, dir, kbase, pool, pt) && forall g :: IsTable(ram', dir, g) <==> IsTable(ram, dir, g)
    ensures FramesHeld(ram', dir, kbase, pool, pt)
  {
    hide IsTable;
  }

  lemma ZeroStays(ram: Ram, dir: nat, size: nat, pt: map<nat, nat>, f: nat, words: seq<nat>)
    requires FIRST + size <= PAGES - 1024 && TablesThere(ram, dir) && !IsTable(ram, dir, f)
    requires RestZero(ram, dir, size, pt)
    requires forall d :: 0 <= d < 1024 ==> Pde(ram[f := words], dir, d) == Pde(ram, dir, d)
    ensures RestZero(ram[f := words], dir, size, pt)
  {
    hide IsTable;
    forall j | 0 <= j < size && j !in pt ensures EntryOf(ram[f := words], dir, j) == 0 {
      assert EntryOf(ram, dir, j) == 0;
      KernelSlot(j, size);
      TableThere(ram, dir, FIRST + j);
    }
  }

  lemma PageBytes(vp: nat)
    ensures 4096 * vp / 4096 == vp && 4096 * vp % 4096 == 0
  {
  }

  lemma NothingGiven(pool: seq<bool>, pt: map<nat, nat>, p: nat)
    ensures FramesGiven(pool, pt, pool, pt, p, 0)
  {
  }

  /** The next page of the run is as it was. */
  lemma SameThere(pool: seq<bool>, pt: map<nat, nat>, pool': seq<bool>, pt': map<nat, nat>, p: nat, n: nat)
    requires FramesGiven(pool, pt, pool', pt', p, n)
    ensures p + n in pt' <==> p + n in pt
    ensures p + n in pt ==> pt'[p + n] == pt[p + n]
  {
    hide RunFrame;
  }

  lemma WordInPage(vp: nat, off: nat)
    requires off < 4096
    ensures (4096 * vp + off) / 4096 == vp && (4096 * vp + off) % 4096 / 4 == off / 4
  {
  }

  /** malloc_page and mfree_page for the kernel's pool with both their records: the map of pages to frames
      and the tables the processor reads. `pages.pool` and `mmu.kpool` are the one bitmap of the pool. */
  class KernelPages {
    const pages: Pool
    const mmu: Machine

    ghost predicate Agree()
      reads this, pages, mmu
    {
      && mmu.kpool == pages.pool
      && TablesAgree(mmu.ram, mmu.dir, mmu.kbase, pages.pool, |pages.vmap|, pages.pt)
    }

    constructor (pages: Pool, mmu: Machine)
      ensures this.pages == pages && this.mmu == mmu
    {
      this.pages, this.mmu := pages, mmu;
    }

    method MallocPage(n: nat) returns (r: PageResult)
      requires Agree() && 0 < |pages.vmap| && forall i :: 0 <= i < |pages.vmap| && !pages.vmap[i] ==> i !in pages.pt
      modifies pages, mmu
      ensures r.PagesHalted? <==> n == 0 || Halting(old(pages.View()), n)
      ensures r.NoPages? <==> NoRun(old(pages.vmap), n)
      ensures r.NoPages? ==> pages.View() == old(pages.View())
      ensures r.Pages? ==> Scan(old(pages.vmap), n) == Found(r.page)
      ensures r.Pages? ==> PagesTaken(old(pages.View()), pages.View(), r.page, n)
      ensures !r.PagesHalted? ==> Agree() && mmu.dir == old(mmu.dir)
    {
      hide Scan, FramesTaken, FreeCount, TablesAgree;
      if n == 0 || n >= 3840 { return PagesHalted; }
      ScanFinds(pages.vmap, n);
      var start := pages.VaddrGet(n);
      if start.Full? { return PagesHalted; }
      if start.NotFound? { return NoPages; }
      var p := start.index;
      ghost var marked, pool0, pt0 := pages.vmap, pages.pool, pages.pt;
      assert forall i: nat :: InRun(p, n, i) ==> !old(pages.vmap)[i] && i !in pages.pt;
      assert FramesTaken(pages.pool, pages.pt, pages.pool, pages.pt, p, 0) by { NoFrames(pages.pool, pages.pt, p); }
      var cnt := 0;
      while cnt < n
        invariant cnt <= n && pages.vmap == marked && FramesTaken(pool0, pt0, pages.pool, pages.pt, p, cnt)
        invariant cnt <= FreeCount(pool0) && Agree() && mmu.dir == old(mmu.dir)
      {
        assert InRun(p, n, p + cnt);
        ghost var pool1, pt1 := pages.pool, pages.pt;
        var ok := pages.MapNext(p + cnt, pool0, pt0, p, cnt);
        if !ok { return PagesHalted; }
        assert pages.pt - {p + cnt} == pt1;
        EnterPage(p + cnt, pool1);
        cnt := cnt + 1;
      }
      return Pages(p);
    }

    /** page_table_add for a heap page whose frame the map has just got; it never halts. */
    method EnterPage(page: nat, ghost pool0: seq<bool>)
      requires page < |pages.vmap| && page in pages.pt && mmu.kpool == pool0
      requires pages.pt[page] < |pool0| && !pool0[pages.pt[page]] && pages.pool == pool0[pages.pt[page] := true]
      requires TablesAgree(mmu.ram, mmu.dir, mmu.kbase, pool0, |pages.vmap|, pages.pt - {page})
      modifies mmu
      ensures Agree() && mmu.dir == old(mmu.dir)
    {
      hide Walk, SpaceOk, IsTable, FreeCount, Mapped, FramesHeld, RestZero;
      ghost var ram0, pt0 := mmu.ram, pages.pt - {page};
      KernelSlot(page, |pages.vmap|);
      mmu.kpool := pages.pool;   // palloc has marked the frame
      var ok := mmu.PageTableAdd(FIRST + page, mmu.kbase + pages.pt[page]);
      assert Reach(ram0, mmu.dir, page) == Fault;
      AgreeAdd(ram0, mmu.ram, mmu.dir, mmu.kbase, pool0, |pages.vmap|, pt0, page, pages.pt[page]);
      assert pt0[page := pages.pt[page]] == pages.pt;
    }

    /** One page's frame and entry, found through the tables. */
    method LeavePage(page: nat) returns (ok: bool)
      requires Agree() && page < |pages.vmap|
      modifies pages`pool, pages`pt, mmu`ram, mmu`kpool
      ensures ok <==> page in old(pages.pt)
      ensures ok ==> old(pages.pt)[page] < |old(pages.pool)|
      ensures ok ==> pages.pool == old(pages.pool)[old(pages.pt)[page] := false] && pages.pt == old(pages.pt) - {page}
      ensures ok ==> Agree()
    {
      hide Walk, SpaceOk, IsTable, SameEntry, Pte;
      ghost var ram0, pool0, pt0 := mmu.ram, pages.pool, pages.pt;
      KernelSlot(page, |pages.vmap|);
      SelfOf(mmu.ram, mmu.dir);
      assert page in pt0 ==> Reach(mmu.ram, mmu.dir, page) == To(mmu.kbase + pages.pt[page]);
      assert page !in pt0 ==> EntryOf(mmu.ram, mmu.dir, page) == 0;
      PageBytes(FIRST + page);
      var fault, phys := mmu.AddrV2P(4096 * (FIRST + page));
      var frame := phys / 4096;
      if !(mmu.kbase <= frame < mmu.kbase + |pages.pool|) { return false; }
      pages.Pfree(frame - mmu.kbase);
      mmu.kpool := pages.pool;
      fault := mmu.PteRemove(FIRST + page);
      AgreeRemove(ram0, mmu.ram, mmu.dir, mmu.kbase, pool0, |pages.vmap|, pt0, page);
      pages.PteRemove(page);
      return true;
    }

    /** A client of the heap writes a word of a page that is mapped. */
    method ClientStore(page: nat, off: nat, w: nat) returns (fault: bool)
      requires Agree() && page in pages.pt && off < 4096
      modifies mmu`ram
      ensures !fault && Agree()
      ensures forall q :: 0 <= q < PAGES - 1024 ==> Walk(mmu.ram, mmu.dir, q) == Walk(old(mmu.ram), mmu.dir, q)
    {
      hide Walk, SpaceOk, IsTable, RestZero, FramesHeld;
      ghost var ram0 := mmu.ram;
      assert Reach(ram0, mmu.dir, page) == To(mmu.kbase + pages.pt[page]);
      WordInPage(FIRST + page, off);
      ghost var f := mmu.kbase + pages.pt[page];
      fault := mmu.StoreWord(4096 * (FIRST + page) + off, w);
      ClientWrite(ram0, mmu.dir, mmu.kbase, pages.pool, |pages.vmap|, pages.pt, page, At(ram0, f)[off / 4 := w]);
    }

    /** page_table_add for a page outside the heap, which may take a table from the kernel's pool. */
    method MapOther(vp: nat, f: nat) returns (ok: bool)
      requires Agree() && vp < PAGES - 1024
      requires forall j :: 0 <= j < |pages.vmap| ==> !OnHeapEntry(mmu.ram, mmu.dir, vp, j)
      modifies mmu`ram, mmu`kpool, pages`pool
      ensures ok ==> Agree() && Mapped(old(mmu.ram), mmu.ram, mmu.dir, vp, f)
      ensures ok <==> Walk(old(mmu.ram), mmu.dir, vp) == Fault
                      && (Present(Pde(old(mmu.ram), mmu.dir, DirOf(vp))) || FreeCount(old(pages.pool)) > 0)
    {
      hide Walk, SpaceOk, IsTable, FreeCount, Mapped, FramesHeld, RestZero, SameEntry, PtIs;
      ghost var ram0, pool0 := mmu.ram, pages.pool;
      ok := mmu.PageTableAdd(vp, f);
      pages.pool := mmu.kpool;
      if ok { AgreeOther(ram0, mmu.ram, mmu.dir, mmu.kbase, pool0, pages.pool, |pages.vmap|, pages.pt, vp, f); }
    }

    method MfreePage(p: nat, n: nat) returns (ok: bool)
      requires Agree() && p + n <= |pages.vmap|
      modifies pages, mmu
      ensures ok <==> n > 0 && forall i :: InRun(p, n, i) ==> i in old(pages.pt)
      ensures ok ==> PagesGiven(old(pages.View()), pages.View(), p, n) && Agree() && mmu.dir == old(mmu.dir)
    {
      hide RunFrame, TablesAgree, FramesGiven;
      if n == 0 { return false; }
      ghost var pool0, pt0 := pages.pool, pages.pt;
      var count := 0;
      assert FramesGiven(pool0, pt0, pool0, pt0, p, 0) by { NothingGiven(pool0, pt0, p); }
      while count < n
        invariant count <= n && pages.vmap == old(pages.vmap) && FramesGiven(pool0, pt0, pages.pool, pages.pt, p, count)
        invariant forall i :: InRun(p, count, i) ==> i in pt0
        invariant |pages.pool| == |pool0| && Agree() && mmu.dir == old(mmu.dir)
      {
        assert InRun(p, n, p + count);
        SameThere(pool0, pt0, pages.pool, pages.pt, p, count);
        ghost var pool1, pt1 := pages.pool, pages.pt;
        ok := LeavePage(p + count);
        if !ok { return; }
        GiveOneFrame(pool0, pt0, pool1, pt1, p, count);
        count := count + 1;
      }
      pages.VaddrRemove(p, n);
      return true;
    }
  }

  /** Between heap calls: a bit of the page bitmap is set exactly if the processor can reach the page, no two
      pages lead to one frame, and the frames reached are marked used. */
  lemma BitmapIsPageTable(base: Paging, h: Heap, ram: Ram, dir: nat, kbase: nat)
    requires Inv(base, h) && PtIs(ram, dir, kbase, |h.pg.vmap|, h.pg.pt)
    ensures forall i :: 0 <= i < |h.pg.pool| ==> (h.pg.vmap[i] <==> Reach(ram, dir, i).To?)
    ensures forall i, j :: 0 <= i < j < |h.pg.vmap| && i in h.pg.pt && j in h.pg.pt ==>
              Reach(ram, dir, i) != Reach(ram, dir, j)
    ensures forall i :: 0 <= i < |h.pg.vmap| && i in h.pg.pt ==>
              var t := Reach(ram, dir, i);
              t.To? && kbase <= t.frame < kbase + |h.pg.pool| && h.pg.pool[t.frame - kbase]
  {
    MarkedIffMapped(base, h);
    SameSize(base, h);
    hide Inv, Reach;
  }

  lemma SameSize(base: Paging, h: Heap)
    requires Inv(base, h)
    ensures |h.pg.vmap| == |h.pg.pool| + 1
  {
  }
}
