/** sys_malloc and sys_free of kernel/memory.c for a kernel thread, on real memory: arena headers and free
    lists are words, and the lists' links lie inside the free blocks. */
module KernelHeap {
  import opened Seqs
  import opened Bits
  import opened Lists
  import opened HeapState
  import opened HeapSteps
  import opened HeapMemory
  import opened HeapLinks
  import opened HeapUpdates
  import opened HeapPages
  import HeapRuns

  datatype MallocResult = Ptr(address: nat) | Null | Halts

  class KernelHeap {
    const descs: nat
    const poolSize: nat
    const ram: Memory
    const pages: Pool
    ghost var arenas: map<nat, Arena>
    ghost var free: seq<seq<Block>>

    /** mem_init on a given memory and given page bitmaps. */
    constructor (w: Words, pg: Paging, descs: nat, poolSize: nat)
      requires DescsFit(descs)
      ensures fresh(ram) && fresh(pages) && this.descs == descs && this.poolSize == poolSize
      ensures pages.View() == pg && arenas == map[] && free == NoLists() && Linking()
      ensures BaseOk(pg) ==> HeapRuns.Initial(Snapshot(), descs, pg)
    {
      ram := new Memory(w);
      pages := new Pool(pg);
      this.descs, this.poolSize := descs, poolSize;
      arenas, free := map[], NoLists();
      new;
      BlockDescInit();
    }

    /** block_desc_init: sizes 16, 32, .. 1024, and empty lists. */
    method BlockDescInit()
      requires DescsFit(descs)
      modifies ram
      ensures Coherent(ram.words, descs, |pages.vmap|, map[], NoLists())
    {
      hide At, IsList;
      var size := 16;
      var index := 0;
      while index < KINDS
        invariant index <= KINDS && (index < KINDS ==> size == BlockSize(index))
        invariant forall k :: 0 <= k < index ==> DescOk(ram.words, descs, k)
      {
        ghost var w := ram.words;
        ram.Write(DescAddr(descs, index), size);
        ram.Write(DescAddr(descs, index) + 4, (4096 - 12) / size);
        ghost var w1 := ram.words;
        ram.ListInit(Head(descs, index), Tail(descs, index));
        WrittenDesc(w, w1, ram.words, descs, index);
        size := size * 2;
        index := index + 1;
      }
      InitRep(ram.words, descs, |pages.vmap|);
    }

    ghost predicate Linking()
      reads this, ram, pages
    {
      Coherent(ram.words, descs, |pages.vmap|, arenas, free)
    }

    ghost function View(): Heap
      reads this, pages
    {
      Heap(pages.View(), arenas, free)
    }

    /** The heap and its memory as `HeapRuns` sees them. */
    ghost function Snapshot(): HeapRuns.Machine
      reads this, ram, pages
    {
      HeapRuns.Machine(View(), ram.words)
    }

    /** Between two calls; `base` is the state of bitmaps and page table when the heap was empty. */
    ghost predicate Valid(base: Paging)
      reads this, ram, pages
    {
      Linking() && Inv(base, View())
    }

    /** Take the first block of list k and clear it. */
    method PopBlock(k: nat) returns (ptr: nat, ghost b: Block)
      requires Linking() && k < KINDS && |free| == KINDS && free[k] != []
      requires free[k][0].page in arenas && arenas[free[k][0].page].Small? && arenas[free[k][0].page].cnt > 0
      modifies ram, this`arenas, this`free
      ensures Linking() && b == old(free)[k][0] && ValidBlock(arenas, b) && ptr == AddrOf(arenas, b)
      ensures arenas == old(arenas)[b.page := Small(k, old(arenas)[b.page].cnt - 1)]
      ensures free == old(free)[k := old(free)[k][1..]]
      ensures Kept(old(arenas), old(free), old(ram.words), ram.words) && Zeroed(ram.words, arenas, b)
    {
      hide Coherent, IsList, Kept, InBlock, Nodes, Addrs, Same, At, ListsOk, Live, OffLists;
      b := free[k][0];
      ghost var w := ram.words;
      CoherentList(w, descs, |pages.vmap|, arenas, free, k);
      CoherentListed(w, descs, |pages.vmap|, arenas, free, k, b);
      CoherentHeader(w, descs, |pages.vmap|, arenas, free, b.page);
      Block2Arena(arenas, b);
      assert Addrs(k, free[k])[0] == BlockAddr(k, b) by { AddrsAt(k, free[k], 0); }
      ptr := ram.Pop(Head(descs, k), Tail(descs, k), Addrs(k, free[k]));
      ghost var w1 := ram.words;
      PopStep(w, w1, descs, |pages.vmap|, arenas, free, k);
      free := free[k := free[k][1..]];
      CoherentList(w1, descs, |pages.vmap|, arenas, free, k);
      CoherentHeader(w1, descs, |pages.vmap|, arenas, free, b.page);
      ram.Memset(ptr, At(ram.words, DescAddr(descs, k)) / 4);
      ghost var w2 := ram.words;
      forall a ensures WordIn(ptr, BlockSize(k) / 4, a) <==> InBlock(arenas, b, a) && a % 4 == 0 {
        BlockWords(arenas, k, b, a);
      }
      ClearStep(w1, w2, descs, |pages.vmap|, arenas, free, b);
      CoherentHeader(w2, descs, |pages.vmap|, arenas, free, b.page);
      var a := ptr - ptr % 4096;
      var cnt := At(ram.words, a + 4);
      ram.Write(a + 4, cnt - 1);
      CountStep(w2, ram.words, descs, |pages.vmap|, arenas, free, b.page, cnt - 1);
      KeptIfSame(arenas, old(free), w2, ram.words);
      KeptTrans(arenas, old(free), w, w1, w2);
      KeptTrans(arenas, old(free), w, w2, ram.words);
      arenas := arenas[b.page := Small(k, cnt - 1)];
      SameBlock(old(arenas), arenas, b);
    }

    /** Clear n pages and write the header of the arena they become. */
    method InitPages(p: nat, n: nat, desc: nat, cnt: nat, large: nat)
      requires 0 < n
      modifies ram
      ensures At(ram.words, PageAddr(p)) == desc && At(ram.words, PageAddr(p) + 4) == cnt
      ensures At(ram.words, PageAddr(p) + 8) == large
      ensures forall x :: !InPages(p, n, x) ==> At(ram.words, x) == At(old(ram.words), x)
      ensures forall x :: InPages(p, n, x) && PageAddr(p) + 12 <= x && x % 4 == 0 ==> At(ram.words, x) == 0
    {
      ram.Memset(PageAddr(p), 1024 * n);
      ghost var w1 := ram.words;
      assert forall x :: InPages(p, n, x) && x % 4 == 0 <==> WordIn(PageAddr(p), 1024 * n, x);
      ram.Write(PageAddr(p), desc);
      ram.Write(PageAddr(p) + 8, large);
      ram.Write(PageAddr(p) + 4, cnt);
    }

    /** The branch of sys_malloc for large requests, once the pages are there. */
    method NewLarge(p: nat, n: nat)
      requires Linking() && 0 < n && p + n <= |pages.vmap|
      requires forall i :: InRun(p, n, i) ==> !Covered(arenas, i)
      modifies ram, this`arenas
      ensures p !in old(arenas) && arenas == old(arenas)[p := Large(n)] && Linking()
      ensures BlocksSame(old(arenas), old(ram.words), ram.words)
      ensures Zeroed(ram.words, arenas, Block(p, 0))
    {
      hide Coherent, Covered, InRun;
      ghost var w := ram.words;
      InitPages(p, n, 0, n, 1);
      FreshStep(w, ram.words, descs, |pages.vmap|, arenas, free, p, Large(n));
      arenas := arenas[p := Large(n)];
    }

    /** A new arena of kind k at page p, all of whose blocks go on the free list. */
    method NewSmall(p: nat, k: nat) returns (ok: bool)
      requires Linking() && k < KINDS && |free| == KINDS && free[k] == []
      requires p < |pages.vmap| && forall i :: InRun(p, 1, i) ==> !Covered(arenas, i)
      modifies ram, this`arenas, this`free
      ensures ok && p !in old(arenas) && arenas == old(arenas)[p := Small(k, PerArena(k))]
      ensures free == old(free)[k := Fresh(p, PerArena(k))] && Linking()
      ensures Kept(old(arenas), old(free), old(ram.words), ram.words)
    {
      hide Coherent, Covered, InRun, IsList, Kept, Nodes, Same, At, BlocksSame, InPages;
      ghost var w := ram.words;
      CoherentList(w, descs, |pages.vmap|, arenas, free, k);
      InitPages(p, 1, DescAddr(descs, k), PerArena(k), 0);
      FreshStep(w, ram.words, descs, |pages.vmap|, arenas, free, p, Small(k, PerArena(k)));
      ghost var w1 := ram.words;
      arenas := arenas[p := Small(k, PerArena(k))];
      ghost var all := free[k := Fresh(p, PerArena(k))];
      assert free == free[k := Fresh(p, 0)];
      KeptRefl(arenas, all, w1);
      ok := Split(p, k, all, w1);
      KeptNew(old(arenas), old(free), p, k, w1, ram.words);
      KeptIfSame(old(arenas), old(free), w, w1);
      KeptTrans(old(arenas), old(free), w, w1, ram.words);
    }

    /** The loop that splits a new arena into blocks. */
    method Split(p: nat, k: nat, ghost all: seq<seq<Block>>, ghost w1: Words) returns (ok: bool)
      requires Linking() && k < KINDS && |free| == KINDS && free[k] == []
      requires p in arenas && arenas[p] == Small(k, PerArena(k)) && all == free[k := Fresh(p, PerArena(k))]
      requires w1 == ram.words
      modifies ram, this`free
      ensures ok && free == all && Linking() && Kept(arenas, all, w1, ram.words)
    {
      hide Coherent, IsList, Kept, Nodes, Same, At, Addrs, Live, Clear;
      assert free == free[k := Fresh(p, 0)];
      KeptRefl(arenas, all, w1);
      CoherentList(ram.words, descs, |pages.vmap|, arenas, free, k);
      CoherentHeader(ram.words, descs, |pages.vmap|, arenas, free, p);
      var n := At(ram.words, At(ram.words, PageAddr(p)) + 4);
      var index := 0;
      while index < n
        invariant index <= n == PerArena(k) && free == old(free)[k := Fresh(p, index)]
        invariant Linking() && Kept(arenas, all, w1, ram.words)
      {
        ghost var w := ram.words;
        var b := Block(p, index);
        CoherentList(w, descs, |pages.vmap|, arenas, free, k);
        CoherentHeader(w, descs, |pages.vmap|, arenas, free, p);
        var blk := PageAddr(p) + 12 + index * At(ram.words, At(ram.words, PageAddr(p)));
        assert blk == BlockAddr(k, b);
        NotListed(w, descs, |pages.vmap|, arenas, free, k, b);
        var found := ram.ElemFind(Head(descs, k), Tail(descs, k), blk, Addrs(k, free[k]));
        if found { return false; }
        ram.Append(Head(descs, k), Tail(descs, k), blk, Addrs(k, free[k]));
        AppendStep(w, ram.words, descs, |pages.vmap|, arenas, free, k, b);
        KeptTrans(arenas, all, w1, w, ram.words);
        free := free[k := free[k] + [b]];
        assert Fresh(p, index) + [b] == Fresh(p, index + 1);
        index := index + 1;
      }
      return true;
    }

    /** sys_malloc. It returns NULL for a size of 0 or of the pool or more, and when the needed pages do not
        exist in a row; it halts in malloc_page's and bitmap_scan's ASSERTs; otherwise it returns a block that
        is large enough, all zero, and was not live, and no live block changes. */
    method SysMalloc(size: nat, ghost base: Paging) returns (r: MallocResult, ghost b: Block)
      requires Valid(base)
      modifies this, ram, pages
      ensures |old(free)| == KINDS
      ensures size > 1024 ==> forall n: nat :: 4096 * n - 4096 < size + 12 <= 4096 * n ==>
                && (r.Null? <==> size >= poolSize || NoRun(old(pages.vmap), n))
                && (r.Halts? <==> size < poolSize && Halting(old(pages.View()), n))
                && (r.Ptr? ==> b.index == 0 && Scan(old(pages.vmap), n) == Found(b.page) && free == old(free))
      ensures size <= 1024 ==>
                var k := KindFor(size);
                && (r.Null? <==> !(0 < size < poolSize) || (old(free)[k] == [] && NoRun(old(pages.vmap), 1)))
                && (r.Halts? <==> 0 < size < poolSize && old(free)[k] == [] && Halting(old(pages.View()), 1))
                && (r.Ptr? && old(free)[k] != [] ==> b == old(free)[k][0] && free == old(free)[k := old(free)[k][1..]])
                && (r.Ptr? && old(free)[k] == [] ==>
                      && b.index == 0 && Scan(old(pages.vmap), 1) == Found(b.page)
                      && |free| == KINDS && |free[k]| == PerArena(k) - 1
                      && forall i :: 0 <= i < |free[k]| ==> free[k][i] == Block(b.page, i + 1))
      ensures r.Ptr? ==>
                && ValidBlock(arenas, b)
                && var c := Capacity(arenas, b);
                && size <= c && r.address == 0xc010_0000 + 4096 * b.page + 12 + b.index * c
                && (size > 1024 ==> c < size + 4096)
                && (size <= 1024 ==> c in [16, 32, 64, 128, 256, 512, 1024] && (c == 16 || c < 2 * size))
      ensures r.Null? ==> View() == old(View()) && ram.words == old(ram.words) && Valid(base)
      ensures r.Ptr? ==>
                && Valid(base) && Malloc(old(View()), View(), size, b) && Gains(old(View()), View(), b)
                && ValidBlock(arenas, b) && r.address == AddrOf(arenas, b) && size <= Capacity(arenas, b)
                && Zeroed(ram.words, arenas, b)
                && Kept(old(arenas), old(free), old(ram.words), ram.words)
      ensures r.Ptr? ==> HeapRuns.Step(old(Snapshot()), HeapRuns.DoMalloc(size, b, r.address), Snapshot(), descs)
    {
      hide Coherent, PageInv, BlocksOk, Kept, PagesTaken, Scan, Live, InBlock, Malloc;
      b := Block(0, 0);
      CoherentParts(ram.words, descs, |pages.vmap|, arenas, free);
      if !(size > 0 && size < poolSize) { return Null, b; }
      UnmarkedAll(base, pages.View(), arenas);
      if size > 1024 {
        var pageCnt := (size + 12 + 4096 - 1) / 4096;
        var got := pages.MallocPage(pageCnt);
        match got
        case PagesHalted => return Halts, b;
        case NoPages => return Null, b;
        case Pages(p) =>
          b := Block(p, 0);
          RunFree(base, old(View()), pages.View(), p, pageCnt);
          NewLarge(p, pageCnt);
          KeptIfSame(old(arenas), old(free), old(ram.words), ram.words);
          IsMallocLarge(old(View()), View(), size, b);
          HeapRuns.MallocSize(old(View()), View(), size, b);
          MallocKeeps(base, old(View()), View(), size, b);
          return Ptr(PageAddr(p) + 12), b;
      } else {
        var index := KindIndex(size);
        r, b := SmallBlock(size, index, base);
        if r.Ptr? {
          HeapRuns.MallocSize(old(View()), View(), size, b);
          HeapRuns.MallocOrder(old(View()), View(), size, b, index);
        }
      }
    }

    /** The least kind whose descriptor says its blocks are large enough. */
    method KindIndex(size: nat) returns (index: nat)
      requires Linking() && size <= 1024
      ensures index == KindFor(size)
    {
      hide Coherent;
      index := 0;
      CoherentList(ram.words, descs, |pages.vmap|, arenas, free, index);
      while index < KINDS && size > At(ram.words, DescAddr(descs, index))
        invariant index <= KINDS && forall j :: 0 <= j < index ==> BlockSize(j) < size
        invariant index < KINDS ==> At(ram.words, DescAddr(descs, index)) == BlockSize(index)
      {
        index := index + 1;
        if index < KINDS { CoherentList(ram.words, descs, |pages.vmap|, arenas, free, index); }
      }
      KindIs(size, index);
    }

    /** The branch for small requests. */
    method SmallBlock(size: nat, k: nat, ghost base: Paging) returns (r: MallocResult, ghost b: Block)
      requires Valid(base) && size <= 1024 && k == KindFor(size)
      modifies this, ram, pages
      ensures |old(free)| == KINDS
      ensures r.Null? <==> NoRun(old(pages.vmap), Need(old(free), size))
      ensures r.Halts? <==> Halting(old(pages.View()), Need(old(free), size))
      ensures r.Ptr? && Need(old(free), size) > 0 ==> Scan(old(pages.vmap), Need(old(free), size)) == Found(b.page)
      ensures r.Null? ==> View() == old(View()) && ram.words == old(ram.words) && Valid(base)
      ensures r.Ptr? ==>
                && Valid(base) && Malloc(old(View()), View(), size, b) && Gains(old(View()), View(), b)
                && ValidBlock(arenas, b) && r.address == AddrOf(arenas, b) && size <= Capacity(arenas, b)
                && Zeroed(ram.words, arenas, b)
                && Kept(old(arenas), old(free), old(ram.words), ram.words)
    {
      hide Coherent, PageInv, BlocksOk, Kept, PagesTaken, Scan, Live, InBlock, Malloc, IsList, Fresh, KindFor, Gains,
           FreeCount, Addrs;
      b := Block(0, 0);
      CoherentList(ram.words, descs, |pages.vmap|, arenas, free, k);
      ghost var h := View();
      ghost var w := ram.words;
      var empty := ram.Empty(Head(descs, k), Tail(descs, k), Addrs(k, free[k]));
      NoAddrs(k, free[k]);
      if empty {
        UnmarkedAll(base, pages.View(), arenas);
        var got := pages.MallocPage(1);
        match got {
          case PagesHalted => return Halts, b;
          case NoPages => return Null, b;
          case Pages(p) =>
            RunFree(base, h, pages.View(), p, 1);
            var ok := NewSmall(p, k);
            FrontOfFresh(arenas, free, p, k);
        }
      } else {
        OldKeepsBlocks(arenas, free, k);
      }
      ghost var arenas1, free1, w1 := arenas, free, ram.words;
      var ptr;
      ptr, b := PopBlock(k);
      if empty { KeptNew(h.arenas, h.free, b.page, k, w1, ram.words); } else { KeptRefl(h.arenas, h.free, w); }
      KeptTrans(h.arenas, h.free, w, w1, ram.words);
      IsMallocSmall(h, arenas1, free1, View(), size, b);
      MallocKeeps(base, h, View(), size, b);
      r := Ptr(ptr);
      CapacityFits(arenas, size, b);
    }

    /** sys_free on a live block: none of the ASSERTs on the way fails, the block and no other stops being
        live, and the blocks that stay live keep their contents. */
    method SysFree(ptr: nat, ghost b: Block, ghost base: Paging) returns (ok: bool)
      requires Valid(base) && Live(arenas, free, b) && ValidBlock(arenas, b) && ptr == AddrOf(arenas, b)
      modifies this, ram, pages
      ensures ok && Valid(base) && Free(old(View()), View(), b) && Loses(old(View()), View(), b)
      ensures old(arenas)[b.page].Large? ==> b.page !in arenas && free == old(free)
      ensures old(arenas)[b.page].Small? ==>
                && |old(free)| == |free| == KINDS && old(arenas)[b.page].kind < KINDS
                && var k := old(arenas)[b.page].kind;
                && (forall j :: 0 <= j < KINDS && j != k ==> free[j] == old(free)[j])
                && (b.page in arenas ==> free[k] == old(free)[k] + [b])
                && (b.page !in arenas ==> free[k] == WithoutPage(old(free)[k], b.page))
                && (b.page !in arenas <==> old(arenas)[b.page].cnt + 1 == PerArena(k))
      ensures Kept(arenas, free, old(ram.words), ram.words)
      ensures HeapRuns.Step(old(Snapshot()), HeapRuns.DoFree(b), Snapshot(), descs)
    {
      hide Coherent, PageInv, BlocksOk, Kept, PagesGiven, InBlock, Live, WithoutPage, FreeBlock, FreeArena, AddrOf;
      ghost var p := b.page;
      ghost var w := ram.words;
      CoherentHeader(w, descs, |pages.vmap|, arenas, free, p);
      CoherentParts(w, descs, |pages.vmap|, arenas, free);
      Block2Arena(arenas, b);
      ArenaMapped(base, pages.View(), arenas, p);
      if ptr == 0 || ptr < HEAP_START { return false; }
      var a := ptr - ptr % 4096;
      if !(At(ram.words, a + 8) == 1 || At(ram.words, a + 8) == 0) { return false; }
      if At(ram.words, a) == 0 && At(ram.words, a + 8) == 1 {
        ok := pages.MfreePage((a - HEAP_START) / 4096, At(ram.words, a + 4));
        ForgetArena(w, descs, |pages.vmap|, arenas, free, p);
        arenas := arenas - {p};
        KeptRefl(arenas, free, w);
        assert FreeLarge(old(View()), View(), b);
        FreeKeeps(base, old(View()), View(), b);
      } else {
        ok := FreeSmall(ptr, b, base);
        HeapRuns.FreeOrder(old(View()), View(), b);
      }
    }

    /** The other branch: a block of a small arena. */
    method FreeSmall(ptr: nat, ghost b: Block, ghost base: Paging) returns (ok: bool)
      requires Valid(base) && Live(arenas, free, b) && ValidBlock(arenas, b) && ptr == AddrOf(arenas, b)
      requires arenas[b.page].Small?
      modifies this, ram, pages
      ensures ok && Valid(base) && Free(old(View()), View(), b) && Loses(old(View()), View(), b)
      ensures Kept(arenas, free, old(ram.words), ram.words)
    {
      hide Coherent, PageInv, BlocksOk, Kept, PagesGiven, InBlock, WithoutPage, FreeLarge, OnListOf, Loses, NoneFull,
           Addrs;
      hide AddrOf, BlockAddr, DescAddr, BlockSize, PerArena, FreeBlock, FreeArena;
      ghost var p, k := b.page, arenas[b.page].kind;
      ghost var h, w := View(), ram.words;
      CoherentParts(w, descs, |pages.vmap|, arenas, free);
      Block2Arena(arenas, b);
      FreeKeepsBlocks(arenas, free, b);
      hide Live;
      PushBlock(ptr, b, k);
      ghost var h1, w1 := View(), ram.words;
      OnItself(free, k);
      CoherentHeader(w1, descs, |pages.vmap|, arenas, free, p);
      CoherentList(w1, descs, |pages.vmap|, arenas, free, k);
      var a := ptr - ptr % 4096;
      if At(ram.words, a + 4) == At(ram.words, At(ram.words, a) + 4) {
        AllListed(arenas, free, p);
        ok := Dissolve(a, p, k);
        KeptTrans(h1.arenas, h1.free, w, w1, ram.words);
        ArenaMapped(base, h.pg, h.arenas, p);
        ok := pages.MfreePage((a - HEAP_START) / 4096, 1);
        ForgetArena(ram.words, descs, |pages.vmap|, arenas, free, p);
        arenas := arenas - {p};
        IsFreeArena(h, h1, View(), b);
        KeptGone(h1.arenas, h1.free, p, w, ram.words);
      } else {
        AllListed(h1.arenas, h1.free, p);
        IsFreeBlock(h, View(), b);
        ok := true;
      }
      FreeKeeps(base, h, View(), b);
    }

    /** Put b back on list k and count it. */
    method PushBlock(ptr: nat, ghost b: Block, ghost k: nat)
      requires Linking() && k < KINDS && |free| == KINDS && BlockOf(arenas, k, b) && b !in free[k]
      requires ptr == AddrOf(arenas, b)
      modifies ram, this`arenas, this`free
      ensures Linking() && free == old(free)[k := old(free)[k] + [b]]
      ensures b.page in old(arenas) && old(arenas)[b.page].Small?
      ensures arenas == old(arenas)[b.page := Small(k, old(arenas)[b.page].cnt + 1)]
      ensures forall f :: OnListOf(f, k, free[k]) ==> Kept(arenas, f, old(ram.words), ram.words)
    {
      hide Coherent, IsList, Kept, Nodes, Same, At, Addrs, Live, Clear, InBlock, OnListOf;
      ghost var w := ram.words;
      CoherentHeader(w, descs, |pages.vmap|, arenas, free, b.page);
      CoherentList(w, descs, |pages.vmap|, arenas, free, k);
      Block2Arena(arenas, b);
      NotListed(w, descs, |pages.vmap|, arenas, free, k, b);
      var a := ptr - ptr % 4096;
      ram.Append(At(ram.words, a) + 8, At(ram.words, a) + 16, ptr, Addrs(k, free[k]));
      ghost var w1 := ram.words;
      AppendStep(w, w1, descs, |pages.vmap|, arenas, free, k, b);
      free := free[k := free[k] + [b]];
      CoherentHeader(w1, descs, |pages.vmap|, arenas, free, b.page);
      var cnt := At(ram.words, a + 4);
      ram.Write(a + 4, cnt + 1);
      CountStep(w1, ram.words, descs, |pages.vmap|, arenas, free, b.page, cnt + 1);
      forall f | OnListOf(f, k, free[k]) ensures Kept(arenas[b.page := Small(k, cnt + 1)], f, w, ram.words) {
        KeptIfSame(arenas, f, w1, ram.words);
        KeptTrans(arenas, f, w, w1, ram.words);
        KeptRecount(arenas[b.page := Small(k, cnt + 1)], arenas, f, w, ram.words);
      }
      arenas := arenas[b.page := Small(k, cnt + 1)];
    }

    /** Take all blocks of a wholly free arena off their list. */
    method Dissolve(a: nat, ghost p: nat, ghost k: nat) returns (ok: bool)
      requires Linking() && k < KINDS && |free| == KINDS && a == PageAddr(p)
      requires p in arenas && arenas[p] == Small(k, PerArena(k))
      requires forall i :: 0 <= i < PerArena(k) ==> Block(p, i) in free[k]
      modifies ram, this`free
      ensures ok && Linking() && free == old(free)[k := WithoutPage(old(free)[k], p)]
      ensures forall f :: OnListOf(f, k, old(free)[k]) ==> Kept(arenas, f, old(ram.words), ram.words)
    {
      hide Coherent, IsList, Kept, Nodes, Same, At, Addrs, Live, Clear, InBlock, OnListOf, Dropped, RemoveAt, Above,
           WithoutPage;
      ghost var s := free[k];
      CoherentNoDup(ram.words, descs, |pages.vmap|, arenas, free, k, p);
      AboveNone(s, p);
      forall f ensures Kept(arenas, f, ram.words, ram.words) { KeptRefl(arenas, f, ram.words); }
      var index := 0;
      CoherentHeader(ram.words, descs, |pages.vmap|, arenas, free, p);
      CoherentList(ram.words, descs, |pages.vmap|, arenas, free, k);
      while index < At(ram.words, At(ram.words, a) + 4)
        invariant index <= PerArena(k) == At(ram.words, At(ram.words, a) + 4)
        invariant At(ram.words, a) == DescAddr(descs, k) && At(ram.words, DescAddr(descs, k)) == BlockSize(k)
        invariant Linking() && free == old(free)[k := Above(s, p, index)]
        invariant forall f :: OnListOf(f, k, s) ==> Kept(arenas, f, old(ram.words), ram.words)
        decreases PerArena(k) - index
      {
        ghost var w := ram.words;
        var found := DropBlock(a, p, k, index, s);
        if !found { return false; }
        CoherentHeader(ram.words, descs, |pages.vmap|, arenas, free, p);
        CoherentList(ram.words, descs, |pages.vmap|, arenas, free, k);
        forall f | OnListOf(f, k, s) ensures Kept(arenas, f, old(ram.words), ram.words) {
          KeptTrans(arenas, f, old(ram.words), w, ram.words);
        }
        index := index + 1;
      }
      AboveAll(s, p, PerArena(k));
      return true;
    }

    /** One turn of that loop. */
    method DropBlock(a: nat, ghost p: nat, ghost k: nat, index: nat, ghost s: seq<Block>) returns (found: bool)
      requires Linking() && k < KINDS && |free| == KINDS && a == PageAddr(p)
      requires At(ram.words, a) == DescAddr(descs, k) && At(ram.words, DescAddr(descs, k)) == BlockSize(k)
      requires NoDup(s) && Block(p, index) in s && free[k] == Above(s, p, index)
      modifies ram, this`free
      ensures found && Linking() && free == old(free)[k := Above(s, p, index + 1)]
      ensures forall f :: OnListOf(f, k, s) ==> Kept(arenas, f, old(ram.words), ram.words)
    {
      hide Coherent, IsList, Kept, Nodes, Same, At, Addrs, Live, InBlock, Dropped, RemoveAt, Above;
      ghost var w := ram.words;
      ghost var i := AboveStep(s, p, index);
      AddrsAt(k, free[k], i);
      CoherentList(w, descs, |pages.vmap|, arenas, free, k);
      var desc := At(ram.words, a);
      var blk := a + 12 + index * At(ram.words, desc);
      assert blk == BlockAddr(k, Block(p, index));
      found := ram.ElemFind(desc + 8, desc + 16, blk, Addrs(k, free[k]));
      if !found { return; }
      ram.Remove(blk, desc + 8, desc + 16, Addrs(k, free[k]), i);
      CoherentAbove(w, descs, |pages.vmap|, arenas, free, k, p, index, s, i);
      RemoveStep(w, ram.words, descs, |pages.vmap|, arenas, free, k, i);
      forall f | OnListOf(f, k, s) ensures Kept(arenas, f, w, ram.words) {
        assert OnListOf(f, k, free[k]);
      }
      free := free[k := Dropped(free[k], i)];
    }
  }
}
