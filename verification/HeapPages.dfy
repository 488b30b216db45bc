/** The page half of kernel/memory.c for the kernel pool: bitmaps and page table changed in place. */
module HeapPages {
  import opened Bits
  import opened HeapState

  /** What malloc_page ends in: pages, NULL, or a halt of the kernel. */
  datatype PageResult = Pages(page: nat) | NoPages | PagesHalted

  /** There are no n free pages in a row. */
  predicate NoRun(vmap: seq<bool>, n: nat)
    requires 0 < |vmap|
  {
    0 < n < 3840 && Scan(vmap, n).NotFound?
  }

  /** Asking for n > 0 pages halts the kernel: too many, page map full, or frames running out. */
  predicate Halting(pg: Paging, n: nat)
    requires 0 < |pg.vmap|
  {
    && 0 < n
    && (n >= 3840 || Scan(pg.vmap, n).Full? || (Scan(pg.vmap, n).Found? && FreeCount(pg.pool) < n))
  }

  class Pool {
    var pool: seq<bool>
    var vmap: seq<bool>
    var pt: map<nat, nat>

    function View(): Paging
      reads this
    {
      Paging(pool, vmap, pt)
    }

    constructor (pg: Paging)
      ensures View() == pg
    {
      pool, vmap, pt := pg.pool, pg.vmap, pg.pt;
    }

    /** palloc: the least free frame. */
    method Palloc() returns (f: nat, halted: bool)
      modifies this`pool
      ensures halted <==> FreeCount(old(pool)) == 0
      ensures halted ==> pool == old(pool)
      ensures !halted ==> f < |old(pool)| && !old(pool)[f] && pool == old(pool)[f := true]
      ensures !halted ==> forall g :: 0 <= g < f ==> old(pool)[g]
    {
      f, halted, pool := TakeBit(pool);
    }

    /** vaddr_get: find n clear bits in a row and set them. */
    method VaddrGet(n: nat) returns (r: ScanResult)
      requires 0 < n && 0 < |vmap|
      modifies this`vmap
      ensures r == Scan(old(vmap), n)
      ensures |vmap| == |old(vmap)|
      ensures r.Found? ==> r.index + n <= |vmap| && forall i :: 0 <= i < |vmap| ==>
                (vmap[i] <==> old(vmap)[i] || InRun(r.index, n, i))
      ensures !r.Found? ==> vmap == old(vmap)
    {
      ScanFinds(vmap, n);
      r := Scan(vmap, n);
      if !r.Found? { return; }
      var cnt := 0;
      while cnt < n
        invariant cnt <= n && |vmap| == |old(vmap)|
        invariant forall i :: 0 <= i < |vmap| ==> (vmap[i] <==> old(vmap)[i] || InRun(r.index, cnt, i))
      {
        vmap := vmap[r.index + cnt := true];
        cnt := cnt + 1;
      }
    }

    /** page_table_add, whose page tables all exist: false where its ASSERT fails. */
    method PageTableAdd(page: nat, frame: nat) returns (ok: bool)
      modifies this`pt
      ensures ok <==> page !in old(pt)
      ensures pt == if ok then old(pt)[page := frame] else old(pt)
    {
      if page in pt { return false; }
      pt := pt[page := frame];
      return true;
    }

    /** One turn of malloc_page's loop. */
    method MapNext(page: nat, ghost pool0: seq<bool>, ghost pt0: map<nat, nat>, ghost p: nat, ghost cnt: nat)
      returns (ok: bool)
      requires FramesTaken(pool0, pt0, pool, pt, p, cnt) && page == p + cnt && page !in pt0
      modifies this`pool, this`pt
      ensures ok <==> FreeCount(pool0) > cnt
      ensures ok ==> FramesTaken(pool0, pt0, pool, pt, p, cnt + 1)
      ensures ok ==> page !in old(pt) && page in pt && pt == old(pt)[page := pt[page]]
      ensures ok ==> pt[page] < |old(pool)| && !old(pool)[pt[page]] && pool == old(pool)[pt[page] := true]
    {
      hide RunFrame;
      ghost var pool1, pt1 := pool, pt;
      assert page !in pt by { assert !InRun(p, cnt, page); }
      var f, halted := Palloc();
      if halted { return false; }
      ok := PageTableAdd(page, f);
      if !ok { return false; }
      hide FramesTaken;
      TakeOneFrame(pool0, pt0, pool1, pt1, p, cnt, f);
    }

    /** malloc_page. Whether it halts can be told beforehand. */
    method MallocPage(n: nat) returns (r: PageResult)
      requires 0 < |vmap| && forall i :: 0 <= i < |vmap| && !vmap[i] ==> i !in pt
      modifies this
      ensures r.PagesHalted? <==> n == 0 || Halting(old(View()), n)
      ensures r.NoPages? <==> NoRun(old(vmap), n)
      ensures r.PagesHalted? <==>
                || n == 0 || n >= 3840 || Scan(old(vmap), n).Full?
                || (Scan(old(vmap), n).Found? && FreeCount(old(pool)) < n)
      ensures r.NoPages? <==> 0 < n < 3840 && Scan(old(vmap), n).NotFound?
      ensures r.NoPages? ==> View() == old(View())
      ensures r.Pages? ==> Scan(old(vmap), n) == Found(r.page) && PagesTaken(old(View()), View(), r.page, n)
    {
      hide Scan, FramesTaken, FreeCount;
      if n == 0 || n >= 3840 { return PagesHalted; }
      ScanFinds(vmap, n);
      var start := VaddrGet(n);
      if start.Full? { return PagesHalted; }
      if start.NotFound? { return NoPages; }
      var p := start.index;
      ghost var marked := vmap;
      assert forall i: nat :: InRun(p, n, i) ==> !old(vmap)[i] && i !in pt;
      assert FramesTaken(pool, pt, pool, pt, p, 0) by { NoFrames(pool, pt, p); }
      var cnt := 0;
      while cnt < n
        invariant cnt <= n && vmap == marked && FramesTaken(old(pool), old(pt), pool, pt, p, cnt)
        invariant cnt <= FreeCount(old(pool))
      {
        assert InRun(p, n, p + cnt);
        var ok := MapNext(p + cnt, old(pool), old(pt), p, cnt);
        if !ok { return PagesHalted; }
        cnt := cnt + 1;
      }
      return Pages(p);
    }

    method Pfree(frame: nat)
      requires frame < |pool|
      modifies this`pool
      ensures pool == old(pool)[frame := false]
    {
      pool := pool[frame := false];
    }

    method PteRemove(page: nat)
      modifies this`pt
      ensures pt == old(pt) - {page}
    {
      pt := pt - {page};
    }

    method VaddrRemove(p: nat, n: nat)
      requires p + n <= |vmap|
      modifies this`vmap
      ensures |vmap| == |old(vmap)|
      ensures forall i :: 0 <= i < |vmap| ==> (vmap[i] <==> old(vmap)[i] && !InRun(p, n, i))
    {
      var count := 0;
      while count < n
        invariant count <= n && |vmap| == |old(vmap)|
        invariant forall i :: 0 <= i < |vmap| ==> (vmap[i] <==> old(vmap)[i] && !InRun(p, count, i))
      {
        vmap := vmap[p + count := false];
        count := count + 1;
      }
    }

    /** mfree_page. Its ASSERTs say that each page is mapped to a frame of the kernel pool; the result is
        false where one fails. */
    method MfreePage(p: nat, n: nat) returns (ok: bool)
      requires p + n <= |vmap|
      modifies this
      ensures ok <==> n > 0 && forall i :: InRun(p, n, i) ==> i in old(pt) && old(pt)[i] < |old(pool)|
      ensures ok ==> PagesGiven(old(View()), View(), p, n)
      ensures |vmap| == |old(vmap)|
    {
      if n == 0 { return false; }
      var count := 0;
      assert FramesGiven(pool, pt, pool, pt, p, 0);
      while count < n
        invariant count <= n && vmap == old(vmap) && FramesGiven(old(pool), old(pt), pool, pt, p, count)
        invariant forall i :: InRun(p, count, i) ==> i in old(pt) && old(pt)[i] < |old(pool)|
      {
        hide RunFrame;
        assert InRun(p, n, p + count) && !InRun(p, count, p + count);
        if !(p + count in pt && pt[p + count] < |pool|) { return false; }
        GiveOneFrame(old(pool), old(pt), pool, pt, p, count);
        Pfree(pt[p + count]);
        PteRemove(p + count);
        count := count + 1;
      }
      VaddrRemove(p, n);
      return true;
    }
  }
}
