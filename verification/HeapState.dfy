/** The kernel heap of kernel/memory.c: page bitmaps and page table, arenas, free lists.

    Pages are numbered from K_HEAP_START and frames from the start of the kernel pool. A block of a small
    arena is named by its arena's page and its index; the one block of a large arena has index 0. */
module HeapState {
  import opened Bits

  const KINDS: nat := 7

  function BlockSize(kind: nat): (s: nat)
    requires kind < KINDS
    ensures 16 <= s <= 1024
  {
    [16, 32, 64, 128, 256, 512, 1024][kind]
  }

  /** How many blocks follow the 12-byte header in a page. */
  function PerArena(kind: nat): (n: nat)
    requires kind < KINDS
    ensures 3 <= n <= 255
  {
    (4096 - 12) / BlockSize(kind)
  }

  /** The least kind whose blocks hold `size` bytes. */
  function KindFor(size: nat): (k: nat)
    requires size <= 1024
    ensures k < KINDS && size <= BlockSize(k)
    ensures forall j :: 0 <= j < k ==> BlockSize(j) < size
  {
    if size <= 16 then 0 else if size <= 32 then 1 else if size <= 64 then 2 else if size <= 128 then 3
    else if size <= 256 then 4 else if size <= 512 then 5 else 6
  }

  /** The sizes double. */
  lemma BlockSizes()
    ensures BlockSize(0) == 16 && BlockSize(KINDS - 1) == 1024
    ensures forall k :: 0 < k < KINDS ==> BlockSize(k) == 2 * BlockSize(k - 1)
  {
  }

  /** As many blocks as fit follow the header. */
  lemma ArenaFilled(kind: nat)
    requires kind < KINDS
    ensures 12 + PerArena(kind) * BlockSize(kind) <= 4096 < 12 + (PerArena(kind) + 1) * BlockSize(kind)
  {
  }

  /** The pages that hold the header and `size` bytes. */
  function PagesFor(size: nat): (n: nat)
    ensures 4096 * n - 4096 < size + 12 <= 4096 * n
  {
    (size + 12 + 4095) / 4096
  }

  datatype Arena = Small(kind: nat, cnt: nat) | Large(pages: nat)

  datatype Block = Block(page: nat, index: nat)

  /** pool: the bitmap of frames. vmap: the bitmap of pages, with the one bit behind it that bitmap_scan
      also reads. pt: the frame of every mapped page. */
  datatype Paging = Paging(pool: seq<bool>, vmap: seq<bool>, pt: map<nat, nat>)

  datatype Heap = Heap(pg: Paging, arenas: map<nat, Arena>, free: seq<seq<Block>>)

  function Len(a: Arena): nat {
    if a.Small? then 1 else a.pages
  }

  // ----- pages -----

  predicate Covers(arenas: map<nat, Arena>, p: nat, i: nat) {
    p in arenas && p <= i < p + Len(arenas[p])
  }

  ghost predicate Covered(arenas: map<nat, Arena>, i: nat) {
    exists p :: Covers(arenas, p, i)
  }

  /** Runs of pages lie inside the map and do not overlap. */
  ghost predicate RunsOk(arenas: map<nat, Arena>, size: nat) {
    && (forall p :: p in arenas ==> 0 < Len(arenas[p]) && p + Len(arenas[p]) <= size)
    && (forall p, q, i :: Covers(arenas, p, i) && Covers(arenas, q, i) ==> p == q)
  }

  ghost predicate Injective(pt: map<nat, nat>) {
    forall i, j :: i in pt && j in pt && i != j ==> pt[i] != pt[j]
  }

  ghost predicate Backed(pt: map<nat, nat>, f: nat) {
    exists i :: i in pt && pt[i] == f
  }

  /** Pages and frames at the moment the heap is empty: others may hold some of both. */
  ghost predicate BaseOk(pg: Paging) {
    && |pg.vmap| == |pg.pool| + 1
    && Injective(pg.pt)
    && (forall i :: i in pg.pt ==> i < |pg.vmap| && pg.vmap[i] && pg.pt[i] < |pg.pool| && pg.pool[pg.pt[i]])
    && (forall i :: 0 <= i < |pg.pool| && pg.vmap[i] ==> i in pg.pt)
  }

  /** A page is marked iff it was so from the start or belongs to an arena. */
  ghost predicate MarksOk(base: Paging, pg: Paging, arenas: map<nat, Arena>) {
    && |pg.vmap| == |base.vmap|
    && (forall i :: 0 <= i < |pg.vmap| ==> (pg.vmap[i] <==> base.vmap[i] || Covered(arenas, i)))
    && (forall i :: 0 <= i < |pg.vmap| && base.vmap[i] ==> !Covered(arenas, i))
  }

  /** ... and so for the page table. */
  ghost predicate MapOk(base: Paging, pg: Paging, arenas: map<nat, Arena>) {
    && (forall i :: i in pg.pt <==> i in base.pt || Covered(arenas, i))
    && (forall i :: i in base.pt ==> i in pg.pt && pg.pt[i] == base.pt[i])
  }

  /** Every mapped page has a frame of its own, and these, with the frames used from the start, are the
      frames marked used. */
  ghost predicate FramesOk(base: Paging, pg: Paging) {
    && |pg.pool| == |base.pool|
    && Injective(pg.pt)
    && (forall i :: i in pg.pt ==> pg.pt[i] < |pg.pool| && pg.pool[pg.pt[i]])
    && (forall f :: 0 <= f < |pg.pool| ==> (pg.pool[f] <==> base.pool[f] || Backed(pg.pt, f)))
    && (forall i :: i in pg.pt && i !in base.pt ==> !base.pool[pg.pt[i]])
  }

  /** Pages, page table and frames, compared with what they were when the heap was empty. */
  ghost predicate PageInv(base: Paging, pg: Paging, arenas: map<nat, Arena>) {
    && BaseOk(base) && RunsOk(arenas, |pg.vmap|)
    && MarksOk(base, pg, arenas) && MapOk(base, pg, arenas) && FramesOk(base, pg)
  }

  predicate InRun(p: nat, n: nat, i: int) {
    p <= i < p + n
  }

  /** Some page of the run is mapped to frame f. */
  ghost predicate RunFrame(pt: map<nat, nat>, p: nat, n: nat, f: nat) {
    exists i :: InRun(p, n, i) && i in pt && pt[i] == f
  }

  /** The n pages from p on were mapped to different frames that are free in `pool`. */
  ghost predicate RunMapped(pool: seq<bool>, pt: map<nat, nat>, pt': map<nat, nat>, p: nat, n: nat) {
    && (forall i :: i in pt' <==> i in pt || InRun(p, n, i))
    && (forall i :: i in pt && !InRun(p, n, i) ==> pt'[i] == pt[i])
    && (forall i :: InRun(p, n, i) ==> pt'[i] < |pool| && !pool[pt'[i]])
    && (forall i, j :: InRun(p, n, i) && InRun(p, n, j) && i != j ==> pt'[i] != pt'[j])
  }

  /** ... and these frames were marked. */
  ghost predicate RunMarked(pool: seq<bool>, pool': seq<bool>, pt': map<nat, nat>, p: nat, n: nat) {
    && |pool'| == |pool| && FreeCount(pool) == FreeCount(pool') + n
    && (forall f :: 0 <= f < |pool| ==> (pool'[f] <==> pool[f] || RunFrame(pt', p, n, f)))
  }

  ghost predicate FramesTaken(pool: seq<bool>, pt: map<nat, nat>, pool': seq<bool>, pt': map<nat, nat>, p: nat,
                              n: nat) {
    RunMapped(pool, pt, pt', p, n) && RunMarked(pool, pool', pt', p, n)
  }

  /** n free pages from p on were marked and mapped to free frames; nothing else changed. */
  ghost predicate PagesTaken(pg: Paging, pg': Paging, p: nat, n: nat) {
    && 0 < n && p + n <= |pg.vmap| && |pg'.vmap| == |pg.vmap|
    && (forall i: nat :: InRun(p, n, i) ==> !pg.vmap[i])
    && (forall i :: 0 <= i < |pg.vmap| ==> (pg'.vmap[i] <==> pg.vmap[i] || InRun(p, n, i)))
    && FramesTaken(pg.pool, pg.pt, pg'.pool, pg'.pt, p, n)
  }

  ghost predicate FramesGiven(pool: seq<bool>, pt: map<nat, nat>, pool': seq<bool>, pt': map<nat, nat>, p: nat,
                              n: nat) {
    && |pool'| == |pool|
    && (forall i :: InRun(p, n, i) ==> i in pt)
    && (forall i :: i in pt' <==> i in pt && !InRun(p, n, i))
    && (forall i :: i in pt' ==> pt'[i] == pt[i])
    && (forall f :: 0 <= f < |pool| ==> (pool'[f] <==> pool[f] && !RunFrame(pt, p, n, f)))
  }

  /** n mapped pages from p on were unmapped and their frames given back; nothing else changed. */
  ghost predicate PagesGiven(pg: Paging, pg': Paging, p: nat, n: nat) {
    && p + n <= |pg.vmap| && |pg'.vmap| == |pg.vmap|
    && (forall i :: 0 <= i < |pg.vmap| ==> (pg'.vmap[i] <==> pg.vmap[i] && !InRun(p, n, i)))
    && FramesGiven(pg.pool, pg.pt, pg'.pool, pg'.pt, p, n)
  }

  lemma NoFrames(pool: seq<bool>, pt: map<nat, nat>, p: nat)
    ensures FramesTaken(pool, pt, pool, pt, p, 0)
  {
  }

  lemma RunFrameMore(pt: map<nat, nat>, p: nat, n: nat, f: nat, g: nat)
    ensures RunFrame(pt[p + n := f], p, n + 1, g) <==> RunFrame(pt, p, n, g) || g == f
  {
    var pt' := pt[p + n := f];
    if g == f { assert InRun(p, n + 1, p + n) && pt'[p + n] == g; }
    if RunFrame(pt, p, n, g) {
      var i :| InRun(p, n, i) && i in pt && pt[i] == g;
      assert InRun(p, n + 1, i) && pt'[i] == g;
    }
  }

  lemma TakeOneFrame(pool: seq<bool>, pt: map<nat, nat>, pool': seq<bool>, pt': map<nat, nat>, p: nat, n: nat, f: nat)
    requires FramesTaken(pool, pt, pool', pt', p, n)
    requires f < |pool| && !pool'[f] && p + n !in pt
    ensures FramesTaken(pool, pt, pool'[f := true], pt'[p + n := f], p, n + 1)
  {
    hide RunMapped, RunFrame;
    FreeCountSet(pool', f);
    forall g | 0 <= g < |pool| ensures RunFrame(pt'[p + n := f], p, n + 1, g) <==> RunFrame(pt', p, n, g) || g == f {
      RunFrameMore(pt', p, n, f, g);
    }
    MapOneFrame(pool, pt, pt', p, n, f);
  }

  lemma MapOneFrame(pool: seq<bool>, pt: map<nat, nat>, pt': map<nat, nat>, p: nat, n: nat, f: nat)
    requires RunMapped(pool, pt, pt', p, n)
    requires f < |pool| && !pool[f] && !RunFrame(pt', p, n, f) && p + n !in pt
    ensures RunMapped(pool, pt, pt'[p + n := f], p, n + 1)
  {
    forall i: int ensures InRun(p, n + 1, i) <==> InRun(p, n, i) || i == p + n {
    }
    forall i | InRun(p, n, i) ensures i != p + n && i in pt' && pt'[i] != f && !pool[pt'[i]] && pt'[i] < |pool| {
    }
    hide InRun, RunFrame;
  }

  lemma GiveOneFrame(pool: seq<bool>, pt: map<nat, nat>, pool': seq<bool>, pt': map<nat, nat>, p: nat, n: nat)
    requires FramesGiven(pool, pt, pool', pt', p, n)
    requires p + n in pt && pt[p + n] < |pool|
    ensures FramesGiven(pool, pt, pool'[pt[p + n] := false], pt' - {p + n}, p, n + 1)
  {
    var f := pt[p + n];
    forall i ensures InRun(p, n + 1, i) <==> InRun(p, n, i) || i == p + n {
    }
    forall g | 0 <= g < |pool| ensures RunFrame(pt, p, n + 1, g) <==> RunFrame(pt, p, n, g) || g == f {
      if g == f { assert InRun(p, n + 1, p + n) && pt[p + n] == g; }
      if RunFrame(pt, p, n, g) {
        var i :| InRun(p, n, i) && i in pt && pt[i] == g;
        assert InRun(p, n + 1, i);
      }
    }
  }

  lemma CoverAdd(arenas: map<nat, Arena>, p: nat, a: Arena, i: nat)
    requires p !in arenas
    ensures Covered(arenas[p := a], i) <==> Covered(arenas, i) || InRun(p, Len(a), i)
  {
    var more := arenas[p := a];
    if Covered(arenas, i) {
      var q :| Covers(arenas, q, i);
      assert Covers(more, q, i);
    }
    if InRun(p, Len(a), i) { assert Covers(more, p, i); }
    if Covered(more, i) {
      var q :| Covers(more, q, i);
      if q != p { assert Covers(arenas, q, i); }
    }
  }

  lemma CoverRemove(arenas: map<nat, Arena>, size: nat, p: nat, i: nat)
    requires RunsOk(arenas, size) && p in arenas
    ensures Covered(arenas - {p}, i) <==> Covered(arenas, i) && !InRun(p, Len(arenas[p]), i)
  {
    var less := arenas - {p};
    if Covered(less, i) {
      var q :| Covers(less, q, i);
      assert Covers(arenas, q, i);
      assert InRun(p, Len(arenas[p]), i) ==> Covers(arenas, p, i);
    }
    if Covered(arenas, i) && !InRun(p, Len(arenas[p]), i) {
      var q :| Covers(arenas, q, i);
      assert Covers(less, q, i);
    }
  }

  lemma RunsAdd(arenas: map<nat, Arena>, size: nat, p: nat, a: Arena)
    requires RunsOk(arenas, size) && 0 < Len(a) && p + Len(a) <= size
    requires forall i :: InRun(p, Len(a), i) ==> !Covered(arenas, i)
    ensures p !in arenas && RunsOk(arenas[p := a], size)
  {
    assert InRun(p, Len(a), p);
    assert p in arenas ==> Covers(arenas, p, p);
    var more := arenas[p := a];
    forall q, r, i: nat | Covers(more, q, i) && Covers(more, r, i) ensures q == r {
      if q == p || r == p {
        assert InRun(p, Len(a), i);
        assert q != p ==> Covers(arenas, q, i);
        assert r != p ==> Covers(arenas, r, i);
      } else {
        assert Covers(arenas, q, i) && Covers(arenas, r, i);
      }
    }
  }

  lemma RunsRemove(arenas: map<nat, Arena>, size: nat, p: nat)
    requires RunsOk(arenas, size)
    ensures RunsOk(arenas - {p}, size)
  {
    var less := arenas - {p};
    forall q, r, i | Covers(less, q, i) && Covers(less, r, i) ensures q == r {
      assert Covers(arenas, q, i) && Covers(arenas, r, i);
    }
  }

  /** A page not marked is not mapped. */
  lemma UnmarkedUnmapped(base: Paging, pg: Paging, arenas: map<nat, Arena>, i: nat)
    requires PageInv(base, pg, arenas) && i < |pg.vmap| && !pg.vmap[i]
    ensures i !in pg.pt && !Covered(arenas, i)
  {
  }

  lemma TakenFrames(base: Paging, pg: Paging, pg': Paging, p: nat, n: nat)
    requires FramesOk(base, pg) && FramesTaken(pg.pool, pg.pt, pg'.pool, pg'.pt, p, n)
    requires forall i :: InRun(p, n, i) ==> i !in pg.pt
    ensures FramesOk(base, pg')
  {
    hide FreeCount;
    forall i | i in pg.pt ensures !InRun(p, n, i) && pg'.pt[i] == pg.pt[i] {
    }
    forall i | i in pg'.pt ensures pg'.pt[i] < |pg'.pool| && pg'.pool[pg'.pt[i]] {
      if InRun(p, n, i) { assert RunFrame(pg'.pt, p, n, pg'.pt[i]); }
    }
    forall f | 0 <= f < |pg.pool| ensures pg'.pool[f] <==> base.pool[f] || Backed(pg'.pt, f) {
      if Backed(pg.pt, f) {
        var i :| i in pg.pt && pg.pt[i] == f;
        assert i in pg'.pt;
      }
    }
  }

  lemma TakeKeepsPages(base: Paging, pg: Paging, pg': Paging, arenas: map<nat, Arena>, p: nat, a: Arena)
    requires PageInv(base, pg, arenas) && PagesTaken(pg, pg', p, Len(a))
    ensures p !in arenas && PageInv(base, pg', arenas[p := a])
  {
    hide Covered, Injective, RunFrame, BaseOk, FramesOk, FreeCount;
    forall i | InRun(p, Len(a), i) ensures i !in pg.pt && !Covered(arenas, i) {
      UnmarkedUnmapped(base, pg, arenas, i);
    }
    TakenFrames(base, pg, pg', p, Len(a));
    RunsAdd(arenas, |pg.vmap|, p, a);
    forall i: nat ensures Covered(arenas[p := a], i) <==> Covered(arenas, i) || InRun(p, Len(a), i) {
      CoverAdd(arenas, p, a, i);
    }
    hide RunsOk;
  }

  lemma GivenFrames(base: Paging, pg: Paging, pg': Paging, p: nat, n: nat)
    requires FramesOk(base, pg) && FramesGiven(pg.pool, pg.pt, pg'.pool, pg'.pt, p, n)
    requires forall i :: InRun(p, n, i) ==> i !in base.pt
    ensures FramesOk(base, pg')
  {
    forall f | 0 <= f < |pg.pool| ensures pg'.pool[f] <==> base.pool[f] || Backed(pg'.pt, f) {
      if RunFrame(pg.pt, p, n, f) {
        var i :| InRun(p, n, i) && i in pg.pt && pg.pt[i] == f;
        assert !base.pool[f];
        assert forall j :: j in pg'.pt ==> j != i && pg.pt[j] != f;
      } else if Backed(pg.pt, f) {
        var i :| i in pg.pt && pg.pt[i] == f;
        assert i in pg'.pt && pg'.pt[i] == f;
      }
    }
    forall i | i in pg'.pt ensures pg'.pool[pg'.pt[i]] {
      assert forall j :: InRun(p, n, j) ==> j in pg.pt && pg.pt[j] != pg.pt[i];
    }
  }

  lemma CoveredNotBase(base: Paging, pg: Paging, arenas: map<nat, Arena>, i: nat)
    requires PageInv(base, pg, arenas) && Covered(arenas, i)
    ensures i !in base.pt
  {
  }

  lemma GiveKeepsPages(base: Paging, pg: Paging, pg': Paging, arenas: map<nat, Arena>, p: nat)
    requires PageInv(base, pg, arenas) && p in arenas && PagesGiven(pg, pg', p, Len(arenas[p]))
    ensures PageInv(base, pg', arenas - {p})
  {
    var n := Len(arenas[p]);
    hide Injective, RunFrame, BaseOk, FramesOk, RunsOk, MarksOk, MapOk, Covered;
    forall i: nat | InRun(p, n, i) ensures Covered(arenas, i) && i !in base.pt {
      CoverOwn(arenas, p, i);
      CoveredNotBase(base, pg, arenas, i);
    }
    GivenFrames(base, pg, pg', p, n);
    RunsRemove(arenas, |pg.vmap|, p);
    forall i: nat ensures Covered(arenas - {p}, i) <==> Covered(arenas, i) && !InRun(p, n, i) {
      CoverRemove(arenas, |pg.vmap|, p, i);
    }
    GivenMarks(base, pg, pg', arenas, arenas - {p}, p, n);
    GivenMap(base, pg, pg', arenas, arenas - {p}, p, n);
  }

  lemma CoverOwn(arenas: map<nat, Arena>, p: nat, i: nat)
    requires p in arenas && InRun(p, Len(arenas[p]), i)
    ensures Covered(arenas, i)
  {
    assert Covers(arenas, p, i);
  }

  lemma GivenMarks(base: Paging, pg: Paging, pg': Paging, arenas: map<nat, Arena>, less: map<nat, Arena>, p: nat,
                   n: nat)
    requires MarksOk(base, pg, arenas) && PagesGiven(pg, pg', p, n)
    requires forall i: nat :: InRun(p, n, i) ==> Covered(arenas, i)
    requires forall i: nat :: Covered(less, i) <==> Covered(arenas, i) && !InRun(p, n, i)
    ensures MarksOk(base, pg', less)
  {
    hide Covered, FramesGiven;
  }

  lemma GivenMap(base: Paging, pg: Paging, pg': Paging, arenas: map<nat, Arena>, less: map<nat, Arena>, p: nat, n: nat)
    requires MapOk(base, pg, arenas) && PagesGiven(pg, pg', p, n)
    requires forall i: nat :: InRun(p, n, i) ==> i !in base.pt
    requires forall i: nat :: Covered(less, i) <==> Covered(arenas, i) && !InRun(p, n, i)
    ensures MapOk(base, pg', less)
  {
    hide Covered, RunFrame;
  }
}
