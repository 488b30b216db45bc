/** What each kind of write does to the heap as it lies in memory: unlinking, linking, clearing, counting,
    turning pages into an arena and dissolving one. */
module HeapUpdates {
  import opened Seqs
  import opened Bits
  import opened Lists
  import opened HeapState
  import opened HeapSteps
  import opened HeapMemory
  import opened HeapLinks

  /** Every word of block b is zero. */
  ghost predicate Zeroed(w: Words, arenas: map<nat, Arena>, b: Block) {
    forall a :: InBlock(arenas, b, a) && a % 4 == 0 ==> At(w, a) == 0
  }

  /** No block, in use or free, changed. */
  ghost predicate BlocksSame(arenas: map<nat, Arena>, w: Words, w': Words) {
    forall b, a :: InBlock(arenas, b, a) ==> At(w', a) == At(w, a)
  }

  /** How many new pages a request needs. */
  ghost function Need(free: seq<seq<Block>>, size: nat): nat
    requires |free| == KINDS
  {
    if size > 1024 then PagesFor(size) else if free[KindFor(size)] == [] then 1 else 0
  }

  /** Memory and bookkeeping agree. */
  ghost predicate Coherent(w: Words, descs: nat, size: nat, arenas: map<nat, Arena>, free: seq<seq<Block>>) {
    Rep(w, descs, arenas, free) && RunsOk(arenas, size) && ListsOk(arenas, free)
  }

  lemma CoherentParts(w: Words, descs: nat, size: nat, arenas: map<nat, Arena>, free: seq<seq<Block>>)
    requires Coherent(w, descs, size, arenas, free)
    ensures |free| == KINDS && DescsFit(descs)
  {
  }

  lemma KeptRefl(arenas: map<nat, Arena>, free: seq<seq<Block>>, w: Words)
    ensures Kept(arenas, free, w, w)
  {
  }

  lemma KeptIfSame(arenas: map<nat, Arena>, free: seq<seq<Block>>, w: Words, w': Words)
    requires BlocksSame(arenas, w, w')
    ensures Kept(arenas, free, w, w')
  {
  }

  /** Counts do not matter for what a live block is. */
  lemma KeptRecount(arenas: map<nat, Arena>, arenas': map<nat, Arena>, free: seq<seq<Block>>, w: Words, w': Words)
    requires Kept(arenas', free, w, w')
    requires forall p :: p in arenas ==> p in arenas' && SameShape(arenas[p], arenas'[p])
    ensures Kept(arenas, free, w, w')
  {
    hide At;
    forall b, a | Live(arenas, free, b) && InBlock(arenas, b, a) ensures At(w', a) == At(w, a) {
      assert Live(arenas', free, b) && InBlock(arenas', b, a);
    }
  }

  predicate SameShape(a: Arena, a': Arena) {
    match a
    case Small(k, _) => a'.Small? && a'.kind == k
    case Large(n) => a' == a
  }

  /** The first element of list k was unlinked. */
  lemma PopStep(w: Words, w': Words, descs: nat, size: nat, arenas: map<nat, Arena>, free: seq<seq<Block>>, k: nat)
    requires Coherent(w, descs, size, arenas, free) && k < KINDS && |free| == KINDS && free[k] != []
    requires IsList(w', Head(descs, k), Tail(descs, k), Addrs(k, free[k])[1..])
    requires Same(w, w', {Head(descs, k) + 4, Nodes(Head(descs, k), Addrs(k, free[k]), Tail(descs, k))[2]})
    ensures Coherent(w', descs, size, arenas, free[k := free[k][1..]]) && Kept(arenas, free, w, w')
    ensures OffLists(free[k := free[k][1..]], free[k][0])
  {
    hide Rep, RunsOk, IsList, Kept, Live, Same, Addrs, ListsOk, OffLists;
    assert Dropped(free[k], 0) == free[k][1..] && RemoveAt(Addrs(k, free[k]), 0) == Addrs(k, free[k])[1..];
    assert Nodes(Head(descs, k), Addrs(k, free[k]), Tail(descs, k))[0] == Head(descs, k);
    RemoveRep(descs, arenas, size, free, w, w', k, 0);
    forall x | x in free[k] ensures !Live(arenas, free, x) { ListedNotLive(arenas, free, k, x); }
    RestLists(arenas, free, k);
  }

  /** A block on no list was written to. */
  lemma ClearStep(w: Words, w': Words, descs: nat, size: nat, arenas: map<nat, Arena>, free: seq<seq<Block>>, b: Block)
    requires Coherent(w, descs, size, arenas, free) && ValidBlock(arenas, b) && OffLists(free, b)
    requires forall a :: !InBlock(arenas, b, a) ==> At(w', a) == At(w, a)
    ensures Coherent(w', descs, size, arenas, free)
    ensures forall f :: !Live(arenas, f, b) ==> Kept(arenas, f, w, w')
  {
    hide Rep, RunsOk, ListsOk, OffLists, InBlock, Live, At, Kept;
    BlockWrites(descs, arenas, size, free, w, w', b);
    forall f | !Live(arenas, f, b) ensures Kept(arenas, f, w, w') {
      KeptButOne(arenas, f, w, w', b);
    }
  }

  /** The count of a small arena was written. */
  lemma CountStep(w: Words, w': Words, descs: nat, size: nat, arenas: map<nat, Arena>, free: seq<seq<Block>>, p: nat,
                  c: nat)
    requires Coherent(w, descs, size, arenas, free) && p in arenas && arenas[p].Small? && arenas[p].kind < KINDS
    requires w' == w[PageAddr(p) + 4 := c]
    ensures Coherent(w', descs, size, arenas[p := Small(arenas[p].kind, c)], free)
    ensures BlocksSame(arenas, w, w')
  {
    hide Rep, RunsOk, ListsOk, InBlock, At;
    HeaderWrites(descs, arenas, size, free, w, w', p, c);
    RunsRecount(arenas, size, p, c);
    ListsRecount(arenas, free, p, c);
  }

  lemma ListsRecount(arenas: map<nat, Arena>, free: seq<seq<Block>>, p: nat, c: nat)
    requires ListsOk(arenas, free) && p in arenas && arenas[p].Small?
    ensures ListsOk(arenas[p := Small(arenas[p].kind, c)], free)
  {
    hide NoDup;
  }

  lemma RunsRecount(arenas: map<nat, Arena>, size: nat, p: nat, c: nat)
    requires RunsOk(arenas, size) && p in arenas && arenas[p].Small?
    ensures RunsOk(arenas[p := Small(arenas[p].kind, c)], size)
  {
    var arenas' := arenas[p := Small(arenas[p].kind, c)];
    forall q, i ensures Covers(arenas', q, i) == Covers(arenas, q, i) {
    }
    hide Covers;
  }

  lemma KeptButOne(arenas: map<nat, Arena>, free: seq<seq<Block>>, w: Words, w': Words, b: Block)
    requires forall c, a :: c != b && InBlock(arenas, c, a) ==> At(w', a) == At(w, a)
    requires !Live(arenas, free, b)
    ensures Kept(arenas, free, w, w')
  {
    hide At, InBlock;
  }

  lemma ListedNotLive(arenas: map<nat, Arena>, free: seq<seq<Block>>, k: nat, x: Block)
    requires ListsOk(arenas, free) && k < KINDS && x in free[k]
    ensures !Live(arenas, free, x)
  {
    assert BlockOf(arenas, k, x);
  }

  lemma ListedValid(arenas: map<nat, Arena>, free: seq<seq<Block>>, k: nat, x: Block)
    requires ListsOk(arenas, free) && k < KINDS && x in free[k]
    ensures ValidBlock(arenas, x) && AddrOf(arenas, x) == BlockAddr(k, x) && Capacity(arenas, x) == BlockSize(k)
  {
    assert BlockOf(arenas, k, x);
  }

  lemma RestLists(arenas: map<nat, Arena>, free: seq<seq<Block>>, k: nat)
    requires ListsOk(arenas, free) && k < KINDS && free[k] != []
    ensures ListsOk(arenas, free[k := free[k][1..]])
    ensures OffLists(free[k := free[k][1..]], free[k][0])
  {
    PopFront(arenas, free, k);
    assert BlockOf(arenas, k, free[k][0]);
    assert forall b :: b in free[k][1..] ==> b in free[k];
  }

  lemma RepList(w: Words, descs: nat, arenas: map<nat, Arena>, free: seq<seq<Block>>, k: nat)
    requires Rep(w, descs, arenas, free) && k < KINDS
    ensures |free| == KINDS && DescsFit(descs)
    ensures IsList(w, Head(descs, k), Tail(descs, k), Addrs(k, free[k])) && DescIs(w, descs, k)
  {
  }

  lemma RepHeader(w: Words, descs: nat, arenas: map<nat, Arena>, free: seq<seq<Block>>, p: nat)
    requires Rep(w, descs, arenas, free) && p in arenas
    ensures HeaderIs(w, descs, p, arenas[p])
  {
  }

  lemma CoherentList(w: Words, descs: nat, size: nat, arenas: map<nat, Arena>, free: seq<seq<Block>>, k: nat)
    requires Coherent(w, descs, size, arenas, free) && k < KINDS
    ensures |free| == KINDS && DescsFit(descs)
    ensures IsList(w, Head(descs, k), Tail(descs, k), Addrs(k, free[k]))
    ensures At(w, DescAddr(descs, k)) == BlockSize(k) && At(w, DescAddr(descs, k) + 4) == PerArena(k)
  {
    RepList(w, descs, arenas, free, k);
  }

  lemma CoherentHeader(w: Words, descs: nat, size: nat, arenas: map<nat, Arena>, free: seq<seq<Block>>, p: nat)
    requires Coherent(w, descs, size, arenas, free) && p in arenas
    ensures HeaderIs(w, descs, p, arenas[p])
  {
    RepHeader(w, descs, arenas, free, p);
  }

  lemma CoherentListed(w: Words, descs: nat, size: nat, arenas: map<nat, Arena>, free: seq<seq<Block>>, k: nat,
                       b: Block)
    requires Coherent(w, descs, size, arenas, free) && k < KINDS && |free| == KINDS && b in free[k]
    ensures BlockOf(arenas, k, b) && !Live(arenas, free, b)
    ensures ValidBlock(arenas, b) && AddrOf(arenas, b) == BlockAddr(k, b) && Capacity(arenas, b) == BlockSize(k)
  {
    ListedValid(arenas, free, k, b);
    ListedNotLive(arenas, free, k, b);
  }

  lemma AddrsAt(k: nat, s: seq<Block>, i: nat)
    requires k < KINDS && i < |s|
    ensures Addrs(k, s)[i] == BlockAddr(k, s[i])
  {
  }

  lemma SameBlock(arenas: map<nat, Arena>, arenas': map<nat, Arena>, b: Block)
    requires ValidBlock(arenas, b) && b.page in arenas' && SameShape(arenas[b.page], arenas'[b.page])
    ensures ValidBlock(arenas', b) && AddrOf(arenas', b) == AddrOf(arenas, b)
    ensures forall a :: InBlock(arenas', b, a) <==> InBlock(arenas, b, a)
  {
  }

  /** block2arena: the page of a small block, and of the block behind a large arena's header. */
  lemma Block2Arena(arenas: map<nat, Arena>, b: Block)
    requires ValidBlock(arenas, b)
    ensures AddrOf(arenas, b) - AddrOf(arenas, b) % 4096 == PageAddr(b.page) && AddrOf(arenas, b) % 4 == 0
  {
    if arenas[b.page].Small? {
      BlockFits(arenas[b.page].kind, b.index);
      PageRound(b.page, 12 + b.index * BlockSize(arenas[b.page].kind));
    } else {
      PageRound(b.page, 12);
    }
  }

  lemma PageRound(p: nat, off: nat)
    requires off < 4096
    ensures (PageAddr(p) + off) - (PageAddr(p) + off) % 4096 == PageAddr(p)
  {
  }

  /** The words of a small block. */
  lemma BlockWords(arenas: map<nat, Arena>, k: nat, b: Block, a: nat)
    requires k < KINDS && BlockOf(arenas, k, b)
    ensures WordIn(BlockAddr(k, b), BlockSize(k) / 4, a) <==> InBlock(arenas, b, a) && a % 4 == 0
  {
    BlockFits(k, b.index);
  }

  ghost function NoLists(): seq<seq<Block>> {
    seq(KINDS, _ => [])
  }

  ghost predicate DescOk(w: Words, descs: nat, k: nat)
    requires k < KINDS
  {
    DescIs(w, descs, k) && ListIs(w, descs, k, [])
  }

  /** Writing one descriptor leaves those before it alone. */
  lemma WrittenDesc(w: Words, w1: Words, w2: Words, descs: nat, index: nat)
    requires index < KINDS
    requires w1 == w[DescAddr(descs, index) := BlockSize(index)][DescAddr(descs, index) + 4 := PerArena(index)]
    requires Same(w1, w2, {Head(descs, index), Head(descs, index) + 4, Tail(descs, index), Tail(descs, index) + 4})
    requires IsList(w2, Head(descs, index), Tail(descs, index), [])
    ensures DescOk(w2, descs, index)
    ensures forall k :: 0 <= k < index && DescOk(w, descs, k) ==> DescOk(w2, descs, k)
  {
    hide IsList;
    assert Addrs(index, []) == [];
    assert At(w1, DescAddr(descs, index)) == BlockSize(index);
    forall k | 0 <= k < index && DescOk(w, descs, k) ensures DescOk(w2, descs, k) {
      forall a | DescAddr(descs, k) <= a < DescAddr(descs, k) + 24 ensures At(w2, a) == At(w, a) {
        assert DescAddr(descs, k) + 24 <= DescAddr(descs, index);
      }
      hide At, Same;
      OldDesc(w, w2, descs, k);
    }
  }

  lemma OldDesc(w: Words, w2: Words, descs: nat, k: nat)
    requires k < KINDS && DescOk(w, descs, k)
    requires forall a :: DescAddr(descs, k) <= a < DescAddr(descs, k) + 24 ==> At(w2, a) == At(w, a)
    ensures DescOk(w2, descs, k)
  {
    hide IsList, At;
    var n := Nodes(Head(descs, k), Addrs(k, []), Tail(descs, k));
    assert n == [Head(descs, k), Tail(descs, k)];
    ListFrame(w, w2, Head(descs, k), Tail(descs, k), Addrs(k, []));
  }

  lemma InitRep(w: Words, descs: nat, size: nat)
    requires DescsFit(descs) && forall k :: 0 <= k < KINDS ==> DescOk(w, descs, k)
    ensures Coherent(w, descs, size, map[], NoLists())
  {
    hide IsList, DescIs, ListIs;
    assert |NoLists()| == KINDS && forall k :: 0 <= k < KINDS ==> NoLists()[k] == [];
    forall k | 0 <= k < KINDS ensures DescIs(w, descs, k) && ListIs(w, descs, k, NoLists()[k]) {
      assert DescOk(w, descs, k);
    }
  }

  /** A run of pages of no arena became arena p: only its pages were written, its header last. */
  lemma FreshStep(w: Words, w': Words, descs: nat, size: nat, arenas: map<nat, Arena>, free: seq<seq<Block>>,
                  p: nat, a: Arena)
    requires Coherent(w, descs, size, arenas, free) && 0 < Len(a) && p + Len(a) <= size
    requires forall i :: InRun(p, Len(a), i) ==> !Covered(arenas, i)
    requires forall x :: !InPages(p, Len(a), x) ==> At(w', x) == At(w, x)
    requires HeaderIs(w', descs, p, a)
    ensures p !in arenas && Coherent(w', descs, size, arenas[p := a], free) && BlocksSame(arenas, w, w')
  {
    hide RunsOk, ListsOk, InBlock, InPages, At, Covered, HeaderIs, ListIs, DescIs;
    FreshWrites(descs, arenas, size, free, w, w', p, Len(a));
    RunsAdd(arenas, size, p, a);
    ListsAdd(arenas, free, p, a);
  }

  lemma ListsAdd(arenas: map<nat, Arena>, free: seq<seq<Block>>, p: nat, a: Arena)
    requires ListsOk(arenas, free) && p !in arenas
    ensures ListsOk(arenas[p := a], free)
  {
    hide NoDup;
  }

  /** Block b was appended to list k. */
  lemma AppendStep(w: Words, w': Words, descs: nat, size: nat, arenas: map<nat, Arena>, free: seq<seq<Block>>,
                   k: nat, b: Block)
    requires Coherent(w, descs, size, arenas, free) && k < KINDS && |free| == KINDS
    requires BlockOf(arenas, k, b) && b !in free[k]
    requires IsList(w', Head(descs, k), Tail(descs, k), Addrs(k, free[k]) + [BlockAddr(k, b)])
    requires Same(w, w', {Nodes(Head(descs, k), Addrs(k, free[k]), Tail(descs, k))[|free[k]|] + 4,
                          BlockAddr(k, b), BlockAddr(k, b) + 4, Tail(descs, k)})
    ensures Coherent(w', descs, size, arenas, free[k := free[k] + [b]])
    ensures forall f :: OnListOf(f, k, free[k] + [b]) ==> Kept(arenas, f, w, w')
  {
    hide Rep, RunsOk, ListsOk, IsList, Nodes, Same, Live, Kept;
    AppendRep(descs, arenas, size, free, w, w', k, b);
    ListsAppend(arenas, free, k, b);
    forall f | OnListOf(f, k, free[k] + [b]) ensures Kept(arenas, f, w, w') {
      AllBlocksOf(arenas, free, k);
      forall x | x in free[k] + [b] ensures !Live(arenas, f, x) { OnListNotLive(arenas, f, k, x); }
    }
  }

  /** List k of f holds all of s. */
  ghost predicate OnListOf(f: seq<seq<Block>>, k: nat, s: seq<Block>) {
    |f| == KINDS && k < KINDS && forall x :: x in s ==> x in f[k]
  }

  lemma AllBlocksOf(arenas: map<nat, Arena>, free: seq<seq<Block>>, k: nat)
    requires ListsOk(arenas, free) && k < KINDS
    ensures forall x :: x in free[k] ==> BlockOf(arenas, k, x)
  {
  }

  lemma OnListNotLive(arenas: map<nat, Arena>, f: seq<seq<Block>>, k: nat, x: Block)
    requires |f| == KINDS && k < KINDS && x in f[k] && BlockOf(arenas, k, x)
    ensures !Live(arenas, f, x)
  {
  }

  lemma ListsAppend(arenas: map<nat, Arena>, free: seq<seq<Block>>, k: nat, b: Block)
    requires ListsOk(arenas, free) && k < KINDS && BlockOf(arenas, k, b) && b !in free[k]
    ensures ListsOk(arenas, free[k := free[k] + [b]])
  {
  }

  /** What list_append and elem_find need of a block that is not on list k. */
  lemma NotListed(w: Words, descs: nat, size: nat, arenas: map<nat, Arena>, free: seq<seq<Block>>, k: nat, b: Block)
    requires Coherent(w, descs, size, arenas, free) && k < KINDS && |free| == KINDS
    requires BlockOf(arenas, k, b) && b !in free[k]
    ensures forall i :: 0 <= i < |free[k]| + 2 ==>
              Clear(BlockAddr(k, b), Nodes(Head(descs, k), Addrs(k, free[k]), Tail(descs, k))[i])
    ensures BlockAddr(k, b) !in Addrs(k, free[k])
  {
    hide RunsOk, ListsOk, DescIs, ListIs, HeaderIs;
    BlockClear(descs, arenas, size, free, k, b);
    hide Coherent;
    var n := Nodes(Head(descs, k), Addrs(k, free[k]), Tail(descs, k));
    forall i | 0 <= i < |free[k]| ensures Addrs(k, free[k])[i] != BlockAddr(k, b) {
      assert Clear(BlockAddr(k, b), n[i + 1]);
    }
  }

  /** Blocks that were live before arena p came are live blocks still. */
  lemma KeptNew(arenas: map<nat, Arena>, free: seq<seq<Block>>, p: nat, k: nat, w: Words, w': Words)
    requires k < KINDS && |free| == KINDS && free[k] == [] && p !in arenas
    requires Kept(arenas[p := Small(k, PerArena(k))], free[k := Fresh(p, PerArena(k))], w, w')
    ensures Kept(arenas, free, w, w')
  {
    hide At;
    var arenas', free' := arenas[p := Small(k, PerArena(k))], free[k := Fresh(p, PerArena(k))];
    forall b, a | Live(arenas, free, b) && InBlock(arenas, b, a) ensures At(w', a) == At(w, a) {
      assert Live(arenas', free', b) && InBlock(arenas', b, a);
    }
  }

  lemma KindIs(size: nat, k: nat)
    requires size <= 1024 && k <= KINDS
    requires forall j :: 0 <= j < k ==> BlockSize(j) < size
    requires k < KINDS ==> size <= BlockSize(k)
    ensures k == KindFor(size)
  {
    assert BlockSize(6) == 1024;
    assert forall j :: 0 <= j < KindFor(size) ==> BlockSize(j) < size;
  }

  lemma UnmarkedAll(base: Paging, pg: Paging, arenas: map<nat, Arena>)
    requires PageInv(base, pg, arenas)
    ensures |pg.vmap| > 0 && forall i :: 0 <= i < |pg.vmap| && !pg.vmap[i] ==> i !in pg.pt
  {
    hide Covered, FramesOk, RunsOk;
  }

  /** Pages just found belong to no arena. */
  lemma RunFree(base: Paging, h: Heap, pg': Paging, p: nat, n: nat)
    requires PageInv(base, h.pg, h.arenas) && PagesTaken(h.pg, pg', p, n)
    ensures 0 < n && p + n <= |pg'.vmap| == |h.pg.vmap|
    ensures forall i :: InRun(p, n, i) ==> !Covered(h.arenas, i)
  {
    hide Covered, FramesOk, RunsOk, FramesTaken;
  }

  lemma NoAddrs(k: nat, s: seq<Block>)
    requires k < KINDS
    ensures Addrs(k, s) == [] <==> s == []
  {
  }

  lemma FrontOfFresh(arenas: map<nat, Arena>, free: seq<seq<Block>>, p: nat, k: nat)
    requires k < KINDS && |free| == KINDS && free[k] == Fresh(p, PerArena(k))
    ensures free[k] != [] && free[k][0] == Block(p, 0)
  {
  }

  lemma IsMallocLarge(h: Heap, h': Heap, size: nat, b: Block)
    requires size > 1024 && b.index == 0 && PagesTaken(h.pg, h'.pg, b.page, PagesFor(size))
    requires h'.arenas == h.arenas[b.page := Large(PagesFor(size))] && h'.free == h.free
    ensures Malloc(h, h', size, b)
    ensures ValidBlock(h'.arenas, b) && AddrOf(h'.arenas, b) == PageAddr(b.page) + 12 && size <= Capacity(h'.arenas, b)
  {
    hide PagesTaken;
  }

  lemma IsMallocSmall(h: Heap, arenas1: map<nat, Arena>, free1: seq<seq<Block>>, h': Heap, size: nat, b: Block)
    requires size <= 1024 && |h.free| == KINDS
    requires var k := KindFor(size);
      && |free1| == KINDS && free1[k] != [] && b == free1[k][0] && b.page in arenas1 && arenas1[b.page].Small?
      && arenas1[b.page].cnt > 0 && arenas1[b.page].kind == k
      && h'.arenas == arenas1[b.page := Small(k, arenas1[b.page].cnt - 1)] && h'.free == free1[k := free1[k][1..]]
      && ((h.free[k] != [] && arenas1 == h.arenas && free1 == h.free && h'.pg == h.pg)
          || (h.free[k] == [] && b.index == 0 && PagesTaken(h.pg, h'.pg, b.page, 1)
              && arenas1 == h.arenas[b.page := Small(k, PerArena(k))]
              && free1 == h.free[k := Fresh(b.page, PerArena(k))]))
    ensures Malloc(h, h', size, b)
  {
    hide PagesTaken, KindFor;
    var k := KindFor(size);
    if h.free[k] == [] {
      assert h'.arenas == h.arenas[b.page := Small(k, PerArena(k) - 1)];
      assert h'.free == h.free[k := Fresh(b.page, PerArena(k))[1..]];
      assert MallocNew(h, h', k, b);
    } else {
      assert MallocOld(h, h', k, b);
    }
  }

  lemma CapacityFits(arenas: map<nat, Arena>, size: nat, b: Block)
    requires size <= 1024 && BlockOf(arenas, KindFor(size), b)
    ensures ValidBlock(arenas, b) && size <= Capacity(arenas, b)
  {
  }

  // ----- dissolving an arena -----

  /** The list without the blocks of page p with index below j. */
  function Above(s: seq<Block>, p: nat, j: nat): (r: seq<Block>)
    ensures forall b :: b in r <==> b in s && !(b.page == p && b.index < j)
  {
    if s == [] then [] else (if s[0].page == p && s[0].index < j then [] else [s[0]]) + Above(s[1..], p, j)
  }

  lemma {:induction false} AboveNone(s: seq<Block>, p: nat)
    ensures Above(s, p, 0) == s
  {
    if s != [] { AboveNone(s[1..], p); }
  }

  lemma {:induction false} AboveAll(s: seq<Block>, p: nat, n: nat)
    requires forall b :: b in s && b.page == p ==> b.index < n
    ensures Above(s, p, n) == WithoutPage(s, p)
  {
    if s != [] { AboveAll(s[1..], p, n); }
  }

  lemma {:induction false} AboveNoDup(s: seq<Block>, p: nat, j: nat)
    requires NoDup(s)
    ensures NoDup(Above(s, p, j))
  {
    if s != [] {
      AboveNoDup(s[1..], p, j);
      assert s[0] !in s[1..];
    }
  }

  /** Dropping Block(p, j) leads from one to the next. */
  lemma {:induction false} AboveStep(s: seq<Block>, p: nat, j: nat) returns (i: nat)
    requires NoDup(s) && Block(p, j) in s
    ensures i < |Above(s, p, j)| && Above(s, p, j)[i] == Block(p, j)
    ensures Dropped(Above(s, p, j), i) == Above(s, p, j + 1)
  {
    hide Dropped, Above;
    assert s[0] !in s[1..];
    AboveCons(s, p, j);
    AboveCons(s, p, j + 1);
    if s[0] == Block(p, j) {
      i := 0;
      AboveSame(s[1..], p, j);
      DropFirst(s[0], Above(s[1..], p, j));
    } else {
      var t := AboveStep(s[1..], p, j);
      i := t;
      if !(s[0].page == p && s[0].index < j) {
        i := t + 1;
        DropLater(s[0], Above(s[1..], p, j), t);
      }
    }
  }

  lemma AboveCons(s: seq<Block>, p: nat, j: nat)
    requires s != []
    ensures Above(s, p, j) == if s[0].page == p && s[0].index < j then Above(s[1..], p, j)
                              else [s[0]] + Above(s[1..], p, j)
  {
  }

  lemma DropFirst(b: Block, r: seq<Block>)
    ensures Dropped([b] + r, 0) == r
  {
  }

  lemma DropLater(b: Block, r: seq<Block>, i: nat)
    requires i < |r|
    ensures Dropped([b] + r, i + 1) == [b] + Dropped(r, i)
  {
  }

  lemma {:induction false} AboveSame(s: seq<Block>, p: nat, j: nat)
    requires Block(p, j) !in s
    ensures Above(s, p, j) == Above(s, p, j + 1)
  {
    if s != [] {
      AboveSame(s[1..], p, j);
      assert s[0] in s;
    }
  }

  /** The element at place i of list k was unlinked. */
  lemma RemoveStep(w: Words, w': Words, descs: nat, size: nat, arenas: map<nat, Arena>, free: seq<seq<Block>>,
                   k: nat, i: nat)
    requires Coherent(w, descs, size, arenas, free) && k < KINDS && |free| == KINDS && i < |free[k]|
    requires IsList(w', Head(descs, k), Tail(descs, k), RemoveAt(Addrs(k, free[k]), i))
    requires Same(w, w', {Nodes(Head(descs, k), Addrs(k, free[k]), Tail(descs, k))[i] + 4,
                          Nodes(Head(descs, k), Addrs(k, free[k]), Tail(descs, k))[i + 2]})
    requires ListsOk(arenas, free[k := Dropped(free[k], i)])
    ensures Coherent(w', descs, size, arenas, free[k := Dropped(free[k], i)])
    ensures forall f :: OnListOf(f, k, free[k]) ==> Kept(arenas, f, w, w')
  {
    hide Rep, RunsOk, ListsOk, IsList, Nodes, Same, Live, Kept;
    RemoveRep(descs, arenas, size, free, w, w', k, i);
    forall f | OnListOf(f, k, free[k]) ensures Kept(arenas, f, w, w') {
      AllBlocksOf(arenas, free, k);
      forall x | x in free[k] ensures !Live(arenas, f, x) { OnListNotLive(arenas, f, k, x); }
    }
  }

  /** An arena without a listed block can be forgotten. */
  lemma ForgetStep(w: Words, descs: nat, size: nat, arenas: map<nat, Arena>, free: seq<seq<Block>>, p: nat)
    requires Coherent(w, descs, size, arenas, free)
    requires forall k, b :: 0 <= k < |free| && b in free[k] ==> b.page != p
    ensures Coherent(w, descs, size, arenas - {p}, free)
  {
    hide NoDup;
    RunsRemove(arenas, size, p);
  }

  lemma NotOnLarge(arenas: map<nat, Arena>, free: seq<seq<Block>>, p: nat)
    requires ListsOk(arenas, free) && p in arenas && arenas[p].Large?
    ensures forall k, b :: 0 <= k < |free| && b in free[k] ==> b.page != p
  {
    hide NoDup;
  }

  lemma NotOnOther(arenas: map<nat, Arena>, free: seq<seq<Block>>, p: nat)
    requires ListsOk(arenas, free) && p in arenas && arenas[p].Small? && arenas[p].kind < KINDS
    requires forall b :: b in free[arenas[p].kind] ==> b.page != p
    ensures forall k, b :: 0 <= k < |free| && b in free[k] ==> b.page != p
  {
    hide NoDup;
  }

  /** The pages of an arena are mapped to frames of the pool. */
  lemma ArenaMapped(base: Paging, pg: Paging, arenas: map<nat, Arena>, p: nat)
    requires PageInv(base, pg, arenas) && p in arenas
    ensures 0 < Len(arenas[p]) && p + Len(arenas[p]) <= |pg.vmap|
    ensures forall i :: InRun(p, Len(arenas[p]), i) ==> i in pg.pt && pg.pt[i] < |pg.pool|
  {
    hide Covered, MarksOk;
    forall i: nat | InRun(p, Len(arenas[p]), i) ensures Covered(arenas, i) { CoverOwn(arenas, p, i); }
  }

  lemma CoherentNoDup(w: Words, descs: nat, size: nat, arenas: map<nat, Arena>, free: seq<seq<Block>>, k: nat, p: nat)
    requires Coherent(w, descs, size, arenas, free) && k < KINDS && |free| == KINDS
    ensures NoDup(free[k])
    ensures forall b :: b in free[k] && b.page == p ==> b.index < PerArena(k)
  {
    hide NoDup;
    assert forall b :: b in free[k] ==> BlockOf(arenas, k, b);
  }

  lemma CoherentAbove(w: Words, descs: nat, size: nat, arenas: map<nat, Arena>, free: seq<seq<Block>>,
                      k: nat, p: nat, j: nat, s: seq<Block>, i: nat)
    requires Coherent(w, descs, size, arenas, free) && k < KINDS && |free| == KINDS
    requires NoDup(s) && free[k] == Above(s, p, j) && i < |free[k]| && Dropped(free[k], i) == Above(s, p, j + 1)
    ensures ListsOk(arenas, free[k := Dropped(free[k], i)])
  {
    hide NoDup, Rep, RunsOk;
    AboveNoDup(s, p, j + 1);
  }

  /** All blocks of an arena whose count is full are listed. */
  lemma AllListed(arenas: map<nat, Arena>, free: seq<seq<Block>>, p: nat)
    requires BlocksOk(arenas, free) && p in arenas && arenas[p].Small? && arenas[p].kind < KINDS
    ensures arenas[p].cnt == PerArena(arenas[p].kind) ==>
              forall i :: 0 <= i < PerArena(arenas[p].kind) ==> Block(p, i) in free[arenas[p].kind]
    ensures arenas[p].cnt <= PerArena(arenas[p].kind)
  {
    assert CountOk(arenas, free, p);
    IdxFull(free[arenas[p].kind], p, PerArena(arenas[p].kind));
  }

  lemma OnItself(free: seq<seq<Block>>, k: nat)
    requires |free| == KINDS && k < KINDS
    ensures OnListOf(free, k, free[k])
  {
  }

  /** ... and its blocks gone from the list, the arena can be forgotten. */
  lemma ForgetArena(w: Words, descs: nat, size: nat, arenas: map<nat, Arena>, free: seq<seq<Block>>, p: nat)
    requires Coherent(w, descs, size, arenas, free) && p in arenas && |free| == KINDS
    requires match arenas[p]
             case Small(k, _) => k < KINDS && forall b :: b in free[k] ==> b.page != p
             case Large(_) => true
    ensures Coherent(w, descs, size, arenas - {p}, free)
  {
    hide Rep, RunsOk;
    if arenas[p].Large? { NotOnLarge(arenas, free, p); } else { NotOnOther(arenas, free, p); }
    ForgetStep(w, descs, size, arenas, free, p);
  }

  lemma IsFreeBlock(h: Heap, h': Heap, b: Block)
    requires |h.free| == KINDS && b.page in h.arenas && h.arenas[b.page].Small? && h.arenas[b.page].kind < KINDS
    requires var k, c := h.arenas[b.page].kind, h.arenas[b.page].cnt;
             && c + 1 < PerArena(k) && h'.pg == h.pg
             && h'.arenas == h.arenas[b.page := Small(k, c + 1)] && h'.free == h.free[k := h.free[k] + [b]]
    ensures Free(h, h', b)
  {
    assert FreeBlock(h, h', b);
  }

  lemma IsFreeArena(h: Heap, h1: Heap, h': Heap, b: Block)
    requires |h.free| == KINDS && b.page in h.arenas && h.arenas[b.page].Small? && h.arenas[b.page].kind < KINDS
    requires var k, c := h.arenas[b.page].kind, h.arenas[b.page].cnt;
             && c + 1 == PerArena(k) && PagesGiven(h.pg, h'.pg, b.page, 1)
             && h1.arenas == h.arenas[b.page := Small(k, c + 1)] && h1.free == h.free[k := h.free[k] + [b]]
             && h'.arenas == h1.arenas - {b.page} && h'.free == h1.free[k := WithoutPage(h1.free[k], b.page)]
    ensures Free(h, h', b)
  {
    var k := h.arenas[b.page].kind;
    WithoutLast(h.free[k], b);
    assert h'.arenas == h.arenas - {b.page};
    assert h'.free == h.free[k := WithoutPage(h.free[k], b.page)];
    assert FreeArena(h, h', b);
  }

  /** Blocks live without arena p were live with it. */
  lemma KeptGone(arenas: map<nat, Arena>, free: seq<seq<Block>>, p: nat, w: Words, w': Words)
    requires Kept(arenas, free, w, w') && p in arenas && arenas[p].Small? && arenas[p].kind < KINDS && |free| == KINDS
    ensures Kept(arenas - {p}, free[arenas[p].kind := WithoutPage(free[arenas[p].kind], p)], w, w')
  {
    hide At;
    var k := arenas[p].kind;
    var arenas', free' := arenas - {p}, free[k := WithoutPage(free[k], p)];
    forall b, a | Live(arenas', free', b) && InBlock(arenas', b, a) ensures At(w', a) == At(w, a) {
      assert Live(arenas, free, b) && InBlock(arenas, b, a);
    }
  }
}
