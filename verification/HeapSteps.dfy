/** One sys_malloc and one sys_free on the heap's state, and what each keeps. */
module HeapSteps {
  import opened Seqs
  import opened HeapState

  /** The indices of arena page p, out of n, that are on the list s. */
  ghost function FreeIdx(s: seq<Block>, p: nat, n: nat): set<nat> {
    set i: nat | 0 <= i < n && Block(p, i) in s
  }

  /** Block b belongs to a small arena of this kind. */
  predicate BlockOf(arenas: map<nat, Arena>, kind: nat, b: Block)
    requires kind < KINDS
  {
    && b.page in arenas && arenas[b.page].Small? && arenas[b.page].kind == kind && b.index < PerArena(kind)
  }

  ghost predicate ListsOk(arenas: map<nat, Arena>, free: seq<seq<Block>>) {
    && |free| == KINDS
    && (forall k :: 0 <= k < KINDS ==> NoDup(free[k]))
    && (forall k, b :: 0 <= k < KINDS && b in free[k] ==> BlockOf(arenas, k, b))
  }

  /** The count of a small arena is the number of its blocks on its list. */
  predicate KindOk(a: Arena) {
    a.Small? ==> a.kind < KINDS
  }

  ghost predicate CountOk(arenas: map<nat, Arena>, free: seq<seq<Block>>, p: nat)
    requires |free| == KINDS && p in arenas && KindOk(arenas[p])
  {
    arenas[p].Small? ==>
      arenas[p].cnt == |FreeIdx(free[arenas[p].kind], p, PerArena(arenas[p].kind))|
  }

  ghost predicate BlocksOk(arenas: map<nat, Arena>, free: seq<seq<Block>>) {
    && ListsOk(arenas, free)
    && (forall p :: p in arenas ==> KindOk(arenas[p]) && CountOk(arenas, free, p))
  }

  /** Some block of every small arena is in use. */
  ghost predicate NoneFull(arenas: map<nat, Arena>) {
    forall p :: p in arenas && KindOk(arenas[p]) && arenas[p].Small? ==> arenas[p].cnt < PerArena(arenas[p].kind)
  }

  ghost predicate Inv(base: Paging, h: Heap) {
    && PageInv(base, h.pg, h.arenas) && BlocksOk(h.arenas, h.free) && NoneFull(h.arenas)
  }

  /** b was handed out and not taken back. */
  ghost predicate Live(arenas: map<nat, Arena>, free: seq<seq<Block>>, b: Block) {
    && |free| == KINDS && b.page in arenas && KindOk(arenas[b.page])
    && match arenas[b.page]
       case Small(k, _) => b.index < PerArena(k) && b !in free[k]
       case Large(_) => b.index == 0
  }

  // ----- the two operations -----

  function Fresh(p: nat, n: nat): (s: seq<Block>)
    ensures |s| == n && forall i :: 0 <= i < n ==> s[i] == Block(p, i)
  {
    seq(n, i requires 0 <= i < n => Block(p, i))
  }

  /** The list without the blocks of page p, order kept. */
  function WithoutPage(s: seq<Block>, p: nat): (r: seq<Block>)
    ensures forall b :: b in r <==> b in s && b.page != p
  {
    if s == [] then [] else (if s[0].page == p then [] else [s[0]]) + WithoutPage(s[1..], p)
  }

  /** A request over 1024 bytes: pages of its own, the block behind the header. */
  ghost predicate MallocLarge(h: Heap, h': Heap, size: nat, b: Block) {
    && PagesTaken(h.pg, h'.pg, b.page, PagesFor(size))
    && b.index == 0 && h'.arenas == h.arenas[b.page := Large(PagesFor(size))] && h'.free == h.free
  }

  /** A small request when no block of its kind is free: a new arena, whose first block is handed out. */
  ghost predicate MallocNew(h: Heap, h': Heap, k: nat, b: Block)
    requires k < KINDS
  {
    && |h.free| == KINDS && h.free[k] == [] && PagesTaken(h.pg, h'.pg, b.page, 1)
    && b.index == 0 && h'.arenas == h.arenas[b.page := Small(k, PerArena(k) - 1)]
    && h'.free == h.free[k := Fresh(b.page, PerArena(k))[1..]]
  }

  /** A small request otherwise: the front of the free list. */
  ghost predicate MallocOld(h: Heap, h': Heap, k: nat, b: Block)
    requires k < KINDS
  {
    && |h.free| == KINDS && h.free[k] != [] && b == h.free[k][0] && h'.pg == h.pg
    && b.page in h.arenas && h.arenas[b.page].Small? && h.arenas[b.page].cnt > 0
    && h'.arenas == h.arenas[b.page := Small(h.arenas[b.page].kind, h.arenas[b.page].cnt - 1)]
    && h'.free == h.free[k := h.free[k][1..]]
  }

  ghost predicate Malloc(h: Heap, h': Heap, size: nat, b: Block) {
    if size > 1024 then MallocLarge(h, h', size, b)
    else MallocNew(h, h', KindFor(size), b) || MallocOld(h, h', KindFor(size), b)
  }

  ghost predicate FreeLarge(h: Heap, h': Heap, b: Block) {
    && b.page in h.arenas && h.arenas[b.page].Large?
    && PagesGiven(h.pg, h'.pg, b.page, h.arenas[b.page].pages)
    && h'.arenas == h.arenas - {b.page} && h'.free == h.free
  }

  /** Other blocks of the arena are in use: b goes to the end of the list. */
  ghost predicate FreeBlock(h: Heap, h': Heap, b: Block) {
    && |h.free| == KINDS && b.page in h.arenas && KindOk(h.arenas[b.page]) && h.arenas[b.page].Small?
    && var k, c := h.arenas[b.page].kind, h.arenas[b.page].cnt;
    && c + 1 < PerArena(k) && h'.pg == h.pg
    && h'.arenas == h.arenas[b.page := Small(k, c + 1)] && h'.free == h.free[k := h.free[k] + [b]]
  }

  /** b was the last one in use: the arena is dissolved. */
  ghost predicate FreeArena(h: Heap, h': Heap, b: Block) {
    && |h.free| == KINDS && b.page in h.arenas && KindOk(h.arenas[b.page]) && h.arenas[b.page].Small?
    && var k, c := h.arenas[b.page].kind, h.arenas[b.page].cnt;
    && c + 1 == PerArena(k) && PagesGiven(h.pg, h'.pg, b.page, 1)
    && h'.arenas == h.arenas - {b.page} && h'.free == h.free[k := WithoutPage(h.free[k], b.page)]
  }

  ghost predicate Free(h: Heap, h': Heap, b: Block) {
    FreeLarge(h, h', b) || FreeBlock(h, h', b) || FreeArena(h, h', b)
  }

  // ----- block lists and counts -----

  /** Putting a block on, or taking one off, list k. */
  lemma IdxAdd(s: seq<Block>, p: nat, n: nat, b: Block)
    requires b !in s && b.index < n
    ensures |FreeIdx(s + [b], p, n)| == |FreeIdx(s, p, n)| + if b.page == p then 1 else 0
  {
    if b.page == p {
      assert FreeIdx(s + [b], p, n) == FreeIdx(s, p, n) + {b.index};
    } else {
      assert FreeIdx(s + [b], p, n) == FreeIdx(s, p, n);
    }
  }

  lemma IdxPop(s: seq<Block>, p: nat, n: nat)
    requires s != [] && NoDup(s) && s[0].index < n
    ensures |FreeIdx(s, p, n)| == |FreeIdx(s[1..], p, n)| + if s[0].page == p then 1 else 0
  {
    assert s[0] !in s[1..];
    if s[0].page == p {
      assert FreeIdx(s, p, n) == FreeIdx(s[1..], p, n) + {s[0].index};
    } else {
      assert FreeIdx(s, p, n) == FreeIdx(s[1..], p, n);
    }
  }

  lemma IdxFresh(p: nat, n: nat)
    requires n > 0
    ensures |FreeIdx(Fresh(p, n)[1..], p, n)| == n - 1
  {
    var s := Fresh(p, n)[1..];
    assert forall i :: 1 <= i < n ==> s[i - 1] == Block(p, i);
    assert FreeIdx(s, p, n) == Upto(n) - {0};
  }

  ghost function Upto(n: nat): (r: set<nat>)
    ensures |r| == n && forall i: nat :: i in r <==> i < n
  {
    if n == 0 then {} else Upto(n - 1) + {n - 1}
  }

  /** Not all indices of an arena are free exactly if its count says so. */
  lemma IdxFull(s: seq<Block>, p: nat, n: nat)
    ensures |FreeIdx(s, p, n)| <= n
    ensures |FreeIdx(s, p, n)| == n <==> forall i :: 0 <= i < n ==> Block(p, i) in s
  {
    assert FreeIdx(s, p, n) <= Upto(n);
    SubsetSize(FreeIdx(s, p, n), Upto(n));
    if |FreeIdx(s, p, n)| == n {
      forall i | 0 <= i < n ensures Block(p, i) in s { assert i in Upto(n) && i in FreeIdx(s, p, n); }
    }
    if forall i :: 0 <= i < n ==> Block(p, i) in s {
      SubsetSize(Upto(n), FreeIdx(s, p, n));
    }
  }

  lemma SubsetSize(a: set<nat>, b: set<nat>)
    requires a <= b
    ensures |a| <= |b| && (|a| == |b| ==> a == b)
  {
    assert b == a + (b - a);
    assert |b| == |a| + |b - a|;
  }

  lemma {:induction false} WithoutPageNoDup(s: seq<Block>, p: nat)
    requires NoDup(s)
    ensures NoDup(WithoutPage(s, p))
  {
    if s != [] {
      WithoutPageNoDup(s[1..], p);
      assert s[0] !in s[1..];
    }
  }

  lemma IdxWithout(s: seq<Block>, p: nat, q: nat, n: nat)
    requires p != q
    ensures FreeIdx(WithoutPage(s, p), q, n) == FreeIdx(s, q, n)
  {
  }

  // ----- what the operations keep -----

  lemma LargeKeepsBlocks(arenas: map<nat, Arena>, free: seq<seq<Block>>, p: nat, n: nat)
    requires BlocksOk(arenas, free) && p !in arenas
    ensures BlocksOk(arenas[p := Large(n)], free)
    ensures forall x :: Live(arenas[p := Large(n)], free, x) <==> Live(arenas, free, x) || x == Block(p, 0)
  {
    hide FreeIdx, NoDup;
    assert forall q :: q in arenas ==> CountOk(arenas, free, q);
    forall x ensures Live(arenas[p := Large(n)], free, x) <==> Live(arenas, free, x) || x == Block(p, 0) {
      if x.page == p { assert x == Block(p, x.index); }
    }
  }

  lemma NewKeepsBlocks(arenas: map<nat, Arena>, free: seq<seq<Block>>, p: nat, k: nat)
    requires k < KINDS && BlocksOk(arenas, free) && p !in arenas && free[k] == []
    ensures var arenas' := arenas[p := Small(k, PerArena(k) - 1)];
            var free' := free[k := Fresh(p, PerArena(k))[1..]];
            && BlocksOk(arenas', free')
            && forall x :: Live(arenas', free', x) <==> Live(arenas, free, x) || x == Block(p, 0)
  {
    var s := Fresh(p, PerArena(k))[1..];
    var arenas' := arenas[p := Small(k, PerArena(k) - 1)];
    var free' := free[k := s];
    IdxFresh(p, PerArena(k));
    assert forall i :: 0 <= i < |s| ==> s[i] == Block(p, i + 1);
    assert forall i: nat :: 0 < i < PerArena(k) ==> s[i - 1] == Block(p, i);
    assert Block(p, 0) !in s;
    forall q | q in arenas ensures KindOk(arenas[q]) && CountOk(arenas', free', q) {
      assert CountOk(arenas, free, q);
      if arenas[q].Small? && arenas[q].kind == k {
        assert FreeIdx(s, q, PerArena(k)) == {} == FreeIdx(free[k], q, PerArena(k));
      }
    }
  }

  lemma PopFront(arenas: map<nat, Arena>, free: seq<seq<Block>>, k: nat)
    requires k < KINDS && ListsOk(arenas, free) && free[k] != []
    ensures BlockOf(arenas, k, free[k][0]) && |free| == KINDS && NoDup(free[k])
    ensures free[k][0] !in free[k][1..]
  {
    assert free[k][0] in free[k];
  }

  lemma PopLists(arenas: map<nat, Arena>, free: seq<seq<Block>>, k: nat, c: nat)
    requires k < KINDS && ListsOk(arenas, free) && free[k] != []
    ensures ListsOk(arenas[free[k][0].page := Small(k, c)], free[k := free[k][1..]])
  {
    PopFront(arenas, free, k);
    assert forall b :: b in free[k][1..] ==> b in free[k];
  }

  lemma OldKeepsBlocks(arenas: map<nat, Arena>, free: seq<seq<Block>>, k: nat)
    requires k < KINDS && BlocksOk(arenas, free) && free[k] != []
    ensures var b := free[k][0];
            && BlockOf(arenas, k, b) && arenas[b.page].cnt > 0
            && var arenas' := arenas[b.page := Small(k, arenas[b.page].cnt - 1)];
            && var free' := free[k := free[k][1..]];
            && BlocksOk(arenas', free')
            && forall x :: Live(arenas', free', x) <==> Live(arenas, free, x) || x == b
  {
    hide ListsOk;
    PopFront(arenas, free, k);
    var b := free[k][0];
    assert CountOk(arenas, free, b.page);
    IdxPop(free[k], b.page, PerArena(k));
    PopLists(arenas, free, k, arenas[b.page].cnt - 1);
    var arenas' := arenas[b.page := Small(k, arenas[b.page].cnt - 1)];
    var free' := free[k := free[k][1..]];
    assert free[k] == [b] + free[k][1..];
    forall q | q in arenas ensures KindOk(arenas[q]) && CountOk(arenas', free', q) {
      assert CountOk(arenas, free, q);
      if arenas[q].Small? && arenas[q].kind == k {
        IdxPop(free[k], q, PerArena(k));
      }
    }
  }

  lemma FreeKeepsBlocks(arenas: map<nat, Arena>, free: seq<seq<Block>>, b: Block)
    requires BlocksOk(arenas, free) && Live(arenas, free, b) && arenas[b.page].Small?
    ensures var k, c := arenas[b.page].kind, arenas[b.page].cnt;
            var arenas' := arenas[b.page := Small(k, c + 1)];
            var free' := free[k := free[k] + [b]];
            && c < PerArena(k) && BlocksOk(arenas', free')
            && forall x :: Live(arenas', free', x) <==> Live(arenas, free, x) && x != b
  {
    var k, c := arenas[b.page].kind, arenas[b.page].cnt;
    var arenas' := arenas[b.page := Small(k, c + 1)];
    var free' := free[k := free[k] + [b]];
    assert CountOk(arenas, free, b.page);
    IdxFull(free[k], b.page, PerArena(k));
    forall q | q in arenas ensures KindOk(arenas[q]) && CountOk(arenas', free', q) {
      assert CountOk(arenas, free, q);
      if arenas[q].Small? && arenas[q].kind == k {
        IdxAdd(free[k], q, PerArena(k), b);
      }
    }
  }

  /** An arena all of whose blocks are free can go. */
  lemma DissolveKeepsBlocks(arenas: map<nat, Arena>, free: seq<seq<Block>>, p: nat)
    requires BlocksOk(arenas, free) && p in arenas && arenas[p].Small? && arenas[p].cnt == PerArena(arenas[p].kind)
    ensures var k := arenas[p].kind;
            var free' := free[k := WithoutPage(free[k], p)];
            && BlocksOk(arenas - {p}, free')
            && forall x :: Live(arenas - {p}, free', x) <==> Live(arenas, free, x)
  {
    var k := arenas[p].kind;
    var free' := free[k := WithoutPage(free[k], p)];
    WithoutPageNoDup(free[k], p);
    assert CountOk(arenas, free, p);
    IdxFull(free[k], p, PerArena(k));
    forall q | q in arenas && q != p ensures KindOk(arenas[q]) && CountOk(arenas - {p}, free', q) {
      assert CountOk(arenas, free, q);
      if arenas[q].Small? && arenas[q].kind == k {
        IdxWithout(free[k], p, q, PerArena(k));
      }
    }
  }

  lemma LargeGoesBlocks(arenas: map<nat, Arena>, free: seq<seq<Block>>, p: nat)
    requires BlocksOk(arenas, free) && p in arenas && arenas[p].Large?
    ensures BlocksOk(arenas - {p}, free)
    ensures forall x :: Live(arenas - {p}, free, x) <==> Live(arenas, free, x) && x != Block(p, 0)
  {
    hide FreeIdx, NoDup;
    assert forall q :: q in arenas ==> CountOk(arenas, free, q);
  }

  // ----- the invariant and the set of live blocks over one call -----

  /** Only the new block became live. */
  ghost predicate Gains(h: Heap, h': Heap, b: Block) {
    && !Live(h.arenas, h.free, b)
    && forall x :: Live(h'.arenas, h'.free, x) <==> Live(h.arenas, h.free, x) || x == b
  }

  ghost predicate Loses(h: Heap, h': Heap, b: Block) {
    forall x :: Live(h'.arenas, h'.free, x) <==> Live(h.arenas, h.free, x) && x != b
  }

  lemma TakenNotArena(base: Paging, h: Heap, pg': Paging, p: nat, n: nat)
    requires PageInv(base, h.pg, h.arenas) && PagesTaken(h.pg, pg', p, n)
    ensures p !in h.arenas && forall i :: !Live(h.arenas, h.free, Block(p, i))
  {
    assert InRun(p, n, p);
    UnmarkedUnmapped(base, h.pg, h.arenas, p);
    if p in h.arenas { assert Covers(h.arenas, p, p); }
  }

  lemma FreeNotLive(arenas: map<nat, Arena>, free: seq<seq<Block>>, k: nat, b: Block)
    requires BlocksOk(arenas, free) && k < KINDS && b in free[k]
    ensures !Live(arenas, free, b)
  {
  }

  lemma MallocKeeps(base: Paging, h: Heap, h': Heap, size: nat, b: Block)
    requires Inv(base, h) && Malloc(h, h', size, b)
    ensures Inv(base, h') && Gains(h, h', b)
  {
    hide PageInv, BlocksOk, PagesTaken, WithoutPage, PagesFor, KindFor, Fresh;
    assert b.index == 0 ==> b == Block(b.page, 0);
    hide Live;
    if size > 1024 {
      TakenNotArena(base, h, h'.pg, b.page, PagesFor(size));
      TakeKeepsPages(base, h.pg, h'.pg, h.arenas, b.page, Large(PagesFor(size)));
      LargeKeepsBlocks(h.arenas, h.free, b.page, PagesFor(size));
    } else if h'.pg == h.pg && MallocOld(h, h', KindFor(size), b) {
      OldKeepsBlocks(h.arenas, h.free, KindFor(size));
      FreeNotLive(h.arenas, h.free, KindFor(size), b);
      RecountKeepsPages(base, h.pg, h.arenas, b.page, h.arenas[b.page].cnt - 1);
    } else {
      var k := KindFor(size);
      TakenNotArena(base, h, h'.pg, b.page, 1);
      TakeKeepsPages(base, h.pg, h'.pg, h.arenas, b.page, Small(k, PerArena(k) - 1));
      NewKeepsBlocks(h.arenas, h.free, b.page, k);
    }
  }

  /** Counts do not matter for pages. */
  lemma RecountKeepsPages(base: Paging, pg: Paging, arenas: map<nat, Arena>, p: nat, c: nat)
    requires PageInv(base, pg, arenas) && p in arenas && arenas[p].Small?
    ensures PageInv(base, pg, arenas[p := Small(arenas[p].kind, c)])
  {
    hide BaseOk, FramesOk;
    var arenas' := arenas[p := Small(arenas[p].kind, c)];
    forall q, i ensures Covers(arenas', q, i) == Covers(arenas, q, i) {
    }
    hide Covers;
  }

  lemma FreeKeeps(base: Paging, h: Heap, h': Heap, b: Block)
    requires Inv(base, h) && Live(h.arenas, h.free, b) && Free(h, h', b)
    ensures Inv(base, h') && Loses(h, h', b)
  {
    hide PageInv, BlocksOk, PagesGiven, WithoutPage;
    if FreeLarge(h, h', b) {
      GiveKeepsPages(base, h.pg, h'.pg, h.arenas, b.page);
      LargeGoesBlocks(h.arenas, h.free, b.page);
    } else {
      FreeSmallKeeps(base, h, h', b);
    }
  }

  lemma FreeSmallKeeps(base: Paging, h: Heap, h': Heap, b: Block)
    requires Inv(base, h) && Live(h.arenas, h.free, b) && (FreeBlock(h, h', b) || FreeArena(h, h', b))
    ensures Inv(base, h') && Loses(h, h', b)
  {
    hide PageInv, BlocksOk, PagesGiven, WithoutPage;
    FreeKeepsBlocks(h.arenas, h.free, b);
    var k, c := h.arenas[b.page].kind, h.arenas[b.page].cnt;
    var arenas1, free1 := h.arenas[b.page := Small(k, c + 1)], h.free[k := h.free[k] + [b]];
    RecountKeepsPages(base, h.pg, h.arenas, b.page, c + 1);
    if FreeArena(h, h', b) {
      DissolveKeepsBlocks(arenas1, free1, b.page);
      GiveKeepsPages(base, h.pg, h'.pg, arenas1, b.page);
      assert arenas1 - {b.page} == h.arenas - {b.page};
      WithoutLast(h.free[k], b);
      assert free1[k := WithoutPage(free1[k], b.page)] == h'.free;
    }
  }

  lemma {:induction false} WithoutLast(s: seq<Block>, b: Block)
    ensures WithoutPage(s + [b], b.page) == WithoutPage(s, b.page)
  {
    if s != [] {
      WithoutLast(s[1..], b);
      assert (s + [b])[1..] == s[1..] + [b];
    }
  }

  // ----- what the invariant says -----

  /** Every small arena has a live block, and every large one is live. */
  lemma ArenaHasLive(base: Paging, h: Heap, p: nat)
    requires Inv(base, h) && p in h.arenas
    ensures exists i :: Live(h.arenas, h.free, Block(p, i))
  {
    match h.arenas[p]
    case Large(_) => assert Live(h.arenas, h.free, Block(p, 0));
    case Small(k, c) =>
      assert CountOk(h.arenas, h.free, p);
      IdxFull(h.free[k], p, PerArena(k));
      var i :| 0 <= i < PerArena(k) && Block(p, i) !in h.free[k];
      assert Live(h.arenas, h.free, Block(p, i));
  }

  /** With nothing live the heap is what it was at the start: no arenas, empty lists, and page bitmap, page
      table and frame bitmap as before. */
  lemma EmptyIsInitial(base: Paging, h: Heap)
    requires Inv(base, h) && forall b :: !Live(h.arenas, h.free, b)
    ensures h == Heap(base, map[], seq(KINDS, _ => []))
  {
    hide PageInv, CountOk, NoDup;
    assert forall p :: p !in h.arenas by {
      forall p ensures p !in h.arenas {
        if p in h.arenas {
          ArenaHasLive(base, h, p);
          assert false;
        }
      }
    }
    assert h.arenas == map[];
    forall k | 0 <= k < KINDS ensures h.free[k] == [] {
      NoElements(h.free[k]);
    }
    NoArenas(base, h.pg);
  }

  lemma NoElements(s: seq<Block>)
    ensures (forall b :: b !in s) ==> s == []
  {
    if s != [] { assert s[0] in s; }
  }

  lemma NoArenas(base: Paging, pg: Paging)
    requires PageInv(base, pg, map[])
    ensures pg == base
  {
    assert forall i :: !Covered(map[], i);
    hide Covered;
    assert pg.vmap == base.vmap;
    assert pg.pt == base.pt;
    assert pg.pool == base.pool by {
      forall f | 0 <= f < |pg.pool| ensures pg.pool[f] == base.pool[f] {
      }
    }
  }

  /** A page is marked in use iff it is mapped (the bit behind the map apart), no frame serves two pages,
      and every mapped frame is marked. */
  lemma MarkedIffMapped(base: Paging, h: Heap)
    requires Inv(base, h)
    ensures forall i :: 0 <= i < |h.pg.pool| ==> (h.pg.vmap[i] <==> i in h.pg.pt)
    ensures Injective(h.pg.pt)
    ensures forall i :: i in h.pg.pt ==> h.pg.pt[i] < |h.pg.pool| && h.pg.pool[h.pg.pt[i]]
  {
    hide BlocksOk, Covered;
  }

  /** Pages in use are exactly those of arenas that hold a live block. */
  lemma PagesHoldLive(base: Paging, h: Heap, i: nat)
    requires Inv(base, h) && i < |h.pg.vmap| && !base.vmap[i]
    ensures h.pg.vmap[i] <==> exists b :: Live(h.arenas, h.free, b) && Covers(h.arenas, b.page, i)
  {
    hide Live;
    if h.pg.vmap[i] {
      var p :| Covers(h.arenas, p, i);
      ArenaHasLive(base, h, p);
      var j :| Live(h.arenas, h.free, Block(p, j));
      assert Covers(h.arenas, Block(p, j).page, i);
    }
  }
}
