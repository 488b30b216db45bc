/** Where the kernel heap lies in memory: descriptors, arena headers, blocks, and the free lists whose
    links are kept inside the free blocks themselves. */
module HeapMemory {
  import opened Lists
  import opened HeapState
  import opened HeapSteps

  const HEAP_START: nat := 0xc010_0000

  function PageAddr(p: nat): nat {
    HEAP_START + 4096 * p
  }

  /** The descriptor of a kind: block_size, block_per_arena, head and tail of the free list. */
  function DescAddr(descs: nat, k: nat): nat {
    descs + 24 * k
  }

  function Head(descs: nat, k: nat): nat {
    DescAddr(descs, k) + 8
  }

  function Tail(descs: nat, k: nat): nat {
    DescAddr(descs, k) + 16
  }

  /** The descriptors are kernel data, below the heap. */
  predicate DescsFit(descs: nat) {
    0 < descs && descs + 24 * KINDS <= HEAP_START
  }

  function BlockAddr(k: nat, b: Block): nat
    requires k < KINDS
  {
    PageAddr(b.page) + 12 + b.index * BlockSize(k)
  }

  /** b is a block of some arena, in use or free. */
  predicate ValidBlock(arenas: map<nat, Arena>, b: Block) {
    && b.page in arenas
    && match arenas[b.page]
       case Small(k, _) => k < KINDS && b.index < PerArena(k)
       case Large(_) => b.index == 0
  }

  function AddrOf(arenas: map<nat, Arena>, b: Block): nat
    requires ValidBlock(arenas, b)
  {
    match arenas[b.page]
    case Small(k, _) => BlockAddr(k, b)
    case Large(_) => PageAddr(b.page) + 12
  }

  function Capacity(arenas: map<nat, Arena>, b: Block): int
    requires ValidBlock(arenas, b)
  {
    match arenas[b.page]
    case Small(k, _) => BlockSize(k)
    case Large(n) => 4096 * n - 12
  }

  predicate InBlock(arenas: map<nat, Arena>, b: Block, a: nat) {
    ValidBlock(arenas, b) && AddrOf(arenas, b) <= a < AddrOf(arenas, b) + Capacity(arenas, b)
  }

  predicate InHeader(arenas: map<nat, Arena>, p: nat, a: nat) {
    p in arenas && PageAddr(p) <= a < PageAddr(p) + 12
  }

  predicate InPages(p: nat, n: nat, a: nat) {
    PageAddr(p) <= a < PageAddr(p + n)
  }

  /** The page an address lies in. */
  function PageOf(a: nat): nat
    requires HEAP_START <= a
  {
    (a - HEAP_START) / 4096
  }

  /** Blocks lie behind the header and inside the page, and do not overlap. */
  lemma BlockFits(k: nat, i: nat)
    requires k < KINDS && i < PerArena(k)
    ensures 0 <= i * BlockSize(k) && 12 + i * BlockSize(k) + BlockSize(k) <= 4096
    ensures i * BlockSize(k) % 4 == 0 && BlockSize(k) % 4 == 0
  {
    match k
    case 0 => case 1 => case 2 => case 3 => case 4 => case 5 => case 6 =>
  }

  lemma BlocksApart(k: nat, i: nat, j: nat)
    requires k < KINDS && i < j
    ensures i * BlockSize(k) + BlockSize(k) <= j * BlockSize(k)
  {
    match k
    case 0 => case 1 => case 2 => case 3 => case 4 => case 5 => case 6 =>
  }

  lemma InBlockPage(arenas: map<nat, Arena>, b: Block, a: nat)
    requires InBlock(arenas, b, a)
    ensures PageAddr(b.page) + 12 <= a && InPages(b.page, Len(arenas[b.page]), a)
    ensures HEAP_START <= a && Covers(arenas, b.page, PageOf(a))
  {
    if arenas[b.page].Small? {
      BlockFits(arenas[b.page].kind, b.index);
    }
  }

  lemma HeaderPage(arenas: map<nat, Arena>, size: nat, p: nat, a: nat)
    requires RunsOk(arenas, size) && InHeader(arenas, p, a)
    ensures HEAP_START <= a && PageOf(a) == p && Covers(arenas, p, p)
  {
  }

  /** No address lies in two blocks. */
  lemma OneBlock(arenas: map<nat, Arena>, size: nat, b: Block, c: Block, a: nat)
    requires RunsOk(arenas, size) && InBlock(arenas, b, a) && InBlock(arenas, c, a)
    ensures b == c
  {
    InBlockPage(arenas, b, a);
    InBlockPage(arenas, c, a);
    assert b.page == c.page;
    if arenas[b.page].Small? {
      var k := arenas[b.page].kind;
      if b.index < c.index { BlocksApart(k, b.index, c.index); }
      if c.index < b.index { BlocksApart(k, c.index, b.index); }
    }
  }

  /** No address lies in a block and in a header. */
  lemma NotHeader(arenas: map<nat, Arena>, size: nat, b: Block, p: nat, a: nat)
    requires RunsOk(arenas, size) && InBlock(arenas, b, a)
    ensures !InHeader(arenas, p, a)
  {
    InBlockPage(arenas, b, a);
    if InHeader(arenas, p, a) {
      HeaderPage(arenas, size, p, a);
    }
  }

  /** Pages that belong to no arena hold no block and no header. */
  lemma FreshPages(arenas: map<nat, Arena>, size: nat, p: nat, n: nat, a: nat)
    requires RunsOk(arenas, size) && InPages(p, n, a)
    requires forall i :: InRun(p, n, i) ==> !Covered(arenas, i)
    ensures forall b :: !InBlock(arenas, b, a)
    ensures forall q :: !InHeader(arenas, q, a)
    ensures HEAP_START <= a
  {
    assert InRun(p, n, PageOf(a));
    forall b ensures !InBlock(arenas, b, a) {
      if InBlock(arenas, b, a) { InBlockPage(arenas, b, a); }
    }
    forall q ensures !InHeader(arenas, q, a) {
      if InHeader(arenas, q, a) { HeaderPage(arenas, size, q, a); }
    }
  }

  // ----- list nodes -----

  /** The places a free list links: its two sentinels and blocks. */
  datatype Place = HeadOf(kind: nat) | TailOf(kind: nat) | Node(block: Block)

  predicate ValidPlace(arenas: map<nat, Arena>, q: Place) {
    match q
    case HeadOf(k) => k < KINDS
    case TailOf(k) => k < KINDS
    case Node(b) => ValidBlock(arenas, b) && Capacity(arenas, b) >= 8
  }

  function PlaceAddr(descs: nat, arenas: map<nat, Arena>, q: Place): nat
    requires ValidPlace(arenas, q)
  {
    match q
    case HeadOf(k) => Head(descs, k)
    case TailOf(k) => Tail(descs, k)
    case Node(b) => AddrOf(arenas, b)
  }

  /** Distinct places do not overlap. */
  lemma PlacesApart(descs: nat, arenas: map<nat, Arena>, size: nat, q: Place, r: Place)
    requires RunsOk(arenas, size) && DescsFit(descs)
    requires ValidPlace(arenas, q) && ValidPlace(arenas, r) && q != r
    ensures Clear(PlaceAddr(descs, arenas, q), PlaceAddr(descs, arenas, r))
  {
    if q.Node? && r.Node? {
      BlocksClear(arenas, size, q.block, r.block);
    } else if q.Node? {
      InBlockPage(arenas, q.block, AddrOf(arenas, q.block));
    } else if r.Node? {
      InBlockPage(arenas, r.block, AddrOf(arenas, r.block));
    }
  }

  lemma BlocksClear(arenas: map<nat, Arena>, size: nat, b: Block, c: Block)
    requires RunsOk(arenas, size) && b != c
    requires ValidPlace(arenas, Node(b)) && ValidPlace(arenas, Node(c))
    ensures Clear(AddrOf(arenas, b), AddrOf(arenas, c))
  {
    var x, y := AddrOf(arenas, b), AddrOf(arenas, c);
    if x <= y < x + 8 {
      assert InBlock(arenas, b, y) && InBlock(arenas, c, y);
      OneBlock(arenas, size, b, c, y);
    } else if y <= x < y + 8 {
      assert InBlock(arenas, b, x) && InBlock(arenas, c, x);
      OneBlock(arenas, size, b, c, x);
    }
  }
}
