/** Whole runs of the heap: sys_malloc, sys_free and the clients' own writes into the blocks they hold. The
    heap refines a map from live blocks to their words, and with nothing live it is as it was at the start. */
module HeapRuns {
  import opened Seqs
  import opened Lists
  import opened HeapState
  import opened HeapSteps
  import opened HeapMemory
  import opened HeapLinks
  import opened HeapUpdates

  /** A block as its owner sees it. */
  datatype Obj = Obj(address: nat, words: seq<nat>)

  type Objects = map<Block, Obj>

  datatype Op = DoMalloc(size: nat, block: Block, address: nat) | DoFree(block: Block)
              | DoStore(block: Block, i: nat, v: nat)

  datatype Machine = Machine(heap: Heap, mem: Words)

  ghost predicate IsLive(m: Machine, b: Block) {
    Live(m.heap.arenas, m.heap.free, b)
  }

  /** Memory and bookkeeping agree, and both are in order. */
  ghost predicate Sound(m: Machine, descs: nat, base: Paging) {
    && Inv(base, m.heap)
    && Coherent(m.mem, descs, |m.heap.pg.vmap|, m.heap.arenas, m.heap.free)
  }

  /** What one step does. The first two are what `KernelHeap` ensures of sys_malloc and sys_free; the third
      is a word written by the holder of a block. */
  ghost predicate Step(m: Machine, op: Op, m': Machine, descs: nat) {
    match op
    case DoMalloc(size, b, a) =>
      && Malloc(m.heap, m'.heap, size, b)
      && ValidBlock(m'.heap.arenas, b) && a == AddrOf(m'.heap.arenas, b)
      && Zeroed(m'.mem, m'.heap.arenas, b)
      && Kept(m.heap.arenas, m.heap.free, m.mem, m'.mem)
      && Coherent(m'.mem, descs, |m'.heap.pg.vmap|, m'.heap.arenas, m'.heap.free)
    case DoFree(b) =>
      && IsLive(m, b) && Free(m.heap, m'.heap, b)
      && Kept(m'.heap.arenas, m'.heap.free, m.mem, m'.mem)
      && Coherent(m'.mem, descs, |m'.heap.pg.vmap|, m'.heap.arenas, m'.heap.free)
    case DoStore(b, i, v) =>
      && IsLive(m, b) && ValidBlock(m.heap.arenas, b) && 4 * i < Capacity(m.heap.arenas, b)
      && m' == Machine(m.heap, m.mem[AddrOf(m.heap.arenas, b) + 4 * i := v])
  }

  // ----- the simple specification -----

  /** How many words a request gets. */
  function WordsFor(size: nat): nat {
    if size > 1024 then 1024 * PagesFor(size) - 3 else BlockSize(KindFor(size)) / 4
  }

  function Apply(objs: Objects, op: Op): Objects {
    match op
    case DoMalloc(size, b, a) => objs[b := Obj(a, seq(WordsFor(size), _ => 0))]
    case DoFree(b) => objs - {b}
    case DoStore(b, i, v) =>
      if b in objs && i < |objs[b].words| then objs[b := Obj(objs[b].address, objs[b].words[i := v])] else objs
  }

  ghost predicate ObjIs(m: Machine, b: Block, o: Obj) {
    && ValidBlock(m.heap.arenas, b) && o.address == AddrOf(m.heap.arenas, b)
    && 4 * |o.words| == Capacity(m.heap.arenas, b)
    && forall i :: 0 <= i < |o.words| ==> o.words[i] == At(m.mem, o.address + 4 * i)
  }

  /** The objects are the live blocks, with their addresses and words. */
  ghost predicate Agrees(m: Machine, objs: Objects) {
    && (forall b :: b in objs <==> IsLive(m, b))
    && (forall b :: b in objs ==> ObjIs(m, b, objs[b]))
  }

  // ----- one step -----

  /** A live block that keeps its words stays the same object. */
  lemma SameObj(m: Machine, m': Machine, b: Block, o: Obj)
    requires ObjIs(m, b, o)
    requires b.page in m'.heap.arenas && SameShape(m.heap.arenas[b.page], m'.heap.arenas[b.page])
    requires forall a :: InBlock(m.heap.arenas, b, a) ==> At(m'.mem, a) == At(m.mem, a)
    ensures ObjIs(m', b, o)
  {
    SameBlock(m.heap.arenas, m'.heap.arenas, b);
    forall i | 0 <= i < |o.words| ensures o.words[i] == At(m'.mem, o.address + 4 * i) {
      assert InBlock(m.heap.arenas, b, o.address + 4 * i);
    }
  }

  /** Arenas with live blocks keep their shape. */
  lemma MallocShapes(base: Paging, h: Heap, h': Heap, size: nat, b: Block, p: nat)
    requires Inv(base, h) && Malloc(h, h', size, b) && p in h.arenas
    ensures p in h'.arenas && SameShape(h.arenas[p], h'.arenas[p])
  {
    hide PageInv, BlocksOk, PagesTaken, KindFor, PagesFor;
    if size > 1024 {
      TakenNotArena(base, h, h'.pg, b.page, PagesFor(size));
    } else if !MallocOld(h, h', KindFor(size), b) {
      TakenNotArena(base, h, h'.pg, b.page, 1);
    }
  }

  lemma FreeShapes(h: Heap, h': Heap, b: Block, p: nat)
    requires Free(h, h', b) && p in h'.arenas
    ensures p in h.arenas && SameShape(h.arenas[p], h'.arenas[p])
  {
    hide PagesGiven, WithoutPage;
  }

  /** A request gets at least what it asked for. */
  lemma MallocSize(h: Heap, h': Heap, size: nat, b: Block)
    requires Malloc(h, h', size, b) && ValidBlock(h'.arenas, b) && BlocksOk(h.arenas, h.free)
    ensures 4 * WordsFor(size) == Capacity(h'.arenas, b) && size <= Capacity(h'.arenas, b)
    ensures var c := Capacity(h'.arenas, b);
            && AddrOf(h'.arenas, b) == 0xc010_0000 + 4096 * b.page + 12 + b.index * c
            && (size > 1024 ==> c < size + 4096)
            && (size <= 1024 ==> c in [16, 32, 64, 128, 256, 512, 1024] && (c == 16 || c < 2 * size))
  {
    hide PagesTaken, KindFor, CountOk, NoDup, Fresh;
    if size <= 1024 {
      var k := KindFor(size);
      BlockFits(k, 0);
      BlockSizes();
      assert k > 0 ==> BlockSize(k - 1) < size && BlockSize(k) == 2 * BlockSize(k - 1);
      if MallocOld(h, h', k, b) { assert BlockOf(h.arenas, k, h.free[k][0]); }
    }
  }

  /** Which block a small request gets, and what it leaves on the list: the first one of the list of its size, or the
      first of a new arena, whose others are then listed in order. */
  lemma MallocOrder(h: Heap, h': Heap, size: nat, b: Block, k: nat)
    requires Malloc(h, h', size, b) && k < KINDS && size <= BlockSize(k) && (k > 0 ==> BlockSize(k - 1) < size)
    ensures |h.free| == |h'.free| == KINDS && forall j :: 0 <= j < KINDS && j != k ==> h'.free[j] == h.free[j]
    ensures h.free[k] != [] ==> b == h.free[k][0] && h'.free[k] == h.free[k][1..]
    ensures h.free[k] == [] ==>
              && b.index == 0 && |h'.free[k]| == PerArena(k) - 1
              && forall i :: 0 <= i < |h'.free[k]| ==> h'.free[k][i] == Block(b.page, i + 1)
  {
    hide PagesTaken;
    assert KindFor(size) == k;
  }

  /** A block goes to the end of the list of its size; with the last of an arena in use the arena's leave the list,
      and the order of the rest stays. */
  lemma FreeOrder(h: Heap, h': Heap, b: Block)
    requires Free(h, h', b) && b.page in h.arenas && h.arenas[b.page].Small? && |h.free| == KINDS
    ensures h.arenas[b.page].kind < KINDS && |h'.free| == KINDS
    ensures var k := h.arenas[b.page].kind;
            && (forall j :: 0 <= j < KINDS && j != k ==> h'.free[j] == h.free[j])
            && (b.page in h'.arenas ==> h'.free[k] == h.free[k] + [b])
            && (b.page !in h'.arenas ==> h'.free[k] == WithoutPage(h.free[k], b.page))
            && (b.page !in h'.arenas <==> h.arenas[b.page].cnt + 1 == PerArena(k))
  {
    hide PagesGiven, WithoutPage;
  }

  lemma MallocStep(m: Machine, m': Machine, descs: nat, base: Paging, objs: Objects, size: nat, b: Block, a: nat)
    requires Sound(m, descs, base) && Agrees(m, objs) && Step(m, DoMalloc(size, b, a), m', descs)
    ensures Sound(m', descs, base) && Agrees(m', Apply(objs, DoMalloc(size, b, a)))
    ensures b !in objs && ValidBlock(m'.heap.arenas, b)
    ensures var c := Capacity(m'.heap.arenas, b);
            && 4 * |Apply(objs, DoMalloc(size, b, a))[b].words| == c && size <= c
            && a == 0xc010_0000 + 4096 * b.page + 12 + b.index * c
            && (size > 1024 ==> c < size + 4096)
            && (size <= 1024 ==> c in [16, 32, 64, 128, 256, 512, 1024] && (c == 16 || c < 2 * size))
  {
    hide Inv, Coherent, Kept, Live, Malloc, Zeroed, SameShape, WordsFor;
    MallocKeeps(base, m.heap, m'.heap, size, b);
    MallocSizeOf(base, m.heap, m'.heap, size, b);
    NewObj(m', size, b, a);
    var objs' := Apply(objs, DoMalloc(size, b, a));
    forall x | x in objs' ensures ObjIs(m', x, objs'[x]) {
      if x != b {
        assert ObjIs(m, x, objs[x]);
        MallocShapes(base, m.heap, m'.heap, size, b, x.page);
        KeptObj(m, m', x);
        SameObj(m, m', x, objs[x]);
      }
    }
  }

  lemma MallocSizeOf(base: Paging, h: Heap, h': Heap, size: nat, b: Block)
    requires Inv(base, h) && Malloc(h, h', size, b) && ValidBlock(h'.arenas, b)
    ensures 4 * WordsFor(size) == Capacity(h'.arenas, b) && size <= Capacity(h'.arenas, b)
    ensures var c := Capacity(h'.arenas, b);
            && AddrOf(h'.arenas, b) == 0xc010_0000 + 4096 * b.page + 12 + b.index * c
            && (size > 1024 ==> c < size + 4096)
            && (size <= 1024 ==> c in [16, 32, 64, 128, 256, 512, 1024] && (c == 16 || c < 2 * size))
  {
    hide Malloc, PageInv, BlocksOk, WordsFor;
    MallocSize(h, h', size, b);
  }

  lemma NewObj(m: Machine, size: nat, b: Block, a: nat)
    requires ValidBlock(m.heap.arenas, b) && a == AddrOf(m.heap.arenas, b) && Zeroed(m.mem, m.heap.arenas, b)
    requires 4 * WordsFor(size) == Capacity(m.heap.arenas, b)
    ensures ObjIs(m, b, Obj(a, seq(WordsFor(size), _ => 0)))
  {
    hide At, WordsFor;
    Block2Arena(m.heap.arenas, b);
    forall i | 0 <= i < WordsFor(size) ensures At(m.mem, a + 4 * i) == 0 {
      assert InBlock(m.heap.arenas, b, a + 4 * i);
    }
  }

  lemma KeptObj(m: Machine, m': Machine, x: Block)
    requires IsLive(m, x) && Kept(m.heap.arenas, m.heap.free, m.mem, m'.mem)
    ensures forall a :: InBlock(m.heap.arenas, x, a) ==> At(m'.mem, a) == At(m.mem, a)
  {
    hide Live, At, InBlock;
  }

  lemma FreeStep(m: Machine, m': Machine, descs: nat, base: Paging, objs: Objects, b: Block)
    requires Sound(m, descs, base) && Agrees(m, objs) && Step(m, DoFree(b), m', descs)
    ensures Sound(m', descs, base) && Agrees(m', Apply(objs, DoFree(b))) && b in objs
  {
    hide Inv, Coherent, Live, Free, SameShape;
    FreeKeeps(base, m.heap, m'.heap, b);
    var objs' := Apply(objs, DoFree(b));
    forall x | x in objs' ensures ObjIs(m', x, objs'[x]) {
      assert IsLive(m', x) && ObjIs(m, x, objs[x]);
      LivePage(m', x);
      FreeShapes(m.heap, m'.heap, b, x.page);
      SameBlock(m.heap.arenas, m'.heap.arenas, x);
      SameObj(m, m', x, objs[x]);
    }
  }

  lemma LivePage(m: Machine, x: Block)
    requires IsLive(m, x)
    ensures x.page in m.heap.arenas
  {
  }

  /** A client's write cannot damage the heap or another block. */
  lemma StoreStep(m: Machine, m': Machine, descs: nat, base: Paging, objs: Objects, b: Block, i: nat, v: nat)
    requires Sound(m, descs, base) && Agrees(m, objs) && Step(m, DoStore(b, i, v), m', descs)
    ensures Sound(m', descs, base) && Agrees(m', Apply(objs, DoStore(b, i, v)))
    ensures b in objs && i < |objs[b].words|
  {
    hide Inv, Coherent, Live, InBlock;
    var arenas, x := m.heap.arenas, AddrOf(m.heap.arenas, b) + 4 * i;
    assert ObjIs(m, b, objs[b]);
    InOwn(m, b, objs[b], i);
    LiveOff(base, m.heap, b);
    ClearStep(m.mem, m'.mem, descs, |m.heap.pg.vmap|, arenas, m.heap.free, b);
    var objs' := Apply(objs, DoStore(b, i, v));
    forall c | c in objs' ensures ObjIs(m', c, objs'[c]) {
      if c == b {
        forall j | 0 <= j < |objs[b].words| && j != i ensures objs[b].words[j] == At(m'.mem, objs[b].address + 4 * j) {
        }
      } else {
        assert ObjIs(m, c, objs[c]);
        OtherWords(base, m, b, c, x);
        SameObj(m, m', c, objs[c]);
      }
    }
  }

  lemma InOwn(m: Machine, b: Block, o: Obj, i: nat)
    requires ObjIs(m, b, o) && i < |o.words|
    ensures InBlock(m.heap.arenas, b, o.address + 4 * i)
  {
  }

  lemma LiveOff(base: Paging, h: Heap, b: Block)
    requires Inv(base, h) && Live(h.arenas, h.free, b)
    ensures OffLists(h.free, b)
  {
    hide PageInv, CountOk, NoDup;
    forall k | 0 <= k < KINDS ensures b !in h.free[k] {
      if b in h.free[k] { ListedNotLive(h.arenas, h.free, k, b); }
    }
  }

  lemma OtherWords(base: Paging, m: Machine, b: Block, c: Block, x: nat)
    requires Inv(base, m.heap) && InBlock(m.heap.arenas, b, x) && b != c
    ensures !InBlock(m.heap.arenas, c, x)
  {
    hide InBlock, RunsOk, BlocksOk;
    if InBlock(m.heap.arenas, c, x) { OneBlock(m.heap.arenas, |m.heap.pg.vmap|, b, c, x); }
  }

  // ----- runs -----

  ghost predicate IsRun(ms: seq<Machine>, ops: seq<Op>, descs: nat) {
    |ms| == |ops| + 1 && forall i :: 0 <= i < |ops| ==> Step(ms[i], ops[i], ms[i + 1], descs)
  }

  function ApplyAll(objs: Objects, ops: seq<Op>): Objects
    decreases |ops|
  {
    if ops == [] then objs else ApplyAll(Apply(objs, ops[0]), ops[1..])
  }

  /** The heap as mem_init leaves it. */
  ghost predicate Initial(m: Machine, descs: nat, base: Paging) {
    && BaseOk(base) && m.heap == Heap(base, map[], NoLists()) && Rep(m.mem, descs, map[], NoLists())
  }

  lemma InitialSound(m: Machine, descs: nat, base: Paging)
    requires Initial(m, descs, base)
    ensures Sound(m, descs, base) && Agrees(m, map[])
  {
    hide Rep;
    assert forall i :: !Covered(map[], i);
    hide Covered;
    var none: map<nat, Arena> := map[];
    assert NoLists() == m.heap.free && forall k :: 0 <= k < KINDS ==> NoLists()[k] == [];
    assert PageInv(base, base, none);
    assert BlocksOk(none, NoLists());
  }

  lemma {:induction false} RunKeeps(ms: seq<Machine>, ops: seq<Op>, descs: nat, base: Paging, objs: Objects)
    requires IsRun(ms, ops, descs) && Sound(ms[0], descs, base) && Agrees(ms[0], objs)
    ensures Sound(ms[|ops|], descs, base) && Agrees(ms[|ops|], ApplyAll(objs, ops))
    decreases |ops|
  {
    hide Sound, Agrees, Step, Apply;
    if ops != [] {
      StepKeeps(ms[0], ops[0], ms[1], descs, base, objs);
      RunKeeps(ms[1..], ops[1..], descs, base, Apply(objs, ops[0]));
    }
  }

  lemma StepKeeps(m: Machine, op: Op, m': Machine, descs: nat, base: Paging, objs: Objects)
    requires Sound(m, descs, base) && Agrees(m, objs) && Step(m, op, m', descs)
    ensures Sound(m', descs, base) && Agrees(m', Apply(objs, op))
  {
    hide Sound, Agrees, Step, Apply;
    match op
    case DoMalloc(size, b, a) => MallocStep(m, m', descs, base, objs, size, b, a);
    case DoFree(b) => FreeStep(m, m', descs, base, objs, b);
    case DoStore(b, i, v) => StoreStep(m, m', descs, base, objs, b, i, v);
  }

  /** Over every run the live blocks are the blocks the map says, where it says, with the words it says. */
  lemma HeapRefinesMap(ms: seq<Machine>, ops: seq<Op>, descs: nat, base: Paging)
    requires IsRun(ms, ops, descs) && Initial(ms[0], descs, base)
    ensures Sound(ms[|ops|], descs, base) && Agrees(ms[|ops|], ApplyAll(map[], ops))
  {
    hide Sound, Agrees, Step, Initial;
    InitialSound(ms[0], descs, base);
    RunKeeps(ms, ops, descs, base, map[]);
  }

  /** Once everything handed out is taken back, in any order, free lists, arenas, page table and both
      bitmaps are what they were at the start. */
  lemma AllFreedRestores(ms: seq<Machine>, ops: seq<Op>, descs: nat, base: Paging)
    requires IsRun(ms, ops, descs) && Initial(ms[0], descs, base)
    requires ApplyAll(map[], ops) == map[]
    ensures ms[|ops|].heap == ms[0].heap
  {
    hide Step, Inv, Coherent, Live, Rep, BaseOk;
    HeapRefinesMap(ms, ops, descs, base);
    var h := ms[|ops|].heap;
    assert forall b :: !Live(h.arenas, h.free, b) by {
      forall b ensures !Live(h.arenas, h.free, b) { assert IsLive(ms[|ops|], b) <==> b in ApplyAll(map[], ops); }
    }
    EmptyIsInitial(base, h);
  }

  /** In every reachable state a live block shares no byte with another live block, with an arena header or
      with a free block, and lies in pages that are mapped, each to a frame of its own. */
  lemma LiveBlocksApart(ms: seq<Machine>, ops: seq<Op>, descs: nat, base: Paging, b: Block, a: nat)
    requires IsRun(ms, ops, descs) && Initial(ms[0], descs, base)
    requires IsLive(ms[|ops|], b) && InBlock(ms[|ops|].heap.arenas, b, a)
    ensures var h := ms[|ops|].heap;
            && (forall c :: IsLive(ms[|ops|], c) && c != b ==> !InBlock(h.arenas, c, a))
            && (forall p :: !InHeader(h.arenas, p, a))
            && (forall k, c :: 0 <= k < KINDS <= |h.free| && c in h.free[k] ==> !InBlock(h.arenas, c, a))
            && HEAP_START <= a && PageOf(a) in h.pg.pt && Injective(h.pg.pt)
  {
    hide Step, Coherent, Live, Rep, BaseOk, Initial, InBlock, InHeader, Agrees;
    HeapRefinesMap(ms, ops, descs, base);
    var h := ms[|ops|].heap;
    hide IsRun;
    forall c | c != b ensures !InBlock(h.arenas, c, a) { OtherWords(base, ms[|ops|], b, c, a); }
    InvRuns(base, h);
    forall p ensures !InHeader(h.arenas, p, a) { NotHeader(h.arenas, |h.pg.vmap|, b, p, a); }
    LiveOff(base, h, b);
    InBlockPage(h.arenas, b, a);
    CoveredMapped(base, h, b.page, PageOf(a));
  }

  lemma InvRuns(base: Paging, h: Heap)
    requires Inv(base, h)
    ensures RunsOk(h.arenas, |h.pg.vmap|) && Injective(h.pg.pt)
  {
  }

  lemma CoveredMapped(base: Paging, h: Heap, p: nat, i: nat)
    requires Inv(base, h) && Covers(h.arenas, p, i)
    ensures i in h.pg.pt
  {
    hide BlocksOk;
    assert Covered(h.arenas, i);
  }

  /** Every small arena's count is the number of its blocks on its list, which holds none twice. */
  lemma CountsAreFreeBlocks(ms: seq<Machine>, ops: seq<Op>, descs: nat, base: Paging, p: nat)
    requires IsRun(ms, ops, descs) && Initial(ms[0], descs, base)
    requires p in ms[|ops|].heap.arenas && ms[|ops|].heap.arenas[p].Small?
    ensures var h := ms[|ops|].heap;
            && |h.free| == KINDS && h.arenas[p].kind < KINDS
            && NoDup(h.free[h.arenas[p].kind])
            && h.arenas[p].cnt == |FreeIdx(h.free[h.arenas[p].kind], p, PerArena(h.arenas[p].kind))|
            && h.arenas[p].cnt < PerArena(h.arenas[p].kind)
  {
    hide Step, Coherent, Rep, BaseOk, Initial, Agrees, PageInv;
    HeapRefinesMap(ms, ops, descs, base);
    var h := ms[|ops|].heap;
    assert KindOk(h.arenas[p]) && CountOk(h.arenas, h.free, p);
  }
}
