/** How the heap's state is written down in memory, and which writes leave which part of it alone. */
module HeapLinks {
  import opened Lists
  import opened HeapState
  import opened HeapSteps
  import opened HeapMemory

  predicate DescIs(w: Words, descs: nat, k: nat)
    requires k < KINDS
  {
    At(w, DescAddr(descs, k)) == BlockSize(k) && At(w, DescAddr(descs, k) + 4) == PerArena(k)
  }

  /** struct arena: desc, cnt, large. */
  predicate HeaderIs(w: Words, descs: nat, p: nat, a: Arena) {
    match a
    case Small(k, c) =>
      At(w, PageAddr(p)) == DescAddr(descs, k) && At(w, PageAddr(p) + 4) == c && At(w, PageAddr(p) + 8) == 0
    case Large(n) =>
      At(w, PageAddr(p)) == 0 && At(w, PageAddr(p) + 4) == n && At(w, PageAddr(p) + 8) == 1
  }

  function Addrs(k: nat, s: seq<Block>): (r: seq<nat>)
    requires k < KINDS
    ensures |r| == |s| && forall i :: 0 <= i < |s| ==> r[i] == BlockAddr(k, s[i])
  {
    seq(|s|, i requires 0 <= i < |s| => BlockAddr(k, s[i]))
  }

  ghost predicate ListIs(w: Words, descs: nat, k: nat, s: seq<Block>)
    requires k < KINDS
  {
    IsList(w, Head(descs, k), Tail(descs, k), Addrs(k, s))
  }

  /** Memory w holds the heap with these arenas and free lists. */
  ghost predicate Rep(w: Words, descs: nat, arenas: map<nat, Arena>, free: seq<seq<Block>>) {
    && DescsFit(descs) && |free| == KINDS
    && (forall k :: 0 <= k < KINDS ==> DescIs(w, descs, k))
    && (forall p :: p in arenas ==> HeaderIs(w, descs, p, arenas[p]))
    && (forall k :: 0 <= k < KINDS ==> ListIs(w, descs, k, free[k]))
  }

  // ----- places -----

  /** The places list k links, in order. */
  function Places(k: nat, s: seq<Block>): (r: seq<Place>)
    ensures |r| == |s| + 2
  {
    [HeadOf(k)] + seq(|s|, i requires 0 <= i < |s| => Node(s[i])) + [TailOf(k)]
  }

  lemma PlacesAre(descs: nat, arenas: map<nat, Arena>, free: seq<seq<Block>>, k: nat, i: nat)
    requires ListsOk(arenas, free) && k < KINDS && i < |free[k]| + 2
    ensures ValidPlace(arenas, Places(k, free[k])[i])
    ensures PlaceAddr(descs, arenas, Places(k, free[k])[i])
         == Nodes(Head(descs, k), Addrs(k, free[k]), Tail(descs, k))[i]
    ensures Places(k, free[k])[i].Node? ==> Places(k, free[k])[i].block in free[k]
    ensures Places(k, free[k])[i].HeadOf? ==> Places(k, free[k])[i] == HeadOf(k)
    ensures Places(k, free[k])[i].TailOf? ==> Places(k, free[k])[i] == TailOf(k)
  {
    if 0 < i <= |free[k]| {
      assert BlockOf(arenas, k, free[k][i - 1]);
    }
  }

  predicate WordOf(descs: nat, arenas: map<nat, Arena>, q: Place, a: nat) {
    ValidPlace(arenas, q) && (a == PlaceAddr(descs, arenas, q) || a == PlaceAddr(descs, arenas, q) + 4)
  }

  /** Only words of the places Q differ. */
  ghost predicate OnlyPlaces(descs: nat, arenas: map<nat, Arena>, w: Words, w': Words, Q: set<Place>) {
    && (forall q :: q in Q ==> ValidPlace(arenas, q))
    && (forall a :: (forall q :: q in Q ==> !WordOf(descs, arenas, q, a)) ==> At(w', a) == At(w, a))
  }

  /** Live blocks keep their words. */
  ghost predicate Kept(arenas: map<nat, Arena>, free: seq<seq<Block>>, w: Words, w': Words) {
    forall b, a :: Live(arenas, free, b) && InBlock(arenas, b, a) ==> At(w', a) == At(w, a)
  }

  lemma NodeWord(descs: nat, arenas: map<nat, Arena>, q: Place, a: nat)
    requires WordOf(descs, arenas, q, a) && q.Node?
    ensures InBlock(arenas, q.block, a)
  {
  }

  lemma DescWord(descs: nat, arenas: map<nat, Arena>, q: Place, a: nat, k: nat)
    requires DescsFit(descs) && WordOf(descs, arenas, q, a)
    ensures k < KINDS ==> a != DescAddr(descs, k) && a != DescAddr(descs, k) + 4
    ensures !q.Node? ==> a + 4 <= HEAP_START
  {
    if q.Node? { InBlockPage(arenas, q.block, a); }
  }

  /** A place's words are no header's. */
  lemma PlaceNotHeader(descs: nat, arenas: map<nat, Arena>, size: nat, q: Place, a: nat, p: nat)
    requires RunsOk(arenas, size) && DescsFit(descs) && WordOf(descs, arenas, q, a)
    ensures !InHeader(arenas, p, a)
  {
    if q.Node? {
      NotHeader(arenas, size, q.block, p, a);
    }
  }

  lemma OtherPlace(descs: nat, arenas: map<nat, Arena>, size: nat, q: Place, r: Place, a: nat)
    requires RunsOk(arenas, size) && DescsFit(descs) && WordOf(descs, arenas, q, a) && q != r
    ensures !WordOf(descs, arenas, r, a)
  {
    if ValidPlace(arenas, r) { PlacesApart(descs, arenas, size, q, r); }
  }

  /** Relinking leaves descriptors and headers alone. */
  lemma RelinkHeaders(descs: nat, arenas: map<nat, Arena>, size: nat, w: Words, w': Words, Q: set<Place>)
    requires RunsOk(arenas, size) && DescsFit(descs) && OnlyPlaces(descs, arenas, w, w', Q)
    ensures forall k :: 0 <= k < KINDS && DescIs(w, descs, k) ==> DescIs(w', descs, k)
    ensures forall p, a :: p in arenas && HeaderIs(w, descs, p, a) ==> HeaderIs(w', descs, p, a)
  {
    hide At, WordOf;
    forall k | 0 <= k < KINDS && DescIs(w, descs, k) ensures DescIs(w', descs, k) {
      forall q, a | q in Q && WordOf(descs, arenas, q, a)
        ensures a != DescAddr(descs, k) && a != DescAddr(descs, k) + 4
      {
        DescWord(descs, arenas, q, a, k);
      }
    }
    forall p, a | p in arenas && HeaderIs(w, descs, p, a) ensures HeaderIs(w', descs, p, a) {
      forall q, x | q in Q && WordOf(descs, arenas, q, x) ensures !InHeader(arenas, p, x) {
        PlaceNotHeader(descs, arenas, size, q, x, p);
      }
    }
  }

  /** ... and the lists that link none of the places. */
  lemma RelinkList(descs: nat, arenas: map<nat, Arena>, size: nat, free: seq<seq<Block>>,
                   w: Words, w': Words, Q: set<Place>, k: nat)
    requires RunsOk(arenas, size) && DescsFit(descs) && OnlyPlaces(descs, arenas, w, w', Q)
    requires |free| == KINDS && ListsOk(arenas, free) && k < KINDS && ListIs(w, descs, k, free[k])
    requires forall i :: 0 <= i < |free[k]| + 2 ==> Places(k, free[k])[i] !in Q
    ensures ListIs(w', descs, k, free[k])
  {
    hide At, WordOf, ListsOk, RunsOk, Places, PlaceAddr, Nodes, Addrs, IsList;
    var n := Nodes(Head(descs, k), Addrs(k, free[k]), Tail(descs, k));
    forall i | 0 <= i < |free[k]| + 2 ensures At(w', n[i]) == At(w, n[i]) && At(w', n[i] + 4) == At(w, n[i] + 4) {
      var r := Places(k, free[k])[i];
      PlacesAre(descs, arenas, free, k, i);
      OwnWords(descs, arenas, r);
      forall q | q in Q ensures !WordOf(descs, arenas, q, n[i]) && !WordOf(descs, arenas, q, n[i] + 4) {
        OtherPlace(descs, arenas, size, r, q, n[i]);
        OtherPlace(descs, arenas, size, r, q, n[i] + 4);
      }
    }
    ListFrame(w, w', Head(descs, k), Tail(descs, k), Addrs(k, free[k]));
  }

  lemma OwnWords(descs: nat, arenas: map<nat, Arena>, r: Place)
    requires ValidPlace(arenas, r)
    ensures WordOf(descs, arenas, r, PlaceAddr(descs, arenas, r))
    ensures WordOf(descs, arenas, r, PlaceAddr(descs, arenas, r) + 4)
  {
  }

  /** ... and live blocks. */
  lemma RelinkLive(descs: nat, arenas: map<nat, Arena>, size: nat, free: seq<seq<Block>>,
                   w: Words, w': Words, Q: set<Place>)
    requires RunsOk(arenas, size) && DescsFit(descs) && OnlyPlaces(descs, arenas, w, w', Q)
    requires forall b :: Node(b) in Q ==> !Live(arenas, free, b)
    ensures Kept(arenas, free, w, w')
  {
    hide At, WordOf, Live, RunsOk, InBlock;
    forall b, a | Live(arenas, free, b) && InBlock(arenas, b, a) ensures At(w', a) == At(w, a) {
      forall q | q in Q ensures !WordOf(descs, arenas, q, a) {
        LiveNotPlace(descs, arenas, size, free, b, a, q);
      }
    }
  }

  lemma LiveNotPlace(descs: nat, arenas: map<nat, Arena>, size: nat, free: seq<seq<Block>>, b: Block, a: nat, q: Place)
    requires RunsOk(arenas, size) && DescsFit(descs) && Live(arenas, free, b) && InBlock(arenas, b, a)
    requires q.Node? ==> !Live(arenas, free, q.block)
    ensures !WordOf(descs, arenas, q, a)
  {
    hide Live, RunsOk, InBlock;
    if WordOf(descs, arenas, q, a) {
      if q.Node? {
        NodeWord(descs, arenas, q, a);
        OneBlock(arenas, size, b, q.block, a);
      } else {
        DescWord(descs, arenas, q, a, KINDS);
        InBlockPage(arenas, b, a);
      }
    }
  }

  lemma KeptTrans(arenas: map<nat, Arena>, free: seq<seq<Block>>, w: Words, w1: Words, w2: Words)
    requires Kept(arenas, free, w, w1) && Kept(arenas, free, w1, w2)
    ensures Kept(arenas, free, w, w2)
  {
    hide Live, InBlock, At;
  }

  // ----- list k changes -----

  /** A place that list k may link. */
  predicate BelongsTo(arenas: map<nat, Arena>, k: nat, q: Place)
    requires k < KINDS
  {
    match q
    case HeadOf(j) => j == k
    case TailOf(j) => j == k
    case Node(b) => BlockOf(arenas, k, b)
  }

  lemma NotInOtherList(arenas: map<nat, Arena>, free: seq<seq<Block>>, k: nat, j: nat, i: nat)
    requires ListsOk(arenas, free) && k < KINDS && j < KINDS && j != k && i < |free[j]| + 2
    ensures !BelongsTo(arenas, k, Places(j, free[j])[i])
  {
    if 0 < i <= |free[j]| { assert BlockOf(arenas, j, free[j][i - 1]); }
  }

  /** When list k is relinked the rest of the heap stays as it is. */
  lemma RelinkRep(descs: nat, arenas: map<nat, Arena>, size: nat, free: seq<seq<Block>>,
                  w: Words, w': Words, Q: set<Place>, k: nat, s: seq<Block>)
    requires Rep(w, descs, arenas, free) && RunsOk(arenas, size) && ListsOk(arenas, free) && k < KINDS
    requires OnlyPlaces(descs, arenas, w, w', Q) && ListIs(w', descs, k, s)
    requires forall q :: q in Q ==> BelongsTo(arenas, k, q)
    ensures Rep(w', descs, arenas, free[k := s])
  {
    hide OnlyPlaces, RunsOk, ListIs, DescIs, HeaderIs, BelongsTo, Places;
    RelinkHeaders(descs, arenas, size, w, w', Q);
    forall j | 0 <= j < KINDS && j != k ensures ListIs(w', descs, j, free[j]) {
      forall i | 0 <= i < |free[j]| + 2 ensures Places(j, free[j])[i] !in Q {
        NotInOtherList(arenas, free, k, j, i);
      }
      RelinkList(descs, arenas, size, free, w, w', Q, j);
    }
  }

  /** A block that is not on its list overlaps none of the list's nodes. */
  lemma BlockClear(descs: nat, arenas: map<nat, Arena>, size: nat, free: seq<seq<Block>>, k: nat, b: Block)
    requires RunsOk(arenas, size) && ListsOk(arenas, free) && DescsFit(descs)
    requires k < KINDS && BlockOf(arenas, k, b) && b !in free[k]
    ensures forall i :: 0 <= i < |free[k]| + 2 ==>
              Clear(BlockAddr(k, b), Nodes(Head(descs, k), Addrs(k, free[k]), Tail(descs, k))[i])
  {
    hide RunsOk, Clear, Nodes, Places;
    forall i | 0 <= i < |free[k]| + 2
      ensures Clear(BlockAddr(k, b), Nodes(Head(descs, k), Addrs(k, free[k]), Tail(descs, k))[i])
    {
      PlacesAre(descs, arenas, free, k, i);
      PlacesApart(descs, arenas, size, Node(b), Places(k, free[k])[i]);
    }
  }

  /** Changing one word behind one place and all of others is changing places only. */
  lemma WordsAreOfPlaces(descs: nat, arenas: map<nat, Arena>, w: Words, w': Words, q1: Place, q2: Place, q3: Place)
    requires ValidPlace(arenas, q1) && ValidPlace(arenas, q2) && ValidPlace(arenas, q3)
    requires Same(w, w', {PlaceAddr(descs, arenas, q1) + 4, PlaceAddr(descs, arenas, q2),
                          PlaceAddr(descs, arenas, q2) + 4, PlaceAddr(descs, arenas, q3)})
    ensures OnlyPlaces(descs, arenas, w, w', {q1, q2, q3})
  {
    hide At, ValidPlace;
    forall a | forall q :: q in {q1, q2, q3} ==> !WordOf(descs, arenas, q, a) ensures At(w', a) == At(w, a) {
      assert !WordOf(descs, arenas, q1, a) && !WordOf(descs, arenas, q2, a) && !WordOf(descs, arenas, q3, a);
    }
  }

  lemma PlaceBelongs(arenas: map<nat, Arena>, free: seq<seq<Block>>, k: nat, i: nat)
    requires ListsOk(arenas, free) && k < KINDS && i < |free[k]| + 2
    ensures BelongsTo(arenas, k, Places(k, free[k])[i])
    ensures Places(k, free[k])[i].Node? ==> Places(k, free[k])[i].block in free[k]
  {
    if 0 < i <= |free[k]| { assert BlockOf(arenas, k, free[k][i - 1]); }
  }

  /** Block b was appended to list k. */
  lemma AppendRep(descs: nat, arenas: map<nat, Arena>, size: nat, free: seq<seq<Block>>,
                  w: Words, w': Words, k: nat, b: Block)
    requires Rep(w, descs, arenas, free) && RunsOk(arenas, size) && ListsOk(arenas, free)
    requires k < KINDS && BlockOf(arenas, k, b) && b !in free[k]
    requires IsList(w', Head(descs, k), Tail(descs, k), Addrs(k, free[k]) + [BlockAddr(k, b)])
    requires Same(w, w', {Nodes(Head(descs, k), Addrs(k, free[k]), Tail(descs, k))[|free[k]|] + 4,
                          BlockAddr(k, b), BlockAddr(k, b) + 4, Tail(descs, k)})
    ensures Rep(w', descs, arenas, free[k := free[k] + [b]])
    ensures forall free' :: !Live(arenas, free', b) && (forall x :: x in free[k] ==> !Live(arenas, free', x)) ==>
              Kept(arenas, free', w, w')
  {
    hide Rep, RunsOk, ListsOk, IsList, Nodes, Places, PlaceAddr, Same, Live, Kept;
    assert DescsFit(descs) && |free| == KINDS by { RepParts(w, descs, arenas, free); }
    var q := Places(k, free[k])[|free[k]|];
    PlacesAre(descs, arenas, free, k, |free[k]|);
    PlaceBelongs(arenas, free, k, |free[k]|);
    NodePlace(descs, arenas, k, b);
    WordsAreOfPlaces(descs, arenas, w, w', q, Node(b), TailOf(k));
    assert Addrs(k, free[k] + [b]) == Addrs(k, free[k]) + [BlockAddr(k, b)];
    RelinkRep(descs, arenas, size, free, w, w', {q, Node(b), TailOf(k)}, k, free[k] + [b]);
    forall free' | !Live(arenas, free', b) && (forall x :: x in free[k] ==> !Live(arenas, free', x))
      ensures Kept(arenas, free', w, w')
    {
      RelinkLive(descs, arenas, size, free', w, w', {q, Node(b), TailOf(k)});
    }
  }

  lemma RepParts(w: Words, descs: nat, arenas: map<nat, Arena>, free: seq<seq<Block>>)
    requires Rep(w, descs, arenas, free)
    ensures DescsFit(descs) && |free| == KINDS
  {
  }

  lemma NodePlace(descs: nat, arenas: map<nat, Arena>, k: nat, b: Block)
    requires k < KINDS && BlockOf(arenas, k, b)
    ensures ValidPlace(arenas, Node(b)) && PlaceAddr(descs, arenas, Node(b)) == BlockAddr(k, b)
    ensures ValidPlace(arenas, TailOf(k)) && PlaceAddr(descs, arenas, TailOf(k)) == Tail(descs, k)
    ensures ValidPlace(arenas, HeadOf(k)) && PlaceAddr(descs, arenas, HeadOf(k)) == Head(descs, k)
  {
  }

  function Dropped(s: seq<Block>, i: nat): (r: seq<Block>)
    requires i < |s|
    ensures |r| == |s| - 1
  {
    s[..i] + s[i + 1..]
  }

  /** The element at place i of list k was removed. */
  lemma RemoveRep(descs: nat, arenas: map<nat, Arena>, size: nat, free: seq<seq<Block>>,
                  w: Words, w': Words, k: nat, i: nat)
    requires Rep(w, descs, arenas, free) && RunsOk(arenas, size) && ListsOk(arenas, free)
    requires k < KINDS && i < |free[k]|
    requires IsList(w', Head(descs, k), Tail(descs, k), RemoveAt(Addrs(k, free[k]), i))
    requires Same(w, w', {Nodes(Head(descs, k), Addrs(k, free[k]), Tail(descs, k))[i] + 4,
                          Nodes(Head(descs, k), Addrs(k, free[k]), Tail(descs, k))[i + 2]})
    ensures Rep(w', descs, arenas, free[k := Dropped(free[k], i)])
    ensures forall free' :: (forall x :: x in free[k] ==> !Live(arenas, free', x)) ==> Kept(arenas, free', w, w')
  {
    hide Rep, RunsOk, ListsOk, IsList, Nodes, Places, PlaceAddr, Live, Kept;
    assert DescsFit(descs) && |free| == KINDS by { RepParts(w, descs, arenas, free); }
    var q, r := Places(k, free[k])[i], Places(k, free[k])[i + 2];
    PlacesAre(descs, arenas, free, k, i);
    PlacesAre(descs, arenas, free, k, i + 2);
    PlaceBelongs(arenas, free, k, i);
    PlaceBelongs(arenas, free, k, i + 2);
    WordsAreOfPlaces(descs, arenas, w, w', q, r, r);
    assert Addrs(k, Dropped(free[k], i)) == RemoveAt(Addrs(k, free[k]), i);
    RelinkRep(descs, arenas, size, free, w, w', {q, r, r}, k, Dropped(free[k], i));
    forall free' | forall x :: x in free[k] ==> !Live(arenas, free', x) ensures Kept(arenas, free', w, w') {
      RelinkLive(descs, arenas, size, free', w, w', {q, r, r});
    }
  }

  // ----- writes elsewhere -----

  predicate ListWord(arenas: map<nat, Arena>, free: seq<seq<Block>>, k: nat, c: Block, a: nat)
    requires |free| == KINDS
  {
    k < KINDS && c in free[k] && InBlock(arenas, c, a)
  }

  /** a is not part of what Rep looks at. */
  ghost predicate Elsewhere(arenas: map<nat, Arena>, free: seq<seq<Block>>, a: nat)
    requires |free| == KINDS
  {
    && HEAP_START <= a && (forall p :: !InHeader(arenas, p, a)) && (forall k, c :: !ListWord(arenas, free, k, c, a))
  }

  lemma RepFrame(descs: nat, arenas: map<nat, Arena>, free: seq<seq<Block>>, w: Words, w': Words)
    requires Rep(w, descs, arenas, free) && ListsOk(arenas, free)
    requires forall a :: !Elsewhere(arenas, free, a) ==> At(w', a) == At(w, a)
    ensures Rep(w', descs, arenas, free)
  {
    hide At, IsList, Elsewhere, ListsOk;
    assert forall a: nat :: a < HEAP_START ==> !Elsewhere(arenas, free, a) by { LowNotElsewhere(arenas, free); }
    forall k | 0 <= k < KINDS ensures DescIs(w', descs, k) {
      assert DescIs(w, descs, k) && DescAddr(descs, k) + 4 < HEAP_START;
    }
    forall p | p in arenas ensures HeaderIs(w', descs, p, arenas[p]) {
      forall a | InHeader(arenas, p, a) ensures At(w', a) == At(w, a) {
        HeaderNotElsewhere(arenas, free, p, a);
      }
      assert InHeader(arenas, p, PageAddr(p)) && InHeader(arenas, p, PageAddr(p) + 4)
             && InHeader(arenas, p, PageAddr(p) + 8);
    }
    forall k | 0 <= k < KINDS ensures ListIs(w', descs, k, free[k]) {
      ListElsewhere(descs, arenas, free, w, w', k);
    }
  }

  lemma LowNotElsewhere(arenas: map<nat, Arena>, free: seq<seq<Block>>)
    requires |free| == KINDS
    ensures forall a: nat :: a < HEAP_START ==> !Elsewhere(arenas, free, a)
  {
  }

  lemma HeaderNotElsewhere(arenas: map<nat, Arena>, free: seq<seq<Block>>, p: nat, a: nat)
    requires |free| == KINDS && InHeader(arenas, p, a)
    ensures !Elsewhere(arenas, free, a)
  {
  }

  lemma ListElsewhere(descs: nat, arenas: map<nat, Arena>, free: seq<seq<Block>>, w: Words, w': Words, k: nat)
    requires |free| == KINDS && k < KINDS && ListIs(w, descs, k, free[k]) && ListsOk(arenas, free) && DescsFit(descs)
    requires forall a :: !Elsewhere(arenas, free, a) ==> At(w', a) == At(w, a)
    ensures ListIs(w', descs, k, free[k])
  {
    hide At, IsList, ListsOk, Places, PlaceAddr, WordOf, Nodes, Addrs;
    var n := Nodes(Head(descs, k), Addrs(k, free[k]), Tail(descs, k));
    forall i | 0 <= i < |free[k]| + 2 ensures At(w', n[i]) == At(w, n[i]) && At(w', n[i] + 4) == At(w, n[i] + 4) {
      var r := Places(k, free[k])[i];
      PlacesAre(descs, arenas, free, k, i);
      OwnWords(descs, arenas, r);
      PlaceNotElsewhere(descs, arenas, free, k, r, n[i]);
      PlaceNotElsewhere(descs, arenas, free, k, r, n[i] + 4);
    }
    ListFrame(w, w', Head(descs, k), Tail(descs, k), Addrs(k, free[k]));
  }

  lemma PlaceNotElsewhere(descs: nat, arenas: map<nat, Arena>, free: seq<seq<Block>>, k: nat, r: Place, a: nat)
    requires |free| == KINDS && k < KINDS && DescsFit(descs)
    requires WordOf(descs, arenas, r, a) && (r.Node? ==> r.block in free[k])
    ensures !Elsewhere(arenas, free, a)
  {
    DescWord(descs, arenas, r, a, KINDS);
    if r.Node? {
      NodeWord(descs, arenas, r, a);
      assert ListWord(arenas, free, k, r.block, a);
    }
  }

  ghost predicate OffLists(free: seq<seq<Block>>, b: Block) {
    |free| == KINDS && forall k :: 0 <= k < KINDS ==> b !in free[k]
  }

  /** Writing into a block that is on no list. */
  lemma BlockWrites(descs: nat, arenas: map<nat, Arena>, size: nat, free: seq<seq<Block>>, w: Words, w': Words,
                    b: Block)
    requires Rep(w, descs, arenas, free) && RunsOk(arenas, size) && ListsOk(arenas, free)
    requires ValidBlock(arenas, b) && OffLists(free, b)
    requires forall a :: !InBlock(arenas, b, a) ==> At(w', a) == At(w, a)
    ensures Rep(w', descs, arenas, free)
    ensures forall c, a :: c != b && InBlock(arenas, c, a) ==> At(w', a) == At(w, a)
  {
    hide At, Rep, ListsOk, RunsOk, InBlock, InHeader;
    RepParts(w, descs, arenas, free);
    forall a | InBlock(arenas, b, a) ensures Elsewhere(arenas, free, a) {
      InBlockPage(arenas, b, a);
      forall p ensures !InHeader(arenas, p, a) { NotHeader(arenas, size, b, p, a); }
      forall k, c ensures !ListWord(arenas, free, k, c, a) {
        if ListWord(arenas, free, k, c, a) { OneBlock(arenas, size, b, c, a); }
      }
    }
    RepFrame(descs, arenas, free, w, w');
    forall c, a | c != b && InBlock(arenas, c, a) ensures At(w', a) == At(w, a) {
      if InBlock(arenas, b, a) { OneBlock(arenas, size, b, c, a); }
    }
  }

  /** Writing into pages that belong to no arena. */
  lemma FreshWrites(descs: nat, arenas: map<nat, Arena>, size: nat, free: seq<seq<Block>>,
                    w: Words, w': Words, p: nat, n: nat)
    requires Rep(w, descs, arenas, free) && RunsOk(arenas, size) && ListsOk(arenas, free)
    requires forall i :: InRun(p, n, i) ==> !Covered(arenas, i)
    requires forall a :: !InPages(p, n, a) ==> At(w', a) == At(w, a)
    ensures Rep(w', descs, arenas, free)
    ensures forall c, a :: InBlock(arenas, c, a) ==> At(w', a) == At(w, a)
  {
    hide At, Rep, ListsOk, RunsOk, InBlock, InHeader, InPages, Covered, InRun;
    RepParts(w, descs, arenas, free);
    forall a | InPages(p, n, a) ensures Elsewhere(arenas, free, a) {
      FreshPages(arenas, size, p, n, a);
    }
    RepFrame(descs, arenas, free, w, w');
    forall c, a | InBlock(arenas, c, a) ensures At(w', a) == At(w, a) {
      if InPages(p, n, a) { FreshPages(arenas, size, p, n, a); }
    }
  }

  /** Writing the header of arena p. */
  lemma HeaderWrites(descs: nat, arenas: map<nat, Arena>, size: nat, free: seq<seq<Block>>,
                     w: Words, w': Words, p: nat, c: nat)
    requires Rep(w, descs, arenas, free) && RunsOk(arenas, size) && ListsOk(arenas, free)
    requires p in arenas && arenas[p].Small? && arenas[p].kind < KINDS
    requires w' == w[PageAddr(p) + 4 := c]
    ensures Rep(w', descs, arenas[p := Small(arenas[p].kind, c)], free)
    ensures forall b, a :: InBlock(arenas, b, a) ==> At(w', a) == At(w, a)
  {
    hide ListsOk, RunsOk, InBlock, IsList;
    var x := PageAddr(p) + 4;
    assert InHeader(arenas, p, x);
    forall k | 0 <= k < KINDS ensures ListIs(w', descs, k, free[k]) {
      HeaderNotList(descs, arenas, size, free, w, w', p, k, x);
    }
    var arenas' := arenas[p := Small(arenas[p].kind, c)];
    forall q | q in arenas' ensures HeaderIs(w', descs, q, arenas'[q]) {
      assert HeaderIs(w, descs, q, arenas[q]);
      assert PageAddr(q) != x && PageAddr(q) + 8 != x && (q != p ==> PageAddr(q) + 4 != x);
    }
    forall k | 0 <= k < KINDS ensures DescIs(w', descs, k) {
      assert DescIs(w, descs, k);
    }
    forall b, a | InBlock(arenas, b, a) ensures a != x {
      NotHeader(arenas, size, b, p, a);
    }
  }

  lemma HeaderNotList(descs: nat, arenas: map<nat, Arena>, size: nat, free: seq<seq<Block>>,
                      w: Words, w': Words, p: nat, k: nat, x: nat)
    requires |free| == KINDS && k < KINDS && ListIs(w, descs, k, free[k]) && ListsOk(arenas, free) && DescsFit(descs)
    requires RunsOk(arenas, size) && InHeader(arenas, p, x)
    requires forall a :: a != x ==> At(w', a) == At(w, a)
    ensures ListIs(w', descs, k, free[k])
  {
    hide At, IsList, ListsOk, RunsOk, Places, PlaceAddr, WordOf, Nodes, Addrs, InHeader;
    var n := Nodes(Head(descs, k), Addrs(k, free[k]), Tail(descs, k));
    forall i | 0 <= i < |free[k]| + 2 ensures n[i] != x && n[i] + 4 != x {
      var r := Places(k, free[k])[i];
      PlacesAre(descs, arenas, free, k, i);
      OwnWords(descs, arenas, r);
      PlaceNotHeader(descs, arenas, size, r, n[i], p);
      PlaceNotHeader(descs, arenas, size, r, n[i] + 4, p);
    }
    ListFrame(w, w', Head(descs, k), Tail(descs, k), Addrs(k, free[k]));
  }
}
