/** The lists that threads stand on, as they are linked through the threads' own pages: the ready list, the list
    of all threads, and the waiters of every semaphore. A thread has one element, general_tag, for the ready
    list and all the waiters lists together, and one, all_list_tag, for the list of all threads. */
module ThreadQueues {
  import opened Seqs
  import opened Lists

  const READY: nat := 0
  const EVERY: nat := 1   // thread_all_list; numbers from 2 on are waiters lists

  /** The element that the thread with its task_struct in page t has for list q. */
  function Elem(q: nat, t: nat): nat {
    4096 * t + if q == EVERY then 76 else 68
  }

  function Elems(q: nat, s: seq<nat>): (r: seq<nat>)
    ensures |r| == |s| && forall i :: 0 <= i < |s| ==> r[i] == Elem(q, s[i])
  {
    seq(|s|, i requires 0 <= i < |s| => Elem(q, s[i]))
  }

  lemma ElemsMember(q: nat, s: seq<nat>, t: nat)
    ensures Elem(q, t) in Elems(q, s) <==> t in s
  {
    if t in s {
      var i :| 0 <= i < |s| && s[i] == t;
      assert Elems(q, s)[i] == Elem(q, t);
    }
  }

  /** Two list numbers that share an element in the thread. */
  predicate SameTag(q: nat, r: nat) {
    q == EVERY <==> r == EVERY
  }

  lemma ElemsClear(q: nat, t: nat, r: nat, u: nat)
    requires t != u || !SameTag(q, r)
    ensures Clear(Elem(q, t), Elem(r, u))
  {
  }

  /** The head and the tail of the list at address a do not overlap the element at x. */
  predicate Beside(a: nat, x: nat) {
    Clear(a, x) && Clear(a + 8, x) && Clear(x, a) && Clear(x, a + 8)
  }

  /** The elements of thread t overlap no list's head or tail. */
  ghost predicate Placed(heads: seq<nat>, t: nat) {
    forall q, r: nat :: 0 <= q < |heads| ==> Beside(heads[q], Elem(r, t))
  }

  ghost predicate HeadsApart(heads: seq<nat>) {
    forall q, r :: 0 <= q < |heads| && 0 <= r < |heads| && q != r ==>
      heads[q] + 16 <= heads[r] || heads[r] + 16 <= heads[q]
  }

  /** No thread is on two lists that share its element. */
  ghost predicate OnOne(lists: seq<seq<nat>>) {
    forall q, r, t :: 0 <= q < |lists| && 0 <= r < |lists| && q != r && SameTag(q, r) && t in lists[q] ==>
      t !in lists[r]
  }

  /** t is on no list that uses the element it has for q. */
  ghost predicate Free(lists: seq<seq<nat>>, q: nat, t: nat) {
    forall r :: 0 <= r < |lists| && SameTag(q, r) ==> t !in lists[r]
  }

  /** The list with head at heads[q] links exactly the threads lists[q], for every q. */
  ghost predicate Held(w: Words, heads: seq<nat>, lists: seq<seq<nat>>) {
    && |heads| == |lists| && HeadsApart(heads) && OnOne(lists)
    && (forall q, t :: 0 <= q < |lists| && t in lists[q] ==> Placed(heads, t))
    && (forall q :: 0 <= q < |lists| ==> IsList(w, heads[q], heads[q] + 8, Elems(q, lists[q])))
  }

  function Cells(heads: seq<nat>, lists: seq<seq<nat>>, q: nat): (r: seq<nat>)
    requires |heads| == |lists| && q < |lists|
    ensures |r| == |lists[q]| + 2
    ensures forall i :: 0 <= i < |lists[q]| ==> r[i + 1] == Elem(q, lists[q][i])
  {
    Nodes(heads[q], Elems(q, lists[q]), heads[q] + 8)
  }

  /** Cells of different lists do not overlap. */
  lemma CellsApart(w: Words, heads: seq<nat>, lists: seq<seq<nat>>, q: nat, i: nat, r: nat, j: nat)
    requires Held(w, heads, lists) && q < |lists| && r < |lists| && q != r
    requires i < |lists[q]| + 2 && j < |lists[r]| + 2
    ensures Clear(Cells(heads, lists, q)[i], Cells(heads, lists, r)[j])
  {
    hide IsList, Elem;
    if 0 < i <= |lists[q]| {
      var t := lists[q][i - 1];
      assert Placed(heads, t) && Beside(heads[r], Elem(q, t));
      if 0 < j <= |lists[r]| { ElemsClear(q, t, r, lists[r][j - 1]); }
    } else if 0 < j <= |lists[r]| {
      var u := lists[r][j - 1];
      assert Placed(heads, u) && Beside(heads[q], Elem(r, u));
    }
  }

  /** A thread on no list has its element beside every cell of the lists that share it. */
  lemma FreeApart(w: Words, heads: seq<nat>, lists: seq<seq<nat>>, q: nat, t: nat, r: nat, j: nat)
    requires Held(w, heads, lists) && Placed(heads, t) && Free(lists, q, t) && r < |lists| && j < |lists[r]| + 2
    ensures Clear(Elem(q, t), Cells(heads, lists, r)[j])
  {
    hide IsList, Elem;
    assert Beside(heads[r], Elem(q, t));
    if 0 < j <= |lists[r]| { ElemsClear(q, t, r, lists[r][j - 1]); }
  }

  /** Word a belongs to a cell of list q, or to the element that thread t has for it. */
  ghost predicate WordOf(heads: seq<nat>, lists: seq<seq<nat>>, q: nat, t: nat, a: nat)
    requires |heads| == |lists| && q < |lists|
  {
    || a == Elem(q, t) || a == Elem(q, t) + 4
    || exists i :: 0 <= i < |lists[q]| + 2 && (a == Cells(heads, lists, q)[i] || a == Cells(heads, lists, q)[i] + 4)
  }

  /** A change to list q leaves the others alone. */
  lemma OtherStays(w: Words, w': Words, heads: seq<nat>, lists: seq<seq<nat>>, q: nat, t: nat, words: set<nat>, r: nat)
    requires Held(w, heads, lists) && q < |lists| && r < |lists| && q != r
    requires Placed(heads, t) && (Free(lists, q, t) || t in lists[q])
    requires Same(w, w', words) && forall a :: a in words ==> WordOf(heads, lists, q, t, a)
    ensures IsList(w', heads[r], heads[r] + 8, Elems(r, lists[r]))
  {
    hide Elem, Held, WordOf, IsList, Placed, Free, At;
    ListOf(w, heads, lists, r);
    var n := Cells(heads, lists, r);
    assert n == Nodes(heads[r], Elems(r, lists[r]), heads[r] + 8);
    forall j | 0 <= j < |n| ensures At(w', n[j]) == At(w, n[j]) && At(w', n[j] + 4) == At(w, n[j] + 4) {
      OneCell(w, heads, lists, q, t, words, r, j);
    }
    ListFrame(w, w', heads[r], heads[r] + 8, Elems(r, lists[r]));
  }

  predicate Untouched(words: set<nat>, x: nat) {
    x !in words && x + 4 !in words
  }

  lemma OneCell(w: Words, heads: seq<nat>, lists: seq<seq<nat>>, q: nat, t: nat, words: set<nat>, r: nat, j: nat)
    requires Held(w, heads, lists) && |heads| == |lists|
    requires q < |lists| && r < |lists| && q != r && j < |lists[r]| + 2
    requires Placed(heads, t) && (Free(lists, q, t) || t in lists[q])
    requires forall a :: a in words ==> WordOf(heads, lists, q, t, a)
    ensures Untouched(words, Cells(heads, lists, r)[j])
  {
    hide Held, Elem, Cells;
    var x := Cells(heads, lists, r)[j];
    ElemApart(w, heads, lists, q, t, r, j);
    forall i | 0 <= i < |lists[q]| + 2 ensures Clear(Cells(heads, lists, q)[i], x) {
      CellsApart(w, heads, lists, q, i, r, j);
    }
  }

  lemma ElemApart(w: Words, heads: seq<nat>, lists: seq<seq<nat>>, q: nat, t: nat, r: nat, j: nat)
    requires Held(w, heads, lists) && q < |lists| && r < |lists| && q != r && j < |lists[r]| + 2
    requires Placed(heads, t) && (Free(lists, q, t) || t in lists[q])
    ensures Clear(Elem(q, t), Cells(heads, lists, r)[j])
  {
    hide Placed;
    if t in lists[q] {
      var i :| 0 <= i < |lists[q]| && lists[q][i] == t;
      CellsApart(w, heads, lists, q, i + 1, r, j);
    } else {
      FreeApart(w, heads, lists, q, t, r, j);
    }
  }

  /** List q was relinked to hold s', whose threads were on it or are t. */
  lemma Relinked(w: Words, w': Words, heads: seq<nat>, lists: seq<seq<nat>>, q: nat, t: nat, words: set<nat>,
                 s: seq<nat>)
    requires Held(w, heads, lists) && q < |lists|
    requires Placed(heads, t) && (Free(lists, q, t) || t in lists[q])
    requires Same(w, w', words) && forall a :: a in words ==> WordOf(heads, lists, q, t, a)
    requires forall u :: u in s ==> u in lists[q] || u == t
    requires IsList(w', heads[q], heads[q] + 8, Elems(q, s))
    ensures Held(w', heads, lists[q := s])
  {
    hide IsList, WordOf, Same, Elem, Placed;
    forall r | 0 <= r < |lists| && r != q ensures IsList(w', heads[r], heads[r] + 8, Elems(r, lists[r])) {
      OtherStays(w, w', heads, lists, q, t, words, r);
    }
  }

  // ----- the list operations of thread.c and sync.c -----

  method Append(mem: Memory, heads: seq<nat>, ghost lists: seq<seq<nat>>, q: nat, t: nat)
    requires Held(mem.words, heads, lists) && q < |lists| && Placed(heads, t) && Free(lists, q, t)
    modifies mem
    ensures Held(mem.words, heads, lists[q := lists[q] + [t]])
  {
    hide Held, Elem, Placed, Free, IsList;
    ghost var w := mem.words;
    ListOf(w, heads, lists, q);
    assert Cells(heads, lists, q) == Nodes(heads[q], Elems(q, lists[q]), heads[q] + 8);
    forall j | 0 <= j < |lists[q]| + 2 ensures Clear(Elem(q, t), Cells(heads, lists, q)[j]) {
      FreeApart(w, heads, lists, q, t, q, j);
    }
    mem.Append(heads[q], heads[q] + 8, Elem(q, t), Elems(q, lists[q]));
    assert Elems(q, lists[q]) + [Elem(q, t)] == Elems(q, lists[q] + [t]);
    Relinked(w, mem.words, heads, lists, q, t,
             {Cells(heads, lists, q)[|lists[q]|] + 4, Elem(q, t), Elem(q, t) + 4,
              Cells(heads, lists, q)[|lists[q]| + 1]},
             lists[q] + [t]);
  }

  method Push(mem: Memory, heads: seq<nat>, ghost lists: seq<seq<nat>>, q: nat, t: nat)
    requires Held(mem.words, heads, lists) && q < |lists| && Placed(heads, t) && Free(lists, q, t)
    modifies mem
    ensures Held(mem.words, heads, lists[q := [t] + lists[q]])
  {
    hide Held, Elem, Placed, Free, IsList;
    ghost var w := mem.words;
    ListOf(w, heads, lists, q);
    assert Cells(heads, lists, q) == Nodes(heads[q], Elems(q, lists[q]), heads[q] + 8);
    forall j | 0 <= j < |lists[q]| + 2 ensures Clear(Elem(q, t), Cells(heads, lists, q)[j]) {
      FreeApart(w, heads, lists, q, t, q, j);
    }
    mem.Push(heads[q], heads[q] + 8, Elem(q, t), Elems(q, lists[q]));
    assert [Elem(q, t)] + Elems(q, lists[q]) == Elems(q, [t] + lists[q]);
    Relinked(w, mem.words, heads, lists, q, t,
             {Cells(heads, lists, q)[0] + 4, Elem(q, t), Elem(q, t) + 4, Cells(heads, lists, q)[1]},
             [t] + lists[q]);
  }

  /** list_pop; the thread is found by rounding the element's address down to its page. */
  method Pop(mem: Memory, heads: seq<nat>, ghost lists: seq<seq<nat>>, q: nat) returns (t: nat)
    requires Held(mem.words, heads, lists) && q < |lists| && lists[q] != []
    modifies mem
    ensures t == lists[q][0] && Held(mem.words, heads, lists[q := lists[q][1..]])
  {
    hide Held, Elem, Placed, IsList;
    ghost var w := mem.words;
    ListOf(w, heads, lists, q);
    var elem := mem.Pop(heads[q], heads[q] + 8, Elems(q, lists[q]));
    PageOfElem(q, lists[q][0]);
    t := elem / 4096;
    assert Elems(q, lists[q])[1..] == Elems(q, lists[q][1..]);
    Relinked(w, mem.words, heads, lists, q, t, {Cells(heads, lists, q)[0] + 4, Cells(heads, lists, q)[2]},
             lists[q][1..]);
  }

  lemma PageOfElem(q: nat, t: nat)
    ensures Elem(q, t) / 4096 == t
  {
  }

  lemma ListOf(w: Words, heads: seq<nat>, lists: seq<seq<nat>>, q: nat)
    requires Held(w, heads, lists) && q < |lists|
    ensures |heads| == |lists| && IsList(w, heads[q], heads[q] + 8, Elems(q, lists[q]))
    ensures lists[q] != [] ==> Placed(heads, lists[q][0])
  {
  }

  lemma ListNoDup(w: Words, heads: seq<nat>, lists: seq<seq<nat>>, q: nat)
    requires Held(w, heads, lists) && q < |lists|
    ensures NoDup(lists[q])
  {
    forall i, j | 0 <= i < j < |lists[q]| ensures lists[q][i] != lists[q][j] {
      SelfClash(Cells(heads, lists, q), i + 1, j + 1);
    }
  }

  /** The thread popped is on no list any more. */
  lemma PoppedIsFree(w: Words, heads: seq<nat>, lists: seq<seq<nat>>, q: nat)
    requires Held(w, heads, lists) && q < |lists| && lists[q] != []
    ensures Free(lists[q := lists[q][1..]], q, lists[q][0])
  {
    ListNoDup(w, heads, lists, q);
  }

  method Find(mem: Memory, heads: seq<nat>, ghost lists: seq<seq<nat>>, q: nat, t: nat) returns (found: bool)
    requires Held(mem.words, heads, lists) && q < |lists|
    ensures found <==> t in lists[q]
  {
    ListOf(mem.words, heads, lists, q);
    found := mem.ElemFind(heads[q], heads[q] + 8, Elem(q, t), Elems(q, lists[q]));
    ElemsMember(q, lists[q], t);
  }

  method IsEmpty(mem: Memory, heads: seq<nat>, ghost lists: seq<seq<nat>>, q: nat) returns (empty: bool)
    requires Held(mem.words, heads, lists) && q < |lists|
    ensures empty <==> lists[q] == []
  {
    ListOf(mem.words, heads, lists, q);
    empty := mem.Empty(heads[q], heads[q] + 8, Elems(q, lists[q]));
  }
}
