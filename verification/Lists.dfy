/** lib/kernel/list.c: intrusive doubly linked lists in word-addressed memory, and memset.

    A list element at address x keeps `prev` in the word at x and `next` in the word at x + 4. A list has
    a head and a tail sentinel; the elements between them are its contents, a sequence of addresses. */
module Lists {
  type Words = map<nat, nat>

  /** The word at address a. */
  function At(w: Words, a: nat): nat {
    if a in w then w[a] else 0
  }

  /** Two list elements, eight bytes each, do not overlap. */
  predicate Clear(x: nat, y: nat) {
    x + 8 <= y || y + 8 <= x
  }

  ghost predicate Apart(nodes: seq<nat>) {
    forall i, j :: 0 <= i < j < |nodes| ==> Clear(nodes[i], nodes[j])
  }

  ghost predicate Joined(w: Words, nodes: seq<nat>, k: nat)
    requires k + 1 < |nodes|
  {
    At(w, nodes[k] + 4) == nodes[k + 1] && At(w, nodes[k + 1]) == nodes[k]
  }

  ghost predicate Linked(w: Words, nodes: seq<nat>) {
    forall k :: 0 <= k < |nodes| - 1 ==> Joined(w, nodes, k)
  }

  function Nodes(head: nat, s: seq<nat>, tail: nat): (r: seq<nat>)
    ensures |r| == |s| + 2 && r[0] == head && r[|s| + 1] == tail
    ensures forall k :: 0 <= k < |s| ==> r[k + 1] == s[k]
  {
    [head] + s + [tail]
  }

  ghost predicate IsList(w: Words, head: nat, tail: nat, s: seq<nat>) {
    Linked(w, Nodes(head, s, tail)) && Apart(Nodes(head, s, tail))
  }

  /** The two memories agree outside S. */
  ghost predicate Same(w: Words, w': Words, S: set<nat>) {
    forall a :: a !in S ==> At(w', a) == At(w, a)
  }

  ghost function InsertAt(s: seq<nat>, k: nat, x: nat): (r: seq<nat>)
    requires k <= |s|
    ensures |r| == |s| + 1 && r[k] == x
    ensures forall i :: 0 <= i < k ==> r[i] == s[i]
    ensures forall i :: k < i <= |s| ==> r[i] == s[i - 1]
  {
    s[..k] + [x] + s[k..]
  }

  ghost function RemoveAt(s: seq<nat>, k: nat): (r: seq<nat>)
    requires k < |s|
    ensures |r| == |s| - 1
    ensures forall i :: 0 <= i < k ==> r[i] == s[i]
    ensures forall i :: k <= i < |s| - 1 ==> r[i] == s[i + 1]
  {
    s[..k] + s[k + 1..]
  }

  /** The list as it is linked determines its contents. */
  lemma {:induction false} ListIsUnique(w: Words, head: nat, tail: nat, s: seq<nat>, t: seq<nat>)
    requires IsList(w, head, tail, s) && IsList(w, head, tail, t)
    ensures s == t
  {
    hide At, Clear;
    var n, m := Nodes(head, s, tail), Nodes(head, t, tail);
    SamePrefix(w, n, m, if |n| <= |m| then |n| else |m|);
    if |s| < |t| {
      assert m[|s| + 1] == tail == m[|t| + 1];
      SelfClash(m, |s| + 1, |t| + 1);
    } else if |t| < |s| {
      assert n[|t| + 1] == tail == n[|s| + 1];
      SelfClash(n, |t| + 1, |s| + 1);
    }
    forall k | 0 <= k < |s| ensures s[k] == t[k] {
      assert n[k + 1] == m[k + 1];
    }
  }

  lemma SelfClash(n: seq<nat>, i: nat, j: nat)
    requires Apart(n) && i < j < |n|
    ensures n[i] != n[j]
  {
    assert Clear(n[i], n[j]);
  }

  lemma AtTail(head: nat, s: seq<nat>, tail: nat, k: nat)
    requires Apart(Nodes(head, s, tail)) && k <= |s|
    ensures Nodes(head, s, tail)[k + 1] == tail ==> k == |s|
  {
    if k < |s| { SelfClash(Nodes(head, s, tail), k + 1, |s| + 1); }
  }

  lemma {:induction false} SamePrefix(w: Words, n: seq<nat>, m: seq<nat>, k: nat)
    requires Linked(w, n) && Linked(w, m) && k <= |n| && k <= |m| && 0 < |n| && 0 < |m| && n[0] == m[0]
    ensures n[..k] == m[..k]
  {
    hide At;
    if k > 1 {
      SamePrefix(w, n, m, k - 1);
      assert n[k - 2] == n[..k - 1][k - 2] == m[..k - 1][k - 2] == m[k - 2];
      assert Joined(w, n, k - 2) && Joined(w, m, k - 2);
    }
  }

  /** A list stays one when none of its words changes. */
  lemma ListFrame(w: Words, w': Words, head: nat, tail: nat, s: seq<nat>)
    requires IsList(w, head, tail, s)
    requires forall k :: 0 <= k < |s| + 2 ==>
               var x := Nodes(head, s, tail)[k]; At(w', x) == At(w, x) && At(w', x + 4) == At(w, x + 4)
    ensures IsList(w', head, tail, s)
  {
    hide At, Nodes, Clear;
    var n := Nodes(head, s, tail);
    forall k | 0 <= k < |n| - 1 ensures Joined(w', n, k) {
      assert Joined(w, n, k);
      assert n[k] == Nodes(head, s, tail)[k] && n[k + 1] == Nodes(head, s, tail)[k + 1];
    }
  }

  /** The links of nodes n after the node x was put in at place k, 0 < k. */
  lemma InsertLinks(w: Words, w': Words, n: seq<nat>, k: nat, x: nat)
    requires Linked(w, n) && Apart(n) && 0 < k < |n|
    requires forall i :: 0 <= i < |n| ==> Clear(x, n[i])
    requires Same(w, w', {n[k - 1] + 4, x, x + 4, n[k]})
    requires At(w', n[k - 1] + 4) == x && At(w', x) == n[k - 1] && At(w', x + 4) == n[k] && At(w', n[k]) == x
    ensures Linked(w', InsertAt(n, k, x)) && Apart(InsertAt(n, k, x))
  {
    hide At;
    var r := InsertAt(n, k, x);
    forall i | 0 <= i < |r| - 1 ensures Joined(w', r, i) {
      if i < k - 1 {
        StillJoined(w, w', n, k, x, i);
      } else if i > k {
        StillJoined(w, w', n, k, x, i - 1);
      }
    }
    InsertApart(n, k, x);
  }

  lemma StillJoined(w: Words, w': Words, n: seq<nat>, k: nat, x: nat, i: nat)
    requires Linked(w, n) && Apart(n) && 0 < k < |n| && i + 1 < |n| && i != k - 1
    requires forall i :: 0 <= i < |n| ==> Clear(x, n[i])
    requires Same(w, w', {n[k - 1] + 4, x, x + 4, n[k]})
    ensures Joined(w', n, i)
  {
    hide At;
    assert Joined(w, n, i);
    assert Clear(x, n[i]) && Clear(x, n[i + 1]);
    ApartAt(n, i, k - 1);
    ApartAt(n, i, k);
    ApartAt(n, i + 1, k - 1);
    ApartAt(n, i + 1, k);
  }

  lemma InsertApart(n: seq<nat>, k: nat, x: nat)
    requires Apart(n) && k <= |n|
    requires forall i :: 0 <= i < |n| ==> Clear(x, n[i])
    ensures Apart(InsertAt(n, k, x))
  {
    assert forall i :: 0 <= i < |n| ==> Clear(n[i], x);
    hide Clear, InsertAt;
  }

  lemma ApartAt(n: seq<nat>, i: nat, j: nat)
    requires Apart(n) && i < |n| && j < |n|
    ensures n[i] != n[j] + 4 && n[j] != n[i] + 4
    ensures i != j ==> Clear(n[i], n[j])
  {
    if i < j { assert Clear(n[i], n[j]); }
    if j < i { assert Clear(n[j], n[i]); }
  }

  lemma OtherWords(w: Words, w': Words, n: seq<nat>, a: nat, b: nat, i: nat)
    requires Apart(n) && a < |n| && b < |n| && i < |n|
    requires Same(w, w', {n[a] + 4, n[b]})
    ensures i != b ==> At(w', n[i]) == At(w, n[i])
    ensures i != a ==> At(w', n[i] + 4) == At(w, n[i] + 4)
  {
    hide At;
    ApartAt(n, i, a);
    ApartAt(n, i, b);
  }

  lemma RemoveLinks(w: Words, w': Words, n: seq<nat>, k: nat)
    requires Linked(w, n) && Apart(n) && 0 < k < |n| - 1
    requires Same(w, w', {n[k - 1] + 4, n[k + 1]})
    requires At(w', n[k - 1] + 4) == n[k + 1] && At(w', n[k + 1]) == n[k - 1]
    ensures Linked(w', RemoveAt(n, k)) && Apart(RemoveAt(n, k))
  {
    hide At;
    var r := RemoveAt(n, k);
    forall i | 0 <= i < |r| - 1 ensures Joined(w', r, i) {
      var j := if i < k then i else i + 1;
      if i != k - 1 {
        assert Joined(w, n, j);
        OtherWords(w, w', n, k - 1, k + 1, j);
        OtherWords(w, w', n, k - 1, k + 1, j + 1);
      }
    }
    RemoveApart(n, k);
  }

  lemma RemoveApart(n: seq<nat>, k: nat)
    requires Apart(n) && k < |n|
    ensures Apart(RemoveAt(n, k))
  {
    hide Clear, RemoveAt;
  }

  /** x is one of the n words from a on. */
  predicate WordIn(a: nat, n: nat, x: nat) {
    a <= x < a + 4 * n && x % 4 == 0
  }

  lemma WordInStep(a: nat, n: nat, x: nat)
    requires a % 4 == 0
    ensures WordIn(a, n + 1, x) <==> WordIn(a, n, x) || x == a + 4 * n
  {
  }

  class Memory {
    var words: Words

    constructor (w: Words)
      ensures words == w
    {
      words := w;
    }

    method Write(a: nat, v: nat)
      modifies this
      ensures words == old(words)[a := v]
    {
      words := words[a := v];
    }

    /** Clear n words. */
    method Memset(a: nat, n: nat)
      requires a % 4 == 0
      modifies this
      ensures forall x :: WordIn(a, n, x) ==> At(words, x) == 0
      ensures forall x :: !WordIn(a, n, x) ==> At(words, x) == At(old(words), x)
    {
      var i := 0;
      while i < n
        invariant i <= n
        invariant forall x :: WordIn(a, i, x) ==> At(words, x) == 0
        invariant forall x :: !WordIn(a, i, x) ==> At(words, x) == At(old(words), x)
      {
        forall x ensures WordIn(a, i + 1, x) <==> WordIn(a, i, x) || x == a + 4 * i {
          WordInStep(a, i, x);
        }
        ghost var w := words;
        words := words[a + 4 * i := 0];
        forall x | WordIn(a, i + 1, x) ensures At(words, x) == 0 {
          assert x != a + 4 * i ==> WordIn(a, i, x) && At(w, x) == 0;
        }
        i := i + 1;
      }
    }

    method ListInit(head: nat, tail: nat)
      requires Clear(head, tail)
      modifies this
      ensures IsList(words, head, tail, [])
      ensures Same(old(words), words, {head, head + 4, tail, tail + 4})
    {
      words := words[head := 0];
      words := words[head + 4 := tail];
      words := words[tail := head];
      words := words[tail + 4 := 0];
    }

    /** Put elem in front of `before`, which is at place k of the contents or the tail. */
    method InsertBefore(before: nat, elem: nat, ghost head: nat, ghost tail: nat, ghost s: seq<nat>, ghost k: nat)
      requires IsList(words, head, tail, s) && k <= |s|
      requires before == Nodes(head, s, tail)[k + 1]
      requires forall i :: 0 <= i < |s| + 2 ==> Clear(elem, Nodes(head, s, tail)[i])
      modifies this
      ensures IsList(words, head, tail, InsertAt(s, k, elem))
      ensures Same(old(words), words, {Nodes(head, s, tail)[k] + 4, elem, elem + 4, before})
    {
      ghost var n := Nodes(head, s, tail);
      ghost var w := words;
      assert Joined(words, n, k) && Clear(elem, n[k]) && Clear(elem, n[k + 1]);
      ApartAt(n, k, k + 1);
      words := words[At(words, before) + 4 := elem];
      words := words[elem := At(words, before)];
      words := words[elem + 4 := before];
      words := words[before := elem];
      InsertLinks(w, words, n, k + 1, elem);
      assert InsertAt(n, k + 1, elem) == Nodes(head, InsertAt(s, k, elem), tail);
    }

    method Push(head: nat, tail: nat, elem: nat, ghost s: seq<nat>)
      requires IsList(words, head, tail, s)
      requires forall i :: 0 <= i < |s| + 2 ==> Clear(elem, Nodes(head, s, tail)[i])
      modifies this
      ensures IsList(words, head, tail, [elem] + s)
      ensures Same(old(words), words, {head + 4, elem, elem + 4, Nodes(head, s, tail)[1]})
    {
      assert Joined(words, Nodes(head, s, tail), 0);
      InsertBefore(At(words, head + 4), elem, head, tail, s, 0);
      assert InsertAt(s, 0, elem) == [elem] + s;
    }

    method Append(head: nat, tail: nat, elem: nat, ghost s: seq<nat>)
      requires IsList(words, head, tail, s)
      requires forall i :: 0 <= i < |s| + 2 ==> Clear(elem, Nodes(head, s, tail)[i])
      modifies this
      ensures IsList(words, head, tail, s + [elem])
      ensures Same(old(words), words, {Nodes(head, s, tail)[|s|] + 4, elem, elem + 4, tail})
    {
      InsertBefore(tail, elem, head, tail, s, |s|);
      assert InsertAt(s, |s|, elem) == s + [elem];
    }

    /** Take the element at place k out of its list. */
    method Remove(elem: nat, ghost head: nat, ghost tail: nat, ghost s: seq<nat>, ghost k: nat)
      requires IsList(words, head, tail, s) && k < |s| && elem == s[k]
      modifies this
      ensures IsList(words, head, tail, RemoveAt(s, k))
      ensures Same(old(words), words, {Nodes(head, s, tail)[k] + 4, Nodes(head, s, tail)[k + 2]})
    {
      ghost var n := Nodes(head, s, tail);
      ghost var w := words;
      assert n[k + 1] == elem;
      assert Joined(words, n, k) && Joined(words, n, k + 1);
      ApartAt(n, k, k + 1);
      ApartAt(n, k + 1, k + 2);
      ApartAt(n, k, k + 2);
      words := words[At(words, elem) + 4 := At(words, elem + 4)];
      words := words[At(words, elem + 4) := At(words, elem)];
      RemoveLinks(w, words, n, k + 1);
      assert RemoveAt(n, k + 1) == Nodes(head, RemoveAt(s, k), tail);
    }

    method Pop(head: nat, ghost tail: nat, ghost s: seq<nat>) returns (elem: nat)
      requires IsList(words, head, tail, s) && s != []
      modifies this
      ensures elem == s[0] && IsList(words, head, tail, s[1..])
      ensures Same(old(words), words, {head + 4, Nodes(head, s, tail)[2]})
    {
      assert Joined(words, Nodes(head, s, tail), 0);
      elem := At(words, head + 4);
      Remove(elem, head, tail, s, 0);
      assert RemoveAt(s, 0) == s[1..];
    }

    method Empty(head: nat, tail: nat, ghost s: seq<nat>) returns (empty: bool)
      requires IsList(words, head, tail, s)
      ensures empty <==> s == []
    {
      ghost var n := Nodes(head, s, tail);
      assert Joined(words, n, 0);
      if n[1] == tail { AtTail(head, s, tail, 0); }
      return At(words, head + 4) == tail;
    }

    method ElemFind(head: nat, tail: nat, elem: nat, ghost s: seq<nat>) returns (found: bool)
      requires IsList(words, head, tail, s)
      ensures found <==> elem in s
    {
      ghost var n := Nodes(head, s, tail);
      assert Joined(words, n, 0);
      var e := At(words, head + 4);
      ghost var k := 0;
      while e != tail
        invariant k <= |s| && e == n[k + 1] && elem !in s[..k]
        decreases |s| - k
      {
        if e == elem { return true; }
        k := k + 1;
        assert Joined(words, n, k);
        e := At(words, e + 4);
      }
      AtTail(head, s, tail, k);
      assert s == s[..k];
      return false;
    }

    /** The first element that meets p, or NULL. */
    method Traversal(head: nat, tail: nat, p: nat -> bool, ghost s: seq<nat>) returns (elem: nat)
      requires IsList(words, head, tail, s)
      ensures if exists k :: 0 <= k < |s| && p(s[k])
              then exists k :: 0 <= k < |s| && elem == s[k] && p(s[k]) && forall i :: 0 <= i < k ==> !p(s[i])
              else elem == 0
    {
      ghost var n := Nodes(head, s, tail);
      assert Joined(words, n, 0);
      elem := At(words, head + 4);
      var empty := Empty(head, tail, s);
      if empty { return 0; }
      ghost var k := 0;
      while elem != tail
        invariant k <= |s| && elem == n[k + 1] && forall i :: 0 <= i < k ==> !p(s[i])
        decreases |s| - k
      {
        assert k < |s| ==> n[k + 1] == s[k];
        if p(elem) { return elem; }
        k := k + 1;
        assert Joined(words, n, k);
        elem := At(words, elem + 4);
      }
      AtTail(head, s, tail, k);
      return 0;
    }

    /** The length of the list. */
    method Len(head: nat, tail: nat, ghost s: seq<nat>) returns (length: nat)
      requires IsList(words, head, tail, s)
      ensures length == |s|
    {
      hide At, Clear;
      ghost var n := Nodes(head, s, tail);
      assert Joined(words, n, 0);
      var elem := At(words, head + 4);
      length := 0;
      while elem != tail
        invariant length <= |s| && elem == n[length + 1]
        decreases |s| - length
      {
        length := length + 1;
        assert Joined(words, n, length);
        elem := At(words, elem + 4);
      }
      AtTail(head, s, tail, length);
    }
  }
}
