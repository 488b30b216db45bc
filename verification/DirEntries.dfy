/** A directory as the sequence of its slots: 21 to a block, 12 direct and 128 indirect blocks, a missing
    block counting as empty slots. What its entries mean, and what inserting and deleting one does. */
module DirEntries {
  datatype FileType = Unknown | Regular | Directory

  datatype Slot = Slot(name: string, ino: nat, ftype: FileType)

  const SLOTS: nat := 21
  const DIRECT: nat := 12 * SLOTS
  const ALL: nat := 140 * SLOTS
  const ENTRY_SIZE: nat := 24
  const EMPTY: Slot := Slot("", 0, Unknown)

  predicate IsDot(s: Slot) {
    s.name == "." || s.name == ".."
  }

  /** The used slots in order. */
  function Live(f: seq<Slot>): (r: seq<Slot>)
    ensures forall s :: s in r <==> s in f && !s.ftype.Unknown?
  {
    if f == [] then [] else (if f[0].ftype.Unknown? then [] else [f[0]]) + Live(f[1..])
  }

  /** Unused slots are clear, names are not empty and differ, and so do inode numbers, but for "." and "..". */
  ghost predicate SlotsOk(f: seq<Slot>) {
    && (forall p :: 0 <= p < |f| ==> (f[p].ftype.Unknown? <==> f[p] == EMPTY))
    && (forall p :: 0 <= p < |f| && f[p] != EMPTY ==> f[p].name != "")
    && (forall p, q :: 0 <= p < q < |f| && f[p] != EMPTY && f[q] != EMPTY ==> f[p].name != f[q].name)
    && (forall p, q :: 0 <= p < q < |f| && Plain(f[p]) && Plain(f[q]) ==> f[p].ino != f[q].ino)
  }

  /** An entry other than "." and "..". */
  predicate Plain(s: Slot) {
    s != EMPTY && !IsDot(s)
  }

  /** i_size counts the entries. */
  ghost predicate DirOk(f: seq<Slot>, size: nat) {
    |f| == ALL && SlotsOk(f) && size == ENTRY_SIZE * |Live(f)|
  }

  lemma {:induction false} LiveUpdate(f: seq<Slot>, p: nat, s: Slot)
    requires p < |f|
    ensures |Live(f[p := s])| + (if f[p].ftype.Unknown? then 0 else 1)
         == |Live(f)| + (if s.ftype.Unknown? then 0 else 1)
  {
    if p == 0 {
      assert f[p := s][1..] == f[1..];
    } else {
      assert f[p := s][1..] == f[1..][p - 1 := s];
      LiveUpdate(f[1..], p - 1, s);
    }
  }

  lemma {:induction false} LiveJoin(f: seq<Slot>, g: seq<Slot>)
    ensures Live(f + g) == Live(f) + Live(g)
  {
    if f == [] {
      assert f + g == g;
    } else {
      assert (f + g)[1..] == f[1..] + g;
      LiveJoin(f[1..], g);
    }
  }

  lemma {:induction false} LiveNone(f: seq<Slot>)
    requires forall p :: 0 <= p < |f| ==> f[p].ftype.Unknown?
    ensures Live(f) == []
  {
    if f != [] { LiveNone(f[1..]); }
  }

  // ----- names -----

  ghost predicate HasName(f: seq<Slot>, name: string) {
    exists p :: 0 <= p < |f| && f[p] != EMPTY && f[p].name == name
  }

  /** The directory as a finite map from names to entries. */
  ghost function AsMap(f: seq<Slot>): (m: map<string, Slot>)
    requires SlotsOk(f)
    ensures forall n :: n in m <==> HasName(f, n)
    ensures forall p :: 0 <= p < |f| && f[p] != EMPTY ==> f[p].name in m && m[f[p].name] == f[p]
    ensures forall n :: n in m ==> m[n] in f && m[n].name == n && m[n] != EMPTY
  {
    var names := set p | 0 <= p < |f| && f[p] != EMPTY :: f[p].name;
    map n | n in names :: Named(f, n)
  }

  ghost function Named(f: seq<Slot>, n: string): (s: Slot)
    requires HasName(f, n)
    ensures s in f && s != EMPTY && s.name == n
  {
    var p :| 0 <= p < |f| && f[p] != EMPTY && f[p].name == n;
    f[p]
  }

  /** The first unused slot, or |f|. */
  function FirstFree(f: seq<Slot>): (p: nat)
    ensures p <= |f| && (p < |f| ==> f[p].ftype.Unknown?)
    ensures forall q :: 0 <= q < p ==> !f[q].ftype.Unknown?
  {
    if f == [] || f[0].ftype.Unknown? then 0
    else
      var r := FirstFree(f[1..]);
      assert forall q :: 1 <= q < 1 + r ==> f[q] == f[1..][q - 1];
      1 + r
  }

  /** sync_dir_entry on the slots. It looks for room in the direct blocks only; without any it starts a new
      indirect table, whatever the directory had of one. */
  function Inserted(f: seq<Slot>, e: Slot): (r: seq<Slot>)
    requires |f| == ALL
    ensures |r| == ALL
  {
    var p := FirstFree(f[..DIRECT]);
    if p < DIRECT then f[p := e] else f[..DIRECT] + [e] + seq(ALL - DIRECT - 1, _ => EMPTY)
  }

  /** Room in the direct blocks, or no entry behind them. */
  predicate CanInsert(f: seq<Slot>)
    requires |f| == ALL
  {
    FirstFree(f[..DIRECT]) < DIRECT || forall p :: DIRECT <= p < ALL ==> f[p] == EMPTY
  }

  /** With room, inserting fills one empty slot. */
  lemma InsertsOne(f: seq<Slot>, e: Slot) returns (p: nat)
    requires |f| == ALL && SlotsOk(f) && CanInsert(f)
    ensures p < ALL && f[p] == EMPTY && Inserted(f, e) == f[p := e]
  {
    p := FirstFree(f[..DIRECT]);
    if p < DIRECT {
      assert f[p] == f[..DIRECT][p];
    } else {
      p := DIRECT;
      assert Inserted(f, e) == f[p := e];
    }
  }

  ghost predicate NewEntry(f: seq<Slot>, e: Slot) {
    && e.name != "" && !e.ftype.Unknown? && !HasName(f, e.name) && Plain(e)
    && forall p :: 0 <= p < |f| && Plain(f[p]) ==> f[p].ino != e.ino
  }

  /** Inserting a new name updates the map, and i_size grows by one entry. */
  lemma InsertIsUpdate(f: seq<Slot>, size: nat, e: Slot)
    requires DirOk(f, size) && NewEntry(f, e) && CanInsert(f)
    ensures DirOk(Inserted(f, e), size + ENTRY_SIZE)
    ensures AsMap(Inserted(f, e)) == AsMap(f)[e.name := e]
  {
    var p := InsertsOne(f, e);
    LiveUpdate(f, p, e);
    hide Inserted, Live, CanInsert;
    FillKeeps(f, p, e);
  }

  lemma FillKeeps(f: seq<Slot>, p: nat, e: Slot)
    requires SlotsOk(f) && NewEntry(f, e) && p < |f| && f[p] == EMPTY
    ensures SlotsOk(f[p := e]) && AsMap(f[p := e]) == AsMap(f)[e.name := e]
  {
    var g := f[p := e];
    FillOk(f, p, e);
    assert g[p] == e;
    hide SlotsOk, HasName;
    forall n ensures HasName(g, n) <==> HasName(f, n) || n == e.name {
      NamesFilled(f, p, e, n);
    }
    forall n | HasName(f, n) ensures AsMap(g)[n] == AsMap(f)[n] {
      OtherValue(f, g, p, n);
    }
  }

  lemma NamesFilled(f: seq<Slot>, p: nat, e: Slot, n: string)
    requires p < |f| && f[p] == EMPTY && e != EMPTY
    ensures HasName(f[p := e], n) <==> HasName(f, n) || n == e.name
  {
    var g := f[p := e];
    if HasName(f, n) {
      var q :| 0 <= q < |f| && f[q] != EMPTY && f[q].name == n;
      assert g[q] == f[q];
    }
    if n == e.name { assert g[p] != EMPTY && g[p].name == n; }
  }

  /** A name found in both, in a slot other than the changed one, means the same entry. */
  lemma OtherValue(f: seq<Slot>, g: seq<Slot>, p: nat, n: string)
    requires SlotsOk(f) && SlotsOk(g) && p < |f| == |g| && g == f[p := g[p]]
    requires HasName(f, n) && HasName(g, n) && (f[p] != EMPTY ==> f[p].name != n)
    ensures AsMap(g)[n] == AsMap(f)[n]
  {
    var q :| 0 <= q < |f| && f[q] != EMPTY && f[q].name == n;
    assert g[q] == f[q];
    assert AsMap(f)[n] == f[q] && AsMap(g)[n] == g[q];
  }

  lemma FillOk(f: seq<Slot>, p: nat, e: Slot)
    requires SlotsOk(f) && NewEntry(f, e) && p < |f| && f[p] == EMPTY
    ensures SlotsOk(f[p := e])
  {
    hide IsDot;
  }

  /** Without room an insert loses every entry behind the direct blocks: all other names stay if and only if
      there was room or nothing there. */
  lemma InsertKeepsOthersIff(f: seq<Slot>, size: nat, e: Slot)
    requires DirOk(f, size) && NewEntry(f, e)
    ensures (forall n :: HasName(f, n) ==> HasName(Inserted(f, e), n)) <==> CanInsert(f)
  {
    if CanInsert(f) {
      InsertIsUpdate(f, size, e);
    } else {
      var p :| DIRECT <= p < ALL && f[p] != EMPTY;
      assert HasName(f, f[p].name);
      var g := Inserted(f, e);
      assert g == f[..DIRECT] + [e] + seq(ALL - DIRECT - 1, _ => EMPTY);
      forall q | 0 <= q < ALL && g[q] != EMPTY ensures g[q].name != f[p].name {
        if q < DIRECT { assert g[q] == f[q]; }
      }
    }
  }

  // ----- deleting -----

  /** The slot of the plain entry with this inode number, or |f|. */
  function Finding(f: seq<Slot>, ino: nat): (p: nat)
    ensures p <= |f| && (p < |f| ==> Plain(f[p]) && f[p].ino == ino)
    ensures forall q :: 0 <= q < p ==> !(Plain(f[q]) && f[q].ino == ino)
  {
    if f == [] || (Plain(f[0]) && f[0].ino == ino) then 0
    else
      var r := Finding(f[1..], ino);
      assert forall q :: 1 <= q < 1 + r ==> f[q] == f[1..][q - 1];
      1 + r
  }

  /** The first slot with this inode number, whatever its name. */
  function FirstIno(f: seq<Slot>, ino: nat): (p: nat)
    ensures p <= |f| && (p < |f| ==> f[p].ino == ino)
    ensures forall q :: 0 <= q < p ==> f[q].ino != ino
  {
    if f == [] || f[0].ino == ino then 0
    else
      var r := FirstIno(f[1..], ino);
      assert forall q :: 1 <= q < 1 + r ==> f[q] == f[1..][q - 1];
      1 + r
  }

  /** The slots of block i. */
  function BlockAt(f: seq<Slot>, i: nat): (b: seq<Slot>)
    requires |f| == ALL && i < 140
    ensures |b| == SLOTS
  {
    f[SLOTS * i..SLOTS * i + SLOTS]
  }

  function PlainCount(b: seq<Slot>): nat {
    if b == [] then 0 else (if Plain(b[0]) then 1 else 0) + PlainCount(b[1..])
  }

  predicate HasDot(b: seq<Slot>) {
    exists p :: 0 <= p < |b| && b[p] != EMPTY && b[p].name == "."
  }

  /** The block at i holds one plain entry and is not the directory's first. */
  predicate Lone(f: seq<Slot>, i: nat)
    requires |f| == ALL && i < 140
  {
    PlainCount(BlockAt(f, i)) == 1 && !HasDot(BlockAt(f, i))
  }

  /** The entry at p is the only one of its block, beside "..", and the block is not the first, which has ".". */
  predicate AloneAt(f: seq<Slot>, p: nat)
    requires |f| == ALL && p < ALL
  {
    forall q :: SLOTS * (p / SLOTS) <= q < SLOTS * (p / SLOTS) + SLOTS && q != p ==>
      f[q] == EMPTY || f[q].name == ".."
  }

  lemma AloneIsLone(f: seq<Slot>, p: nat)
    requires |f| == ALL && p < ALL && Plain(f[p])
    ensures p / SLOTS < 140 && (Lone(f, p / SLOTS) <==> AloneAt(f, p))
  {
    var b, i, j := BlockAt(f, p / SLOTS), p / SLOTS, p % SLOTS;
    assert p == SLOTS * i + j && b[j] == f[p];
    OnlyPlain(b, j);
    if AloneAt(f, p) {
      forall l | 0 <= l < SLOTS && l != j ensures b[l] == EMPTY || b[l].name == ".." {
        assert b[l] == f[SLOTS * i + l];
      }
    }
    if Lone(f, i) {
      forall q | SLOTS * i <= q < SLOTS * i + SLOTS && q != p ensures f[q] == EMPTY || f[q].name == ".." {
        assert b[q - SLOTS * i] == f[q];
      }
    }
  }

  lemma {:induction false} OnlyPlain(b: seq<Slot>, j: nat)
    requires j < |b| && Plain(b[j])
    ensures PlainCount(b) == 1 <==> forall l :: 0 <= l < |b| && l != j ==> !Plain(b[l])
  {
    if j == 0 {
      CountZero(b[1..]);
      if forall l :: 0 <= l < |b| && l != j ==> !Plain(b[l]) {
        assert forall l :: 0 <= l < |b[1..]| ==> b[1..][l] == b[l + 1];
      }
      if forall l :: 0 <= l < |b[1..]| ==> !Plain(b[1..][l]) {
        assert forall l :: 0 < l < |b| ==> b[l] == b[1..][l - 1];
      }
    } else {
      OnlyPlain(b[1..], j - 1);
      CountSome(b[1..], j - 1);
      assert forall l :: 0 < l < |b| ==> b[l] == b[1..][l - 1];
    }
  }

  lemma {:induction false} CountZero(b: seq<Slot>)
    ensures PlainCount(b) == 0 <==> forall l :: 0 <= l < |b| ==> !Plain(b[l])
  {
    if b != [] {
      CountZero(b[1..]);
      assert forall l :: 0 < l < |b| ==> b[l] == b[1..][l - 1];
    }
  }

  lemma CountSome(b: seq<Slot>, j: nat)
    requires j < |b| && Plain(b[j])
    ensures PlainCount(b) > 0
  {
    CountZero(b);
  }

  /** What a delete leaves. */
  lemma DeletedPlace(f: seq<Slot>, ino: nat)
    requires |f| == ALL
    ensures var p := Finding(f, ino);
            Deleted(f, ino) == if p == ALL || AloneAt(f, p) then f else f[p := EMPTY]
  {
    var p := Finding(f, ino);
    if p < ALL { AloneIsLone(f, p); }
  }

  /** Clearing a slot removes its name from the map. */
  lemma ClearIsRemove(f: seq<Slot>, size: nat, p: nat)
    requires DirOk(f, size) && p < ALL && f[p] != EMPTY
    ensures size >= ENTRY_SIZE && DirOk(f[p := EMPTY], size - ENTRY_SIZE)
    ensures AsMap(f[p := EMPTY]) == AsMap(f) - {f[p].name}
  {
    LiveUpdate(f, p, EMPTY);
    hide Live;
    ClearKeeps(f, p);
  }

  lemma ClearKeeps(f: seq<Slot>, p: nat)
    requires SlotsOk(f) && p < |f| && f[p] != EMPTY
    ensures SlotsOk(f[p := EMPTY]) && AsMap(f[p := EMPTY]) == AsMap(f) - {f[p].name}
  {
    var g := f[p := EMPTY];
    ClearOk(f, p);
    hide SlotsOk, HasName;
    assert g[p] == EMPTY;
    forall n ensures HasName(g, n) <==> HasName(f, n) && n != f[p].name {
      NamesCleared(f, p, n);
    }
    forall n | HasName(g, n) ensures AsMap(g)[n] == AsMap(f)[n] {
      OtherValue(f, g, p, n);
    }
  }

  lemma NamesCleared(f: seq<Slot>, p: nat, n: string)
    requires SlotsOk(f) && p < |f| && f[p] != EMPTY
    ensures HasName(f[p := EMPTY], n) <==> HasName(f, n) && n != f[p].name
  {
    var g := f[p := EMPTY];
    if HasName(f, n) && n != f[p].name {
      var q :| 0 <= q < |f| && f[q] != EMPTY && f[q].name == n;
      assert g[q] == f[q];
    }
    if HasName(g, n) {
      var q :| 0 <= q < |g| && g[q] != EMPTY && g[q].name == n;
      OneSlot(f, p, q);
    }
  }

  lemma ClearOk(f: seq<Slot>, p: nat)
    requires SlotsOk(f) && p < |f|
    ensures SlotsOk(f[p := EMPTY])
  {
    hide IsDot;
  }

  lemma OneSlot(f: seq<Slot>, p: nat, q: nat)
    requires SlotsOk(f) && p < |f| && q < |f| && p != q && f[p] != EMPTY && f[q] != EMPTY
    ensures f[p].name != f[q].name
  {
  }

  /** delete_dir_entry on the slots: the lone entry of a block that is not the first stays where it is. */
  function Deleted(f: seq<Slot>, ino: nat): (r: seq<Slot>)
    requires |f| == ALL
    ensures |r| == ALL
  {
    var p := Finding(f, ino);
    if p == ALL || Lone(f, p / SLOTS) then f else f[p := EMPTY]
  }

  /** A deleted entry can no longer be found if and only if it was not alone in a block behind the first. */
  lemma DeleteRemovesIff(f: seq<Slot>, size: nat, ino: nat)
    requires DirOk(f, size) && Finding(f, ino) < ALL
    ensures var p := Finding(f, ino);
            && (!HasName(Deleted(f, ino), f[p].name) <==> !Lone(f, p / SLOTS))
            && (!Lone(f, p / SLOTS) ==>
                  && size >= ENTRY_SIZE && DirOk(Deleted(f, ino), size - ENTRY_SIZE)
                  && AsMap(Deleted(f, ino)) == AsMap(f) - {f[p].name})
  {
    hide Lone, SlotsOk;
    var p := Finding(f, ino);
    if Lone(f, p / SLOTS) {
      assert HasName(f, f[p].name);
    } else {
      ClearIsRemove(f, size, p);
      assert f[p].name !in AsMap(Deleted(f, ino));
    }
  }

  lemma {:induction false} NonePlain(b: seq<Slot>)
    requires forall p :: 0 <= p < |b| ==> b[p] == EMPTY
    ensures PlainCount(b) == 0
  {
    if b != [] { NonePlain(b[1..]); }
  }
}
