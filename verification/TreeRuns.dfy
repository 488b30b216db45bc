/** A directory tree over whole runs of sys_mkdir, sys_rmdir, and of creating and unlinking files. */
module TreeRuns {
  import opened Paths
  import opened DirEntries
  import opened DirTree

  /** The slots sys_mkdir writes into a new directory's first block. */
  function NewDir(n: nat, parent: nat): (f: seq<Slot>)
    ensures |f| == ALL && f[0] == Slot(".", n, Directory) && f[1] == Slot("..", parent, Directory)
    ensures forall p :: 2 <= p < ALL ==> f[p] == EMPTY
  {
    [Slot(".", n, Directory), Slot("..", parent, Directory)] + seq(ALL - 2, _ => EMPTY)
  }

  /** Inode number n is in no use. */
  ghost predicate Unused(t: Tree, n: nat) {
    n != 0 && n !in t && forall u, p :: u in t && 0 <= p < |t[u]| && Plain(t[u][p]) ==> t[u][p].ino != n
  }

  datatype Op =
    | Mkdir(parent: nat, name: string, ino: nat)
    | Creat(parent: nat, name: string, ino: nat)
    | Rmdir(parent: nat, ino: nat)
    | Unlink(parent: nat, ino: nat)

  predicate IsNew(op: Op) {
    op.Mkdir? || op.Creat?
  }

  function EntryFor(op: Op): Slot
    requires IsNew(op)
  {
    Slot(op.name, op.ino, if op.Mkdir? then Directory else Regular)
  }

  /** The entry goes into the parent, which has room, under a name it did not have; a directory starts with
      its two entries. */
  ghost predicate Grows(t: Tree, op: Op, t': Tree)
    requires IsNew(op)
  {
    && op.parent in t && op.parent < 4096 && IsName(op.name) && op.name != "." && op.name != ".."
    && Unused(t, op.ino) && !HasName(t[op.parent], op.name)
    && |t[op.parent]| == ALL && CanInsert(t[op.parent])
    && t' == (var grown := t[op.parent := Inserted(t[op.parent], EntryFor(op))];
              if op.Mkdir? then grown[op.ino := NewDir(op.ino, op.parent)] else grown)
  }

  /** A tree of the root alone. */
  lemma RootTree()
    ensures TreeOk(map[0 := NewDir(0, 0)]) && IsPath(map[0 := NewDir(0, 0)], 0, [])
  {
    NewDirOk(map[0 := NewDir(0, 0)], 0, 0);
  }

  lemma NewDirOk(t: Tree, n: nat, parent: nat)
    requires n in t && t[n] == NewDir(n, parent) && parent in t && parent < 4096
    ensures DirectoryOk(t, n) && Up(t, n) == parent
  {
  }

  /** What a step changes. */
  lemma StepShape(t: Tree, op: Op, t': Tree)
    requires IsNew(op) && Grows(t, op, t')
    ensures op.parent in t && op.parent in t' && op.ino !in t && op.ino != 0 && op.parent < 4096
    ensures forall m :: m in t' <==> m in t || (op.Mkdir? && m == op.ino)
    ensures forall m :: m in t && m != op.parent ==> t'[m] == t[m]
    ensures op.Mkdir? ==> t'[op.ino] == NewDir(op.ino, op.parent)
    ensures IsName(op.name) && EntryFor(op) != EMPTY && Plain(EntryFor(op))
  {
    hide CanInsert, Inserted, HasName;
  }

  /** One empty slot of the parent was filled. */
  lemma SlotFilled(t: Tree, op: Op, t': Tree) returns (p: nat)
    requires IsNew(op) && Grows(t, op, t') && SlotsOk(t[op.parent])
    ensures op.parent in t' && |t[op.parent]| == ALL && p < ALL && t[op.parent][p] == EMPTY
    ensures t'[op.parent] == t[op.parent][p := EntryFor(op)] && SlotsOk(t'[op.parent])
    ensures forall q :: 0 <= q < ALL && Plain(t[op.parent][q]) ==> t[op.parent][q].ino != op.ino
  {
    var f, e := t[op.parent], EntryFor(op);
    hide SlotsOk;
    p := InsertsOne(f, e);
    assert forall q :: 0 <= q < |f| && Plain(f[q]) ==> f[q].ino != e.ino;
    assert NewEntry(f, e);
    hide Inserted, CanInsert, HasName;
    FillKeeps(f, p, e);
  }

  lemma TreeDir(t: Tree, n: nat)
    requires TreeOk(t) && n in t
    ensures DirectoryOk(t, n)
  {
  }

  lemma DirParts(t: Tree, n: nat)
    requires DirectoryOk(t, n)
    ensures n in t && |t[n]| == ALL && SlotsOk(t[n])
  {
  }

  /** The parent after the entry was put in. */
  lemma ParentStill(t: Tree, op: Op, t': Tree)
    requires TreeOk(t) && IsNew(op) && Grows(t, op, t')
    ensures op.parent in t && op.parent in t' && DirectoryOk(t', op.parent) && Up(t', op.parent) == Up(t, op.parent)
    ensures forall m :: m != op.ino ==> SameFinding(t[op.parent], t'[op.parent], m)
    ensures |t'[op.parent]| == ALL && Finding(t'[op.parent], op.ino) < ALL
    ensures t'[op.parent][Finding(t'[op.parent], op.ino)] == EntryFor(op)
  {
    hide Grows, TreeOk, DirectoryOk, SlotsOk, Up, SameFinding, Finding, IsName, Plain;
    var u, e := op.parent, EntryFor(op);
    StepShape(t, op, t');
    TreeDir(t, u);
    DirParts(t, u);
    var p := SlotFilled(t, op, t');
    FilledDirectory(t, t', u, p, e);
    forall m | m != op.ino ensures SameFinding(t[u], t'[u], m) { FilledFinding(t[u], p, e, m); }
    FoundFilled(t[u], p, e);
  }

  lemma FilledDirectory(t: Tree, t': Tree, u: nat, p: nat, e: Slot)
    requires DirectoryOk(t, u) && u in t' && p < ALL && t[u][p] == EMPTY && t'[u] == t[u][p := e]
    requires SlotsOk(t'[u]) && IsName(e.name) && (e.ftype.Directory? ==> e.ino in t')
    requires forall n :: n in t ==> n in t'
    ensures DirectoryOk(t', u) && Up(t', u) == Up(t, u)
  {
    hide SlotsOk, IsName;
  }

  /** The same entry is found, at the same place or at none. */
  ghost predicate SameFinding(f: seq<Slot>, g: seq<Slot>, m: nat) {
    |g| == |f| && Finding(g, m) == Finding(f, m) && (Finding(f, m) < |f| ==> g[Finding(f, m)] == f[Finding(f, m)])
  }

  lemma {:induction false} FilledFinding(f: seq<Slot>, p: nat, e: Slot, m: nat)
    requires p < |f| && f[p] == EMPTY && e.ino != m
    ensures SameFinding(f, f[p := e], m)
  {
    if p == 0 {
      assert f[p := e][1..] == f[1..];
    } else {
      assert f[p := e][1..] == f[1..][p - 1 := e];
      FilledFinding(f[1..], p - 1, e, m);
    }
  }

  lemma {:induction false} FoundFilled(f: seq<Slot>, p: nat, e: Slot)
    requires p < |f| && Plain(e) && forall q :: 0 <= q < |f| && Plain(f[q]) ==> f[q].ino != e.ino
    ensures Finding(f[p := e], e.ino) == p
  {
    if p > 0 {
      assert f[p := e][1..] == f[1..][p - 1 := e];
      FoundFilled(f[1..], p - 1, e);
    }
  }

  /** A step keeps the tree a tree. */
  lemma StepKeepsTree(t: Tree, op: Op, t': Tree)
    requires TreeOk(t) && IsNew(op) && Grows(t, op, t')
    ensures TreeOk(t')
  {
    hide Grows, TreeOk, DirectoryOk, Up, SameFinding, Finding, IsName, Plain;
    StepShape(t, op, t');
    ParentStill(t, op, t');
    forall n | n in t' ensures DirectoryOk(t', n) {
      if n != op.ino { TreeDir(t, n); }
      if n == op.ino && op.Mkdir? {
        NewDirOk(t', n, op.parent);
      } else if n != op.parent {
        OtherStill(t, t', n);
      }
    }
    RootUp(t);
    if op.parent != 0 {
      TreeDir(t, 0);
      OtherStill(t, t', 0);
    }
    TreeOfDirs(t');
  }

  lemma RootUp(t: Tree)
    requires TreeOk(t)
    ensures 0 in t && Up(t, 0) == 0
  {
  }

  lemma TreeOfDirs(t: Tree)
    requires 0 in t && Up(t, 0) == 0 && forall n :: n in t ==> DirectoryOk(t, n)
    ensures TreeOk(t)
  {
  }

  lemma OtherStill(t: Tree, t': Tree, n: nat)
    requires DirectoryOk(t, n) && n in t' && t'[n] == t[n] && forall m :: m in t ==> m in t'
    ensures DirectoryOk(t', n) && Up(t', n) == Up(t, n)
  {
    hide SlotsOk, IsName;
  }

  /** Every directory keeps its path. */
  lemma {:induction false} StepKeepsPaths(t: Tree, op: Op, t': Tree, n: nat, names: seq<string>)
    requires TreeOk(t) && IsNew(op) && Grows(t, op, t') && IsPath(t, n, names)
    ensures IsPath(t', n, names)
    decreases |names|
  {
    hide TreeOk, Grows, ChildOf;
    if names != [] {
      StepKeepsPaths(t, op, t', Up(t, n), names[..|names| - 1]);
      StepKeepsChild(t, op, t', Up(t, n), n, names[|names| - 1]);
    }
  }

  lemma StepKeepsChild(t: Tree, op: Op, t': Tree, u: nat, n: nat, name: string)
    requires TreeOk(t) && IsNew(op) && Grows(t, op, t') && ChildOf(t, u, n, name)
    ensures ChildOf(t', u, n, name) && Up(t', n) == Up(t, n)
  {
    hide Grows, TreeOk, DirectoryOk, SlotsOk, Up, SameFinding, Finding, IsName, Plain, ChildOf;
    StepShape(t, op, t');
    ParentStill(t, op, t');
    ChildThere(t, u, n, name);
    TreeDir(t, n);
    ChildParent(t, u, n, name);
    if n != op.parent { OtherStill(t, t', n); }
    if u != op.parent { SameFindingRefl(t[u], n); }
    ChildStill(t, t', u, n, name);
  }

  lemma ChildThere(t: Tree, u: nat, n: nat, name: string)
    requires ChildOf(t, u, n, name)
    ensures n in t
  {
  }

  lemma SameFindingRefl(f: seq<Slot>, m: nat)
    ensures SameFinding(f, f, m)
  {
  }

  lemma ChildStill(t: Tree, t': Tree, u: nat, n: nat, name: string)
    requires ChildOf(t, u, n, name) && u in t && u in t' && n in t' && Up(t', n) == Up(t, n)
    requires SameFinding(t[u], t'[u], n)
    ensures ChildOf(t', u, n, name)
  {
    hide Up, Finding;
  }

  lemma ChildParent(t: Tree, u: nat, n: nat, name: string)
    requires ChildOf(t, u, n, name) && DirectoryOk(t, n)
    ensures u == Up(t, n) && u in t && n in t && n != 0
  {
  }

  /** A new directory hangs where it was made. */
  lemma MkdirHangs(t: Tree, op: Op, t': Tree, names: seq<string>)
    requires TreeOk(t) && IsNew(op) && Grows(t, op, t') && op.Mkdir? && IsPath(t, op.parent, names)
    ensures IsPath(t', op.ino, names + [op.name])
  {
    hide Grows, TreeOk, DirectoryOk, SlotsOk, Up, SameFinding, Finding, IsName, Plain, ChildOf;
    StepKeepsPaths(t, op, t', op.parent, names);
    ParentStill(t, op, t');
    StepShape(t, op, t');
    var more := names + [op.name];
    assert more[..|more| - 1] == names && more[|more| - 1] == op.name;
    NewChild(t', op.parent, op.ino, op.name);
  }

  lemma NewChild(t: Tree, u: nat, n: nat, name: string)
    requires n != 0 && n in t && t[n] == NewDir(n, u) && u in t && |t[u]| == ALL && Finding(t[u], n) < ALL
    requires t[u][Finding(t[u], n)] == Slot(name, n, Directory)
    ensures Up(t, n) == u && ChildOf(t, u, n, name)
  {
    hide Finding;
  }

  // ----- removing -----

  /** The entry goes from its parent, in whose block it is not alone unless the block is the first; a directory
      that goes is empty. */
  ghost predicate Shrinks(t: Tree, op: Op, t': Tree)
    requires !IsNew(op)
  {
    && op.parent in t && |t[op.parent]| == ALL && Finding(t[op.parent], op.ino) < ALL
    && var f, p := t[op.parent], Finding(t[op.parent], op.ino);
    && !Lone(f, p / SLOTS) && (f[p].ftype.Directory? <==> op.Rmdir?)
    && (op.Rmdir? ==>
          && op.ino in t && op.ino != op.parent && op.ino != 0
          && |t[op.ino]| == ALL && forall q :: 2 <= q < ALL ==> t[op.ino][q] == EMPTY)
    && t' == (var less := t[op.parent := Deleted(f, op.ino)]; if op.Rmdir? then less - {op.ino} else less)
  }

  /** What a removal changes. */
  lemma ShrinkShape(t: Tree, op: Op, t': Tree)
    requires !IsNew(op) && Shrinks(t, op, t')
    ensures op.parent in t && op.parent in t' && |t[op.parent]| == ALL
    ensures forall m :: m in t' <==> m in t && !(op.Rmdir? && m == op.ino)
    ensures forall m :: m in t' && m != op.parent ==> t'[m] == t[m]
    ensures var p := Finding(t[op.parent], op.ino);
            p < ALL && t'[op.parent] == t[op.parent][p := EMPTY] && Plain(t[op.parent][p])
            && t[op.parent][p].ino == op.ino
    ensures op.Rmdir? ==> op.ino in t && op.ino != op.parent && op.ino != 0
    ensures !op.Rmdir? ==> !t[op.parent][Finding(t[op.parent], op.ino)].ftype.Directory?
  {
    hide Lone;
  }

  lemma ClearedDirectory(t: Tree, t': Tree, u: nat, p: nat)
    requires DirectoryOk(t, u) && u in t' && p < ALL && Plain(t[u][p]) && t'[u] == t[u][p := EMPTY]
    requires Up(t, u) in t'
    requires forall q :: 0 <= q < ALL && q != p && Plain(t[u][q]) && t[u][q].ftype.Directory? ==> t[u][q].ino in t'
    ensures DirectoryOk(t', u) && Up(t', u) == Up(t, u)
  {
    ClearOk(t[u], p);
    hide SlotsOk, IsName;
    assert p != 0 && p != 1;
  }

  lemma {:induction false} ClearedFinding(f: seq<Slot>, p: nat, m: nat)
    requires p < |f| && Plain(f[p]) && f[p].ino != m
    ensures SameFinding(f, f[p := EMPTY], m)
  {
    if p == 0 {
      assert f[p := EMPTY][1..] == f[1..];
    } else {
      assert f[p := EMPTY][1..] == f[1..][p - 1 := EMPTY];
      ClearedFinding(f[1..], p - 1, m);
    }
  }

  /** An entry of a directory is in the directory its ".." names. */
  ghost predicate Tidy(t: Tree) {
    forall u, p :: u in t && 0 <= p < |t[u]| && Plain(t[u][p]) && t[u][p].ftype.Directory? ==> Up(t, t[u][p].ino) == u
  }

  lemma TidyAt(t: Tree, u: nat, p: nat)
    requires Tidy(t) && u in t && p < |t[u]| && Plain(t[u][p]) && t[u][p].ftype.Directory?
    ensures Up(t, t[u][p].ino) == u
  {
    hide Plain, Up;
  }

  /** Entries that were there before, or new ones that name their parent, are tidy. */
  lemma TidyFrom(t: Tree, t': Tree)
    requires Tidy(t)
    requires forall u, p :: u in t' && 0 <= p < |t'[u]| && Plain(t'[u][p]) && t'[u][p].ftype.Directory? ==>
               (u in t && p < |t[u]| && t'[u][p] == t[u][p] && Up(t', t'[u][p].ino) == Up(t, t'[u][p].ino))
               || Up(t', t'[u][p].ino) == u
    ensures Tidy(t')
  {
    hide Plain, Up;
  }

  lemma GrowTidy(t: Tree, op: Op, t': Tree)
    requires TreeOk(t) && Tidy(t) && IsNew(op) && Grows(t, op, t')
    ensures Tidy(t')
  {
    hide Grows, TreeOk, DirectoryOk, SlotsOk, IsName, Plain, Tidy, Up;
    StepShape(t, op, t');
    ParentStill(t, op, t');
    TreeDir(t, op.parent);
    DirParts(t, op.parent);
    var r := SlotFilled(t, op, t');
    forall u, p | u in t' && 0 <= p < |t'[u]| && Plain(t'[u][p]) && t'[u][p].ftype.Directory?
      ensures (u in t && p < |t[u]| && t'[u][p] == t[u][p] && Up(t', t'[u][p].ino) == Up(t, t'[u][p].ino))
              || Up(t', t'[u][p].ino) == u
    {
      if u !in t {
        NewDirPlain(op.ino, op.parent, p);
      } else if u == op.parent && p == r {
        NewUp(t', op.ino, op.parent);
      } else {
        DirTarget(t, u, p);
        SameUp(t, op, t', t[u][p].ino);
      }
    }
    TidyFrom(t, t');
  }

  lemma NewDirPlain(n: nat, parent: nat, p: nat)
    requires p < ALL
    ensures !Plain(NewDir(n, parent)[p])
  {
    assert p >= 2 ==> NewDir(n, parent)[p] == EMPTY;
  }

  lemma NewUp(t: Tree, n: nat, parent: nat)
    ensures n in t && t[n] == NewDir(n, parent) ==> Up(t, n) == parent
  {
  }

  lemma DirTarget(t: Tree, u: nat, p: nat)
    requires TreeOk(t) && u in t && p < |t[u]| && Plain(t[u][p]) && t[u][p].ftype.Directory?
    ensures t[u][p].ino in t
  {
    assert DirectoryOk(t, u);
  }

  lemma SameUp(t: Tree, op: Op, t': Tree, m: nat)
    requires TreeOk(t) && IsNew(op) && Grows(t, op, t') && m in t
    ensures m in t' && Up(t', m) == Up(t, m)
  {
    hide Grows, TreeOk, IsName, Plain, SlotsOk, DirectoryOk, Up;
    StepShape(t, op, t');
    ParentStill(t, op, t');
    TreeDir(t, m);
    if m != op.parent { OtherStill(t, t', m); }
  }

  /** Nothing hangs in an empty directory. */
  lemma EmptyHasNoChild(t: Tree, n: nat, m: nat, name: string)
    requires n in t && DirectoryOk(t, n) && forall q :: 2 <= q < ALL ==> t[n][q] == EMPTY
    ensures !ChildOf(t, n, m, name)
  {
    hide IsName;
    forall q | 0 <= q < ALL ensures !Plain(t[n][q]) {
    }
  }

  /** A directory that hangs below the one removed would be its child. */
  lemma NotBelow(t: Tree, op: Op, t': Tree, m: nat, names: seq<string>)
    requires TreeOk(t) && op.Rmdir? && Shrinks(t, op, t') && names != [] && IsPath(t, m, names)
    ensures Up(t, m) != op.ino
  {
    hide TreeOk, DirectoryOk, Lone, ChildOf, Deleted, Up;
    TreeDir(t, op.ino);
    EmptyHasNoChild(t, op.ino, m, names[|names| - 1]);
  }

  /** The directory removed hung in the parent. */
  lemma RemovedUp(t: Tree, op: Op, t': Tree)
    requires Tidy(t) && op.Rmdir? && Shrinks(t, op, t')
    ensures Up(t, op.ino) == op.parent
  {
    hide Tidy, Lone, Up;
    TidyAt(t, op.parent, Finding(t[op.parent], op.ino));
  }

  /** Every directory that stays keeps its path. */
  lemma {:induction false} ShrinkKeepsPaths(t: Tree, op: Op, t': Tree, m: nat, names: seq<string>)
    requires TreeOk(t) && !IsNew(op) && Shrinks(t, op, t') && IsPath(t, m, names) && m in t'
    ensures IsPath(t', m, names)
    decreases |names|
  {
    hide TreeOk, Shrinks, ChildOf, Up, Plain;
    ShrinkShape(t, op, t');
    if names != [] {
      var u := Up(t, m);
      PathNames(t, u, names[..|names| - 1]);
      if op.Rmdir? { NotBelow(t, op, t', m, names); }
      ShrinkKeepsPaths(t, op, t', u, names[..|names| - 1]);
      ShrinkKeepsChild(t, op, t', u, m, names[|names| - 1]);
    }
  }

  lemma ShrinkKeepsChild(t: Tree, op: Op, t': Tree, u: nat, m: nat, name: string)
    requires TreeOk(t) && !IsNew(op) && Shrinks(t, op, t') && ChildOf(t, u, m, name) && m in t' && u in t'
    ensures ChildOf(t', u, m, name) && Up(t', m) == Up(t, m)
  {
    hide TreeOk, Shrinks, DirectoryOk, SlotsOk, IsName, Plain, Up, ChildOf, SameFinding, Finding;
    ShrinkShape(t, op, t');
    TreeDir(t, m);
    ChildParent(t, u, m, name);
    ShrinkUp(t, op, t', m);
    if u == op.parent {
      ChildNotRemoved(t, op, u, m, name);
      ClearedFinding(t[u], Finding(t[u], op.ino), m);
    } else {
      SameFindingRefl(t[u], m);
    }
    ChildStill(t, t', u, m, name);
  }

  /** The child whose entry stays is not the one removed. */
  lemma ChildNotRemoved(t: Tree, op: Op, u: nat, m: nat, name: string)
    requires ChildOf(t, u, m, name) && u in t && u == op.parent && |t[u]| == ALL && Finding(t[u], op.ino) < ALL
    requires op.Rmdir? ==> m != op.ino
    requires !op.Rmdir? ==> !t[u][Finding(t[u], op.ino)].ftype.Directory?
    ensures m != op.ino
  {
  }

  lemma ShrinkUp(t: Tree, op: Op, t': Tree, m: nat)
    requires TreeOk(t) && !IsNew(op) && Shrinks(t, op, t') && m in t'
    ensures m in t && Up(t', m) == Up(t, m)
  {
    hide TreeOk, Shrinks, DirectoryOk, SlotsOk, IsName, Finding;
    ShrinkShape(t, op, t');
    if m == op.parent {
      TreeDir(t, m);
      DotsAhead(t, m, Finding(t[m], op.ino));
    }
  }

  lemma DotsAhead(t: Tree, u: nat, p: nat)
    requires DirectoryOk(t, u) && p < ALL && Plain(t[u][p])
    ensures p >= 2
  {
    hide SlotsOk, IsName;
  }

  lemma ShrinkKeepsTree(t: Tree, op: Op, t': Tree)
    requires TreeOk(t) && AllHang(t) && Tidy(t) && !IsNew(op) && Shrinks(t, op, t')
    ensures TreeOk(t') && Tidy(t')
  {
    hide TreeOk, Shrinks, DirectoryOk, SlotsOk, IsName, Plain, Up, Tidy, AllHang, Finding;
    ShrinkShape(t, op, t');
    forall m | m in t' ensures DirectoryOk(t', m) {
      ShrinkKeepsDirectory(t, op, t', m);
    }
    RootUp(t);
    ShrinkUp(t, op, t', 0);
    TreeOfDirs(t');
    forall u, p | u in t' && 0 <= p < |t'[u]| && Plain(t'[u][p]) && t'[u][p].ftype.Directory?
      ensures u in t && p < |t[u]| && t'[u][p] == t[u][p] && Up(t', t'[u][p].ino) == Up(t, t'[u][p].ino)
    {
      EmptyNotPlain();
      DirTarget(t', u, p);
      ShrinkUp(t, op, t', t'[u][p].ino);
    }
    TidyFrom(t, t');
  }

  lemma EmptyNotPlain()
    ensures !Plain(EMPTY)
  {
  }

  lemma ShrinkKeepsDirectory(t: Tree, op: Op, t': Tree, m: nat)
    requires TreeOk(t) && AllHang(t) && Tidy(t) && !IsNew(op) && Shrinks(t, op, t') && m in t'
    ensures DirectoryOk(t', m)
  {
    hide TreeOk, Shrinks, DirectoryOk, SlotsOk, IsName, Plain, Up, Tidy, AllHang, Finding;
    ShrinkShape(t, op, t');
    TreeDir(t, m);
    DirParts(t, m);
    ParentStays(t, op, t', m);
    var r := Finding(t[op.parent], op.ino);
    forall q | 0 <= q < ALL && Plain(t[m][q]) && t[m][q].ftype.Directory? && !(m == op.parent && q == r)
      ensures t[m][q].ino in t'
    {
      DirTarget(t, m, q);
      TidyAt(t, m, q);
      if op.Rmdir? {
        RemovedUp(t, op, t');
        if m == op.parent { OnlyEntry(t, m, r, q); }
      }
    }
    if m == op.parent { ClearedDirectory(t, t', m, r); } else { LessDirectory(t, t', m); }
  }

  lemma LessDirectory(t: Tree, t': Tree, m: nat)
    requires DirectoryOk(t, m) && m in t' && t'[m] == t[m] && Up(t, m) in t'
    requires forall q :: 0 <= q < ALL && Plain(t[m][q]) && t[m][q].ftype.Directory? ==> t[m][q].ino in t'
    ensures DirectoryOk(t', m)
  {
    hide SlotsOk, IsName;
  }

  /** The parent of a directory that stays, stays. */
  lemma ParentStays(t: Tree, op: Op, t': Tree, m: nat)
    requires TreeOk(t) && AllHang(t) && !IsNew(op) && Shrinks(t, op, t') && m in t'
    ensures Up(t, m) in t'
  {
    hide TreeOk, Shrinks, DirectoryOk, IsPath, Up, ChildOf, Plain, Finding;
    ShrinkShape(t, op, t');
    UpThere(t, m);
    assert HasPath(t, m);
    var names :| IsPath(t, m, names);
    if op.Rmdir? {
      if names == [] {
        RootOnly(t, m);
      } else {
        NotBelow(t, op, t', m, names);
      }
    }
  }

  lemma UpThere(t: Tree, m: nat)
    requires TreeOk(t) && m in t
    ensures Up(t, m) in t
  {
    assert DirectoryOk(t, m);
  }

  lemma RootOnly(t: Tree, m: nat)
    requires TreeOk(t) && IsPath(t, m, [])
    ensures m == 0 && Up(t, m) == 0
  {
  }

  /** Two plain entries of a directory name different inodes. */
  lemma OnlyEntry(t: Tree, u: nat, p: nat, q: nat)
    requires DirectoryOk(t, u) && p < ALL && q < ALL && q != p && Plain(t[u][p]) && Plain(t[u][q])
    ensures t[u][q].ino != t[u][p].ino
  {
  }

  // ----- runs -----

  ghost predicate Step(t: Tree, op: Op, t': Tree) {
    if IsNew(op) then Grows(t, op, t') else Shrinks(t, op, t')
  }

  ghost predicate IsRun(ts: seq<Tree>, ops: seq<Op>) {
    && |ts| == |ops| + 1 && ts[0] == map[0 := NewDir(0, 0)]
    && forall i :: 0 <= i < |ops| ==> Step(ts[i], ops[i], ts[i + 1])
  }

  /** Every directory has a path. */
  ghost predicate AllHang(t: Tree) {
    forall n :: n in t ==> HasPath(t, n)
  }

  ghost predicate HasPath(t: Tree, n: nat) {
    exists names :: IsPath(t, n, names)
  }

  /** From the root alone, whatever directories and files are made and removed, the directories form a tree
      and each hangs in it: a directory that is there has a path, and sys_getcwd prints it if it is shorter than
      512 characters. */
  lemma {:induction false} RunHangs(ts: seq<Tree>, ops: seq<Op>)
    requires IsRun(ts, ops)
    ensures TreeOk(ts[|ops|]) && AllHang(ts[|ops|]) && Tidy(ts[|ops|])
    decreases |ops|
  {
    hide TreeOk, Step, IsPath, AllHang, Tidy;
    RootTree();
    RootHangs();
    if ops != [] {
      var k := |ops| - 1;
      RunHangs(ts[..k + 1], ops[..k]);
      assert Step(ts[k], ops[k], ts[k + 1]);
      StepKeeps(ts[k], ops[k], ts[k + 1]);
    }
  }

  lemma StepKeeps(t: Tree, op: Op, t': Tree)
    requires TreeOk(t) && AllHang(t) && Tidy(t) && Step(t, op, t')
    ensures TreeOk(t') && AllHang(t') && Tidy(t')
  {
    hide TreeOk, AllHang, Tidy, Grows, Shrinks;
    if IsNew(op) {
      StepKeepsTree(t, op, t');
      GrowHangs(t, op, t');
      GrowTidy(t, op, t');
    } else {
      ShrinkKeepsTree(t, op, t');
      ShrinkHangs(t, op, t');
    }
  }

  lemma RootHangs()
    ensures AllHang(map[0 := NewDir(0, 0)]) && Tidy(map[0 := NewDir(0, 0)])
  {
    assert IsPath(map[0 := NewDir(0, 0)], 0, []);
    assert HasPath(map[0 := NewDir(0, 0)], 0);
    forall p | 0 <= p < ALL ensures !Plain(NewDir(0, 0)[p]) { NewDirPlain(0, 0, p); }
  }

  lemma GrowHangs(t: Tree, op: Op, t': Tree)
    requires TreeOk(t) && AllHang(t) && IsNew(op) && Grows(t, op, t')
    ensures AllHang(t')
  {
    hide TreeOk, IsPath, Grows, IsName, Plain;
    StepShape(t, op, t');
    forall n | n in t' ensures HasPath(t', n) {
      if n in t {
        assert HasPath(t, n);
        var names :| IsPath(t, n, names);
        StepKeepsPaths(t, op, t', n, names);
      } else {
        assert HasPath(t, op.parent);
        var names :| IsPath(t, op.parent, names);
        MkdirHangs(t, op, t', names);
      }
    }
  }

  lemma ShrinkHangs(t: Tree, op: Op, t': Tree)
    requires TreeOk(t) && AllHang(t) && !IsNew(op) && Shrinks(t, op, t')
    ensures AllHang(t')
  {
    hide TreeOk, IsPath, Shrinks, Plain, Finding;
    ShrinkShape(t, op, t');
    forall n | n in t' ensures HasPath(t', n) {
      assert HasPath(t, n);
      var names :| IsPath(t, n, names);
      ShrinkKeepsPaths(t, op, t', n, names);
    }
  }
}
