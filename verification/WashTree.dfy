/** What "." and ".." mean: a washed path leads through the directories' own "." and ".." entries to the same
    directory as the path it was made from. */
module WashTree {
  import opened Paths
  import opened DirEntries
  import opened DirTree
  import opened TreeRuns

  /** In every directory the first two entries are found under "." and "..". */
  lemma DotEntries(t: Tree, d: nat)
    requires TreeOk(t) && d in t
    ensures |Slots(t, d)| == ALL
    ensures FindName(Slots(t, d), ".") == 0 && Slots(t, d)[0] == Slot(".", d, Directory)
    ensures FindName(Slots(t, d), "..") == 1 && Slots(t, d)[1] == Slot("..", Up(t, d), Directory)
  {
    assert DirectoryOk(t, d);
    EntryByName(t[d], 0);
    EntryByName(t[d], 1);
  }

  lemma {:induction false} ResolveIn(t: Tree, n: nat, names: seq<string>, m: nat)
    requires TreeOk(t) && n in t && AllNames(names) && Resolve(t, n, names) == Target(m, Directory)
    ensures m in t
    decreases |names|
  {
    hide TreeOk, FindName, Slots, Plain, IsName;
    if names != [] {
      EntryLeads(t, n, names[0]);
      ResolveIn(t, Slots(t, n)[FindName(Slots(t, n), names[0])].ino, names[1..], m);
    }
  }

  /** A directory's entry leads to a directory of the tree. */
  lemma EntryLeads(t: Tree, n: nat, name: string)
    requires TreeOk(t) && n in t && IsName(name)
    ensures var p := FindName(Slots(t, n), name);
            p < |Slots(t, n)| && Slots(t, n)[p].ftype.Directory? ==>
              && Slots(t, n)[p].ino in t
              && (name != "." && name != ".." ==> Plain(Slots(t, n)[p]))
  {
    assert DirectoryOk(t, n);
    DotEntries(t, n);
    var p := FindName(Slots(t, n), name);
    if p < |Slots(t, n)| && Slots(t, n)[p].ftype.Directory? && name != "." && name != ".." {
      assert Slots(t, n)[p] != EMPTY && Slots(t, n)[p].name == name;
    }
  }

  /** The last name of a resolved path is an entry of the directory before it, whose ".." leads back. */
  lemma LastIsChild(t: Tree, dirs: seq<string>, d: nat) returns (u: nat)
    requires TreeOk(t) && Tidy(t) && dirs != [] && AllProper(dirs) && Resolve(t, 0, dirs) == Target(d, Directory)
    ensures Resolve(t, 0, dirs[..|dirs| - 1]) == Target(u, Directory) && Up(t, d) == u
  {
    u := Front(t, 0, dirs, d);
  }

  lemma {:induction false} Front(t: Tree, n: nat, dirs: seq<string>, d: nat) returns (u: nat)
    requires TreeOk(t) && Tidy(t) && n in t && dirs != [] && AllProper(dirs)
    requires Resolve(t, n, dirs) == Target(d, Directory)
    ensures Resolve(t, n, dirs[..|dirs| - 1]) == Target(u, Directory) && Up(t, d) == u
    decreases |dirs|
  {
    hide TreeOk, Tidy, Up;
    var p := FindName(Slots(t, n), dirs[0]);
    EntryLeads(t, n, dirs[0]);
    if |dirs| == 1 {
      u := n;
      assert dirs[1..] == [];
      TidyAt(t, n, p);
    } else {
      u := Front(t, Slots(t, n)[p].ino, dirs[1..], d);
      assert dirs[..|dirs| - 1][1..] == dirs[1..][..|dirs| - 2];
    }
  }

  /** Walking the names over the stack leads where following them through the tree leads. */
  lemma {:induction false} WalkLeads(t: Tree, dirs: seq<string>, d: nat, names: seq<string>, m: nat)
    requires TreeOk(t) && Tidy(t) && AllProper(dirs) && AllNames(names)
    requires Resolve(t, 0, dirs) == Target(d, Directory) && Resolve(t, d, names) == Target(m, Directory)
    ensures AllProper(Walk(dirs, names)) && Resolve(t, 0, Walk(dirs, names)) == Target(m, Directory)
    decreases |names|
  {
    hide TreeOk, Tidy, Up, IsName;
    RootIn(t);
    ResolveIn(t, 0, dirs, d);
    if names != [] {
      var x := names[0];
      var e := Slots(t, d)[FindName(Slots(t, d), x)].ino;
      DotEntries(t, d);
      if x == ".." {
        if dirs == [] {
          RootUp(t);
        } else {
          var u := LastIsChild(t, dirs, d);
        }
      } else if x != "." {
        ResolveOne(t, d, x, e);
        ResolveJoin(t, 0, dirs, [x], d);
      }
      WalkLeads(t, Enter(dirs, x), e, names[1..], m);
    }
  }

  lemma RootIn(t: Tree)
    requires TreeOk(t)
    ensures 0 in t
  {
  }

  lemma RootUp(t: Tree)
    requires TreeOk(t)
    ensures Up(t, 0) == 0
  {
  }

  /** A path to a directory and its washed form lead to the same directory. */
  lemma WashedLeads(t: Tree, p: string, m: nat)
    requires TreeOk(t) && Tidy(t) && Resolve(t, 0, Components(p)) == Target(m, Directory)
    ensures Resolve(t, 0, Components(Washed(p))) == Target(m, Directory)
  {
    hide TreeOk, Tidy, Components, IsName;
    ComponentsAreNames(p);
    assert Resolve(t, 0, []) == Target(0, Directory);
    hide Resolve;
    WalkLeads(t, [], 0, Components(p), m);
    Proper(Walk([], Components(p)));
    ParsePrint(Walk([], Components(p)));
  }

  /** A relative path followed from the working directory leads where the final path leads. */
  lemma RelativeLeads(t: Tree, dirs: seq<string>, d: nat, p: string, m: nat)
    requires TreeOk(t) && Tidy(t) && AllProper(dirs)
    requires Resolve(t, 0, dirs) == Target(d, Directory) && Resolve(t, d, Components(p)) == Target(m, Directory)
    ensures Resolve(t, 0, Components(Print(Walk(dirs, Components(p))))) == Target(m, Directory)
  {
    hide TreeOk, Tidy, Components, Resolve, IsName;
    ComponentsAreNames(p);
    WalkLeads(t, dirs, d, Components(p), m);
    Proper(Walk(dirs, Components(p)));
    ParsePrint(Walk(dirs, Components(p)));
  }

  /** What the last name leads to, a file too, is the same before and after, if the directories before it are there. */
  lemma WashedFile(t: Tree, p: string, front: seq<string>, x: string, d: nat)
    requires TreeOk(t) && Tidy(t) && Components(p) == front + [x] && x != "." && x != ".."
    requires Resolve(t, 0, front) == Target(d, Directory)
    ensures Resolve(t, 0, Components(Washed(p))) == Resolve(t, 0, Components(p))
  {
    hide TreeOk, Tidy, Components, IsName;
    ComponentsAreNames(p);
    assert AllNames(front) by { assert forall i :: 0 <= i < |front| ==> front[i] == Components(p)[i]; }
    assert x == Components(p)[|front|];
    assert Resolve(t, 0, []) == Target(0, Directory);
    hide Resolve;
    WalkLeads(t, [], 0, front, d);
    WalkLast([], front, x);
    Proper(Walk([], front));
    ParsePrint(Walk([], front) + [x]);
    ResolveJoin(t, 0, front, [x], d);
    ResolveJoin(t, 0, Walk([], front), [x], d);
  }

  lemma Proper(dirs: seq<string>)
    requires AllProper(dirs)
    ensures AllNames(dirs)
  {
  }

  lemma {:induction false} WalkLast(dirs: seq<string>, names: seq<string>, x: string)
    requires x != "." && x != ".."
    ensures Walk(dirs, names + [x]) == Walk(dirs, names) + [x]
    decreases |names|
  {
    if names == [] {
      assert [] + [x] == [x] && [x][1..] == [];
    } else {
      assert (names + [x])[1..] == names[1..] + [x];
      WalkLast(Enter(dirs, names[0]), names[1..], x);
    }
  }

  /** Washing an absolute path of fewer than 512 characters and searching for it finds what the path itself leads
      to. */
  method WashThenSearch(t: Tree, p: string, ghost m: nat) returns (washed: string, r: Search)
    requires TreeOk(t) && Tidy(t) && p != "" && p[0] == '/' && |p| < MAX_PATH
    requires forall i :: 0 <= i < |Components(p)| ==> |Components(p)[i]| <= NAME_MAX
    requires Resolve(t, 0, Components(p)) == Target(m, Directory)
    ensures r.Found? && r.ino == m && r.ftype == Directory
  {
    hide TreeOk, Tidy, Components, IsName;
    washed := WashPath(p);
    WashedLeads(t, p, m);
    WashedLength(p);
    ghost var names := Walk([], Components(p));
    ComponentsAreNames(p);
    WalkProper([], Components(p));
    RootComponents();
    if names != [] { NotRootPath(names); }
    Proper(names);
    ParsePrint(names);
    ghost var k;
    r, k := SearchFile(t, washed);
  }
}
