/** The climb of sys_getcwd through ".." entries and the descent of search_file, on a tree of directories.
    A directory is the sequence of its slots; `Directories` shows how these are read from the disk. */
module DirTree {
  import opened Paths
  import opened DirEntries

  const MAX_PATH: nat := 512

  /** The slots of every directory, by inode number; 0 is the root. */
  type Tree = map<nat, seq<Slot>>

  function Slots(t: Tree, n: nat): seq<Slot> {
    if n in t then t[n] else []
  }

  /** get_parent_dir_inode_nr: the second slot of the first block. */
  function Up(t: Tree, n: nat): nat {
    if |Slots(t, n)| > 1 then Slots(t, n)[1].ino else 0
  }

  /** A directory starts with "." and ".."; all names are such as a path can hold; entries of directories
      lead to directories. */
  ghost predicate DirectoryOk(t: Tree, n: nat) {
    && n in t && |t[n]| == ALL && SlotsOk(t[n])
    && t[n][0] == Slot(".", n, Directory) && t[n][1] == Slot("..", Up(t, n), Directory)
    && Up(t, n) in t && Up(t, n) < 4096
    && (forall p :: 0 <= p < ALL && t[n][p] != EMPTY ==> IsName(t[n][p].name))
    && (forall p :: 0 <= p < ALL && Plain(t[n][p]) && t[n][p].ftype.Directory? ==> t[n][p].ino in t)
  }

  ghost predicate TreeOk(t: Tree) {
    0 in t && Up(t, 0) == 0 && forall n :: n in t ==> DirectoryOk(t, n)
  }

  /** The slot of n in its parent. */
  function Entry(t: Tree, n: nat): (e: nat)
    ensures e <= |Slots(t, Up(t, n))|
  {
    Finding(Slots(t, Up(t, n)), n)
  }

  /** n is a directory with parent u, and u's entry for it has this name. */
  predicate ChildOf(t: Tree, u: nat, n: nat, name: string) {
    && n != 0 && n in t && u == Up(t, n) && Entry(t, n) < |Slots(t, u)|
    && Slots(t, u)[Entry(t, n)].ftype.Directory? && Slots(t, u)[Entry(t, n)].name == name
  }

  /** The names lead from the root down to n. */
  ghost predicate IsPath(t: Tree, n: nat, names: seq<string>)
    decreases |names|
  {
    if names == [] then n == 0
    else ChildOf(t, Up(t, n), n, names[|names| - 1]) && IsPath(t, Up(t, n), names[..|names| - 1])
  }

  /** There is at most one such path. */
  lemma {:induction false} PathUnique(t: Tree, n: nat, a: seq<string>, b: seq<string>)
    requires IsPath(t, n, a) && IsPath(t, n, b)
    ensures a == b
    decreases |a|
  {
    hide Entry, Slots;
    if a != [] {
      PathUnique(t, Up(t, n), a[..|a| - 1], b[..|b| - 1]);
      assert a == a[..|a| - 1] + [a[|a| - 1]] && b == b[..|b| - 1] + [b[|b| - 1]];
    }
  }

  lemma {:induction false} PathNames(t: Tree, n: nat, names: seq<string>)
    requires TreeOk(t) && IsPath(t, n, names)
    ensures AllProper(names) && n in t
    decreases |names|
  {
    hide DirectoryOk, ChildOf, IsName;
    if names != [] {
      PathNames(t, Up(t, n), names[..|names| - 1]);
      ChildName(t, Up(t, n), n, names[|names| - 1]);
      assert forall i :: 0 <= i < |names| - 1 ==> names[i] == names[..|names| - 1][i];
    }
  }

  lemma ChildName(t: Tree, u: nat, n: nat, name: string)
    requires TreeOk(t) && ChildOf(t, u, n, name)
    ensures IsName(name) && name != "." && name != ".." && n in t && u in t && u == Up(t, n)
  {
    assert DirectoryOk(t, n);
    EntryName(t, u, Entry(t, n));
  }

  lemma EntryName(t: Tree, u: nat, e: nat)
    requires TreeOk(t) && u in t && e < |t[u]| && Plain(t[u][e])
    ensures IsName(t[u][e].name) && t[u][e].name != "." && t[u][e].name != ".."
  {
    assert DirectoryOk(t, u);
  }

  // ----- get_child_dir_name -----

  /** Neither "." nor ".." of the parent has the child's number, so the slot is the child's entry. */
  lemma ChildSlot(t: Tree, n: nat, names: seq<string>)
    requires TreeOk(t) && names != [] && IsPath(t, n, names)
    ensures FirstIno(Slots(t, Up(t, n)), n) == Entry(t, n)
  {
    var u := Up(t, n);
    assert DirectoryOk(t, n) && DirectoryOk(t, u);
    var front := names[..|names| - 1];
    if u == n { PathUnique(t, n, names, front); }
    if Up(t, u) == n && front != [] { PathUnique(t, n, names, front[..|front| - 1]); }
    FirstIsEntry(t, n, u);
  }

  lemma FirstIsEntry(t: Tree, n: nat, u: nat)
    requires DirectoryOk(t, u) && n != u && n != Up(t, u) && n != 0 && Finding(t[u], n) < ALL
    ensures FirstIno(t[u], n) == Finding(t[u], n)
  {
    var f := t[u];
    var p := FirstIno(f, n);
    NotADot(t, u, p);
  }

  lemma NotADot(t: Tree, u: nat, p: nat)
    requires DirectoryOk(t, u) && p < ALL && t[u][p].ino != u && t[u][p].ino != Up(t, u) && t[u][p].ino != 0
    ensures Plain(t[u][p])
  {
    if IsDot(t[u][p]) { DotsFirst(t[u], p); }
  }

  lemma DotsFirst(f: seq<Slot>, p: nat)
    requires |f| == ALL && SlotsOk(f) && f[0].name == "." && f[1].name == ".." && f[0] != EMPTY && f[1] != EMPTY
    requires p < ALL && f[p] != EMPTY && IsDot(f[p])
    ensures p == 0 || p == 1
  {
  }

  // ----- search_file -----

  /** The first slot with this name. */
  function FindName(f: seq<Slot>, name: string): (p: nat)
    ensures p <= |f| && (p < |f| ==> f[p].name == name)
    ensures forall q :: 0 <= q < p ==> f[q].name != name
  {
    if f == [] || f[0].name == name then 0
    else
      var r := FindName(f[1..], name);
      assert forall q :: 1 <= q < 1 + r ==> f[q] == f[1..][q - 1];
      1 + r
  }

  /** ... is the directory map's entry. */
  lemma FindNameIsLookup(f: seq<Slot>, name: string)
    requires SlotsOk(f) && name != ""
    ensures FindName(f, name) < |f| <==> name in AsMap(f)
    ensures FindName(f, name) < |f| ==> f[FindName(f, name)] == AsMap(f)[name]
  {
    var p := FindName(f, name);
    assert p < |f| ==> f[p] != EMPTY;
  }

  datatype Target = Target(ino: nat, ftype: FileType) | Nothing

  /** Where a list of names leads from directory n; a regular file ends the search. */
  ghost function Resolve(t: Tree, n: nat, names: seq<string>): Target
    decreases |names|
  {
    if names == [] then Target(n, Directory)
    else
      var p := FindName(Slots(t, n), names[0]);
      if p == |Slots(t, n)| then Nothing
      else if Slots(t, n)[p].ftype.Directory? then Resolve(t, Slots(t, n)[p].ino, names[1..])
      else Target(Slots(t, n)[p].ino, Regular)
  }

  lemma {:induction false} ResolveJoin(t: Tree, n: nat, names: seq<string>, more: seq<string>, m: nat)
    requires Resolve(t, n, names) == Target(m, Directory)
    ensures Resolve(t, n, names + more) == Resolve(t, m, more)
    decreases |names|
  {
    if names == [] {
      assert names + more == more;
    } else {
      var p := FindName(Slots(t, n), names[0]);
      assert (names + more)[1..] == names[1..] + more;
      ResolveJoin(t, Slots(t, n)[p].ino, names[1..], more, m);
    }
  }

  /** The way down the path is the way up reversed. */
  lemma {:induction false} ResolvePath(t: Tree, n: nat, names: seq<string>)
    requires TreeOk(t) && IsPath(t, n, names)
    ensures Resolve(t, 0, names) == Target(n, Directory)
    decreases |names|
  {
    hide TreeOk, ChildOf, Up;
    if names != [] {
      var u, front, last := Up(t, n), names[..|names| - 1], names[|names| - 1];
      ResolvePath(t, u, front);
      ResolveEntry(t, u, n, last);
      hide IsPath, Resolve;
      ResolveJoin(t, 0, front, [last], u);
      assert front + [last] == names;
    }
  }

  lemma ResolveEntry(t: Tree, u: nat, n: nat, name: string)
    requires TreeOk(t) && ChildOf(t, u, n, name)
    ensures Resolve(t, u, [name]) == Target(n, Directory)
  {
    hide Resolve;
    assert DirectoryOk(t, n);
    assert DirectoryOk(t, u);
    EntryByName(t[u], Entry(t, n));
    ResolveOne(t, u, name, n);
  }

  lemma ResolveOne(t: Tree, u: nat, name: string, n: nat)
    requires var f := Slots(t, u);
             FindName(f, name) < |f| && f[FindName(f, name)].ftype.Directory? && f[FindName(f, name)].ino == n
    ensures Resolve(t, u, [name]) == Target(n, Directory)
  {
    hide FindName, Slots;
    assert [name][1..] == [];
    assert Resolve(t, n, []) == Target(n, Directory);
  }

  lemma EntryByName(f: seq<Slot>, e: nat)
    requires SlotsOk(f) && e < |f| && f[e] != EMPTY
    ensures FindName(f, f[e].name) == e
  {
    var p := FindName(f, f[e].name);
    assert f[p] != EMPTY;
  }

  // ----- the C functions -----

  /** What search_file returns and leaves in its record. NoName: a path of slashes only, other than "/", makes
      it return the inode number of an entry it never looked up. */
  datatype Search =
    | Found(ino: nat, ftype: FileType, parent: nat, searched: string)
    | Missing(parent: nat, searched: string)
    | NoName
    | SearchHalts

  /** The record names the directory in which the k-th name was looked up, and the path up to it. */
  ghost predicate Reached(t: Tree, names: seq<string>, k: nat, parent: nat, searched: string) {
    k < |names| && Resolve(t, 0, names[..k]) == Target(parent, Directory) && searched == Slashed(names[..k + 1])
  }

  predicate RootPath(path: string) {
    path == "/" || path == "/." || path == "/.."
  }

  ghost predicate SearchIs(t: Tree, names: seq<string>, r: Search, k: nat) {
    match Resolve(t, 0, names)
    case Nothing => r.Missing? && Reached(t, names, k, r.parent, r.searched)
    case Target(ino, ftype) =>
      && r.Found? && r.ino == ino && r.ftype == ftype && Reached(t, names, k, r.parent, r.searched)
      && (ftype.Directory? ==> k == |names| - 1)
  }

  /** State of the descent: the names in `done` led through directory last to directory cur. */
  ghost predicate At(t: Tree, done: seq<string>, cur: nat, last: nat) {
    && Resolve(t, 0, done) == Target(cur, Directory) && cur in t
    && (done != [] ==> Resolve(t, 0, done[..|done| - 1]) == Target(last, Directory))
  }

  /** `name` and then `rest` are ahead; what was passed is no longer than its part of the path. */
  ghost predicate Descent(t: Tree, path: string, done: seq<string>, cur: nat, last: nat, name: string, rest: string) {
    && At(t, done, cur, last) && Components(path) == done + Ahead(name, rest)
    && |Slashed(done)| + (if name == "" then 0 else |name| + 1 + |rest|) <= |path|
  }

  /** The same between two names. */
  ghost predicate Between(t: Tree, path: string, done: seq<string>, cur: nat, last: nat, rest: string) {
    At(t, done, cur, last) && Components(path) == done + Components(rest) && |Slashed(done)| + |rest| <= |path|
  }

  lemma StartDescent(t: Tree, path: string, name: string, rest: string)
    requires TreeOk(t) && Components(path) == Ahead(name, rest) && (name == "" ==> rest == "")
    requires |name| + 1 + |rest| <= |path|
    ensures Descent(t, path, [], 0, 0, name, rest)
    ensures name == "" <==> Components(path) == []
  {
    hide DirectoryOk;
    assert [] + Ahead(name, rest) == Ahead(name, rest);
    NoComponents();
  }

  lemma NextName(t: Tree, path: string, done: seq<string>, cur: nat, last: nat, rest: string, name: string,
                 rest': string)
    requires Between(t, path, done, cur, last, rest)
    requires if rest == "" then name == "" && rest' == ""
             else Components(rest) == Ahead(name, rest') && |name| + 1 + |rest'| <= |rest|
    ensures Descent(t, path, done, cur, last, name, rest')
  {
    hide At, Slashed;
    NoComponents();
    if rest == "" { assert Ahead("", "") == []; }
  }

  /** What the slot found can be. */
  lemma EntryKinds(t: Tree, u: nat, name: string)
    requires TreeOk(t) && u in t && name != ""
    ensures var p := FindName(Slots(t, u), name);
            p < |Slots(t, u)| ==>
              var e := Slots(t, u)[p];
              e.ftype.Regular? || (e.ftype.Directory? && e.ino in t)
  {
    assert DirectoryOk(t, u);
    var p := FindName(t[u], name);
    if p < |t[u]| && t[u][p].ftype.Directory? && !Plain(t[u][p]) { DotsFirst(t[u], p); }
  }

  lemma AheadSplit(t: Tree, path: string, done: seq<string>, cur: nat, last: nat, name: string, rest: string)
    requires Descent(t, path, done, cur, last, name, rest) && name != ""
    ensures var names := Components(path);
            && |done| < |names| && names[..|done|] == done && names[..|done| + 1] == done + [name]
            && Resolve(t, 0, names) == Resolve(t, cur, [name] + Components(rest))
            && Resolve(t, 0, done) == Target(cur, Directory)
            && Slashed(done + [name]) == Slashed(done) + "/" + name
            && |Slashed(done + [name])| + |rest| <= |path|
  {
    hide Components, Resolve;
    ResolveJoin(t, 0, done, Ahead(name, rest), cur);
    assert (done + [name])[..|done|] == done;
  }

  lemma FileEnds(t: Tree, path: string, done: seq<string>, cur: nat, last: nat, name: string, rest: string)
    requires Descent(t, path, done, cur, last, name, rest) && name != ""
    requires var p := FindName(Slots(t, cur), name);
             p < |Slots(t, cur)| && Slots(t, cur)[p].ftype.Regular?
    ensures var p := FindName(Slots(t, cur), name);
            SearchIs(t, Components(path), Found(Slots(t, cur)[p].ino, Regular, cur, Slashed(done) + "/" + name), |done|)
  {
    AheadSplit(t, path, done, cur, last, name, rest);
    hide Components, Slashed, FindName, Slots, Descent;
  }

  lemma NothingThere(t: Tree, path: string, done: seq<string>, cur: nat, last: nat, name: string, rest: string)
    requires Descent(t, path, done, cur, last, name, rest) && name != ""
    requires FindName(Slots(t, cur), name) == |Slots(t, cur)|
    ensures SearchIs(t, Components(path), Missing(cur, Slashed(done) + "/" + name), |done|)
  {
    AheadSplit(t, path, done, cur, last, name, rest);
    hide Components, Slashed, FindName, Slots, Descent;
  }

  lemma DirectoryGoesOn(t: Tree, path: string, done: seq<string>, cur: nat, last: nat, name: string, rest: string)
    requires Descent(t, path, done, cur, last, name, rest) && name != ""
    requires var p := FindName(Slots(t, cur), name);
             p < |Slots(t, cur)| && Slots(t, cur)[p].ftype.Directory? && Slots(t, cur)[p].ino in t
    ensures Between(t, path, done + [name], Slots(t, cur)[FindName(Slots(t, cur), name)].ino, cur, rest)
  {
    var p := FindName(Slots(t, cur), name);
    AheadSplit(t, path, done, cur, last, name, rest);
    ResolveJoin(t, 0, done, [name], cur);
    ResolveOne(t, cur, name, Slots(t, cur)[p].ino);
    hide Components, Slashed, FindName, Slots, Resolve;
    assert (done + [name])[..|done|] == done;
    assert done + Ahead(name, rest) == done + [name] + Components(rest);
  }

  lemma EndDescent(t: Tree, path: string, done: seq<string>, cur: nat, last: nat)
    requires Descent(t, path, done, cur, last, "", "") && done != []
    ensures SearchIs(t, Components(path), Found(cur, Directory, last, Slashed(done)), |done| - 1)
  {
    hide Slashed, Resolve;
    NoComponents();
    assert done + Ahead("", "") == done;
    assert done[..|done| - 1 + 1] == done;
  }

  /** search_file resolves the names of the path one directory after the other; its ASSERT on the path
      searched so far never fails. */
  method SearchFile(t: Tree, path: string) returns (r: Search, ghost k: nat)
    requires TreeOk(t)
    ensures path == "/" || path == "/." || path == "/.." ==> r == Found(0, Directory, 0, "")
    ensures r.SearchHalts? <==> !RootPath(path) && !(1 < |path| < MAX_PATH && path[0] == '/')
    ensures r.NoName? <==> !RootPath(path) && 1 < |path| < MAX_PATH && path[0] == '/' && Components(path) == []
    ensures !RootPath(path) && (r.Found? || r.Missing?) ==> SearchIs(t, Components(path), r, k)
  {
    k := 0;
    if RootPath(path) { return Found(0, Directory, 0, ""), k; }
    if !(|path| > 1 && path[0] == '/' && |path| < MAX_PATH) { return SearchHalts, k; }
    r, k := Descend(t, path);
  }

  /** The part of search_file behind the special cases. */
  method Descend(t: Tree, path: string) returns (r: Search, ghost k: nat)
    requires TreeOk(t) && 1 < |path| < MAX_PATH && path[0] == '/'
    ensures !r.SearchHalts? && (r.NoName? <==> Components(path) == [])
    ensures r.Found? || r.Missing? ==> SearchIs(t, Components(path), r, k)
  {
    hide TreeOk, Components, Resolve, Slots, Slashed, FindName, Descent, Between, SearchIs, Ahead;
    k := 0;
    var name, more, rest := PathParse(path);
    assert Components(path) == Ahead(name, rest) by { AheadIs(name, rest); }
    StartDescent(t, path, name, rest);
    if name == "" { return NoName, k; }
    var cur, last, searched := 0, 0, "";
    ghost var done: seq<string> := [];
    assert Slashed([]) == "" by { NoSlash(); }
    while name != ""
      invariant Descent(t, path, done, cur, last, name, rest) && searched == Slashed(done)
      invariant (name == "" ==> rest == "") && (more <==> rest != "") && (name != "" || done != [])
      invariant rest != "" ==> rest[0] == '/'
      decreases |rest| + if name == "" then 0 else 1
    {
      k := |done|;
      var stop, ino;
      stop, r, searched, ino := LookUp(t, path, cur, name, searched, done, last, rest);
      if stop { return; }
      done := done + [name];
      last, cur := cur, ino;
      ghost var rest0 := rest;
      name := "";
      if more {
        name, more, rest := PathParse(rest);
        AheadIs(name, rest);
      }
      NextName(t, path, done, cur, last, rest0, name, rest);
    }
    EndDescent(t, path, done, cur, last);
    return Found(cur, Directory, last, searched), |done| - 1;
  }

  /** One turn of the loop: look the name up in directory cur. */
  method LookUp(t: Tree, path: string, cur: nat, name: string, searched: string,
                ghost done: seq<string>, ghost last: nat, ghost rest: string)
    returns (stop: bool, r: Search, searched': string, ino: nat)
    requires TreeOk(t) && Descent(t, path, done, cur, last, name, rest) && name != ""
    requires searched == Slashed(done) && |path| < MAX_PATH
    ensures stop ==> (r.Found? || r.Missing?) && SearchIs(t, Components(path), r, |done|)
    ensures !stop ==> Between(t, path, done + [name], ino, cur, rest) && searched' == Slashed(done + [name])
  {
    hide TreeOk, Components, Resolve, Slots, Slashed, FindName, Descent, Between, SearchIs;
    SearchedFits(t, path, done, cur, last, name, rest);
    EntryKinds(t, cur, name);
    ino := cur;
    searched' := searched;
    if |searched| >= 512 { return true, SearchHalts, searched, ino; }
    searched' := searched + "/" + name;
    var p := FindName(Slots(t, cur), name);
    if p == |Slots(t, cur)| {
      NothingThere(t, path, done, cur, last, name, rest);
      return true, Missing(cur, searched'), searched', ino;
    }
    ino := Slots(t, cur)[p].ino;
    if Slots(t, cur)[p].ftype.Directory? {
      DirectoryGoesOn(t, path, done, cur, last, name, rest);
      return false, NoName, searched', ino;
    }
    FileEnds(t, path, done, cur, last, name, rest);
    return true, Found(ino, Regular, cur, searched'), searched', ino;
  }

  lemma AheadIs(name: string, rest: string)
    ensures Ahead(name, rest) == (if name == "" then [] else [name]) + Components(rest)
  {
  }

  lemma NoSlash()
    ensures Slashed([]) == ""
  {
  }

  /** The path searched so far is shorter than the path. */
  lemma SearchedFits(t: Tree, path: string, done: seq<string>, cur: nat, last: nat, name: string, rest: string)
    requires Descent(t, path, done, cur, last, name, rest)
    ensures cur in t && |Slashed(done)| <= |path|
    ensures Slashed(done + [name]) == Slashed(done) + "/" + name
  {
    hide Components, Resolve;
    assert (done + [name])[..|done|] == done;
  }

  // ----- sys_getcwd -----

  /** Behind: the terminating zero of the path lies behind the caller's buffer. Overrun: the names do not fit
      into the 512 bytes of full_path_reverse. */
  datatype Cwd = Path(path: string) | Behind(path: string) | Overrun | CwdHalts

  function Reversed(s: seq<string>): (r: seq<string>)
    ensures |r| == |s|
  {
    if s == [] then [] else Reversed(s[1..]) + [s[0]]
  }

  lemma {:induction false} ReversedJoin(s: seq<string>, x: string)
    ensures Reversed(s + [x]) == [x] + Reversed(s)
  {
    if s == [] {
      assert s + [x] == [x] && [x][1..] == [];
    } else {
      assert (s + [x])[1..] == s[1..] + [x];
      ReversedJoin(s[1..], x);
    }
  }

  lemma {:induction false} ReversedLength(s: seq<string>)
    ensures |Slashed(Reversed(s))| == |Slashed(s)|
    decreases |s|
  {
    if s != [] {
      var most, last := s[..|s| - 1], s[|s| - 1];
      ReversedLength(most);
      ReversedJoin(most, last);
      assert most + [last] == s;
      SlashedFront(last, Reversed(most));
    }
  }

  lemma {:induction false} SlashedFront(x: string, s: seq<string>)
    ensures Slashed([x] + s) == "/" + x + Slashed(s)
    decreases |s|
  {
    if s == [] {
      assert [x] + s == [x] && [x][..0] == [];
      assert Slashed([]) + "/" + x == "/" + x;
      assert "/" + x + "" == "/" + x;
    } else {
      var most, last := s[..|s| - 1], s[|s| - 1];
      SlashedFront(x, most);
      assert ([x] + s)[..|s|] == [x] + most;
      assert "/" + x + Slashed(most) + "/" + last == "/" + x + (Slashed(most) + "/" + last);
    }
  }

  /** sys_getcwd, for a directory that hangs in the tree by the given names: the climb ends and finds each name,
      and the path is the names from the root down. The code compares the length with `<= size`, and does not
      compare it for the root. */
  method GetCwd(t: Tree, cwd: nat, size: nat, ghost names: seq<string>) returns (r: Cwd)
    requires TreeOk(t) && IsPath(t, cwd, names)
    ensures r == if cwd >= 4096 then CwdHalts
                 else if |Slashed(names)| >= MAX_PATH then Overrun
                 else if |Slashed(names)| > size then CwdHalts
                 else if |Print(names)| >= size then Behind(Print(names))
                 else Path(Print(names))
  {
    hide TreeOk, ChildOf;
    if cwd >= 4096 { return CwdHalts; }
    if cwd == 0 {
      RootNames(t, cwd, names);
      return if 1 < size then Path("/") else Behind("/");
    }
    var end, back := Climb(t, cwd, names);
    if end == Spilled { return Overrun; }   // it never ends Lost, where sys_getcwd would return NULL
    ReversedLength(names);
    if |back| > size { return CwdHalts; }
    PathNames(t, cwd, names);
    var buf := TurnRound(back, names);
    assert names != [];
    return if |buf| < size then Path(buf) else Behind(buf);
  }

  lemma RootNames(t: Tree, n: nat, names: seq<string>)
    requires IsPath(t, n, names)
    ensures n == 0 <==> names == []
  {
  }

  datatype ClimbEnd = AtRoot | Spilled | Lost

  /** From low to high: each directory's name is looked up in its parent and appended to a buffer of 512
      bytes. */
  method Climb(t: Tree, cwd: nat, ghost names: seq<string>) returns (end: ClimbEnd, back: string)
    requires TreeOk(t) && IsPath(t, cwd, names)
    ensures end == if |Slashed(names)| < MAX_PATH then AtRoot else Spilled
    ensures end == AtRoot ==> back == Slashed(Reversed(names))
  {
    hide TreeOk, ChildOf, IsPath, FirstIno, Slots, Slashed, Up, Entry, Reversed;
    var child := cwd;
    back := "";
    ghost var n: nat := |names|;
    assert names[..n] == names && names[n..] == [];
    NothingSlashed();
    while child != 0
      invariant n <= |names| && IsPath(t, child, names[..n]) && back == Slashed(Reversed(names[n..]))
      invariant |back| < MAX_PATH
      decreases n
    {
      var parent := Up(t, child);
      ParentOk(t, child, names[..n]);
      if !(parent < 4096 && Slots(t, child)[1].ftype.Directory?) { return Lost, back; }
      var p := FirstIno(Slots(t, parent), child);
      if p == |Slots(t, parent)| { return Lost, back; }
      back := back + "/" + Slots(t, parent)[p].name;
      assert names[..n][..n - 1] == names[..n - 1];
      BackMore(names, n - 1);
      n := n - 1;
      if |back| >= MAX_PATH {
        PartShorter(names, n);
        return Spilled, back;
      }
      child := parent;
    }
    RootNames(t, child, names[..n]);
    assert n == 0 && names[0..] == names;
    ReversedLength(names);
    return AtRoot, back;
  }

  /** A part of the path is no longer than the path. */
  lemma {:induction false} PartShorter(names: seq<string>, n: nat)
    requires n <= |names|
    ensures |Slashed(Reversed(names[n..]))| <= |Slashed(names)|
  {
    ReversedLength(names[n..]);
    if n == 0 {
      assert names[0..] == names;
    } else {
      PartShorter(names, n - 1);
      ReversedLength(names[n - 1..]);
      assert names[n - 1..] == [names[n - 1]] + names[n..];
      SlashedFront(names[n - 1], names[n..]);
    }
  }

  lemma NothingSlashed()
    ensures Slashed(Reversed([])) == "" && Slashed([]) == ""
  {
  }

  lemma BackMore(names: seq<string>, n: nat)
    requires n < |names|
    ensures Reversed(names[n..]) == Reversed(names[n + 1..]) + [names[n]]
    ensures Slashed(Reversed(names[n..])) == Slashed(Reversed(names[n + 1..])) + "/" + names[n]
  {
    assert names[n..][1..] == names[n + 1..];
    var r := Reversed(names[n + 1..]);
    assert (r + [names[n]])[..|r|] == r;
  }

  /** What one step of the climb reads. */
  lemma ParentOk(t: Tree, child: nat, names: seq<string>)
    requires TreeOk(t) && IsPath(t, child, names) && child != 0
    ensures names != [] && IsPath(t, Up(t, child), names[..|names| - 1]) && Up(t, child) < 4096
    ensures |Slots(t, child)| > 1 && Slots(t, child)[1].ftype.Directory?
    ensures var p := FirstIno(Slots(t, Up(t, child)), child);
            p < |Slots(t, Up(t, child))| && Slots(t, Up(t, child))[p].name == names[|names| - 1]
  {
    ChildSlot(t, child, names);
    assert DirectoryOk(t, child);
    hide TreeOk, DirectoryOk, FirstIno, Entry;
  }

  lemma {:induction false} ReversedNames(s: seq<string>)
    requires AllNames(s)
    ensures AllNames(Reversed(s))
  {
    if s != [] { ReversedNames(s[1..]); }
  }

  /** The loop that cuts names off the reversed path and appends them to the buffer. */
  method TurnRound(reversed: string, ghost names: seq<string>) returns (buf: string)
    requires AllNames(names) && reversed == Slashed(Reversed(names))
    ensures buf == Slashed(names)
  {
    hide Slashed, Reversed, IsName;
    var back := reversed;
    buf := "";
    ghost var n := 0;
    NothingSlashed();
    assert names[0..] == names && names[..0] == [];
    while '/' in back
      invariant n <= |names| && back == Slashed(Reversed(names[n..])) && buf == Slashed(names[..n])
      decreases |back|
    {
      var at := LastSlash(back);
      assert names[|names|..] == [];
      BackMore(names, n);
      ReversedNames(names[n..]);
      assert Reversed(names[n..])[..|Reversed(names[n..])| - 1] == Reversed(names[n + 1..]);
      LastSlashIs(Reversed(names[n..]), at);
      assert back[at..] == "/" + names[n];
      buf := buf + back[at..];
      back := back[..at];
      FrontMore(names, n);
      n := n + 1;
    }
    SlashThere(names, n);
    assert names[..n] == names;
  }

  lemma FrontMore(names: seq<string>, n: nat)
    requires n < |names|
    ensures Slashed(names[..n + 1]) == Slashed(names[..n]) + ("/" + names[n])
  {
    assert names[..n + 1][..n] == names[..n];
  }

  /** As long as a name is left there is a slash. */
  lemma SlashThere(names: seq<string>, n: nat)
    requires n <= |names|
    ensures n < |names| ==> '/' in Slashed(Reversed(names[n..]))
  {
    SlashFirst(Reversed(names[n..]));
    if n < |names| { assert Slashed(Reversed(names[n..]))[0] == '/'; }
  }

  /** What sys_getcwd prints into a buffer of 512 bytes is found again by search_file, as the same directory. It
      prints exactly the paths that fit. */
  method GetCwdThenSearch(t: Tree, cwd: nat, ghost names: seq<string>) returns (c: Cwd, r: Search)
    requires TreeOk(t) && IsPath(t, cwd, names) && cwd < 4096
    ensures c == if |Slashed(names)| < MAX_PATH then Path(Print(names)) else Overrun
    ensures c.Path? ==> r.Found? && r.ino == cwd && r.ftype == Directory
    ensures c.Path? && cwd != 0 ==> r.searched == c.path
  {
    hide TreeOk, ChildOf, IsPath, Resolve, IsName;
    c := GetCwd(t, cwd, MAX_PATH, names);
    if !c.Path? { return c, NoName; }
    RootNames(t, cwd, names);
    PathNames(t, cwd, names);
    ParsePrint(names);
    ResolvePath(t, cwd, names);
    ghost var k;
    if cwd != 0 { NotRootPath(names); }
    r, k := SearchFile(t, c.path);
    assert cwd != 0 ==> names[..k + 1] == names;
  }

  lemma NotRootPath(names: seq<string>)
    requires AllProper(names) && names != []
    ensures !RootPath(Print(names)) && |Print(names)| > 1 && Print(names)[0] == '/'
  {
    ParsePrint(names);
    SlashFirst(names);
    RootComponents();
  }

  lemma RootComponents()
    ensures Components("/") == [] && Components("/.") == ["."] && Components("/..") == [".."]
  {
    OneComponent(".");
    OneComponent("..");
    assert "/" + "." == "/." && "/" + ".." == "/..";
    assert "/"[1..] == "";
  }
}
