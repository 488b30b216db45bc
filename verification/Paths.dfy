/** Path names: path_parse of fs/fs.c, wash_path and make_clear_abs_path of shell/buildin_cmd.c. A C string
    is the sequence of its characters, without the terminating zero. */
module Paths {
  const NAME_MAX: nat := 15

  /** A directory entry's name as path_parse can yield it. */
  predicate IsName(n: string) {
    n != "" && '/' !in n
  }

  /** How many of the leading characters are not a slash. */
  function NameLen(p: string): (n: nat)
    ensures n <= |p| && (n < |p| ==> p[n] == '/') && '/' !in p[..n]
  {
    if p == "" || p[0] == '/' then 0
    else
      var n := 1 + NameLen(p[1..]);
      assert p[..n] == [p[0]] + p[1..][..n - 1];
      n
  }

  /** The names between the slashes. */
  function Components(p: string): (cs: seq<string>)
    decreases |p|
  {
    if p == "" then []
    else if p[0] == '/' then Components(p[1..])
    else [p[..NameLen(p)]] + Components(p[NameLen(p)..])
  }

  /** One name applied to the directories passed through so far. */
  function Enter(dirs: seq<string>, name: string): seq<string> {
    if name == ".." then (if dirs == [] then [] else dirs[..|dirs| - 1])
    else if name == "." then dirs
    else dirs + [name]
  }

  function Walk(dirs: seq<string>, names: seq<string>): seq<string>
    decreases |names|
  {
    if names == [] then dirs else Walk(Enter(dirs, names[0]), names[1..])
  }

  /** Each name behind a slash. */
  function Slashed(dirs: seq<string>): string {
    if dirs == [] then "" else Slashed(dirs[..|dirs| - 1]) + "/" + dirs[|dirs| - 1]
  }

  function Print(dirs: seq<string>): string {
    if dirs == [] then "/" else Slashed(dirs)
  }

  /** The clean form of an absolute path. */
  function Washed(p: string): string {
    Print(Walk([], Components(p)))
  }

  // ----- the parser undoes the printer -----

  ghost predicate AllNames(dirs: seq<string>) {
    forall i :: 0 <= i < |dirs| ==> IsName(dirs[i])
  }

  ghost predicate AllProper(dirs: seq<string>) {
    forall i :: 0 <= i < |dirs| ==> IsName(dirs[i]) && dirs[i] != "." && dirs[i] != ".."
  }

  lemma {:induction false} ComponentsAreNames(p: string)
    ensures AllNames(Components(p))
    decreases |p|
  {
    if p != "" {
      if p[0] == '/' { ComponentsAreNames(p[1..]); } else { ComponentsAreNames(p[NameLen(p)..]); }
    }
  }

  /** A slash separates: parsing p/q is parsing p and then q. */
  lemma {:induction false} ComponentsJoin(p: string, q: string)
    requires q == "" || q[0] == '/'
    ensures Components(p + q) == Components(p) + Components(q)
    decreases |p|
  {
    if p == "" {
      assert p + q == q;
    } else if p[0] == '/' {
      assert (p + q)[1..] == p[1..] + q;
      ComponentsJoin(p[1..], q);
    } else {
      var n := NameLen(p);
      NameLenJoin(p, q);
      assert (p + q)[..n] == p[..n] && (p + q)[n..] == p[n..] + q;
      ComponentsJoin(p[n..], q);
    }
  }

  lemma {:induction false} NameLenJoin(p: string, q: string)
    requires q == "" || q[0] == '/'
    ensures NameLen(p + q) == NameLen(p)
  {
    if p == "" {
      assert p + q == q;
    } else if p[0] != '/' {
      assert (p + q)[1..] == p[1..] + q;
      NameLenJoin(p[1..], q);
    }
  }

  lemma OneComponent(name: string)
    requires IsName(name)
    ensures Components("/" + name) == [name]
  {
    assert ("/" + name)[1..] == name && name[0] in name;
    WholeName(name);
    assert name[..|name|] == name && name[|name|..] == "";
    assert Components("/" + name) == Components(name) == [name] + Components("");
  }

  lemma {:induction false} WholeName(name: string)
    requires '/' !in name
    ensures NameLen(name) == |name|
  {
    if name != "" { WholeName(name[1..]); }
  }

  lemma {:induction false} ParsePrint(dirs: seq<string>)
    requires AllNames(dirs)
    ensures Components(Slashed(dirs)) == dirs && Components(Print(dirs)) == dirs
    decreases |dirs|
  {
    if dirs == [] {
      assert "/"[1..] == "";
    } else {
      var most, last := dirs[..|dirs| - 1], dirs[|dirs| - 1];
      ParsePrint(most);
      ComponentsJoin(Slashed(most), "/" + last);
      OneComponent(last);
      assert Slashed(most) + "/" + last == Slashed(most) + ("/" + last);
    }
  }

  // ----- walking -----

  lemma {:induction false} WalkProper(dirs: seq<string>, names: seq<string>)
    requires AllProper(dirs) && AllNames(names)
    ensures AllProper(Walk(dirs, names))
    decreases |names|
  {
    if names != [] { WalkProper(Enter(dirs, names[0]), names[1..]); }
  }

  lemma {:induction false} WalkJoin(dirs: seq<string>, names: seq<string>, more: seq<string>)
    ensures Walk(dirs, names + more) == Walk(Walk(dirs, names), more)
    decreases |names|
  {
    if names == [] {
      assert names + more == more;
    } else {
      assert (names + more)[1..] == names[1..] + more;
      WalkJoin(Enter(dirs, names[0]), names[1..], more);
    }
  }

  lemma {:induction false} WalkDown(dirs: seq<string>, names: seq<string>)
    requires AllProper(names)
    ensures Walk(dirs, names) == dirs + names
    decreases |names|
  {
    if names == [] {
      assert dirs + names == dirs;
    } else {
      WalkDown(dirs + [names[0]], names[1..]);
      assert dirs + [names[0]] + names[1..] == dirs + names;
    }
  }

  /** A clean path is its own clean form: washing twice is washing once. */
  lemma WashedTwice(p: string)
    ensures Washed(Washed(p)) == Washed(p)
  {
    ComponentsAreNames(p);
    WalkProper([], Components(p));
    var dirs := Walk([], Components(p));
    assert AllNames(dirs);
    ParsePrint(dirs);
    WalkDown([], dirs);
    assert [] + dirs == dirs;
  }

  /** The clean form holds no empty, "." or ".." name and starts with a slash. */
  lemma WashedIsClean(p: string)
    ensures Washed(p) != "" && Washed(p)[0] == '/'
    ensures AllProper(Components(Washed(p))) && Components(Washed(p)) == Walk([], Components(p))
  {
    ComponentsAreNames(p);
    WalkProper([], Components(p));
    var dirs := Walk([], Components(p));
    assert AllNames(dirs);
    ParsePrint(dirs);
    SlashFirst(dirs);
  }

  lemma {:induction false} SlashFirst(dirs: seq<string>)
    ensures dirs != [] ==> Slashed(dirs) != "" && Slashed(dirs)[0] == '/'
    decreases |dirs|
  {
    if |dirs| > 1 { SlashFirst(dirs[..|dirs| - 1]); }
  }

  // ----- length -----

  lemma {:induction false} SlashedEnter(dirs: seq<string>, name: string)
    ensures |Slashed(Enter(dirs, name))| <= |Slashed(dirs)| + 1 + |name|
  {
    if name != ".." && name != "." {
      assert (dirs + [name])[..|dirs|] == dirs;
    }
  }

  lemma {:induction false} WalkLength(dirs: seq<string>, p: string)
    ensures |Slashed(Walk(dirs, Components(p)))| <= |Slashed(dirs)| + |p| + (if p == "" || p[0] == '/' then 0 else 1)
    decreases |p|
  {
    if p != "" {
      if p[0] == '/' {
        WalkLength(dirs, p[1..]);
      } else {
        var n := NameLen(p);
        SlashedEnter(dirs, p[..n]);
        WalkLength(Enter(dirs, p[..n]), p[n..]);
        assert Components(p)[1..] == Components(p[n..]);
      }
    }
  }

  /** The clean form is never longer than the path. */
  lemma WashedLength(p: string)
    requires p != "" && p[0] == '/'
    ensures |Washed(p)| <= |p|
  {
    WalkLength([], p);
  }

  /** A relative path is walked from the working directory. */
  lemma RelativePath(cwd: seq<string>, p: string)
    requires AllProper(cwd)
    ensures Washed((if cwd == [] then "/" else Print(cwd) + "/") + p) == Print(Walk(cwd, Components(p)))
  {
    var q := "/" + p;
    assert q[1..] == p;
    assert AllNames(cwd);
    ParsePrint(cwd);
    WalkDown([], cwd);
    assert [] + cwd == cwd;
    if cwd != [] {
      ComponentsJoin(Print(cwd), q);
      assert Print(cwd) + "/" + p == Print(cwd) + q;
      WalkJoin([], cwd, Components(p));
    }
  }

  // ----- the C functions -----

  /** The leading slashes, if any. */
  method SkipSlashes(p: string) returns (at: nat)
    ensures at <= |p| && (at < |p| ==> p[at] != '/') && Components(p[at..]) == Components(p)
    ensures p != "" && p[0] == '/' ==> at > 0
  {
    at := 0;
    assert p[at..] == p;
    if p != "" && p[0] == '/' {
      at := 1;
      while at < |p| && p[at] == '/'
        invariant 0 < at <= |p| && Components(p[at..]) == Components(p)
      {
        assert p[at..][1..] == p[at + 1..];
        at := at + 1;
      }
    }
  }

  /** path_parse: the first name, and the rest of the path unless it ends with the name. */
  method PathParse(p: string) returns (name: string, more: bool, rest: string)
    ensures Components(p) == (if name == "" then [] else [name]) + Components(rest)
    ensures name == "" ==> rest == ""
    ensures name != "" ==> IsName(name) && |rest| < |p|
    ensures more <==> rest != ""
    ensures rest != "" ==> rest[0] == '/'
    ensures p != "" && p[0] == '/' ==> |name| + 1 + |rest| <= |p|
  {
    hide Components;
    var from := SkipSlashes(p);
    var end := NameEnd(p, from);
    name, rest, more := p[from..end], p[end..], end < |p|;
    assert p[from..] == name + rest;
    NameTaken(name, rest);
  }

  /** The second loop of path_parse: where the name that starts at `from` ends. */
  method NameEnd(p: string, from: nat) returns (at: nat)
    requires from <= |p| && (from < |p| ==> p[from] != '/')
    ensures from <= at <= |p| && '/' !in p[from..at] && (at < |p| ==> p[at] == '/')
    ensures from < |p| ==> from < at
  {
    at := from;
    while at < |p| && p[at] != '/'
      invariant from <= at <= |p| && '/' !in p[from..at]
    {
      assert p[from..at + 1] == p[from..at] + [p[at]];
      at := at + 1;
    }
  }

  lemma NameTaken(name: string, rest: string)
    requires '/' !in name && (rest == "" || rest[0] == '/') && (name == "" ==> rest == "")
    ensures Components(name + rest) == (if name == "" then [] else [name]) + Components(rest)
    ensures name != "" ==> IsName(name)
  {
    if name != "" {
      var q := name + rest;
      NameLenJoin(name, rest);
      WholeName(name);
      assert name[0] in name && q[0] == name[0];
      assert q[..|name|] == name && q[|name|..] == rest;
    }
  }

  /** strrchr(s, '/'). */
  method LastSlash(s: string) returns (at: nat)
    requires '/' in s
    ensures at < |s| && s[at] == '/' && forall i :: at < i < |s| ==> s[i] != '/'
  {
    at := |s| - 1;
    while s[at] != '/'
      invariant at < |s| && forall i :: at < i < |s| ==> s[i] != '/'
      invariant exists i :: 0 <= i <= at && s[i] == '/'
      decreases at
    {
      at := at - 1;
    }
  }

  /** In a printed path the last slash is the one in front of the last name. */
  lemma LastSlashIs(dirs: seq<string>, at: nat)
    requires dirs != [] && AllNames(dirs) && at < |Slashed(dirs)| && Slashed(dirs)[at] == '/'
    requires forall i :: at < i < |Slashed(dirs)| ==> Slashed(dirs)[i] != '/'
    ensures at == |Slashed(dirs[..|dirs| - 1])| && Slashed(dirs)[..at] == Slashed(dirs[..|dirs| - 1])
    ensures at == 0 <==> |dirs| == 1
  {
    var most, last := Slashed(dirs[..|dirs| - 1]), dirs[|dirs| - 1];
    assert Slashed(dirs)[|most|] == '/';
    assert forall i :: 0 <= i < |last| ==> Slashed(dirs)[|most| + 1 + i] == last[i];
    assert at != |most| ==> at - |most| - 1 >= |last|;
    SlashFirst(dirs[..|dirs| - 1]);
  }

  /** wash_path. The C code's ASSERT that the path is absolute is its only demand, beside its name buffer
      of 16 characters. */
  method WashPath(old_path: string) returns (path: string)
    requires old_path != "" && old_path[0] == '/'
    requires forall i :: 0 <= i < |Components(old_path)| ==> |Components(old_path)[i]| <= NAME_MAX
    ensures path == Washed(old_path)
  {
    hide Components, Slashed;
    var name, more, rest := PathParse(old_path);
    assert Components("") == [] by { NoComponents(); }
    if name == "" { return "/"; }
    path := "/";
    ghost var dirs: seq<string> := [];
    while name != ""
      invariant path == Print(dirs) && AllProper(dirs) && (name != "" ==> IsName(name))
      invariant (name == "" ==> rest == "") && (more <==> rest != "")
      invariant Walk(dirs, Ahead(name, rest)) == Walk([], Components(old_path))
      decreases |rest| + if name == "" then 0 else 1
    {
      AheadStep(dirs, name, rest);
      if name == ".." {
        path := GoUp(path, dirs);
      } else if name != "." {
        path := GoDown(path, name, dirs);
      }
      dirs := Enter(dirs, name);
      name := "";
      if more { name, more, rest := PathParse(rest); }
    }
  }

  /** The names still to be walked. */
  function Ahead(name: string, rest: string): seq<string> {
    (if name == "" then [] else [name]) + Components(rest)
  }

  lemma NoComponents()
    ensures Components("") == []
  {
  }

  lemma AheadStep(dirs: seq<string>, name: string, rest: string)
    requires IsName(name) && AllProper(dirs)
    ensures Walk(dirs, Ahead(name, rest)) == Walk(Enter(dirs, name), Ahead("", rest))
    ensures AllProper(Enter(dirs, name))
    ensures Ahead("", rest) == Components(rest) && Components("") == []
  {
    assert ([name] + Components(rest))[1..] == Components(rest);
    assert Ahead("", rest) == Components(rest);
  }

  /** Cut the last name off, but not the root's slash. */
  method GoUp(path: string, ghost dirs: seq<string>) returns (up: string)
    requires path == Print(dirs) && AllNames(dirs)
    ensures up == Print(Enter(dirs, ".."))
  {
    SlashFirst(dirs);
    assert path[0] == '/';
    var at := LastSlash(path);
    if dirs != [] { LastSlashIs(dirs, at); }
    up := if at != 0 then path[..at] else path[..1];
  }

  method GoDown(path: string, name: string, ghost dirs: seq<string>) returns (down: string)
    requires path == Print(dirs) && AllNames(dirs)
    ensures down == Print(dirs + [name])
  {
    hide Slashed;
    down := path;
    if dirs != [] { PrintedNotRoot(dirs); }
    if down != "/" { down := down + "/"; }
    down := down + name;
    PrintMore(dirs, name);
  }

  lemma PrintMore(dirs: seq<string>, name: string)
    ensures Print(dirs + [name]) == if dirs == [] then "/" + name else Print(dirs) + "/" + name
  {
    assert (dirs + [name])[..|dirs|] == dirs;
    if dirs == [] { assert Slashed(dirs) + "/" == "/"; }
  }

  lemma PrintedNotRoot(dirs: seq<string>)
    requires dirs != [] && AllNames(dirs)
    ensures Print(dirs) != "/"
  {
  }

  /** path_depth_cnt counts the names. Its buffer `name` is not cleared before the first call of path_parse:
      `leftover` says whether its first byte happens to be non-zero, and then a path without names counts one. */
  method PathDepth(p: string, leftover: bool) returns (depth: nat)
    ensures depth == if Components(p) == [] && leftover then 1 else |Components(p)|
  {
    depth := 0;
    var name, more, rest := PathParse(p);
    var junk := name == "" && leftover;
    ghost var extra := if junk then 1 else 0;
    while name != "" || junk
      invariant name == "" ==> rest == ""
      invariant more <==> rest != ""
      invariant junk ==> name == "" && depth == 0
      invariant depth + (if name == "" && !junk then 0 else 1) + |Components(rest)| == |Components(p)| + extra
      decreases |rest| + if name == "" && !junk then 0 else 1
    {
      depth := depth + 1;
      name, junk := "", false;
      if more { name, more, rest := PathParse(rest); }
    }
  }

  /** make_clear_abs_path, given what getcwd returned. */
  method MakeClearAbsPath(path: string, cwd: string, ghost dirs: seq<string>) returns (final: string)
    requires AllProper(dirs) && cwd == Print(dirs)
    requires forall i :: 0 <= i < |Components(path)| ==> |Components(path)[i]| <= NAME_MAX
    requires forall i :: 0 <= i < |dirs| ==> |dirs[i]| <= NAME_MAX
    ensures final == Print(Walk(if path != "" && path[0] == '/' then [] else dirs, Components(path)))
  {
    hide Components, Slashed, Walk;
    var abs := "";
    if path == "" || path[0] != '/' {
      abs := cwd;
      SlashFirst(dirs);
      if dirs != [] { PrintedNotRoot(dirs); }
      if !(abs[0] == '/' && |abs| == 1) { abs := abs + "/"; }
      assert abs == if dirs == [] then "/" else Print(dirs) + "/";
      RelativePath(dirs, path);
      RelativeComponents(dirs, path);
      abs := abs + path;
      assert Components(abs) == dirs + Components(path);
    } else {
      abs := abs + path;
      assert abs == path;
    }
    final := WashPath(abs);
  }

  lemma RelativeComponents(dirs: seq<string>, p: string)
    requires AllNames(dirs)
    ensures Components((if dirs == [] then "/" else Print(dirs) + "/") + p) == dirs + Components(p)
  {
    var q := "/" + p;
    assert q[1..] == p;
    ParsePrint(dirs);
    if dirs != [] {
      ComponentsJoin(Print(dirs), q);
      assert Print(dirs) + "/" + p == Print(dirs) + q;
    }
  }
}
