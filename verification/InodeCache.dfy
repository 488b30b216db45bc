/** The inodes in memory: inode_open and inode_close of fs/inode.c and the list of open inodes. */
module InodeCache {
  import opened Disk
  import opened InodeSlots

  /** The open list from its front on, as addresses, and the inodes at those addresses. */
  datatype Cache = Cache(list: seq<nat>, cores: map<nat, Inode>)

  predicate Wf(c: Cache) {
    forall p :: p in c.list ==> p in c.cores
  }

  /** The place of the first copy of inode `no` on the list, or its length. */
  function Find(c: Cache, no: nat): (i: nat)
    requires Wf(c)
    ensures i <= |c.list| && (i < |c.list| ==> c.cores[c.list[i]].no == no)
    ensures forall j :: 0 <= j < i ==> c.cores[c.list[j]].no != no
    decreases |c.list|
  {
    if c.list == [] || c.cores[c.list[0]].no == no then 0
    else
      var r := Find(Cache(c.list[1..], c.cores), no);
      assert forall j :: 1 <= j < 1 + r ==> c.list[j] == c.list[1..][j - 1];
      1 + r
  }

  /** After opening `no`: the copy there is counts one more, or a new one with what the disk has goes to the
      front. */
  function Opened(c: Cache, no: nat, room: nat, stored: Inode): Cache
    requires Wf(c)
  {
    var i := Find(c, no);
    if i < |c.list| then
      var v := c.cores[c.list[i]];
      c.(cores := c.cores[c.list[i] := v.(opens := v.opens + 1)])
    else
      Cache([room] + c.list, c.cores[room := stored.(opens := 1)])
  }

  function Handle(c: Cache, no: nat, room: nat): nat
    requires Wf(c)
  {
    if Find(c, no) < |c.list| then c.list[Find(c, no)] else room
  }

  function Without(s: seq<nat>, p: nat): (r: seq<nat>)
    ensures forall q :: q in r <==> q in s && q != p
  {
    if s == [] then [] else (if s[0] == p then [] else [s[0]]) + Without(s[1..], p)
  }

  /** After closing the copy at p: it counts one less, and the last one goes. */
  function Closed(c: Cache, p: nat): Cache
    requires Wf(c) && p in c.list && c.cores[p].opens > 0
  {
    var v := c.cores[p];
    if v.opens == 1 then Cache(Without(c.list, p), c.cores - {p})
    else c.(cores := c.cores[p := v.(opens := v.opens - 1)])
  }

  /** What inode_init makes of a new inode. */
  function FreshInode(no: nat): (v: Inode)
    requires no < MAX_WORD
    ensures Fits(v) && v.no == no
  {
    Inode(no, 0, 0, 0, seq(13, _ => 0), 0, 0)
  }

  function Pushed(c: Cache, no: nat, room: nat): Cache
    requires no < MAX_WORD
  {
    Cache([room] + c.list, c.cores[room := FreshInode(no).(opens := 1)])
  }

  class OpenInodes {
    const table: Table
    var list: seq<nat>
    var cores: map<nat, Inode>

    function View(): Cache
      reads this
    {
      Cache(list, cores)
    }

    constructor (table: Table)
      ensures this.table == table && View() == Cache([], map[])
    {
      this.table, list, cores := table, [], map[];
    }

    /** inode_open; `room` is the memory sys_malloc returns for a new copy. */
    method InodeOpen(no: nat, room: nat) returns (p: nat)
      requires Wf(View()) && TableFits(table.disk) && no < MAX_INODES && room !in list
      modifies this
      ensures p == Handle(old(View()), no, room)
      ensures View() == Opened(old(View()), no, room, Stored(table.disk, no))
    {
      hide Stored, TableFits, Find;
      var i := 0;
      while i < |list|
        invariant i <= |list| && View() == old(View())
        invariant forall j :: 0 <= j < i ==> cores[list[j]].no != no
      {
        if cores[list[i]].no == no {
          FindIs(View(), no, i);
          p := list[i];
          cores := cores[p := cores[p].(opens := cores[p].opens + 1)];
          return;
        }
        i := i + 1;
      }
      FindIs(View(), no, i);
      var v := table.Load(no);
      list := [room] + list;
      cores := cores[room := v.(opens := 1)];
      return room;
    }

    /** The inode's part in file_create: initialise it, write it to the disk, and put it in front, open once. */
    method Create(no: nat, room: nat)
      requires Wf(View()) && TableFits(table.disk) && no < MAX_INODES && room !in list
      modifies this, table
      ensures table.disk == Synced(old(table.disk), FreshInode(no))
      ensures View() == Pushed(old(View()), no, room)
      ensures list == [room] + old(list)
      ensures cores == old(cores)[room := Inode(no, 0, 1, 0, seq(13, _ => 0), 0, 0)]
      ensures Stored(table.disk, no % 256) == Inode(no, 0, 0, 0, seq(13, _ => 0), 0, 0)
    {
      var v := FreshInode(no);
      table.Sync(v);
      list := [room] + list;
      cores := cores[room := v.(opens := 1)];
    }

    /** inode_sync of an inode in memory. */
    method SyncOpen(p: nat)
      requires Wf(View()) && TableFits(table.disk) && p in list && Fits(Pure(cores[p]))
      modifies table
      ensures table.disk == Synced(old(table.disk), cores[p])
      ensures var u, v := Stored(table.disk, cores[p].no % 256), cores[p];
              && u.no == v.no && u.size == v.size && u.sectors == v.sectors
              && u.opens == 0 && u.deny == 0 && u.prev == 0 && u.next == 0
    {
      table.Sync(cores[p]);
    }

    /** inode_close. */
    method InodeClose(p: nat)
      requires Wf(View()) && p in list && cores[p].opens > 0
      modifies this
      ensures View() == Closed(old(View()), p)
    {
      var left := cores[p].opens - 1;
      if left == 0 {
        list := Without(list, p);
        cores := cores - {p};
      } else {
        cores := cores[p := cores[p].(opens := left)];
      }
    }
  }

  lemma {:induction false} FindIs(c: Cache, no: nat, i: nat)
    requires Wf(c) && i <= |c.list| && (i < |c.list| ==> c.cores[c.list[i]].no == no)
    requires forall j :: 0 <= j < i ==> c.cores[c.list[j]].no != no
    ensures Find(c, no) == i
    decreases i
  {
    if i > 0 {
      var rest := Cache(c.list[1..], c.cores);
      assert forall j :: 0 <= j < |rest.list| ==> rest.list[j] == c.list[j + 1];
      assert c.cores[c.list[0]].no != no;
      FindIs(rest, no, i - 1);
    }
  }

  // ----- runs -----

  /** Memory, disk, and the numbers whose bit is set in the inode bitmap. */
  datatype System = System(cache: Cache, disk: seq<Sector>, alive: set<nat>)

  datatype Event =
    | Open(no: nat, room: nat)
    | Close(no: nat, handle: nat)
    | Change(handle: nat, size: nat, sectors: seq<nat>)
    | Sync(handle: nat)
    | Creat(no: nat, room: nat)
    | Mkdir(no: nat, size: nat, sectors: seq<nat>)
    | Delete(no: nat)

  /** inode_open of any number, inode_close of what is held, file_write's changes to an inode in memory,
      inode_sync of one, file_create and sys_mkdir for a number that inode_bitmap_alloc returns, and the part of
      inode_release that clears bit and slot; its own inode_open and inode_close are events before and after. */
  ghost predicate Step(s: System, e: Event, s': System) {
    var c := s.cache;
    && Wf(c) && TableFits(s.disk)
    && match e
       case Open(no, room) =>
         && no < MAX_INODES && room !in c.list
         && s' == s.(cache := Opened(c, no, room, Stored(s.disk, no)))
       case Close(no, p) =>
         && p in c.list && c.cores[p].no == no && c.cores[p].opens > 0
         && s' == s.(cache := Closed(c, p))
       case Change(p, size, sectors) =>
         && p in c.list && Fits(Pure(c.cores[p].(size := size, sectors := sectors)))
         && s' == s.(cache := Changed(c, p, size, sectors))
       case Sync(p) =>
         && p in c.list && Fits(Pure(c.cores[p]))
         && s' == s.(disk := Synced(s.disk, c.cores[p]))
       case Creat(no, room) =>
         && no !in s.alive && no < MAX_INODES && room !in c.list
         && s' == System(Pushed(c, no, room), Synced(s.disk, FreshInode(no)), s.alive + {no})
       case Mkdir(no, size, sectors) =>
         && no !in s.alive && no < MAX_INODES
         && Fits(FreshInode(no).(size := size, sectors := sectors))
         && s' == s.(disk := Synced(s.disk, FreshInode(no).(size := size, sectors := sectors)), alive := s.alive + {no})
       case Delete(no) =>
         && no < MAX_INODES
         && s' == s.(disk := Spliced(s.disk, no, seq(INODE_SIZE, _ => 0)), alive := s.alive - {no})
  }

  function Changed(c: Cache, p: nat, size: nat, sectors: seq<nat>): Cache
    requires Wf(c) && p in c.list
  {
    c.(cores := c.cores[p := c.cores[p].(size := size, sectors := sectors)])
  }

  /** The number an event is about, if it names one. */
  predicate About(e: Event, no: nat) {
    match e
    case Open(n, _) => n == no
    case Close(n, _) => n == no
    case Creat(n, _) => n == no
    case Mkdir(n, _, _) => n == no
    case Delete(n) => n == no
    case Change(_, _, _) => true
    case Sync(_) => true
  }

  /** The call opens a number that has a copy on the list or that its slot holds, or creates a file under a
      number that has no copy on the list. */
  ghost predicate Proper(s: System, e: Event)
    requires Wf(s.cache) && TableFits(s.disk)
  {
    match e
    case Open(no, _) => no < MAX_INODES && (HasCopy(s.cache, no) || Stored(s.disk, no).no == no)
    case Creat(no, _) => !HasCopy(s.cache, no)
    case _ => true
  }

  /** The call opens a number only while its bit is set or a copy is there. */
  ghost predicate OpensInUse(s: System, e: Event)
    requires Wf(s.cache)
  {
    e.Open? ==> e.no in s.alive || HasCopy(s.cache, e.no)
  }

  /** The call gives out no number of 256 or more. */
  predicate Low(e: Event) {
    (e.Creat? ==> e.no < 256) && (e.Mkdir? ==> e.no < 256)
  }

  /** Numbers are below 256, opened in use only, and given out to a file only when no copy is open. */
  ghost predicate Careful(s: System, e: Event)
    requires Wf(s.cache)
  {
    OpensInUse(s, e) && Low(e) && (e.Creat? ==> !HasCopy(s.cache, e.no))
  }

  /** Handles given out minus handles given back for inode `no`. */
  function Balance(es: seq<Event>, no: nat): int {
    if es == [] then 0 else Balance(es[..|es| - 1], no) + HandlesBy(es[|es| - 1], no)
  }

  function HandlesBy(e: Event, no: nat): int {
    match e
    case Open(n, _) => if n == no then 1 else 0
    case Creat(n, _) => if n == no then 1 else 0
    case Close(n, _) => if n == no then -1 else 0
    case _ => 0
  }

  /** Every number in use is stored in its own slot. */
  ghost predicate TableOk(disk: seq<Sector>, alive: set<nat>) {
    TableFits(disk) && forall n :: n in alive ==> n < 256 && Stored(disk, n).no == n
  }

  /** After mounting: nothing in memory. */
  ghost predicate IsRun(ss: seq<System>, es: seq<Event>) {
    && |ss| == |es| + 1 && ss[0].cache == Cache([], map[])
    && forall i :: 0 <= i < |es| ==> Step(ss[i], es[i], ss[i + 1])
  }

  /** At most one copy of each inode, and its count is the number of handles that are out. */
  ghost predicate CountsOk(c: Cache, out: nat -> int) {
    && Wf(c)
    && (forall i, j :: 0 <= i < j < |c.list| ==> c.list[i] != c.list[j])
    && (forall p, q :: p in c.list && q in c.list && c.cores[p].no == c.cores[q].no ==> p == q)
    && (forall p :: p in c.list ==> c.cores[p].opens == out(c.cores[p].no) && c.cores[p].opens > 0)
    && (forall no :: HasCopy(c, no) || out(no) == 0)
  }

  ghost predicate HasCopy(c: Cache, no: nat)
    requires Wf(c)
  {
    exists p :: p in c.list && c.cores[p].no == no
  }

  lemma OpenKeeps(c: Cache, no: nat, room: nat, stored: Inode, out: nat -> int, out': nat -> int)
    requires CountsOk(c, out) && room !in c.list && (HasCopy(c, no) || stored.no == no)
    requires forall n :: out'(n) == out(n) + if n == no then 1 else 0
    ensures CountsOk(Opened(c, no, room, stored), out')
  {
    if Find(c, no) == |c.list| {
      NotFound(c, no);
      NewKeeps(c, no, room, stored, out, out');
    } else {
      AgainKeeps(c, no, Find(c, no), out, out');
    }
  }

  /** A copy is there already. */
  lemma AgainKeeps(c: Cache, no: nat, i: nat, out: nat -> int, out': nat -> int)
    requires CountsOk(c, out) && i < |c.list| && c.cores[c.list[i]].no == no
    requires forall n :: out'(n) == out(n) + if n == no then 1 else 0
    ensures var v := c.cores[c.list[i]];
            CountsOk(c.(cores := c.cores[c.list[i] := v.(opens := v.opens + 1)]), out')
  {
    var v := c.cores[c.list[i]];
    var c' := c.(cores := c.cores[c.list[i] := v.(opens := v.opens + 1)]);
    assert forall p :: p in c.list ==> c'.cores[p].no == c.cores[p].no;
    forall n ensures HasCopy(c', n) <==> HasCopy(c, n) {
      if HasCopy(c, n) {
        var p :| p in c.list && c.cores[p].no == n;
        assert p in c'.list && c'.cores[p].no == n;
      }
    }
    assert HasCopy(c', no);
  }

  /** A new copy. */
  lemma NewKeeps(c: Cache, no: nat, room: nat, stored: Inode, out: nat -> int, out': nat -> int)
    requires CountsOk(c, out) && room !in c.list && stored.no == no && !HasCopy(c, no)
    requires forall n :: out'(n) == out(n) + if n == no then 1 else 0
    ensures CountsOk(Cache([room] + c.list, c.cores[room := stored.(opens := 1)]), out')
  {
    var c' := Cache([room] + c.list, c.cores[room := stored.(opens := 1)]);
    assert out(no) == 0;
    assert forall p :: p in c.list ==> c'.cores[p] == c.cores[p] && c.cores[p].no != no;
    forall n ensures HasCopy(c', n) <==> HasCopy(c, n) || n == no {
      if HasCopy(c, n) {
        var p :| p in c.list && c.cores[p].no == n;
        assert p in c'.list && c'.cores[p].no == n;
      }
      if n == no { assert room in c'.list && c'.cores[room].no == n; }
    }
  }

  lemma FoundIff(c: Cache, no: nat)
    requires Wf(c)
    ensures HasCopy(c, no) <==> Find(c, no) < |c.list|
  {
    assert Find(c, no) < |c.list| ==> c.list[Find(c, no)] in c.list;
  }

  lemma NotFound(c: Cache, no: nat)
    requires Wf(c) && Find(c, no) == |c.list|
    ensures !HasCopy(c, no) && forall p :: p in c.list ==> c.cores[p].no != no
  {
  }

  lemma {:induction false} WithoutDistinct(s: seq<nat>, p: nat)
    requires forall i, j :: 0 <= i < j < |s| ==> s[i] != s[j]
    ensures forall i, j :: 0 <= i < j < |Without(s, p)| ==> Without(s, p)[i] != Without(s, p)[j]
  {
    if s != [] {
      WithoutDistinct(s[1..], p);
      assert s[0] !in s[1..];
    }
  }

  lemma CloseKeeps(c: Cache, p: nat, out: nat -> int, out': nat -> int)
    requires CountsOk(c, out) && p in c.list
    requires forall n :: out'(n) == out(n) - if n == c.cores[p].no then 1 else 0
    ensures CountsOk(Closed(c, p), out')
  {
    if c.cores[p].opens == 1 {
      LastCloseKeeps(c, p, out, out');
    } else {
      var v, c' := c.cores[p], Closed(c, p);
      assert forall q :: q in c.list ==> c'.cores[q].no == c.cores[q].no;
      forall n ensures HasCopy(c', n) <==> HasCopy(c, n) {
        if HasCopy(c, n) {
          var q :| q in c.list && c.cores[q].no == n;
          assert q in c'.list && c'.cores[q].no == n;
        }
      }
      assert HasCopy(c', v.no);
    }
  }

  lemma LastCloseKeeps(c: Cache, p: nat, out: nat -> int, out': nat -> int)
    requires CountsOk(c, out) && p in c.list && c.cores[p].opens == 1
    requires forall n :: out'(n) == out(n) - if n == c.cores[p].no then 1 else 0
    ensures CountsOk(Cache(Without(c.list, p), c.cores - {p}), out')
  {
    var c' := Cache(Without(c.list, p), c.cores - {p});
    WithoutDistinct(c.list, p);
    forall n ensures HasCopy(c', n) <==> HasCopy(c, n) && n != c.cores[p].no {
      if HasCopy(c, n) && n != c.cores[p].no {
        var q :| q in c.list && c.cores[q].no == n;
        assert q in c'.list && c'.cores[q].no == n;
      }
    }
  }

  // ----- one step -----

  /** The inodes in memory have numbers below 256 and fields that fit their words. */
  ghost predicate CoresOk(c: Cache) {
    Wf(c) && forall p :: p in c.list ==> c.cores[p].no < 256 && Fits(Pure(c.cores[p]))
  }

  ghost predicate Good(s: System, out: nat -> int) {
    CountsOk(s.cache, out) && CoresOk(s.cache) && TableOk(s.disk, s.alive)
  }

  /** A sync of an inode below 256 keeps every number in its slot. */
  lemma SyncKeepsTable(disk: seq<Sector>, alive: set<nat>, v: Inode)
    requires TableOk(disk, alive) && v.no < 256 && Fits(Pure(v))
    ensures TableOk(Synced(disk, v), alive + {v.no})
  {
    hide Synced, SlotBytes, Stored, TableFits;
    SyncedSlots(disk, v);
    assert TableFits(disk);
    forall n | n in alive && n != v.no ensures Stored(Synced(disk, v), n) == Stored(disk, n) {
      StoredSame(disk, Synced(disk, v), n);
    }
  }

  lemma StoredSame(disk: seq<Sector>, disk': seq<Sector>, n: nat)
    requires TableFits(disk) && TableFits(disk') && n < MAX_INODES && SlotBytes(disk', n) == SlotBytes(disk, n)
    ensures Stored(disk', n) == Stored(disk, n)
  {
    hide SlotBytes, OfBytes;
  }

  lemma TableLess(disk: seq<Sector>, a: set<nat>, b: set<nat>)
    requires TableOk(disk, a) && b <= a
    ensures TableOk(disk, b)
  {
    hide Stored, TableFits;
  }

  lemma DeleteKeepsTable(disk: seq<Sector>, alive: set<nat>, no: nat)
    requires TableOk(disk, alive) && no < MAX_INODES
    ensures TableOk(Spliced(disk, no, seq(INODE_SIZE, _ => 0)), alive - {no})
  {
    hide Spliced, SlotBytes, Stored, TableFits;
    var blank := seq(INODE_SIZE, _ => 0);
    SplicedSlots(disk, no, blank);
    forall n | n in alive && n != no ensures Stored(Spliced(disk, no, blank), n) == Stored(disk, n) {
      StoredSame(disk, Spliced(disk, no, blank), n);
    }
  }

  lemma ChangeKeeps(c: Cache, p: nat, size: nat, sectors: seq<nat>, out: nat -> int, out': nat -> int)
    requires CountsOk(c, out) && p in c.list && forall n :: out'(n) == out(n)
    ensures CountsOk(Changed(c, p, size, sectors), out')
  {
    var c' := Changed(c, p, size, sectors);
    assert forall q :: q in c.list ==> c'.cores[q].no == c.cores[q].no && c'.cores[q].opens == c.cores[q].opens;
    forall n ensures HasCopy(c', n) <==> HasCopy(c, n) {
      if HasCopy(c, n) {
        var q :| q in c.list && c.cores[q].no == n;
        assert q in c'.list && c'.cores[q].no == n;
      }
    }
  }

  lemma OpenGood(s: System, no: nat, room: nat, s': System, out: nat -> int, out': nat -> int)
    requires Good(s, out) && Step(s, Open(no, room), s') && OpensInUse(s, Open(no, room))
    requires forall n :: out'(n) == out(n) + if n == no then 1 else 0
    ensures Good(s', out')
  {
    hide CountsOk, Stored, TableFits, HasCopy;
    var v := Stored(s.disk, no);
    StoredFits(s.disk, no);
    OpenKeeps(s.cache, no, room, v, out, out');
    OpenedCores(s.cache, no, room, v);
  }

  lemma OpenedCores(c: Cache, no: nat, room: nat, v: Inode)
    requires CoresOk(c) && room !in c.list && Fits(v) && (HasCopy(c, no) || (no < 256 && v.no == no))
    ensures CoresOk(Opened(c, no, room, v))
  {
    if Find(c, no) == |c.list| { NotFound(c, no); }
  }

  lemma CloseGood(s: System, no: nat, p: nat, s': System, out: nat -> int, out': nat -> int)
    requires Good(s, out) && Step(s, Close(no, p), s') && forall n :: out'(n) == out(n) - if n == no then 1 else 0
    ensures Good(s', out')
  {
    hide TableOk, HasCopy;
    CloseKeeps(s.cache, p, out, out');
    hide CountsOk, Without;
  }

  lemma CreatGood(s: System, no: nat, room: nat, s': System, out: nat -> int, out': nat -> int)
    requires Good(s, out) && no < 256 && Step(s, Creat(no, room), s') && !HasCopy(s.cache, no)
    requires forall n :: out'(n) == out(n) + if n == no then 1 else 0
    ensures Good(s', out')
  {
    hide HasCopy, CountsOk, TableOk, Synced, FreshInode;
    NewKeeps(s.cache, no, room, FreshInode(no), out, out');
    SyncKeepsTable(s.disk, s.alive, FreshInode(no));
  }

  lemma StepGood(s: System, e: Event, s': System, out: nat -> int, out': nat -> int)
    requires Good(s, out) && Step(s, e, s') && Careful(s, e) && forall n :: out'(n) == out(n) + HandlesBy(e, n)
    ensures Good(s', out')
  {
    hide CountsOk, TableOk, CoresOk, Stored, Synced, Spliced, HasCopy, FreshInode;
    match e
    case Open(no, room) => OpenGood(s, no, room, s', out, out');
    case Close(no, p) => CloseGood(s, no, p, s', out, out');
    case Creat(no, room) => CreatGood(s, no, room, s', out, out');
    case Change(p, size, sectors) =>
      ChangeKeeps(s.cache, p, size, sectors, out, out');
      ChangedCores(s.cache, p, size, sectors);
    case Sync(p) => SyncGood(s, p, out, out');
    case Mkdir(no, size, sectors) =>
      SameCounts(s.cache, out, out');
      SyncKeepsTable(s.disk, s.alive, FreshInode(no).(size := size, sectors := sectors));
    case Delete(no) =>
      SameCounts(s.cache, out, out');
      DeleteKeepsTable(s.disk, s.alive, no);
  }

  lemma SameCounts(c: Cache, out: nat -> int, out': nat -> int)
    requires CountsOk(c, out) && forall n :: out'(n) == out(n)
    ensures CountsOk(c, out')
  {
    hide HasCopy;
  }

  lemma ChangedCores(c: Cache, p: nat, size: nat, sectors: seq<nat>)
    requires CoresOk(c) && p in c.list && Fits(Pure(c.cores[p].(size := size, sectors := sectors)))
    ensures CoresOk(Changed(c, p, size, sectors))
  {
  }

  lemma SyncGood(s: System, p: nat, out: nat -> int, out': nat -> int)
    requires Good(s, out) && p in s.cache.list && forall n :: out'(n) == out(n)
    ensures Fits(Pure(s.cache.cores[p]))
    ensures Good(s.(disk := Synced(s.disk, s.cache.cores[p])), out')
  {
    SameCounts(s.cache, out, out');
    SyncKeepsTable(s.disk, s.alive, s.cache.cores[p]);
    hide CountsOk, Synced;
    TableLess(Synced(s.disk, s.cache.cores[p]), s.alive + {s.cache.cores[p].no}, s.alive);
  }

  // ----- runs -----

  /** The states of a run have a list and a disk, so that the conditions on its calls make sense. */
  lemma RunAt(ss: seq<System>, es: seq<Event>, i: nat)
    requires IsRun(ss, es) && i < |es|
    ensures Wf(ss[i].cache) && TableFits(ss[i].disk) && Step(ss[i], es[i], ss[i + 1])
  {
    hide TableFits, Stored, Synced, Spliced;
    assert Step(ss[i], es[i], ss[i + 1]);
  }

  /** All calls of the run are careful. */
  ghost predicate AllCareful(ss: seq<System>, es: seq<Event>) {
    |ss| == |es| + 1 && forall i :: 0 <= i < |es| ==> Wf(ss[i].cache) && Careful(ss[i], es[i])
  }

  /** Over every run of careful opens, closes, changes, syncs, creations and deletions there is at most one copy
      of an inode in memory, it counts the handles that are out, and every number in use is found in its own
      slot of the disk. */
  lemma {:induction false} OneCopyPerInode(ss: seq<System>, es: seq<Event>)
    requires IsRun(ss, es) && TableOk(ss[0].disk, ss[0].alive) && AllCareful(ss, es)
    ensures Good(ss[|es|], (n: nat) => Balance(es, n))
    decreases |es|
  {
    hide Step, TableOk, Careful;
    if es != [] {
      var k := |es| - 1;
      var front := es[..k];
      OneCopyPerInode(ss[..k + 1], front);
      assert Step(ss[k], es[k], ss[k + 1]);
      StepGood(ss[k], es[k], ss[k + 1], (n: nat) => Balance(front, n), (n: nat) => Balance(es, n));
    }
  }

  /** While a copy of an inode is there, opening its number yields it. */
  lemma SameHandle(ss: seq<System>, es: seq<Event>, no: nat, p: nat, room: nat)
    requires IsRun(ss, es) && TableOk(ss[0].disk, ss[0].alive) && AllCareful(ss, es)
    requires Wf(ss[|es|].cache) && p in ss[|es|].cache.list && ss[|es|].cache.cores[p].no == no
    ensures Handle(ss[|es|].cache, no, room) == p && Balance(es, no) > 0
  {
    hide Step, TableOk, AllCareful;
    OneCopyPerInode(ss, es);
    var c := ss[|es|].cache;
    if Find(c, no) == |c.list| { NotFound(c, no); }
  }

  // ----- exactly when one copy is kept -----

  ghost predicate AtMostOne(c: Cache) {
    Wf(c) && forall p, q :: p in c.list && q in c.list && c.cores[p].no == c.cores[q].no ==> p == q
  }

  /** In every state of the run there is at most one copy of each inode. */
  ghost predicate AlwaysOne(ss: seq<System>) {
    forall i :: 0 <= i < |ss| ==> AtMostOne(ss[i].cache)
  }

  /** A number is given to a new file only when every handle to it has been given back. */
  ghost predicate GivenOutClosed(es: seq<Event>) {
    forall i :: 0 <= i < |es| && es[i].Creat? ==> Balance(es[..i], es[i].no) == 0
  }

  /** Numbers below 256, opened in use only. */
  ghost predicate UsedLow(ss: seq<System>, es: seq<Event>) {
    |ss| == |es| + 1 && forall i :: 0 <= i < |es| ==> Wf(ss[i].cache) && OpensInUse(ss[i], es[i]) && Low(es[i])
  }

  /** With numbers below 256, opened in use only, a run keeps one copy of each inode if and only if no number is
      given to a new file while a handle to it is out. */
  lemma OneCopyIff(ss: seq<System>, es: seq<Event>)
    requires IsRun(ss, es) && TableOk(ss[0].disk, ss[0].alive) && UsedLow(ss, es)
    ensures AlwaysOne(ss) <==> GivenOutClosed(es)
  {
    hide Step, TableOk, OpensInUse, Balance, CoresOk, CountsOk;
    if GivenOutClosed(es) {
      forall i | 0 <= i < |ss| ensures AtMostOne(ss[i].cache) {
        ClosedPrefix(es, i);
        GoodAt(ss, es, i);
        CountsAtMostOne(ss[i].cache, (m: nat) => Balance(es[..i], m));
      }
    }
    if AlwaysOne(ss) {
      OnlyClosed(ss, es, |es|);
      assert es[..|es|] == es;
    }
  }

  /** As long as the numbers given out are closed, all is well. */
  lemma {:induction false} GoodAt(ss: seq<System>, es: seq<Event>, i: nat)
    requires IsRun(ss, es) && TableOk(ss[0].disk, ss[0].alive) && UsedLow(ss, es)
    requires i <= |es| && GivenOutClosed(es[..i])
    ensures Good(ss[i], (n: nat) => Balance(es[..i], n))
  {
    hide Step, TableOk, OpensInUse, CoresOk, CountsOk;
    if i == 0 {
      assert es[..0] == [];
      NothingOpen((n: nat) => Balance(es[..0], n));
    } else {
      var k := i - 1;
      ClosedBefore(es, i);
      GoodAt(ss, es, k);
      assert es[..i][..k] == es[..k] && es[..i][k] == es[k];
      assert Step(ss[k], es[k], ss[i]);
      ClosedIsCareful(ss[k], es[k], (n: nat) => Balance(es[..k], n));
      StepGood(ss[k], es[k], ss[i], (n: nat) => Balance(es[..k], n), (n: nat) => Balance(es[..i], n));
    }
  }

  lemma NothingOpen(out: nat -> int)
    requires forall n :: out(n) == 0
    ensures CountsOk(Cache([], map[]), out) && CoresOk(Cache([], map[]))
  {
  }

  lemma ClosedPrefix(es: seq<Event>, i: nat)
    requires GivenOutClosed(es) && i <= |es|
    ensures GivenOutClosed(es[..i])
  {
    hide Balance;
    assert forall j :: 0 <= j < i ==> es[..i][..j] == es[..j] && es[..i][j] == es[j];
  }

  lemma ClosedBefore(es: seq<Event>, i: nat)
    requires 0 < i <= |es| && GivenOutClosed(es[..i])
    ensures GivenOutClosed(es[..i - 1])
    ensures es[i - 1].Creat? ==> Balance(es[..i - 1], es[i - 1].no) == 0
  {
    hide Balance;
    assert es[..i][..i - 1] == es[..i - 1];
    forall j | 0 <= j < i - 1 && es[j].Creat? ensures Balance(es[..i - 1][..j], es[j].no) == 0 {
      assert es[..i - 1][..j] == es[..i][..j] && es[..i][j] == es[j];
    }
  }

  lemma ClosedIsCareful(s: System, e: Event, out: nat -> int)
    requires Good(s, out) && OpensInUse(s, e) && Low(e) && (e.Creat? ==> out(e.no) == 0)
    ensures Careful(s, e)
  {
    hide TableOk;
  }

  /** While one copy is kept, every number given out is closed. */
  lemma {:induction false} OnlyClosed(ss: seq<System>, es: seq<Event>, i: nat)
    requires IsRun(ss, es) && TableOk(ss[0].disk, ss[0].alive) && UsedLow(ss, es) && AlwaysOne(ss) && i <= |es|
    ensures GivenOutClosed(es[..i])
  {
    hide Step, TableOk, OpensInUse, Balance, CoresOk, CountsOk, AtMostOne;
    if i > 0 {
      var k := i - 1;
      OnlyClosed(ss, es, k);
      GoodAt(ss, es, k);
      assert Step(ss[k], es[k], ss[i]) && AtMostOne(ss[i].cache);
      CreatClosed(ss[k], es[k], ss[i], (n: nat) => Balance(es[..k], n));
      forall j | 0 <= j < i && es[..i][j].Creat? ensures Balance(es[..i][..j], es[..i][j].no) == 0 {
        assert es[..i][..j] == es[..j] && es[..i][j] == es[j];
        if j < k { assert es[..k][j] == es[j] && es[..k][..j] == es[..j]; }
      }
    }
  }

  /** A file made under a number with a copy is its second copy. */
  lemma CreatClosed(s: System, e: Event, s': System, out: nat -> int)
    requires CountsOk(s.cache, out) && Step(s, e, s') && AtMostOne(s'.cache)
    ensures e.Creat? ==> out(e.no) == 0
  {
    hide TableFits, Stored, Synced, Spliced;
    if e.Creat? { SecondCopy(s.cache, e.no, e.room); }
  }

  lemma CountsAtMostOne(c: Cache, out: nat -> int)
    requires CountsOk(c, out)
    ensures AtMostOne(c)
  {
  }

  /** Whatever the numbers and the disk: a call keeps the list an exact account of the handles if and only if
      it is proper. */
  lemma ProperIff(s: System, e: Event, s': System, out: nat -> int, out': nat -> int)
    requires CountsOk(s.cache, out) && Step(s, e, s') && forall n :: out'(n) == out(n) + HandlesBy(e, n)
    ensures CountsOk(s'.cache, out') <==> Proper(s, e)
  {
    hide CountsOk, Stored, Synced, Spliced, HasCopy, TableFits;
    match e
    case Open(no, room) =>
      if Proper(s, e) {
        OpenKeeps(s.cache, no, room, Stored(s.disk, no), out, out');
      } else {
        OpenLosesCount(s.cache, no, room, Stored(s.disk, no), out, out');
      }
    case Close(no, p) => CloseKeeps(s.cache, p, out, out');
    case Creat(no, room) =>
      if Proper(s, e) {
        NewKeeps(s.cache, no, room, FreshInode(no), out, out');
      } else {
        SecondCopy(s.cache, no, room);
        if CountsOk(s'.cache, out') { CountsAtMostOne(s'.cache, out'); }
      }
    case Change(p, size, sectors) => ChangeKeeps(s.cache, p, size, sectors, out, out');
    case Sync(_) => SameCounts(s.cache, out, out');
    case Mkdir(_, _, _) => SameCounts(s.cache, out, out');
    case Delete(_) => SameCounts(s.cache, out, out');
  }

  /** What is loaded has another number: the handle is to no copy of the inode asked for. */
  lemma OpenLosesCount(c: Cache, no: nat, room: nat, stored: Inode, out: nat -> int, out': nat -> int)
    requires CountsOk(c, out) && room !in c.list && !HasCopy(c, no) && stored.no != no
    requires forall n :: out'(n) == out(n) + if n == no then 1 else 0
    ensures !CountsOk(Opened(c, no, room, stored), out')
  {
    FoundIff(c, no);
    var c' := Opened(c, no, room, stored);
    assert out(no) == 0 && out'(no) == 1;
    assert forall p :: p in c.list ==> c'.cores[p] == c.cores[p] && c.cores[p].no != no;
    assert !HasCopy(c', no);
  }

  lemma SecondCopy(c: Cache, no: nat, room: nat)
    requires Wf(c) && room !in c.list && no < MAX_WORD
    ensures HasCopy(c, no) ==> !AtMostOne(Pushed(c, no, room))
  {
    if HasCopy(c, no) {
      var p :| p in c.list && c.cores[p].no == no;
      var c' := Pushed(c, no, room);
      assert p in c'.list && c'.cores[p].no == no && room in c'.list && c'.cores[room].no == no;
    }
  }

  /** Over whole runs, whatever the numbers and the disk: in every state the list is an exact account of the
      handles, one copy for each number with a handle out, if and only if every call was proper. */
  lemma {:induction false} AccountsIff(ss: seq<System>, es: seq<Event>)
    requires IsRun(ss, es)
    ensures (forall i :: 0 <= i < |ss| ==> AccountAt(ss, es, i)) <==>
            (forall i :: 0 <= i < |es| ==> ProperAt(ss, es, i))
  {
    hide Step, CountsOk, Proper;
    if forall i :: 0 <= i < |es| ==> ProperAt(ss, es, i) {
      forall i | 0 <= i < |ss| ensures AccountAt(ss, es, i) { AccountFrom(ss, es, i); }
    }
    if forall i :: 0 <= i < |ss| ==> AccountAt(ss, es, i) {
      forall i | 0 <= i < |es| ensures ProperAt(ss, es, i) {
        assert AccountAt(ss, es, i) && AccountAt(ss, es, i + 1);
        AccountStep(ss, es, i);
      }
    }
  }

  ghost predicate AccountAt(ss: seq<System>, es: seq<Event>, i: nat)
    requires i < |ss| == |es| + 1
  {
    CountsOk(ss[i].cache, (n: nat) => Balance(es[..i], n))
  }

  ghost predicate ProperAt(ss: seq<System>, es: seq<Event>, i: nat)
    requires i < |es| && |ss| == |es| + 1
  {
    Wf(ss[i].cache) && TableFits(ss[i].disk) && Proper(ss[i], es[i])
  }

  lemma AccountStep(ss: seq<System>, es: seq<Event>, i: nat)
    requires IsRun(ss, es) && i < |es| && AccountAt(ss, es, i)
    ensures AccountAt(ss, es, i + 1) <==> ProperAt(ss, es, i)
  {
    RunAt(ss, es, i);
    hide Step, CountsOk, Proper, TableFits;
    assert es[..i + 1][..i] == es[..i];
    ProperIff(ss[i], es[i], ss[i + 1], (n: nat) => Balance(es[..i], n), (n: nat) => Balance(es[..i + 1], n));
  }

  lemma {:induction false} AccountFrom(ss: seq<System>, es: seq<Event>, i: nat)
    requires IsRun(ss, es) && i <= |es| && forall j :: 0 <= j < |es| ==> ProperAt(ss, es, j)
    ensures AccountAt(ss, es, i)
  {
    hide Step, ProperAt;
    if i > 0 {
      AccountFrom(ss, es, i - 1);
      assert ProperAt(ss, es, i - 1);
      AccountStep(ss, es, i - 1);
    }
  }

  // ----- runs that make two copies -----

  /** A partition with nothing but the root's inode. */
  function Formatted(): System {
    System(Cache([], map[]), BlankTable(), {0})
  }

  lemma FormattedOk()
    ensures TableOk(BlankTable(), {0})
  {
    hide Stored, BlankTable;
    BlankSlot(0);
  }

  /** Create a file, close it and open it twice: with such a number two copies are in memory. */
  lemma TwoCopies(n: nat) returns (ss: seq<System>, es: seq<Event>)
    requires 256 <= n < MAX_INODES
    ensures RunAbout(ss, es, n) && |ss| == |es| + 1 && !AtMostOne(ss[|es|].cache)
  {
    hide Stored, Synced, Spliced, BlankTable, Step, Closed, Opened, Pushed, TableFits;
    var disk := Synced(BlankTable(), FreshInode(n));
    SyncedOther(BlankTable(), FreshInode(n));
    BlankSlot(n);
    var u := Stored(disk, n);
    var none := Cache([], map[]);
    var s1, s2 := System(Pushed(none, n, 1), disk, {0, n}), System(none, disk, {0, n});
    var s3, s4 := s2.(cache := CopyOf(u, 1)), s2.(cache := TwoOf(u));
    ss := [Formatted(), s1, s2, s3, s4];
    es := [Creat(n, 1), Close(n, 1), Open(n, 1), Open(n, 2)];
    CreatStep(n, s1);
    CloseStep(n, s1, s2);
    OpenedTwice(n, u);
    assert Step(s2, es[2], s3) by { OpenStep(s2, n, 1, s3); }
    assert Step(s3, es[3], s4) by { OpenStep(s3, n, 2, s4); }
    LastClosed(n);
    assert es[..0] == [];
    assert GivenOutClosed(es);
    assert forall i :: 0 <= i < |es| ==> Wf(ss[i].cache) && OpensInUse(ss[i], es[i]);
  }

  lemma CreatStep(n: nat, s1: System)
    requires 256 <= n < MAX_INODES
    requires s1 == System(Pushed(Cache([], map[]), n, 1), Synced(BlankTable(), FreshInode(n)), {0, n})
    ensures Step(Formatted(), Creat(n, 1), s1)
  {
    hide Synced, BlankTable, Pushed, TableFits;
    assert {0} + {n} == {0, n};
  }

  lemma CloseStep(n: nat, s1: System, s2: System)
    requires n < MAX_INODES && TableFits(s1.disk) && s1.cache == Pushed(Cache([], map[]), n, 1)
    requires s2 == s1.(cache := Cache([], map[]))
    ensures Step(s1, Close(n, 1), s2)
  {
    hide TableFits;
    LastClosed(n);
  }

  lemma OpenStep(s: System, n: nat, room: nat, s': System)
    requires Wf(s.cache) && TableFits(s.disk) && n < MAX_INODES && room !in s.cache.list
    requires s' == s.(cache := Opened(s.cache, n, room, Stored(s.disk, n)))
    ensures Step(s, Open(n, room), s')
  {
    hide Stored, TableFits, Opened;
  }

  function TwoOf(u: Inode): Cache {
    Cache([2, 1], map[1 := u.(opens := 1)][2 := u.(opens := 1)])
  }

  function CopyOf(u: Inode, p: nat): Cache {
    Cache([p], map[p := u.(opens := 1)])
  }

  lemma LastClosed(n: nat)
    requires n < MAX_INODES
    ensures var c := Pushed(Cache([], map[]), n, 1);
            Wf(c) && 1 in c.list && c.cores[1].opens == 1 && Closed(c, 1) == Cache([], map[])
  {
    assert Without([1], 1) == [] && [1][1..] == [];
  }

  lemma OpenedTwice(n: nat, u: Inode)
    requires u.no != n
    ensures Opened(Cache([], map[]), n, 1, u) == CopyOf(u, 1)
    ensures Opened(CopyOf(u, 1), n, 2, u) == TwoOf(u) && !AtMostOne(TwoOf(u))
  {
    FindIs(CopyOf(u, 1), n, 1);
    assert TwoOf(u).cores[1].no == TwoOf(u).cores[2].no && 1 in TwoOf(u).list && 2 in TwoOf(u).list;
  }

  /** Make a directory, open it, remove it and create a file: the file gets the number of the directory that is
      still open, and two copies of it are in memory. */
  lemma CreatedWhileOpen(n: nat) returns (ss: seq<System>, es: seq<Event>)
    requires 0 < n < 256
    ensures IsRun(ss, es) && ss[0] == Formatted() && UsedLow(ss, es)
    ensures exists size, sectors :: es == [Mkdir(n, size, sectors), Open(n, 7), Delete(n), Creat(n, 8)]
    ensures !AtMostOne(ss[4].cache)
  {
    hide Stored, Synced, Spliced, BlankTable, Opened, Pushed, TableFits, FreshInode;
    var v := FreshInode(n);
    var none := Cache([], map[]);
    var disk1 := Synced(BlankTable(), v);
    SyncedSlots(BlankTable(), v);
    var u := Stored(disk1, n);
    var blank := seq(INODE_SIZE, _ => 0);
    var disk3 := Spliced(disk1, n, blank);
    var s1 := System(none, disk1, {0} + {n});
    var s2 := s1.(cache := CopyOf(u, 7));
    var s3 := s2.(disk := disk3, alive := s2.alive - {n});
    var s4 := System(Pushed(CopyOf(u, 7), n, 8), Synced(disk3, v), s3.alive + {n});
    ss := [Formatted(), s1, s2, s3, s4];
    es := [Mkdir(n, v.size, v.sectors), Open(n, 7), Delete(n), Creat(n, 8)];
    FirstOpened(n, u, 7);
    OpenStep(s1, n, 7, s2);
    SecondPushed(n, u);
  }

  lemma FirstOpened(n: nat, u: Inode, room: nat)
    ensures Opened(Cache([], map[]), n, room, u) == CopyOf(u, room)
  {
  }

  lemma SecondPushed(n: nat, u: Inode)
    requires u.no == n < MAX_WORD
    ensures !AtMostOne(Pushed(CopyOf(u, 7), n, 8))
  {
    var c := Pushed(CopyOf(u, 7), n, 8);
    assert 7 in c.list && 8 in c.list && c.cores[7].no == c.cores[8].no;
  }

  /** Make a directory, remove it and open its number, as sys_getcwd does in a working directory that was
      removed: the cleared slot is loaded, which makes a second copy of the root's inode. */
  lemma OpenedAfterRemoval(n: nat) returns (ss: seq<System>, es: seq<Event>)
    requires 0 < n < 256
    ensures IsRun(ss, es) && ss[0] == Formatted() && GivenOutClosed(es)
    ensures exists size, sectors :: es == [Open(0, 1), Mkdir(n, size, sectors), Delete(n), Open(n, 2)]
    ensures !AtMostOne(ss[4].cache)
  {
    hide Stored, Synced, Spliced, BlankTable, Opened, TableFits, FreshInode, Balance;
    var v := FreshInode(n);
    var u := Stored(BlankTable(), 0);
    BlankSlot(0);
    var disk2 := Synced(BlankTable(), v);
    var disk3 := Spliced(disk2, n, seq(INODE_SIZE, _ => 0));
    ClearedSlot(disk2, n);
    var w := Stored(disk3, n);
    var s1 := Formatted().(cache := CopyOf(u, 1));
    var s2 := System(CopyOf(u, 1), disk2, {0} + {n});
    var s3 := s2.(disk := disk3, alive := s2.alive - {n});
    var s4 := s3.(cache := Cache([2, 1], map[1 := u.(opens := 1)][2 := w.(opens := 1)]));
    ss := [Formatted(), s1, s2, s3, s4];
    es := [Open(0, 1), Mkdir(n, v.size, v.sectors), Delete(n), Open(n, 2)];
    FirstOpened(0, u, 1);
    OpenStep(Formatted(), 0, 1, s1);
    OtherOpened(n, u, w);
    OpenStep(s3, n, 2, s4);
    assert 1 in s4.cache.list && 2 in s4.cache.list && s4.cache.cores[1].no == s4.cache.cores[2].no;
  }

  lemma OtherOpened(n: nat, u: Inode, w: Inode)
    requires u.no != n
    ensures Opened(CopyOf(u, 1), n, 2, w) == Cache([2, 1], map[1 := u.(opens := 1)][2 := w.(opens := 1)])
  {
    FindIs(CopyOf(u, 1), n, 1);
  }

  lemma ClearedSlot(disk: seq<Sector>, n: nat)
    requires TableFits(disk) && n < MAX_INODES
    ensures Stored(Spliced(disk, n, seq(INODE_SIZE, _ => 0)), n).no == 0
  {
    SplicedSlots(disk, n, seq(INODE_SIZE, _ => 0));
    hide Spliced, SlotBytes, OfBytes, TableFits;
    FirstWord(seq(INODE_SIZE, _ => 0));
  }

  /** A run from a formatted partition about no number but n, which opens numbers in use only and gives none out
      while it is open. */
  ghost predicate RunAbout(ss: seq<System>, es: seq<Event>, n: nat) {
    && IsRun(ss, es) && ss[0] == Formatted() && GivenOutClosed(es)
    && forall i :: 0 <= i < |es| ==> Wf(ss[i].cache) && OpensInUse(ss[i], es[i]) && About(es[i], n)
  }

  /** Such runs keep at most one copy of each inode in memory if and only if the number is below 256. */
  lemma OneCopyByNumber(n: nat)
    requires n < MAX_INODES
    ensures (forall ss: seq<System>, es: seq<Event> :: RunAbout(ss, es, n) ==> AlwaysOne(ss)) <==> n < 256
  {
    hide IsRun, AtMostOne, GivenOutClosed, OpensInUse, BlankTable, TableOk;
    if n < 256 {
      forall ss: seq<System>, es: seq<Event> | RunAbout(ss, es, n) ensures AlwaysOne(ss) {
        FormattedOk();
        RunLength(ss, es);
        OneCopyIff(ss, es);
      }
    } else {
      var ss, es := TwoCopies(n);
      assert !AtMostOne(ss[|es|].cache);
    }
  }

  lemma RunLength(ss: seq<System>, es: seq<Event>)
    requires IsRun(ss, es)
    ensures |ss| == |es| + 1
  {
  }
}
