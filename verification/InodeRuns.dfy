/** What an inode holds over whole runs: the copies in memory change only by what file_write does to them, and an
    inode that is loaded has what was saved last. */
module InodeRuns {
  import opened Disk
  import opened InodeSlots
  import opened InodeCache

  // ----- copies in memory -----

  /** A copy that is there before and after a call keeps its number, its size, its blocks and its write lock, but
      for a change to it; its count goes up with an open of it and down with a close. */
  lemma CopiesStay(s: System, e: Event, s': System, p: nat)
    requires Step(s, e, s') && p in s.cache.list && p in s'.cache.list
    ensures Wf(s.cache) && Wf(s'.cache)
    ensures var v, v' := s.cache.cores[p], s'.cache.cores[p];
            && v'.no == v.no && v'.deny == v.deny
            && v'.size == (if e.Change? && e.handle == p then e.size else v.size)
            && v'.sectors == (if e.Change? && e.handle == p then e.sectors else v.sectors)
            && (e.Close? && e.handle == p ==> v'.opens == v.opens - 1)
            && (e.Open? && v.no == e.no && v'.opens != v.opens ==> v'.opens == v.opens + 1)
            && (!(e.Close? && e.handle == p) && !(e.Open? && v.no == e.no) ==> v'.opens == v.opens)
  {
    hide Stored, Synced, Spliced, TableFits, FreshInode;
  }

  /** Copies come with an open or a creation, for its number, and go with their last close. */
  lemma CopiesComeAndGo(s: System, e: Event, s': System, p: nat)
    requires Step(s, e, s')
    ensures Wf(s.cache) && Wf(s'.cache)
    ensures p in s.cache.list && p !in s'.cache.list ==> e.Close? && e.handle == p && s.cache.cores[p].opens == 1
    ensures p !in s.cache.list && p in s'.cache.list ==>
              (e.Open? || e.Creat?) && e.room == p && s'.cache.cores[p].opens == 1
    ensures e.Close? && s.cache.cores[e.handle].opens == 1 ==> e.handle !in s'.cache.list
    ensures e.Creat? ==> e.room in s'.cache.list && var v := s'.cache.cores[e.room];
              v.no == e.no && v.size == 0 && v.deny == 0 && v.sectors == seq(13, _ => 0)
  {
    hide Stored, Synced, Spliced, TableFits;
  }

  // ----- inodes on the disk -----

  datatype Saved = Nothing | Kept(size: nat, sectors: seq<nat>)

  /** Size and blocks of inode n as a sync, a creation or a mkdir saved them last; nothing after a delete. */
  ghost function SavedBy(ss: seq<System>, es: seq<Event>, n: nat): Saved
    requires |ss| == |es| + 1
    decreases |es|
  {
    if es == [] then Nothing
    else
      var k := |es| - 1;
      var before := SavedBy(ss[..k + 1], es[..k], n);
      match es[k]
      case Creat(m, _) => if m == n then Kept(0, seq(13, _ => 0)) else before
      case Mkdir(m, size, sectors) => if m == n then Kept(size, sectors) else before
      case Sync(p) =>
        if p in ss[k].cache.cores && ss[k].cache.cores[p].no == n
        then Kept(ss[k].cache.cores[p].size, ss[k].cache.cores[p].sectors)
        else before
      case Delete(m) => if m == n then Nothing else before
      case _ => before
  }

  /** Inodes in memory and numbers in use are below 256, and the slots of these hold their numbers. */
  ghost predicate Sound(s: System) {
    CoresOk(s.cache) && TableOk(s.disk, s.alive)
  }

  lemma StepSound(s: System, e: Event, s': System)
    requires Sound(s) && Step(s, e, s') && OpensInUse(s, e) && Low(e)
    ensures Sound(s')
  {
    hide TableOk, CoresOk, Stored, Synced, Spliced, HasCopy, FreshInode, Closed, Pushed;
    match e
    case Open(no, room) => OpenSound(s, no, room);
    case Close(_, p) => CloseCores(s.cache, p);
    case Change(p, size, sectors) => ChangedCores(s.cache, p, size, sectors);
    case Sync(p) => SyncSound(s, p);
    case Creat(no, room) =>
      PushCores(s.cache, no, room);
      SyncKeepsTable(s.disk, s.alive, FreshInode(no));
    case Mkdir(no, size, sectors) =>
      SyncKeepsTable(s.disk, s.alive, FreshInode(no).(size := size, sectors := sectors));
    case Delete(no) => DeleteKeepsTable(s.disk, s.alive, no);
  }

  lemma OpenSound(s: System, no: nat, room: nat)
    requires Sound(s) && TableFits(s.disk) && no < MAX_INODES && room !in s.cache.list
    requires no in s.alive || HasCopy(s.cache, no)
    ensures CoresOk(Opened(s.cache, no, room, Stored(s.disk, no)))
  {
    hide Stored, Opened, TableFits;
    StoredFits(s.disk, no);
    OpenedCores(s.cache, no, room, Stored(s.disk, no));
  }

  lemma CloseCores(c: Cache, p: nat)
    requires CoresOk(c) && p in c.list && c.cores[p].opens > 0
    ensures CoresOk(Closed(c, p))
  {
  }

  lemma PushCores(c: Cache, no: nat, room: nat)
    requires CoresOk(c) && no < 256
    ensures CoresOk(Pushed(c, no, room))
  {
  }

  lemma SyncSound(s: System, p: nat)
    requires Sound(s) && p in s.cache.list && TableFits(s.disk)
    ensures Fits(Pure(s.cache.cores[p])) && TableOk(Synced(s.disk, s.cache.cores[p]), s.alive)
  {
    SyncKeepsTable(s.disk, s.alive, s.cache.cores[p]);
    hide Synced;
    TableLess(Synced(s.disk, s.cache.cores[p]), s.alive + {s.cache.cores[p].no}, s.alive);
  }

  /** The slot of n holds number, size and blocks. */
  ghost predicate Holds(disk: seq<Sector>, n: nat, size: nat, sectors: seq<nat>)
    requires TableFits(disk) && n < MAX_INODES
  {
    var u := Stored(disk, n);
    u.no == n && u.size == size && u.sectors == sectors && u.deny == 0
  }

  /** One call changes the slots as SavedBy says. */
  lemma StepHolds(s: System, e: Event, s': System, n: nat)
    requires Sound(s) && Step(s, e, s') && Low(e) && n < 256
    ensures TableFits(s.disk) && TableFits(s'.disk)
    ensures e.Creat? && e.no == n ==> Holds(s'.disk, n, 0, seq(13, _ => 0))
    ensures e.Mkdir? && e.no == n ==> Holds(s'.disk, n, e.size, e.sectors)
    ensures e.Sync? && s.cache.cores[e.handle].no == n ==>
              Holds(s'.disk, n, s.cache.cores[e.handle].size, s.cache.cores[e.handle].sectors)
    ensures !((e.Creat? || e.Mkdir? || e.Delete?) && e.no == n) && !(e.Sync? && s.cache.cores[e.handle].no == n) ==>
              Stored(s'.disk, n) == Stored(s.disk, n)
  {
    hide TableOk, Stored, Synced, Spliced, SlotBytes, TableFits, Opened, Closed, Pushed, HasCopy;
    SoundFits(s);
    match e
    case Creat(no, _) => SavedSlot(s.disk, FreshInode(no), n);
    case Mkdir(no, size, sectors) => SavedSlot(s.disk, FreshInode(no).(size := size, sectors := sectors), n);
    case Sync(p) => SavedSlot(s.disk, s.cache.cores[p], n);
    case Delete(no) =>
      SplicedSlots(s.disk, no, seq(INODE_SIZE, _ => 0));
      if no != n { StoredSame(s.disk, s'.disk, n); }
    case Open(_, _) =>
    case Close(_, _) =>
    case Change(_, _, _) =>
  }

  lemma SoundFits(s: System)
    requires Sound(s)
    ensures TableFits(s.disk)
  {
  }

  lemma SavedSlot(disk: seq<Sector>, v: Inode, n: nat)
    requires TableFits(disk) && Fits(Pure(v)) && v.no < 256 && n < 256
    ensures v.no == n ==> Holds(Synced(disk, v), n, v.size, v.sectors)
    ensures v.no != n ==> Stored(Synced(disk, v), n) == Stored(disk, n)
  {
    hide Stored, Synced, SlotBytes, TableFits;
    SyncedSlots(disk, v);
    if v.no != n { StoredSame(disk, Synced(disk, v), n); }
  }

  /** Over every run with numbers below 256, opened in use: the slot of n holds what was saved last. */
  lemma {:induction false} SavedIsStored(ss: seq<System>, es: seq<Event>, n: nat)
    requires IsRun(ss, es) && TableOk(ss[0].disk, ss[0].alive) && UsedLow(ss, es) && n < 256
    ensures Sound(ss[|es|]) && TableFits(ss[|es|].disk)
    ensures var last := SavedBy(ss, es, n); last.Kept? ==> Holds(ss[|es|].disk, n, last.size, last.sectors)
    decreases |es|
  {
    hide Step, TableOk, OpensInUse, CoresOk, Stored;
    if es == [] {
      EmptySound(ss[0]);
    } else {
      var k := |es| - 1;
      SavedIsStored(ss[..k + 1], es[..k], n);
      assert Step(ss[k], es[k], ss[k + 1]);
      StepSound(ss[k], es[k], ss[k + 1]);
      StepHolds(ss[k], es[k], ss[k + 1], n);
      SyncsCopies(ss[k], es[k], ss[k + 1]);
    }
  }

  lemma EmptySound(s: System)
    requires s.cache == Cache([], map[]) && TableOk(s.disk, s.alive)
    ensures Sound(s) && TableFits(s.disk)
  {
  }

  lemma SyncsCopies(s: System, e: Event, s': System)
    requires Step(s, e, s')
    ensures e.Sync? ==> e.handle in s.cache.cores
  {
  }

  /** Hence an inode that is opened and loaded has the size and the blocks it was saved with last. */
  lemma OpenYieldsSaved(ss: seq<System>, es: seq<Event>, n: nat, room: nat, s': System)
    requires IsRun(ss, es) && TableOk(ss[0].disk, ss[0].alive) && UsedLow(ss, es) && n < 256
    requires Step(ss[|es|], Open(n, room), s') && Wf(ss[|es|].cache) && !HasCopy(ss[|es|].cache, n)
    requires SavedBy(ss, es, n).Kept?
    ensures room in s'.cache.list && room in s'.cache.cores
    ensures var v, last := s'.cache.cores[room], SavedBy(ss, es, n);
            v.no == n && v.size == last.size && v.sectors == last.sectors && v.opens == 1 && v.deny == 0
  {
    hide TableOk, CoresOk, UsedLow, Stored, TableFits;
    SavedIsStored(ss, es, n);
    FoundIff(ss[|es|].cache, n);
  }
}
