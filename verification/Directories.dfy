/** fs/dir.c: looking up, inserting, deleting and listing entries in the sectors of a directory.

    A sector of entries is a sequence of 21 slots, a table sector a sequence of 128 addresses. */
module Directories {
  import opened Bits
  import opened DirEntries

  /** A directory's sector addresses, the sectors of entries and of tables by address, and the bitmap. */
  datatype Store = Store(sectors: seq<nat>, blocks: map<nat, seq<Slot>>, tables: map<nat, seq<nat>>,
                         used: seq<bool>, dataStart: nat)

  predicate Shaped(s: Store) {
    |s.sectors| == 13 && (s.sectors[12] != 0 ==> s.sectors[12] in s.tables && |s.tables[s.sectors[12]]| == 128)
  }

  function All(s: Store): (r: seq<nat>)
    requires Shaped(s)
    ensures |r| == 140
  {
    s.sectors[..12] + if s.sectors[12] == 0 then seq(128, _ => 0) else s.tables[s.sectors[12]]
  }

  predicate Taken(s: Store, a: nat) {
    s.dataStart <= a < s.dataStart + |s.used| && s.used[a - s.dataStart]
  }

  /** a is a marked sector of 21 slots. */
  predicate Holds(s: Store, a: nat) {
    a in s.blocks && |s.blocks[a]| == SLOTS && Taken(s, a)
  }

  ghost predicate NoSharing(all: seq<nat>) {
    forall i, j :: 0 <= i < j < |all| && all[i] != 0 ==> all[i] != all[j]
  }

  /** Every address leads to a sector of slots, and no two to the same. */
  ghost predicate StoreOk(s: Store) {
    && Shaped(s) && s.dataStart > 0 && (s.sectors[12] != 0 ==> Taken(s, s.sectors[12]))
    && (forall i :: 0 <= i < 140 && All(s)[i] != 0 ==> Holds(s, All(s)[i]) && All(s)[i] != s.sectors[12])
    && NoSharing(All(s))
  }

  function SlotAt(s: Store, i: nat, j: nat): Slot
    requires Shaped(s) && i < 140 && j < SLOTS && (All(s)[i] != 0 ==> Holds(s, All(s)[i]))
  {
    if All(s)[i] == 0 then EMPTY else s.blocks[All(s)[i]][j]
  }

  ghost function Flat(s: Store): (f: seq<Slot>)
    requires StoreOk(s)
    ensures |f| == ALL
    ensures forall i, j :: 0 <= i < 140 && 0 <= j < SLOTS ==> f[Place(i, j)] == SlotAt(s, i, j)
  {
    var f := seq(ALL, p requires 0 <= p < ALL => SlotAt(s, p / SLOTS, p % SLOTS));
    assert forall i, j :: 0 <= i < 140 && 0 <= j < SLOTS ==> f[Place(i, j)] == SlotAt(s, i, j) by {
      forall i, j | 0 <= i < 140 && 0 <= j < SLOTS ensures f[Place(i, j)] == SlotAt(s, i, j) {
        PlaceParts(i, j);
      }
    }
    f
  }

  function Place(i: nat, j: nat): (p: nat)
    requires i < 140 && j < SLOTS
    ensures p < ALL
  {
    SLOTS * i + j
  }

  lemma PlaceParts(i: nat, j: nat)
    requires i < 140 && j < SLOTS
    ensures Place(i, j) / SLOTS == i && Place(i, j) % SLOTS == j
  {
  }

  lemma PlaceOf(p: nat)
    requires p < ALL
    ensures p / SLOTS < 140 && p == Place(p / SLOTS, p % SLOTS)
  {
  }

  /** Two slot sequences are equal when they agree at every place. */
  lemma SamePlaces(f: seq<Slot>, g: seq<Slot>)
    requires |f| == |g| == ALL
    requires forall i, j :: 0 <= i < 140 && 0 <= j < SLOTS ==> f[Place(i, j)] == g[Place(i, j)]
    ensures f == g
  {
    forall p | 0 <= p < ALL ensures f[p] == g[p] { PlaceOf(p); }
  }

  function FreshBlock(e: Slot): (b: seq<Slot>)
    ensures |b| == SLOTS
  {
    [e] + seq(SLOTS - 1, _ => EMPTY)
  }

  /** Writing one slot of a block. */
  lemma SetSlot(s: Store, i: nat, j: nat, e: Slot)
    requires StoreOk(s) && i < 140 && j < SLOTS && All(s)[i] != 0
    ensures var a := All(s)[i];
            var s' := s.(blocks := s.blocks[a := s.blocks[a][j := e]]);
            StoreOk(s') && Flat(s') == Flat(s)[Place(i, j) := e]
  {
    var a := All(s)[i];
    var s' := s.(blocks := s.blocks[a := s.blocks[a][j := e]]);
    assert All(s') == All(s);
    hide All, Taken, Place;
    forall k | 0 <= k < 140 && k != i ensures All(s)[k] != a {
    }
    assert StoreOk(s');
    hide NoSharing, StoreOk;
    var f, g := Flat(s)[Place(i, j) := e], Flat(s');
    forall k, l | 0 <= k < 140 && 0 <= l < SLOTS ensures f[Place(k, l)] == g[Place(k, l)] {
      PlaceParts(i, j);
      PlaceParts(k, l);
      StoreBlock(s, k);
    }
    SamePlaces(f, g);
  }

  /** A missing direct block is allocated for a first entry. */
  lemma AddBlock(s: Store, i: nat, a: nat, e: Slot)
    requires StoreOk(s) && i < 12 && s.sectors[i] == 0
    requires s.dataStart <= a < s.dataStart + |s.used| && !s.used[a - s.dataStart]
    ensures var s' := s.(sectors := s.sectors[i := a], blocks := s.blocks[a := FreshBlock(e)],
                         used := s.used[a - s.dataStart := true]);
            StoreOk(s') && Flat(s') == Flat(s)[Place(i, 0) := e]
  {
    var s' := s.(sectors := s.sectors[i := a], blocks := s.blocks[a := FreshBlock(e)],
                 used := s.used[a - s.dataStart := true]);
    assert !Taken(s, a);
    assert All(s') == All(s)[i := a];
    assert forall k :: 0 <= k < 140 && All(s)[k] != 0 ==> All(s)[k] != a;
    assert StoreOk(s');
    var f, g := Flat(s)[Place(i, 0) := e], Flat(s');
    forall k, l | 0 <= k < 140 && 0 <= l < SLOTS ensures f[Place(k, l)] == g[Place(k, l)] {
      PlaceParts(i, 0);
      PlaceParts(k, l);
    }
    SamePlaces(f, g);
  }

  function FreshTable(c: nat): (t: seq<nat>)
    ensures |t| == 128 && t[0] == c && forall i :: 1 <= i < 128 ==> t[i] == 0
  {
    [c] + seq(127, _ => 0)
  }

  /** With the direct blocks full a new table with one block takes the place of the old one. */
  lemma AddTable(s: Store, a: nat, c: nat, e: Slot)
    requires StoreOk(s) && a != c && forall k :: 0 <= k < 12 ==> s.sectors[k] != 0
    requires s.dataStart <= a < s.dataStart + |s.used| && !s.used[a - s.dataStart]
    requires s.dataStart <= c < s.dataStart + |s.used| && !s.used[c - s.dataStart]
    ensures var s' := s.(sectors := s.sectors[12 := a], tables := s.tables[a := FreshTable(c)],
                         blocks := s.blocks[c := FreshBlock(e)],
                         used := s.used[a - s.dataStart := true][c - s.dataStart := true]);
            StoreOk(s') && Flat(s') == Flat(s)[..DIRECT] + [e] + seq(ALL - DIRECT - 1, _ => EMPTY)
  {
    var s' := s.(sectors := s.sectors[12 := a], tables := s.tables[a := FreshTable(c)],
                 blocks := s.blocks[c := FreshBlock(e)],
                 used := s.used[a - s.dataStart := true][c - s.dataStart := true]);
    assert !Taken(s, a) && !Taken(s, c);
    assert All(s') == All(s)[..12] + FreshTable(c);
    assert forall k :: 0 <= k < 12 ==> All(s')[k] == All(s)[k] != a && All(s)[k] != c;
    assert StoreOk(s');
    var f, g := Flat(s)[..DIRECT] + [e] + seq(ALL - DIRECT - 1, _ => EMPTY), Flat(s');
    forall k, l | 0 <= k < 140 && 0 <= l < SLOTS ensures f[Place(k, l)] == g[Place(k, l)] {
      PlaceParts(k, l);
    }
    SamePlaces(f, g);
  }

  // ----- reading -----

  lemma FlatBlock(s: Store, i: nat)
    requires StoreOk(s) && i < 140
    ensures BlockAt(Flat(s), i) == if All(s)[i] == 0 then seq(SLOTS, _ => EMPTY) else s.blocks[All(s)[i]]
  {
    hide All, Flat, NoSharing;
    StoreBlock(s, i);
    var b := if All(s)[i] == 0 then seq(SLOTS, _ => EMPTY) else s.blocks[All(s)[i]];
    forall j | 0 <= j < SLOTS ensures BlockAt(Flat(s), i)[j] == b[j] {
      FlatSlot(s, i, j);
    }
    assert BlockAt(Flat(s), i) == b;
  }

  lemma FlatSlot(s: Store, i: nat, j: nat)
    requires StoreOk(s) && i < 140 && j < SLOTS
    ensures BlockAt(Flat(s), i)[j] == if All(s)[i] == 0 then EMPTY else s.blocks[All(s)[i]][j]
  {
    hide All;
    assert BlockAt(Flat(s), i)[j] == Flat(s)[Place(i, j)];
  }

  /** n more blocks were marked, none was given back, and no block in use outside this directory was written. */
  ghost predicate Spared(s: Store, s': Store, n: nat)
    requires Shaped(s)
  {
    && |s'.used| == |s.used| && (forall i :: 0 <= i < |s.used| && s.used[i] ==> s'.used[i])
    && FreeCount(s'.used) + n == FreeCount(s.used)
    && (forall a :: a in s.blocks && Taken(s, a) && a !in All(s) ==> a in s'.blocks && s'.blocks[a] == s.blocks[a])
    && (forall a :: a in s.tables && Taken(s, a) ==> a in s'.tables && s'.tables[a] == s.tables[a])
  }

  /** No slot of the first p has the name. */
  ghost predicate NotBefore(f: seq<Slot>, p: nat, name: string)
    requires p <= |f|
  {
    forall q :: 0 <= q < p ==> f[q].name != name
  }

  datatype Insertion = InsertDone | InsertHalts
  datatype Deletion = DeleteDone | NoEntry | DeleteHangs | DeleteHalts

  class Dir {
    var sectors: seq<nat>
    var size: nat
    var pos: nat
    var blocks: map<nat, seq<Slot>>
    var tables: map<nat, seq<nat>>
    var used: seq<bool>
    const dataStart: nat

    function View(): Store
      reads this
    {
      Store(sectors, blocks, tables, used, dataStart)
    }

    constructor (s: Store, size: nat)
      ensures View() == s && this.size == size && pos == 0
    {
      sectors, blocks, tables, used, dataStart := s.sectors, s.blocks, s.tables, s.used, s.dataStart;
      this.size, pos := size, 0;
    }

    /** The loop that collects direct addresses, and the read of the table. */
    method Collect() returns (all: seq<nat>)
      requires StoreOk(View())
      ensures all == All(View())
    {
      all := [];
      var i := 0;
      while i < 12
        invariant i <= 12 && all == sectors[..i]
      {
        all := all + [sectors[i]];
        i := i + 1;
      }
      if sectors[12] != 0 {
        all := all + tables[sectors[12]];
      } else {
        all := all + seq(128, _ => 0);
      }
    }

    /** strcmp over the slots of one sector. */
    method SearchBlock(b: seq<Slot>, name: string) returns (j: nat)
      requires |b| == SLOTS
      ensures j <= SLOTS && (j < SLOTS ==> b[j].name == name)
      ensures forall l :: 0 <= l < j ==> b[l].name != name
    {
      j := 0;
      while j < SLOTS && b[j].name != name
        invariant j <= SLOTS && forall l :: 0 <= l < j ==> b[l].name != name
      {
        j := j + 1;
      }
    }

    /** search_dir_entry finds exactly the names of the map. */
    method SearchDirEntry(name: string) returns (found: bool, e: Slot)
      requires StoreOk(View()) && DirOk(Flat(View()), size) && name != ""
      ensures found <==> name in AsMap(Flat(View()))
      ensures found ==> e == AsMap(Flat(View()))[name]
    {
      hide All, Flat, DirOk, SlotsOk, AsMap, StoreOk;
      ghost var f := Flat(View());
      assert SlotsOk(f) by { DirSlots(f, size); }
      var all := Collect();
      var i := 0;
      while i < 140
        invariant i <= 140 && NotBefore(f, SLOTS * i, name)
      {
        StoreBlock(View(), i);
        FlatBlock(View(), i);
        if all[i] != 0 {
          var j := SearchBlock(blocks[all[i]], name);
          if j < SLOTS {
            assert BlockAt(f, i)[j] == f[Place(i, j)];
            FoundAt(f, Place(i, j), name);
            return true, blocks[all[i]][j];
          }
        }
        assert forall q :: SLOTS * i <= q < SLOTS * i + SLOTS ==> f[q] == BlockAt(f, i)[q - SLOTS * i];
        i := i + 1;
      }
      NowhereNamed(f, name);
      return false, EMPTY;
    }

    /** The search of get_child_dir_name: the first slot with the number. */
    method GetChildDirName(ino: nat) returns (found: bool, name: string)
      requires StoreOk(View()) && ino != 0
      ensures found <==> FirstIno(Flat(View()), ino) < ALL
      ensures found ==> name == Flat(View())[FirstIno(Flat(View()), ino)].name
    {
      hide All, Flat, StoreOk;
      ghost var f := Flat(View());
      var all := Collect();
      var i := 0;
      while i < 140
        invariant i <= 140 && NoIno(f, SLOTS * i, ino)
      {
        StoreBlock(View(), i);
        FlatBlock(View(), i);
        if all[i] != 0 {
          var j := 0;
          while j < SLOTS
            invariant j <= SLOTS && NoIno(f, SLOTS * i + j, ino)
          {
            assert blocks[all[i]][j] == BlockAt(f, i)[j] == f[SLOTS * i + j];
            if blocks[all[i]][j].ino == ino {
              FirstInoAt(f, SLOTS * i + j, ino);
              return true, blocks[all[i]][j].name;
            }
            j := j + 1;
          }
        }
        assert forall q :: SLOTS * i <= q < SLOTS * i + SLOTS ==> f[q] == BlockAt(f, i)[q - SLOTS * i];
        i := i + 1;
      }
      FirstInoAt(f, ALL, ino);
      return false, "";
    }

    method BlockBitmapAlloc() returns (lba: nat, halted: bool)
      modifies this`used
      ensures halted <==> FreeCount(old(used)) == 0
      ensures halted ==> used == old(used)
      ensures !halted ==>
                && dataStart <= lba < dataStart + |old(used)| && !old(used)[lba - dataStart]
                && used == old(used)[lba - dataStart := true]
    {
      var index;
      index, halted, used := TakeBit(used);
      lba := dataStart + index;
    }

    /** The loop over the slots of one sector: the first unused one. */
    method FreeSlot(b: seq<Slot>) returns (j: nat)
      requires |b| == SLOTS
      ensures j <= SLOTS && (j < SLOTS ==> b[j].ftype.Unknown?)
      ensures forall l :: 0 <= l < j ==> !b[l].ftype.Unknown?
    {
      j := 0;
      while j < SLOTS && !b[j].ftype.Unknown?
        invariant j <= SLOTS && forall l :: 0 <= l < j ==> !b[l].ftype.Unknown?
      {
        j := j + 1;
      }
    }

    /** sync_dir_entry. It never reads the indirect table, and it halts where block_bitmap_alloc does. */
    method SyncDirEntry(e: Slot) returns (r: Insertion)
      requires StoreOk(View())
      modifies this
      ensures r.InsertDone? ==>
                && StoreOk(View()) && Flat(View()) == Inserted(old(Flat(View())), e)
                && size == old(size) + ENTRY_SIZE && pos == old(pos)
      ensures r.InsertDone? ==> Spared(old(View()), View(), BlocksNeeded(old(View())))
      ensures r.InsertHalts? <==> old(size) % ENTRY_SIZE != 0 || FreeCount(old(used)) < BlocksNeeded(old(View()))
    {
      if size % ENTRY_SIZE != 0 { return InsertHalts; }
      hide All, Flat, StoreOk, Shaped, FreeCount, Inserted, BlocksNeeded, NoneFree, Spared;
      ghost var s, f := View(), Flat(View());
      StoreShape(s);
      assert NoneFree(f, 0) by { NoneFreeAtAll(f); }
      var i := 0;
      while i < 12
        invariant i <= 12 && View() == s && size == old(size) && pos == old(pos) && NoneFree(f, SLOTS * i)
        invariant forall k :: 0 <= k < i ==> s.sectors[k] != 0
      {
        var done;
        done, r := TryBlock(i, e, f);
        if done { return; }
        i := i + 1;
      }
      r := NewTable(e, f);
    }

    /** One turn of the loop: put the entry into block i, if there is room. */
    method TryBlock(i: nat, e: Slot, ghost f: seq<Slot>) returns (done: bool, r: Insertion)
      requires StoreOk(View()) && f == Flat(View()) && i < 12 && NoneFree(f, SLOTS * i)
      modifies this
      ensures !done ==>
                && View() == old(View()) && size == old(size) && pos == old(pos)
                && NoneFree(f, SLOTS * (i + 1)) && old(View()).sectors[i] != 0
      ensures done && r.InsertDone? ==>
                && StoreOk(View()) && Flat(View()) == Inserted(f, e)
                && size == old(size) + ENTRY_SIZE && pos == old(pos)
      ensures done && r.InsertDone? ==> Spared(old(View()), View(), BlocksNeeded(old(View())))
      ensures done ==> (r.InsertHalts? <==> FreeCount(old(used)) < BlocksNeeded(old(View())))
    {
      hide All, Flat, StoreOk, Shaped, FreeCount, Inserted, BlocksNeeded, NoneFree, Spared;
      r := InsertDone;
      StoreDirect(View(), i);
      FlatBlock(View(), i);
      if sectors[i] == 0 {
        FirstFreeIs(f, i, 0);
        r := StartBlock(i, e, f);
        return true, r;
      }
      var j := FreeSlot(blocks[sectors[i]]);
      if j < SLOTS {
        FirstFreeIs(f, i, j);
        FillSlot(i, j, e, f);
        return true, r;
      }
      MoreNotFree(f, i);
      return false, r;
    }

    /** A missing direct block. */
    method StartBlock(i: nat, e: Slot, ghost f: seq<Slot>) returns (r: Insertion)
      requires StoreOk(View()) && f == Flat(View()) && i < 12 && View().sectors[i] == 0
      requires FirstFree(f[..DIRECT]) == Place(i, 0)
      modifies this
      ensures r.InsertDone? ==>
                && StoreOk(View()) && Flat(View()) == Inserted(f, e)
                && size == old(size) + ENTRY_SIZE && pos == old(pos)
      ensures r.InsertDone? ==> Spared(old(View()), View(), BlocksNeeded(old(View())))
      ensures r.InsertHalts? <==> FreeCount(old(used)) < BlocksNeeded(old(View()))
    {
      hide All, Flat, StoreOk, FreeCount, Inserted, BlocksNeeded, Spared;
      ghost var s := View();
      StoreShape(s);
      NeedsBlock(s, f, i, 0);
      var lba, halted := BlockBitmapAlloc();
      if halted { return InsertHalts; }
      sectors := sectors[i := lba];
      blocks := blocks[lba := FreshBlock(e)];
      size := size + ENTRY_SIZE;
      AddBlock(s, i, lba, e);
      SparedBlock(s, View(), lba, e);
      InsertedAt(f, Place(i, 0), e);
      return InsertDone;
    }

    /** An unused slot of a direct block. */
    method FillSlot(i: nat, j: nat, e: Slot, ghost f: seq<Slot>)
      requires StoreOk(View()) && f == Flat(View()) && i < 12 && j < SLOTS && View().sectors[i] != 0
      requires FirstFree(f[..DIRECT]) == Place(i, j)
      modifies this
      ensures StoreOk(View()) && Flat(View()) == Inserted(f, e)
      ensures size == old(size) + ENTRY_SIZE && pos == old(pos) && BlocksNeeded(old(View())) == 0
      ensures Spared(old(View()), View(), 0)
    {
      hide All, Flat, StoreOk, Inserted, BlocksNeeded, Spared;
      ghost var s := View();
      NeedsBlock(s, f, i, j);
      StoreDirect(s, i);
      blocks := blocks[sectors[i] := blocks[sectors[i]][j := e]];
      size := size + ENTRY_SIZE;
      SetSlot(s, i, j, e);
      SparedSlot(s, View(), i, blocks[sectors[i]]);
      InsertedAt(f, Place(i, j), e);
    }

    /** The turn of the loop with block_idx 12: a table and a block. */
    method NewTable(e: Slot, ghost f: seq<Slot>) returns (r: Insertion)
      requires StoreOk(View()) && f == Flat(View()) && NoneFree(f, DIRECT)
      requires forall k :: 0 <= k < 12 ==> sectors[k] != 0
      modifies this
      ensures r.InsertDone? ==>
                && StoreOk(View()) && Flat(View()) == Inserted(f, e)
                && size == old(size) + ENTRY_SIZE && pos == old(pos)
      ensures r.InsertDone? ==> Spared(old(View()), View(), BlocksNeeded(old(View())))
      ensures r.InsertHalts? <==> FreeCount(old(used)) < BlocksNeeded(old(View()))
    {
      hide All, Flat, StoreOk, FreeCount, Inserted, NoneFree, Spared;
      ghost var s := View();
      NeedsTwo(s, f);
      var table, halted := BlockBitmapAlloc();
      if halted { return InsertHalts; }
      FreeCountSet(s.used, table - dataStart);
      var lba;
      lba, halted := BlockBitmapAlloc();
      if halted { return InsertHalts; }
      StoreShape(s);
      FreeCountSet(s.used[table - dataStart := true], lba - dataStart);
      sectors := sectors[12 := table];
      tables := tables[table := FreshTable(lba)];
      blocks := blocks[lba := FreshBlock(e)];
      size := size + ENTRY_SIZE;
      AddTable(s, table, lba, e);
      SparedTable(s, View(), table, lba, e);
      InsertedBehind(f, e);
      return InsertDone;
    }

    /** The scan of one sector by delete_dir_entry: the entry, the number of plain entries, and whether "."
        is there. False where two entries have the number. */
    method ScanBlock(b: seq<Slot>, ino: nat) returns (ok: bool, at: nat, cnt: nat, first: bool)
      requires |b| == SLOTS && forall j :: 0 <= j < SLOTS ==> (b[j].ftype.Unknown? <==> b[j] == EMPTY)
      ensures ok ==> at == Finding(b, ino) && cnt == PlainCount(b) && first == HasDot(b)
      ensures OneMatch(b, ino) ==> ok
    {
      at, cnt, first := SLOTS, 0, false;
      var j := 0;
      while j < SLOTS
        invariant j <= SLOTS && cnt == PlainCount(b[..j]) && first == HasDot(b[..j])
        invariant if at == SLOTS then forall l :: 0 <= l < j ==> !Match(b[l], ino)
                  else at < j && Match(b[at], ino) && forall l :: 0 <= l < at ==> !Match(b[l], ino)
      {
        CountMore(b, j);
        DotMore(b, j);
        if !b[j].ftype.Unknown? {
          if b[j].name == "." {
            first := true;
          } else if b[j].name != ".." {
            cnt := cnt + 1;
            if b[j].ino == ino {
              if at != SLOTS { return false, at, cnt, first; }
              at := j;
            }
          }
        }
        j := j + 1;
      }
      assert b[..SLOTS] == b;
      FindingAt(b, ino, at);
      return true, at, cnt, first;
    }

    /** delete_dir_entry. An entry alone in a block behind the first is not cleared: its block is given back
        while the directory goes on using it, and behind the direct blocks the loop that counts indirect
        blocks never ends. */
    method DeleteDirEntry(ino: nat) returns (r: Deletion)
      requires StoreOk(View()) && DirOk(Flat(View()), size)
      modifies this
      ensures !r.DeleteHalts? && (r.NoEntry? <==> Finding(old(Flat(View())), ino) == ALL)
      ensures r.NoEntry? ==> View() == old(View()) && size == old(size) && pos == old(pos)
      ensures var f := old(Flat(View()));
              var p := Finding(f, ino);
              && (r.DeleteHangs? <==> DIRECT <= p < ALL && AloneAt(f, p))
              && (r.DeleteDone? ==>
                    && p < ALL && size == old(size) - ENTRY_SIZE && pos == old(pos)
                    && StoreOk(View().(used := old(used)))
                    && Flat(View().(used := old(used))) == (if AloneAt(f, p) then f else f[p := EMPTY])
                    && used == if AloneAt(f, p) then ClearedBit(old(View()), p / SLOTS) else old(used))
    {
      hide All, Flat, StoreOk, Shaped, DirOk, SlotsOk, Lone, ClearedBit, BlockAt, NoMatch, Finding, OneMatch,
           PlainCount, HasDot, AloneAt;
      ghost var s, f := View(), Flat(View());
      assert SlotsOk(f) by { DirSlots(f, size); }
      var all := Collect();
      var i := 0;
      assert NoMatch(f, 0, ino) by { NoMatchYet(f, ino); }
      while i < 140
        invariant i <= 140 && View() == s && size == old(size) && pos == old(pos) && NoMatch(f, SLOTS * i, ino)
      {
        StoreBlock(s, i);
        FlatBlock(s, i);
        if all[i] != 0 {
          BlockSlots(f, i, ino);
          var ok, at, cnt, first := ScanBlock(blocks[all[i]], ino);
          if at < SLOTS {
            FindingIs(f, i, at, ino);
            LoneIs(f, i);
            IsAlone(f, i, at, ino);
            r := DropEntry(all[i], i, at, cnt == 1 && !first, ino, f);
            return;
          }
        }
        NoMatchBlock(f, i, ino);
        i := i + 1;
      }
      FindingAt(f, ino, ALL);
      return NoEntry;
    }

    /** The entry is found at slot j of block i. */
    method DropEntry(a: nat, i: nat, j: nat, lone: bool, ghost ino: nat, ghost f: seq<Slot>) returns (r: Deletion)
      requires StoreOk(View()) && f == Flat(View()) && DirOk(f, size) && i < 140 && j < SLOTS
      requires a == All(View())[i] != 0 && Finding(f, ino) == Place(i, j) && lone == AloneAt(f, Place(i, j))
      modifies this
      ensures r.DeleteHangs? <==> lone && i >= 12
      ensures !r.NoEntry? && !r.DeleteHalts?
      ensures r.DeleteDone? ==>
                && size == old(size) - ENTRY_SIZE && pos == old(pos)
                && StoreOk(View().(used := old(used)))
                && Flat(View().(used := old(used))) == (if lone then f else f[Place(i, j) := EMPTY])
                && used == if lone then ClearedBit(old(View()), i) else old(used)
    {
      hide Flat, All, StoreOk, DirOk, AloneAt;
      ghost var s := View();
      SizeFits(f, size, Place(i, j));
      StoreBlock(s, i);
      if lone {
        used := used[a - dataStart := false];
        if i >= 12 { return DeleteHangs; }
        assert View().(used := s.used) == s;
      } else {
        blocks := blocks[a := blocks[a][j := EMPTY]];
        SetSlot(s, i, j, EMPTY);
        assert View().(used := s.used) == View();
      }
      if size < ENTRY_SIZE { return DeleteHalts; }
      size := size - ENTRY_SIZE;
      return DeleteDone;
    }

    /** The loop of dir_read over one sector: skip the entries before dir_pos. */
    method ReadBlock(b: seq<Slot>, cur: nat) returns (found: bool, e: Slot, cur': nat)
      requires |b| == SLOTS && cur <= pos && cur % ENTRY_SIZE == 0 && pos % ENTRY_SIZE == 0
      ensures found <==> pos < cur + ENTRY_SIZE * |Live(b)|
      ensures found ==> e == Live(b)[(pos - cur) / ENTRY_SIZE]
      ensures !found ==> cur' == cur + ENTRY_SIZE * |Live(b)| && cur' <= pos
    {
      hide Live;
      cur' := cur;
      var j := 0;
      assert b[..0] == [] && Live([]) == [] by { LiveNone([]); }
      ghost var n := 0;
      while j < SLOTS
        invariant j <= SLOTS && n == |Live(b[..j])| && cur' == cur + ENTRY_SIZE * n <= pos
      {
        LiveMore(b, j);
        if !b[j].ftype.Unknown? {
          if cur' == pos {
            LiveSplit(b, j);
            EntryIndex(cur, pos, n);
            return true, b[j], cur';
          }
          EntryMultiple(cur, n);
          NextEntry(cur', pos);
          cur' := cur' + ENTRY_SIZE;
          n := n + 1;
        }
        j := j + 1;
      }
      assert b[..SLOTS] == b;
      return false, EMPTY, cur';
    }

    /** dir_read: the entry at dir_pos, and dir_pos moves to the next. */
    method DirRead() returns (found: bool, e: Slot)
      requires StoreOk(View()) && DirOk(Flat(View()), size) && pos % ENTRY_SIZE == 0
      modifies this`pos
      ensures found <==> old(pos) < size
      ensures found ==> old(pos) / ENTRY_SIZE < |Live(Flat(View()))| && e == Live(Flat(View()))[old(pos) / ENTRY_SIZE]
      ensures pos == if found then old(pos) + ENTRY_SIZE else old(pos)
    {
      hide All, Flat, StoreOk, Shaped, DirOk, Live, BlockAt;
      ghost var s, f := View(), Flat(View());
      DirSize(f, size);
      var all := Collect();
      var i, cur := 0, 0;
      assert f[..0] == [] && Live([]) == [] by { LiveNone([]); }
      while pos < size
        invariant i <= 140 && View() == s && pos == old(pos) && cur % ENTRY_SIZE == 0
        invariant cur == ENTRY_SIZE * |Live(f[..SLOTS * i])| && cur <= pos
        decreases 140 - i
      {
        WholeScan(f, i);
        StoreBlock(s, i);
        FlatBlock(s, i);
        LiveBlocks(f, i);
        if all[i] == 0 {
          LiveNone(BlockAt(f, i));
          i := i + 1;
          continue;
        }
        ghost var n := |Live(f[..SLOTS * i])|;
        found, e, cur := ReadBlock(blocks[all[i]], cur);
        if found {
          EntryAt(pos, n);
          pos := pos + ENTRY_SIZE;
          return;
        }
        i := i + 1;
      }
      return false, EMPTY;
    }

    /** dir_read from position 0 until it returns NULL: every entry once, in order. */
    method ReadAll() returns (es: seq<Slot>)
      requires StoreOk(View()) && DirOk(Flat(View()), size)
      modifies this`pos
      ensures es == Live(Flat(View()))
    {
      hide All, Flat, StoreOk, Live;
      pos := 0;
      es := [];
      ghost var s := View();
      while true
        invariant View() == s && pos == ENTRY_SIZE * |es| && |es| <= |Live(Flat(s))| && es == Live(Flat(s))[..|es|]
        decreases |Live(Flat(s))| - |es|
      {
        var found, e := DirRead();
        if !found { return; }
        es := es + [e];
      }
    }
  }

  /** None of the first p slots has the number. */
  ghost predicate NoIno(f: seq<Slot>, p: nat, ino: nat)
    requires p <= |f|
  {
    forall q :: 0 <= q < p ==> f[q].ino != ino
  }

  lemma {:induction false} FirstInoAt(f: seq<Slot>, p: nat, ino: nat)
    requires p <= |f| && NoIno(f, p, ino) && (p < |f| ==> f[p].ino == ino)
    ensures FirstIno(f, ino) == p
  {
    if p > 0 { FirstInoAt(f[1..], p - 1, ino); }
  }

  predicate Match(s: Slot, ino: nat) {
    Plain(s) && s.ino == ino
  }

  ghost predicate OneMatch(b: seq<Slot>, ino: nat) {
    forall j, l :: 0 <= j < l < |b| && Match(b[j], ino) ==> !Match(b[l], ino)
  }

  /** None of the first p slots matches. */
  ghost predicate NoMatch(f: seq<Slot>, p: nat, ino: nat)
    requires p <= |f|
  {
    forall q :: 0 <= q < p ==> !Match(f[q], ino)
  }

  ghost function ClearedBit(s: Store, i: nat): seq<bool>
    requires StoreOk(s) && i < 140 && All(s)[i] != 0
  {
    s.used[All(s)[i] - s.dataStart := false]
  }

  lemma {:induction false} CountMore(b: seq<Slot>, j: nat)
    requires j < |b|
    ensures PlainCount(b[..j + 1]) == PlainCount(b[..j]) + if Plain(b[j]) then 1 else 0
  {
    if j > 0 {
      CountMore(b[1..], j - 1);
      assert b[..j + 1][1..] == b[1..][..j] && b[..j][1..] == b[1..][..j - 1];
    } else {
      assert b[..1][1..] == [];
    }
  }

  lemma DotMore(b: seq<Slot>, j: nat)
    requires j < |b|
    ensures HasDot(b[..j + 1]) <==> HasDot(b[..j]) || (b[j] != EMPTY && b[j].name == ".")
  {
    if HasDot(b[..j]) {
      var p :| 0 <= p < j && b[..j][p] != EMPTY && b[..j][p].name == ".";
      assert b[..j + 1][p] == b[p];
    }
    assert b[..j + 1][j] == b[j];
    if HasDot(b[..j + 1]) {
      var p :| 0 <= p < j + 1 && b[..j + 1][p] != EMPTY && b[..j + 1][p].name == ".";
      if p < j { assert b[..j][p] == b[p]; }
    }
  }

  lemma {:induction false} FindingAt(f: seq<Slot>, ino: nat, p: nat)
    requires p <= |f| && NoMatch(f, p, ino) && (p < |f| ==> Match(f[p], ino))
    ensures Finding(f, ino) == p
  {
    if p > 0 { FindingAt(f[1..], ino, p - 1); }
  }

  lemma NoMatchYet(f: seq<Slot>, ino: nat)
    ensures NoMatch(f, 0, ino)
  {
  }

  lemma BlockSlots(f: seq<Slot>, i: nat, ino: nat)
    requires |f| == ALL && SlotsOk(f) && i < 140
    ensures forall j :: 0 <= j < SLOTS ==> (BlockAt(f, i)[j].ftype.Unknown? <==> BlockAt(f, i)[j] == EMPTY)
    ensures OneMatch(BlockAt(f, i), ino)
  {
    forall j | 0 <= j < SLOTS ensures BlockAt(f, i)[j] == f[Place(i, j)] { }
  }

  lemma FindingIs(f: seq<Slot>, i: nat, j: nat, ino: nat)
    requires |f| == ALL && i < 140 && j < SLOTS && NoMatch(f, SLOTS * i, ino) && Finding(BlockAt(f, i), ino) == j
    ensures Finding(f, ino) == Place(i, j)
  {
    PlaceParts(i, j);
    assert BlockAt(f, i)[j] == f[Place(i, j)];
    forall q | SLOTS * i <= q < Place(i, j) ensures !Match(f[q], ino) {
      assert f[q] == BlockAt(f, i)[q - SLOTS * i];
    }
    FindingAt(f, ino, Place(i, j));
  }

  lemma NoMatchBlock(f: seq<Slot>, i: nat, ino: nat)
    requires |f| == ALL && i < 140 && NoMatch(f, SLOTS * i, ino)
    requires BlockAt(f, i) == seq(SLOTS, _ => EMPTY) || Finding(BlockAt(f, i), ino) == SLOTS
    ensures NoMatch(f, SLOTS * (i + 1), ino)
  {
    forall q | SLOTS * i <= q < SLOTS * (i + 1) ensures !Match(f[q], ino) {
      assert f[q] == BlockAt(f, i)[q - SLOTS * i];
    }
  }

  lemma IsAlone(f: seq<Slot>, i: nat, j: nat, ino: nat)
    requires |f| == ALL && i < 140 && j < SLOTS && Finding(f, ino) == Place(i, j)
    ensures Place(i, j) / SLOTS == i && (Lone(f, i) <==> AloneAt(f, Place(i, j)))
  {
    PlaceParts(i, j);
    AloneIsLone(f, Place(i, j));
  }

  lemma LoneIs(f: seq<Slot>, i: nat)
    requires |f| == ALL && i < 140
    ensures Lone(f, i) <==> PlainCount(BlockAt(f, i)) == 1 && !HasDot(BlockAt(f, i))
  {
  }

  lemma SizeFits(f: seq<Slot>, size: nat, p: nat)
    requires DirOk(f, size) && p < ALL && Plain(f[p])
    ensures size >= ENTRY_SIZE
  {
    assert f[p] in Live(f);
  }

  lemma {:induction false} LiveMore(b: seq<Slot>, j: nat)
    requires j < |b|
    ensures Live(b[..j + 1]) == Live(b[..j]) + if b[j].ftype.Unknown? then [] else [b[j]]
  {
    assert b[..j + 1] == b[..j] + [b[j]];
    LiveJoin(b[..j], [b[j]]);
  }

  lemma LiveSplit(b: seq<Slot>, j: nat)
    requires j < |b| && !b[j].ftype.Unknown?
    ensures |Live(b[..j])| < |Live(b)| && Live(b)[|Live(b[..j])|] == b[j]
  {
    LiveMore(b, j);
    hide Live;
    assert b == b[..j + 1] + b[j + 1..];
    LiveJoin(b[..j + 1], b[j + 1..]);
  }

  lemma EntryIndex(cur: nat, pos: nat, n: nat)
    requires pos == cur + ENTRY_SIZE * n
    ensures (pos - cur) / ENTRY_SIZE == n
  {
  }

  lemma EntryAt(pos: nat, n: nat)
    requires pos >= ENTRY_SIZE * n
    ensures pos / ENTRY_SIZE == n + (pos - ENTRY_SIZE * n) / ENTRY_SIZE
  {
  }

  lemma EntryMultiple(cur: nat, n: nat)
    requires cur % ENTRY_SIZE == 0
    ensures (cur + ENTRY_SIZE * n) % ENTRY_SIZE == 0
  {
  }

  /** Two different positions are at least one entry apart. */
  lemma NextEntry(cur: nat, pos: nat)
    requires cur % ENTRY_SIZE == 0 && pos % ENTRY_SIZE == 0 && cur <= pos && cur != pos
    ensures cur + ENTRY_SIZE <= pos
  {
  }

  lemma DirSize(f: seq<Slot>, size: nat)
    requires DirOk(f, size)
    ensures size == ENTRY_SIZE * |Live(f)| && |f| == ALL
  {
  }

  /** The entries of the first i + 1 blocks. */
  lemma LiveBlocks(f: seq<Slot>, i: nat)
    requires |f| == ALL && i < 140
    ensures Live(f[..SLOTS * (i + 1)]) == Live(f[..SLOTS * i]) + Live(BlockAt(f, i))
    ensures Live(f[..SLOTS * i]) + Live(BlockAt(f, i)) <= Live(f)
  {
    hide Live;
    var a, b, c := f[..SLOTS * i], BlockAt(f, i), f[SLOTS * (i + 1)..];
    assert f[..SLOTS * (i + 1)] == a + b && f == (a + b) + c;
    LiveJoin(a, b);
    LiveJoin(a + b, c);
  }

  lemma WholeScan(f: seq<Slot>, i: nat)
    requires |f| == ALL && i <= 140
    ensures i == 140 ==> Live(f[..SLOTS * i]) == Live(f)
  {
    if i == 140 { assert f[..SLOTS * i] == f; }
  }

  lemma StoreShape(s: Store)
    requires StoreOk(s)
    ensures |s.sectors| == 13 && s.dataStart > 0
  {
  }

  /** No slot of the first p is unused. */
  ghost predicate NoneFree(f: seq<Slot>, p: nat)
    requires p <= |f|
  {
    forall q :: 0 <= q < p ==> !f[q].ftype.Unknown?
  }

  /** How many blocks the next insert takes. */
  ghost function BlocksNeeded(s: Store): nat
    requires StoreOk(s)
  {
    var p := FirstFree(Flat(s)[..DIRECT]);
    if p == DIRECT then 2 else if s.sectors[p / SLOTS] == 0 then 1 else 0
  }

  lemma NoneFreeAtAll(f: seq<Slot>)
    ensures NoneFree(f, 0)
  {
  }

  lemma StoreDirect(s: Store, i: nat)
    requires StoreOk(s) && i < 12
    ensures |s.sectors| == 13 && All(s)[i] == s.sectors[i]
    ensures s.sectors[i] != 0 ==> s.sectors[i] in s.blocks && |s.blocks[s.sectors[i]]| == SLOTS
  {
  }

  lemma {:induction false} FirstFreeAt(f: seq<Slot>, p: nat)
    requires p <= |f| && NoneFree(f, p) && (p < |f| ==> f[p].ftype.Unknown?)
    ensures FirstFree(f) == p
  {
    if p > 0 { FirstFreeAt(f[1..], p - 1); }
  }

  lemma FirstFreeIs(f: seq<Slot>, i: nat, j: nat)
    requires |f| == ALL && i < 12 && j < SLOTS && NoneFree(f, SLOTS * i)
    requires BlockAt(f, i)[j].ftype.Unknown? && forall l :: 0 <= l < j ==> !BlockAt(f, i)[l].ftype.Unknown?
    ensures FirstFree(f[..DIRECT]) == Place(i, j)
  {
    forall q | SLOTS * i <= q < SLOTS * i + j ensures !f[q].ftype.Unknown? {
      assert f[q] == BlockAt(f, i)[q - SLOTS * i];
    }
    FirstFreeAt(f[..DIRECT], Place(i, j));
  }

  lemma MoreNotFree(f: seq<Slot>, i: nat)
    requires |f| == ALL && i < 12 && NoneFree(f, SLOTS * i)
    requires forall l :: 0 <= l < SLOTS ==> !BlockAt(f, i)[l].ftype.Unknown?
    ensures NoneFree(f, SLOTS * (i + 1))
  {
    forall q | SLOTS * i <= q < SLOTS * (i + 1) ensures !f[q].ftype.Unknown? {
      assert f[q] == BlockAt(f, i)[q - SLOTS * i];
    }
  }

  lemma NeedsBlock(s: Store, f: seq<Slot>, i: nat, j: nat)
    requires StoreOk(s) && f == Flat(s) && i < 12 && j < SLOTS && FirstFree(f[..DIRECT]) == Place(i, j)
    ensures BlocksNeeded(s) == if s.sectors[i] == 0 then 1 else 0
  {
    PlaceParts(i, j);
  }

  lemma NeedsTwo(s: Store, f: seq<Slot>)
    requires StoreOk(s) && f == Flat(s) && NoneFree(f, DIRECT)
    ensures BlocksNeeded(s) == 2
  {
    FirstFreeAt(f[..DIRECT], DIRECT);
  }

  lemma SparedSlot(s: Store, s': Store, i: nat, b: seq<Slot>)
    requires StoreOk(s) && i < 12 && s.sectors[i] != 0 && s' == s.(blocks := s.blocks[s.sectors[i] := b])
    ensures Spared(s, s', 0)
  {
    assert All(s)[i] == s.sectors[i];
  }

  lemma SparedBlock(s: Store, s': Store, a: nat, e: Slot)
    requires StoreOk(s) && s.dataStart <= a < s.dataStart + |s.used| && !s.used[a - s.dataStart]
    requires s' == s.(sectors := s'.sectors, blocks := s.blocks[a := FreshBlock(e)],
                      used := s.used[a - s.dataStart := true])
    ensures Spared(s, s', 1)
  {
    FreeCountSet(s.used, a - s.dataStart);
    hide StoreOk, FreeCount, All;
  }

  lemma SparedTable(s: Store, s': Store, a: nat, c: nat, e: Slot)
    requires StoreOk(s) && a != c
    requires s.dataStart <= a < s.dataStart + |s.used| && !s.used[a - s.dataStart]
    requires s.dataStart <= c < s.dataStart + |s.used| && !s.used[c - s.dataStart]
    requires s' == s.(sectors := s'.sectors, tables := s.tables[a := FreshTable(c)],
                      blocks := s.blocks[c := FreshBlock(e)],
                      used := s.used[a - s.dataStart := true][c - s.dataStart := true])
    ensures Spared(s, s', 2)
  {
    FreeCountSet(s.used, a - s.dataStart);
    FreeCountSet(s.used[a - s.dataStart := true], c - s.dataStart);
    hide StoreOk, FreeCount, All;
  }

  /** An entry takes the first unused direct slot, and without one it is the first behind them and the only one. */
  lemma InsertedPlace(f: seq<Slot>, e: Slot, p: nat)
    requires |f| == ALL && p <= DIRECT && forall q :: 0 <= q < p ==> !f[q].ftype.Unknown?
    ensures p < DIRECT && f[p].ftype.Unknown? ==> Inserted(f, e) == f[p := e]
    ensures p == DIRECT ==>
              && Inserted(f, e)[..DIRECT] == f[..DIRECT] && Inserted(f, e)[DIRECT] == e
              && forall q :: DIRECT < q < ALL ==> Inserted(f, e)[q] == EMPTY
  {
    if p == DIRECT || f[p].ftype.Unknown? { FirstFreeAt(f[..DIRECT], p); }
  }

  lemma InsertedAt(f: seq<Slot>, p: nat, e: Slot)
    requires |f| == ALL && p < DIRECT && FirstFree(f[..DIRECT]) == p
    ensures Inserted(f, e) == f[p := e]
  {
  }

  lemma InsertedBehind(f: seq<Slot>, e: Slot)
    requires |f| == ALL && NoneFree(f, DIRECT)
    ensures Inserted(f, e) == f[..DIRECT] + [e] + seq(ALL - DIRECT - 1, _ => EMPTY)
  {
    FirstFreeAt(f[..DIRECT], DIRECT);
  }

  lemma DirSlots(f: seq<Slot>, size: nat)
    requires DirOk(f, size)
    ensures SlotsOk(f)
  {
  }

  lemma StoreBlock(s: Store, i: nat)
    requires StoreOk(s) && i < 140
    ensures All(s)[i] != 0 ==> Holds(s, All(s)[i])
  {
  }

  lemma FoundAt(f: seq<Slot>, p: nat, name: string)
    requires SlotsOk(f) && p < |f| && f[p].name == name && name != ""
    ensures name in AsMap(f) && AsMap(f)[name] == f[p]
  {
  }

  lemma NowhereNamed(f: seq<Slot>, name: string)
    requires SlotsOk(f) && NotBefore(f, |f|, name)
    ensures name !in AsMap(f)
  {
  }
}
