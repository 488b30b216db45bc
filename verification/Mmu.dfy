/** The page-table half of kernel/memory.c on physical memory, every access going through the processor's
    walk of the active directory. */
module Mmu {
  import opened Bits
  import opened PageTables

  /** What page_table_add leaves: the pages read off one more entry are mapped, and no other page changes. */
  ghost predicate Mapped(ram: Ram, ram': Ram, dir: nat, vp: nat, f: nat)
    requires vp < PAGES - 1024
  {
    && SpaceOk(ram', dir)
    && Walk(ram, dir, vp) == Fault && Walk(ram', dir, vp) == To(f)
    && (forall q :: 0 <= q < PAGES - 1024 ==>
          if SameEntry(ram, dir, vp, q) then Walk(ram, dir, q) == Fault && Walk(ram', dir, q) == To(f)
          else Walk(ram', dir, q) == Walk(ram, dir, q))
    && (Twins(ram', dir) <==> Twins(ram, dir))
    && (forall d :: 0 <= d < 1024 && d != DirOf(vp) ==> Pde(ram', dir, d) == Pde(ram, dir, d))
    && Present(Pde(ram', dir, DirOf(vp)))
    && (Present(Pde(ram, dir, DirOf(vp))) ==> Pde(ram', dir, DirOf(vp)) == Pde(ram, dir, DirOf(vp)))
    && (forall g :: g != dir && g != FrameOf(Pde(ram', dir, DirOf(vp))) ==> At(ram', g) == At(ram, g))
    && (Present(Pde(ram, dir, DirOf(vp))) ==>
          forall t :: 0 <= t < 1024 && t != SlotOf(vp) ==> Pte(ram', dir, DirOf(vp), t) == Pte(ram, dir, DirOf(vp), t))
    && Pte(ram', dir, DirOf(vp), SlotOf(vp)) == 4096 * f + 7
    && (!Present(Pde(ram, dir, DirOf(vp))) ==> Pde(ram', dir, DirOf(vp)) % 4096 == 7)
  }

  class Machine {
    var ram: Ram
    /** The active directory's frame, as in cr3. */
    var dir: nat
    /** Bitmaps of the kernel's and the users' frames, and where these start. */
    var kpool: seq<bool>
    var upool: seq<bool>
    const kbase: nat
    const ubase: nat

    constructor (ram: Ram, dir: nat, kpool: seq<bool>, upool: seq<bool>, kbase: nat, ubase: nat)
      ensures this.ram == ram && this.dir == dir && this.kpool == kpool && this.upool == upool
      ensures this.kbase == kbase && this.ubase == ubase
    {
      this.ram, this.dir, this.kpool, this.upool, this.kbase, this.ubase := ram, dir, kpool, upool, kbase, ubase;
    }

    method LoadWord(vaddr: nat) returns (fault: bool, w: nat)
      requires vaddr < 4096 * PAGES
      ensures fault <==> Walk(ram, dir, vaddr / 4096) == Fault
      ensures !fault ==> w == At(ram, Walk(ram, dir, vaddr / 4096).frame)[vaddr % 4096 / 4]
    {
      var t := Walk(ram, dir, vaddr / 4096);
      if t == Fault { return true, 0; }
      return false, At(ram, t.frame)[vaddr % 4096 / 4];
    }

    method StoreWord(vaddr: nat, w: nat) returns (fault: bool)
      requires vaddr < 4096 * PAGES
      modifies this`ram
      ensures fault <==> Walk(old(ram), dir, vaddr / 4096) == Fault
      ensures fault ==> ram == old(ram)
      ensures !fault ==>
                var f := Walk(old(ram), dir, vaddr / 4096).frame;
                ram == old(ram)[f := At(old(ram), f)[vaddr % 4096 / 4 := w]]
    {
      var t := Walk(ram, dir, vaddr / 4096);
      if t == Fault { return true; }
      ram := ram[t.frame := At(ram, t.frame)[vaddr % 4096 / 4 := w]];
      return false;
    }

    /** memset of one page to zero. */
    method ClearPage(vp: nat) returns (fault: bool)
      requires vp < PAGES
      modifies this`ram
      ensures fault <==> Walk(old(ram), dir, vp) == Fault
      ensures !fault ==> ram == old(ram)[Walk(old(ram), dir, vp).frame := Blank()]
    {
      var t := Walk(ram, dir, vp);
      if t == Fault { return true; }
      ram := ram[t.frame := Blank()];
      return false;
    }

    /** addr_v2p of a mapped address is where the processor goes. */
    method AddrV2P(vaddr: nat) returns (fault: bool, phys: nat)
      requires vaddr < 4096 * PAGES && SelfMapped(ram, dir)
      ensures fault <==> !Present(Pde(ram, dir, DirOf(vaddr / 4096)))
      ensures Walk(ram, dir, vaddr / 4096).To? ==>
                !fault && phys == 4096 * Walk(ram, dir, vaddr / 4096).frame + vaddr % 4096
      ensures !fault ==>
                phys == 4096 * FrameOf(Pte(ram, dir, DirOf(vaddr / 4096), SlotOf(vaddr / 4096))) + vaddr % 4096
    {
      hide PtePtr, PdePtr, Entry, SelfMapped;
      SelfMapReads(ram, dir, vaddr / 4096, vaddr % 4096);
      PtePtrParts(vaddr / 4096, vaddr % 4096);
      PteFault(ram, dir, vaddr / 4096, vaddr % 4096);
      assert 4096 * (vaddr / 4096) + vaddr % 4096 == vaddr;
      var pte;
      fault, pte := LoadWord(PtePtr(vaddr));
      if fault { return true, 0; }
      return false, pte / 4096 * 4096 + vaddr % 4096;
    }

    method PallocKernel() returns (f: nat, halted: bool)
      modifies this`kpool
      ensures halted <==> FreeCount(old(kpool)) == 0
      ensures halted ==> kpool == old(kpool)
      ensures !halted ==>
                && kbase <= f < kbase + |old(kpool)| && !old(kpool)[f - kbase]
                && kpool == old(kpool)[f - kbase := true]
    {
      var i;
      i, halted, kpool := TakeBit(kpool);
      f := kbase + i;
    }

    method PallocUser() returns (f: nat, halted: bool)
      modifies this`upool
      ensures halted <==> FreeCount(old(upool)) == 0
      ensures halted ==> upool == old(upool)
      ensures !halted ==>
                && ubase <= f < ubase + |old(upool)| && !old(upool)[f - ubase]
                && upool == old(upool)[f - ubase := true]
    {
      var i;
      i, halted, upool := TakeBit(upool);
      f := ubase + i;
    }

    /** page_table_add for the page at vp. It halts if the page is mapped already or a table is needed and
        no kernel frame is left; it never faults. */
    method PageTableAdd(vp: nat, f: nat) returns (ok: bool)
      requires SpaceOk(ram, dir) && vp < PAGES - 1024
      requires forall i :: 0 <= i < |kpool| && !kpool[i] ==> !IsTable(ram, dir, kbase + i)
      modifies this`ram, this`kpool
      ensures ok <==> Walk(old(ram), dir, vp) == Fault
                      && (Present(Pde(old(ram), dir, DirOf(vp))) || FreeCount(old(kpool)) > 0)
      ensures !ok ==> kpool == old(kpool)
      ensures ok ==> Mapped(old(ram), ram, dir, vp, f)
      ensures ok ==>
                && Walk(ram, dir, vp) == To(f) && Pte(ram, dir, DirOf(vp), SlotOf(vp)) == 4096 * f + 7
                && forall q :: 0 <= q < PAGES - 1024 && !SameEntry(old(ram), dir, vp, q) ==>
                     Walk(ram, dir, q) == Walk(old(ram), dir, q)
      ensures ok && !Present(Pde(old(ram), dir, DirOf(vp))) ==>
                && Present(Pde(ram, dir, DirOf(vp))) && Pde(ram, dir, DirOf(vp)) % 4096 == 7
                && kbase <= FrameOf(Pde(ram, dir, DirOf(vp))) < kbase + |old(kpool)|
                && !old(kpool)[FrameOf(Pde(ram, dir, DirOf(vp))) - kbase]
                && kpool == old(kpool)[FrameOf(Pde(ram, dir, DirOf(vp))) - kbase := true]
      ensures ok && Present(Pde(old(ram), dir, DirOf(vp))) ==> kpool == old(kpool)
      ensures ok ==> NewTable(old(ram), old(kpool), ram, kpool, dir, kbase, vp)
      ensures ok ==> forall g :: IsTable(ram, dir, g) <==>
                IsTable(old(ram), dir, g) || g == FrameOf(Pde(ram, dir, DirOf(vp)))
    {
      hide SpaceOk, IsTable, PtePtr, PdePtr, FreeCount;
      SelfOf(ram, dir);
      SelfMapReads(ram, dir, vp, 0);
      PtePtrParts(vp, 0);
      PdePtrParts(vp, 0);
      var fault, pde := LoadWord(PdePtr(4096 * vp));
      if fault { return false; }
      if Present(pde) {
        ok := WritePte(vp, f);
        TableThere(old(ram), dir, vp);
        return;
      }
      ok := AddInNewTable(vp, f);
    }

    /** Check that the entry is clear and write it. */
    method WritePte(vp: nat, f: nat) returns (ok: bool)
      requires SpaceOk(ram, dir) && vp < PAGES - 1024 && Present(Pde(ram, dir, DirOf(vp)))
      modifies this`ram
      ensures ok <==> Walk(old(ram), dir, vp) == Fault
      ensures ok ==> Mapped(old(ram), ram, dir, vp, f) && At(ram, dir) == At(old(ram), dir)
      ensures ok ==> forall g :: IsTable(ram, dir, g) <==> IsTable(old(ram), dir, g)
    {
      hide SpaceOk, IsTable, PtePtr, PdePtr, Mapped, Entry;
      SelfOf(ram, dir);
      SelfMapReads(ram, dir, vp, 0);
      PtePtrParts(vp, 0);
      var fault, pte := LoadWord(PtePtr(4096 * vp));
      if fault || Present(pte) { return false; }
      IsMapped(ram, dir, vp, f);
      fault := StoreWord(PtePtr(4096 * vp), Entry(f));
      return !fault;
    }

    /** Put a fresh table into the empty directory slot and clear it. */
    method HangTable(vp: nat, table: nat)
      requires SpaceOk(ram, dir) && vp < PAGES - 1024 && !Present(Pde(ram, dir, DirOf(vp)))
      modifies this`ram
      ensures ram == old(ram)[dir := At(old(ram), dir)[DirOf(vp) := Entry(table)]][table := Blank()]
    {
      hide SpaceOk, PtePtr, PdePtr;
      SelfOf(ram, dir);
      SelfMapReads(ram, dir, vp, 0);
      PdePtrParts(vp, 0);
      var fault := StoreWord(PdePtr(4096 * vp), Entry(table));
      EntryFields(table);
      SelfStays(old(ram), dir, DirOf(vp), Entry(table));
      SelfMapReads(ram, dir, vp, 0);
      PtePtrParts(vp, 0);
      fault := ClearPage(PtePtr(4096 * vp) / 4096);
    }

    /** The case that the directory slot is empty. */
    method AddInNewTable(vp: nat, f: nat) returns (ok: bool)
      requires SpaceOk(ram, dir) && vp < PAGES - 1024 && !Present(Pde(ram, dir, DirOf(vp)))
      requires forall i :: 0 <= i < |kpool| && !kpool[i] ==> !IsTable(ram, dir, kbase + i)
      modifies this`ram, this`kpool
      ensures ok <==> FreeCount(old(kpool)) > 0
      ensures !ok ==> kpool == old(kpool)
      ensures ok ==> Mapped(old(ram), ram, dir, vp, f)
      ensures ok ==> NewTable(old(ram), old(kpool), ram, kpool, dir, kbase, vp)
      ensures ok ==> forall g :: IsTable(ram, dir, g) <==>
                IsTable(old(ram), dir, g) || g == FrameOf(Pde(ram, dir, DirOf(vp)))
    {
      hide SpaceOk, IsTable, PtePtr, PdePtr, FreeCount, Walk;
      var table, halted := PallocKernel();
      if halted { return false; }
      assert kbase + (table - kbase) == table;
      AddTable(ram, dir, DirOf(vp), table);
      HangTable(vp, table);
      ghost var ram1 := ram;
      EntryFields(table);
      EmptySlot(ram1, dir, vp);
      NoTableNoPage(old(ram), dir, vp);
      hide Mapped;
      ok := WritePte(vp, f);
      MappedFrom(old(ram), ram1, ram, dir, vp, f, table);
    }

    /** create_page_dir, once get_kernel_pages has returned a blank page: the kernel's half is copied from the
        active directory, and the last slot maps the new directory. */
    method CreatePageDir(page: nat, ghost f: nat) returns (fault: bool)
      requires SelfMapped(ram, dir) && page < PAGES && Walk(ram, dir, page) == To(f) && At(ram, f) == Blank()
               && f != dir
      requires !IsTable(ram, dir, f) && SpaceOk(ram, dir)
      modifies this`ram
      ensures !fault && ram == old(ram)[f := NewDirectory(old(ram), dir, f)]
    {
      hide PtePtr, IsTable;
      var phys;
      fault, phys := AddrV2P(4096 * page);
      PageTablesPresent(ram, dir, page);
      if fault { return; }
      var kernel := At(ram, dir)[USER_DIRS..];
      var target := Walk(ram, dir, page);
      ram := ram[target.frame := At(ram, target.frame)[..USER_DIRS] + kernel];
      ram := ram[target.frame := At(ram, target.frame)[SELF := phys / 4096 * 4096 + 7]];
      assert phys / 4096 == f;
      assert Entry(f) == phys / 4096 * 4096 + 7;
      assert At(ram, f) == NewDirectory(old(ram), dir, f);
      assert ram == old(ram)[f := At(ram, f)];
    }

    /** page_table_pte_remove. */
    method PteRemove(vp: nat) returns (fault: bool)
      requires SpaceOk(ram, dir) && vp < PAGES - 1024
      modifies this`ram
      ensures fault <==> !Present(Pde(old(ram), dir, DirOf(vp)))
      ensures !fault ==>
                && SpaceOk(ram, dir) && Walk(ram, dir, vp) == Fault && At(ram, dir) == At(old(ram), dir)
                && forall q :: 0 <= q < PAGES - 1024 ==>
                     Walk(ram, dir, q) == if SameEntry(old(ram), dir, vp, q) then Fault else Walk(old(ram), dir, q)
      ensures !fault ==>
                var table := FrameOf(Pde(old(ram), dir, DirOf(vp)));
                ram == old(ram)[table := At(old(ram), table)[SlotOf(vp) := 0]]
    {
      hide SpaceOk, PtePtr, PdePtr;
      SelfOf(ram, dir);
      SelfMapReads(ram, dir, vp, 0);
      PtePtrParts(vp, 0);
      PteFault(ram, dir, vp, 0);
      if Present(Pde(ram, dir, DirOf(vp))) { SetPte(ram, dir, vp, 0); }
      fault := StoreWord(PtePtr(4096 * vp), 0);
    }
  }

  /** Writing the entry of an unmapped page whose table exists maps it. */
  lemma IsMapped(ram: Ram, dir: nat, vp: nat, f: nat)
    requires SpaceOk(ram, dir) && vp < PAGES - 1024 && Present(Pde(ram, dir, DirOf(vp))) && Walk(ram, dir, vp) == Fault
    ensures var table := FrameOf(Pde(ram, dir, DirOf(vp)));
            var ram' := ram[table := At(ram, table)[SlotOf(vp) := Entry(f)]];
            && Mapped(ram, ram', dir, vp, f) && At(ram', dir) == At(ram, dir)
            && forall g :: IsTable(ram', dir, g) <==> IsTable(ram, dir, g)
  {
    SetPte(ram, dir, vp, Entry(f));
    EntryFields(f);
    forall q | 0 <= q < PAGES - 1024 && SameEntry(ram, dir, vp, q) ensures Walk(ram, dir, q) == Fault {
      EntryShared(ram, dir, vp, q);
    }
    hide SpaceOk, IsTable, Entry, SameEntry;
  }

  /** The entries of other pages are not touched. */
  lemma OtherEntries(ram: Ram, ram': Ram, dir: nat, vp: nat, f: nat, q: nat)
    requires SpaceOk(ram, dir) && vp < PAGES - 1024 && Mapped(ram, ram', dir, vp, f)
    requires q < PAGES - 1024 && Present(Pde(ram, dir, DirOf(q))) && !SameEntry(ram, dir, vp, q)
    ensures Pte(ram', dir, DirOf(q), SlotOf(q)) == Pte(ram, dir, DirOf(q), SlotOf(q))
  {
    hide Walk;
    var d, e := DirOf(q), DirOf(vp);
    assert q == 1024 * d + SlotOf(q) && vp == 1024 * e + SlotOf(vp) && d < SELF && e < SELF;
    if d != e && FrameOf(Pde(ram, dir, d)) == FrameOf(Pde(ram', dir, e)) {
      assert Pde(ram', dir, d) == Pde(ram, dir, d);
      assert Twins(ram', dir) && Twins(ram, dir) && (d == 0 || e == 0) && (d == USER_DIRS || e == USER_DIRS);
      assert SlotOf(q) != SlotOf(vp);
      assert Pte(ram', dir, d, SlotOf(q)) == Pte(ram', dir, e, SlotOf(q));
    }
  }

  /** A fresh table before the entry comes to the same. */
  lemma MappedFrom(ram: Ram, ram1: Ram, ram2: Ram, dir: nat, vp: nat, f: nat, table: nat)
    requires vp < PAGES - 1024 && !Present(Pde(ram, dir, DirOf(vp))) && Mapped(ram1, ram2, dir, vp, f)
    requires ram1 == ram[dir := At(ram, dir)[DirOf(vp) := Entry(table)]][table := Blank()]
    requires Present(Pde(ram1, dir, DirOf(vp))) && FrameOf(Pde(ram1, dir, DirOf(vp))) == table
    requires forall e :: 0 <= e < 1024 && e != DirOf(vp) ==> Pde(ram1, dir, e) == Pde(ram, dir, e)
    requires Twins(ram1, dir) <==> Twins(ram, dir)
    requires forall q :: 0 <= q < PAGES - 1024 ==> Walk(ram1, dir, q) == Walk(ram, dir, q)
    ensures Mapped(ram, ram2, dir, vp, f)
  {
    assert forall q :: SameEntry(ram1, dir, vp, q) <==> SameEntry(ram, dir, vp, q);
    assert forall g :: g != dir && g != table ==> At(ram1, g) == At(ram, g);
    hide SpaceOk, Walk, Twins, Pde, At;
  }

  /** Mapping a page leaves every other page as it was if and only if the page is not in one of two slots that
      share their table. */
  lemma OnlyPageIff(ram: Ram, ram': Ram, dir: nat, vp: nat, f: nat)
    requires vp < PAGES - 1024 && Mapped(ram, ram', dir, vp, f)
    ensures (forall q :: 0 <= q < PAGES - 1024 && q != vp ==> Walk(ram', dir, q) == Walk(ram, dir, q))
            <==> !(Twins(ram, dir) && (DirOf(vp) == 0 || DirOf(vp) == USER_DIRS))
  {
    hide Walk, SpaceOk;
    var q := if DirOf(vp) == 0 then vp + 1024 * USER_DIRS else vp - 1024 * USER_DIRS;
    if Twins(ram, dir) && (DirOf(vp) == 0 || DirOf(vp) == USER_DIRS) {
      assert SameEntry(ram, dir, vp, q) && q != vp;
    } else {
      forall r: nat | r != vp ensures !SameEntry(ram, dir, vp, r) { TwinParts(r, vp); TwinParts(vp, r); }
    }
  }

  /** A new table came from the kernel's pool, if one was needed. */
  ghost predicate NewTable(ram: Ram, kpool: seq<bool>, ram': Ram, kpool': seq<bool>, dir: nat, kbase: nat, vp: nat)
    requires vp < PAGES - 1024
  {
    if Present(Pde(ram, dir, DirOf(vp))) then kpool' == kpool
    else
      var t := FrameOf(Pde(ram', dir, DirOf(vp)));
      kbase <= t < kbase + |kpool| && !kpool[t - kbase] && kpool' == kpool[t - kbase := true]
  }

  /** A directory with the kernel's half of the active one, mapped to itself. */
  function NewDirectory(ram: Ram, dir: nat, f: nat): (words: seq<nat>)
    ensures |words| == 1024
  {
    Blank()[..USER_DIRS] + At(ram, dir)[USER_DIRS..SELF] + [Entry(f)]
  }

  lemma PageTablesPresent(ram: Ram, dir: nat, page: nat)
    requires page < PAGES && Walk(ram, dir, page).To?
    ensures Present(Pde(ram, dir, DirOf(page)))
    ensures 4096 * page / 4096 == page && 4096 * page % 4096 == 0
  {
  }

  /** The new directory: no user page, the kernel's pages as in the old one, which is not affected. */
  lemma NewSpace(ram: Ram, dir: nat, f: nat)
    requires SpaceOk(ram, dir) && !IsTable(ram, dir, f)
    ensures var ram' := ram[f := NewDirectory(ram, dir, f)];
            && SpaceOk(ram', f) && SpaceOk(ram', dir)
            && (forall q :: 0 <= q < 1024 * USER_DIRS ==> Walk(ram', f, q) == Fault)
            && (forall q :: 1024 * USER_DIRS <= q < PAGES - 1024 ==> Walk(ram', f, q) == Walk(ram, dir, q))
            && (forall q :: 0 <= q < PAGES - 1024 ==> Walk(ram', dir, q) == Walk(ram, dir, q))
  {
    OtherFrame(ram, dir, f, NewDirectory(ram, dir, f));
    var ram' := ram[f := NewDirectory(ram, dir, f)];
    NewEntries(ram, ram', dir, f);
    forall q | 1024 * USER_DIRS <= q < PAGES - 1024 ensures Walk(ram', f, q) == Walk(ram, dir, q) {
      assert USER_DIRS <= DirOf(q) < SELF;
      if Present(Pde(ram, dir, DirOf(q))) { assert IsTable(ram, dir, FrameOf(Pde(ram, dir, DirOf(q)))); }
    }
    forall q | 0 <= q < 1024 * USER_DIRS ensures Walk(ram', f, q) == Fault {
      assert DirOf(q) < USER_DIRS;
    }
  }

  lemma NewEntries(ram: Ram, ram': Ram, dir: nat, f: nat)
    requires SpaceOk(ram, dir) && !IsTable(ram, dir, f) && At(ram', f) == NewDirectory(ram, dir, f)
    ensures forall d :: 0 <= d < USER_DIRS ==> Pde(ram', f, d) == 0
    ensures forall d :: USER_DIRS <= d < SELF ==> Pde(ram', f, d) == Pde(ram, dir, d)
    ensures SpaceOk(ram', f)
  {
    assert forall d :: 0 <= d < USER_DIRS ==> Pde(ram', f, d) == 0;
    assert forall d :: USER_DIRS <= d < SELF ==> Pde(ram', f, d) == Pde(ram, dir, d);
    assert Pde(ram', f, SELF) == Entry(f);
    hide Pde, Entry, At, NewDirectory;
    forall d | 0 <= d < SELF && Present(Pde(ram', f, d)) ensures d >= USER_DIRS && FrameOf(Pde(ram', f, d)) != f {
      if d >= USER_DIRS { assert IsTable(ram, dir, FrameOf(Pde(ram, dir, d))); }
    }
  }

  lemma SelfOf(ram: Ram, dir: nat)
    requires SpaceOk(ram, dir)
    ensures SelfMapped(ram, dir)
  {
  }

  /** Reaching for an entry faults if and only if there is no table. */
  lemma PteFault(ram: Ram, dir: nat, vp: nat, off: nat)
    requires SelfMapped(ram, dir) && vp < PAGES && off < 4096
    ensures PtePtr(4096 * vp + off) / 4096 < PAGES
    ensures Walk(ram, dir, PtePtr(4096 * vp + off) / 4096) == Fault <==> !Present(Pde(ram, dir, DirOf(vp)))
  {
    SelfMapReads(ram, dir, vp, off);
    PtePtrParts(vp, off);
    EntryFields(dir);
    hide PtePtr, PdePtr, Entry;
  }

  lemma SelfStays(ram: Ram, dir: nat, d: nat, entry: nat)
    requires SelfMapped(ram, dir) && d < SELF
    ensures var ram' := ram[dir := At(ram, dir)[d := entry]];
            SelfMapped(ram', dir) && Pde(ram', dir, d) == entry
  {
  }

  lemma EmptySlot(ram: Ram, dir: nat, vp: nat)
    requires vp < PAGES - 1024 && At(ram, FrameOf(Pde(ram, dir, DirOf(vp)))) == Blank()
    ensures !Present(Pte(ram, dir, DirOf(vp), SlotOf(vp))) && Walk(ram, dir, vp) == Fault
  {
  }

  lemma NoTableNoPage(ram: Ram, dir: nat, vp: nat)
    requires vp < PAGES && !Present(Pde(ram, dir, DirOf(vp)))
    ensures Walk(ram, dir, vp) == Fault
  {
  }

  lemma TableThere(ram: Ram, dir: nat, vp: nat)
    requires vp < PAGES - 1024 && Present(Pde(ram, dir, DirOf(vp)))
    ensures IsTable(ram, dir, FrameOf(Pde(ram, dir, DirOf(vp))))
  {
    assert DirOf(vp) < SELF;
  }
}
