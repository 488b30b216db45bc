/** x86 two-level page tables with 4 KiB pages (Intel SDM volume 3A, section 4.3), reached through the last
    directory slot, which maps the directory itself. */
module PageTables {
  import opened Bits

  /** Physical memory: the 1024 words of each frame, by frame number. */
  type Ram = map<nat, seq<nat>>

  /** The words of frame f; a frame never written to is blank. */
  function At(ram: Ram, f: nat): (words: seq<nat>)
    ensures |words| == 1024
  {
    if f in ram && |ram[f]| == 1024 then ram[f] else Blank()
  }

  function Blank(): (words: seq<nat>)
    ensures |words| == 1024 && forall i :: 0 <= i < 1024 ==> words[i] == 0
  {
    seq(1024, _ => 0)
  }

  const PAGES: nat := 1024 * 1024
  const USER_DIRS: nat := 768
  const SELF: nat := 1023

  function DirOf(vp: nat): nat {
    vp / 1024
  }

  function SlotOf(vp: nat): nat {
    vp % 1024
  }

  predicate Present(entry: nat) {
    entry % 2 == 1
  }

  function FrameOf(entry: nat): nat {
    entry / 4096
  }

  /** A frame number with the bits US, RW and P. */
  function Entry(f: nat): nat {
    f * 4096 + 7
  }

  /** The bits P, RW and US are set, and no other below the frame number. */
  lemma EntryFields(f: nat)
    ensures Present(Entry(f)) && FrameOf(Entry(f)) == f && Entry(f) % 4096 == 1 + 2 + 4
  {
    assert Entry(f) == 4096 * f + 7;
    assert Entry(f) / 4096 == f;
  }

  /** The entry of directory slot d. */
  function Pde(ram: Ram, dir: nat, d: nat): nat
    requires d < 1024
  {
    At(ram, dir)[d]
  }

  /** The entry of slot t of the table at directory slot d. */
  function Pte(ram: Ram, dir: nat, d: nat, t: nat): nat
    requires d < 1024 && t < 1024
  {
    At(ram, FrameOf(Pde(ram, dir, d)))[t]
  }

  datatype Target = To(frame: nat) | Fault

  /** What the processor makes of virtual page vp when `dir` is active. */
  function Walk(ram: Ram, dir: nat, vp: nat): Target
    requires vp < PAGES
  {
    if !Present(Pde(ram, dir, DirOf(vp))) then Fault
    else if !Present(Pte(ram, dir, DirOf(vp), SlotOf(vp))) then Fault
    else To(FrameOf(Pte(ram, dir, DirOf(vp), SlotOf(vp))))
  }

  predicate SelfMapped(ram: Ram, dir: nat) {
    Pde(ram, dir, SELF) == Entry(dir)
  }

  // ----- virtual addresses of entries -----

  /** pte_ptr of memory.c, with shifts and masks as arithmetic. */
  function PtePtr(vaddr: nat): nat {
    0xffc0_0000 + vaddr / 0x40_0000 * 0x40_0000 / 1024 + vaddr / 4096 % 1024 * 4
  }

  /** pde_ptr. */
  function PdePtr(vaddr: nat): nat {
    0xffff_f000 + vaddr / 0x40_0000 * 4
  }

  /** Which page and word an entry's address means. */
  lemma PtePtrParts(vp: nat, off: nat)
    requires vp < PAGES && off < 4096
    ensures var p := PtePtr(4096 * vp + off);
            p < 0x1_0000_0000 && DirOf(p / 4096) == SELF && SlotOf(p / 4096) == DirOf(vp) && p % 4096 == 4 * SlotOf(vp)
  {
    var v := 4096 * vp + off;
    var d, t := vp / 1024, vp % 1024;
    assert v / 4096 == vp;
    assert v / 0x40_0000 == d;
    assert PtePtr(v) == 4096 * (0xf_fc00 + d) + 4 * t;
    assert PtePtr(v) / 4096 == 0xf_fc00 + d;
  }

  lemma PdePtrParts(vp: nat, off: nat)
    requires vp < PAGES && off < 4096
    ensures var p := PdePtr(4096 * vp + off);
            p < 0x1_0000_0000 && p / 4096 == PAGES - 1 && p % 4096 == 4 * DirOf(vp)
  {
    var v := 4096 * vp + off;
    assert v / 0x40_0000 == vp / 1024;
  }

  /** Through the self-mapped slot, the address pte_ptr gives reads the entry the processor would use, and
      pde_ptr the directory's. */
  lemma SelfMapReads(ram: Ram, dir: nat, vp: nat, off: nat)
    requires vp < PAGES && off < 4096 && SelfMapped(ram, dir)
    ensures var p := PdePtr(4096 * vp + off);
            Walk(ram, dir, p / 4096) == To(dir) && p % 4096 / 4 == DirOf(vp)
    ensures Present(Pde(ram, dir, DirOf(vp))) ==>
              var p := PtePtr(4096 * vp + off);
              && p / 4096 < PAGES
              && Walk(ram, dir, p / 4096) == To(FrameOf(Pde(ram, dir, DirOf(vp))))
              && p % 4096 / 4 == SlotOf(vp)
  {
    PdePtrParts(vp, off);
    PtePtrParts(vp, off);
    EntryFields(dir);
    hide PtePtr, PdePtr, Entry;
    assert DirOf(PAGES - 1) == SELF && SlotOf(PAGES - 1) == SELF;
  }

  // ----- one address space -----

  /** The first user slot and the first kernel slot hold the same table, as the loader leaves them. */
  predicate Twins(ram: Ram, dir: nat) {
    && Present(Pde(ram, dir, 0)) && Present(Pde(ram, dir, USER_DIRS))
    && FrameOf(Pde(ram, dir, 0)) == FrameOf(Pde(ram, dir, USER_DIRS))
  }

  /** The directory and its tables below the self-mapped slot are different frames; only the slots 0 and
      USER_DIRS may share one. */
  ghost predicate SpaceOk(ram: Ram, dir: nat) {
    && SelfMapped(ram, dir)
    && (forall d :: 0 <= d < SELF && Present(Pde(ram, dir, d)) ==> FrameOf(Pde(ram, dir, d)) != dir)
    && (forall d, e :: 0 <= d < e < SELF && Present(Pde(ram, dir, d)) && Present(Pde(ram, dir, e)) ==>
          FrameOf(Pde(ram, dir, d)) != FrameOf(Pde(ram, dir, e)) || (d == 0 && e == USER_DIRS))
  }

  /** Pages vp and q are read off one table entry. */
  predicate SameEntry(ram: Ram, dir: nat, vp: nat, q: nat) {
    || q == vp
    || (Twins(ram, dir) && (q == vp + 1024 * USER_DIRS || vp == q + 1024 * USER_DIRS)
        && (DirOf(vp) == 0 || DirOf(q) == 0))
  }

  /** Frame f is the directory or one of its tables. */
  ghost predicate IsTable(ram: Ram, dir: nat, f: nat) {
    f == dir || exists d :: 0 <= d < SELF && Present(Pde(ram, dir, d)) && FrameOf(Pde(ram, dir, d)) == f
  }

  /** Tables are read off the directory alone. */
  lemma SameDirectory(ram: Ram, ram': Ram, dir: nat)
    requires At(ram', dir) == At(ram, dir)
    ensures forall d :: 0 <= d < 1024 ==> Pde(ram', dir, d) == Pde(ram, dir, d)
    ensures SpaceOk(ram', dir) <==> SpaceOk(ram, dir)
    ensures forall g :: IsTable(ram', dir, g) <==> IsTable(ram, dir, g)
  {
    assert forall d :: 0 <= d < 1024 ==> Pde(ram', dir, d) == Pde(ram, dir, d);
    hide Pde, Present, FrameOf;
    forall g | IsTable(ram, dir, g) ensures IsTable(ram', dir, g) {
      if g != dir {
        var d :| 0 <= d < SELF && Present(Pde(ram, dir, d)) && FrameOf(Pde(ram, dir, d)) == g;
        assert Present(Pde(ram', dir, d)) && FrameOf(Pde(ram', dir, d)) == g;
      }
    }
    forall g | IsTable(ram', dir, g) ensures IsTable(ram, dir, g) {
      if g != dir {
        var d :| 0 <= d < SELF && Present(Pde(ram', dir, d)) && FrameOf(Pde(ram', dir, d)) == g;
        assert Present(Pde(ram, dir, d)) && FrameOf(Pde(ram, dir, d)) == g;
      }
    }
  }

  /** Writing a frame that is no table leaves the address space alone. */
  lemma OtherFrame(ram: Ram, dir: nat, f: nat, words: seq<nat>)
    requires |words| == 1024 && SpaceOk(ram, dir) && !IsTable(ram, dir, f)
    ensures SpaceOk(ram[f := words], dir)
    ensures forall vp :: 0 <= vp < PAGES - 1024 ==> Walk(ram[f := words], dir, vp) == Walk(ram, dir, vp)
    ensures forall g :: IsTable(ram[f := words], dir, g) <==> IsTable(ram, dir, g)
    ensures forall d :: 0 <= d < 1024 ==> Pde(ram[f := words], dir, d) == Pde(ram, dir, d)
  {
    var ram' := ram[f := words];
    SameDirectory(ram, ram', dir);
    forall vp | 0 <= vp < PAGES - 1024 ensures Walk(ram', dir, vp) == Walk(ram, dir, vp) {
      assert DirOf(vp) < SELF;
      assert Present(Pde(ram, dir, DirOf(vp))) ==> IsTable(ram, dir, FrameOf(Pde(ram, dir, DirOf(vp))));
    }
  }

  /** Writing one entry of an existing table changes what the pages mean that are read off it. */
  lemma SetPte(ram: Ram, dir: nat, vp: nat, entry: nat)
    requires SpaceOk(ram, dir) && vp < PAGES - 1024 && Present(Pde(ram, dir, DirOf(vp)))
    ensures DirOf(vp) < SELF
    ensures var table := FrameOf(Pde(ram, dir, DirOf(vp)));
            var ram' := ram[table := At(ram, table)[SlotOf(vp) := entry]];
            && SpaceOk(ram', dir) && At(ram', dir) == At(ram, dir)
            && (forall g :: IsTable(ram', dir, g) <==> IsTable(ram, dir, g))
            && forall q :: 0 <= q < PAGES - 1024 ==>
                 Walk(ram', dir, q) == if SameEntry(ram, dir, vp, q)
                                       then (if Present(entry) then To(FrameOf(entry)) else Fault)
                                       else Walk(ram, dir, q)
  {
    var table := FrameOf(Pde(ram, dir, DirOf(vp)));
    var ram' := ram[table := At(ram, table)[SlotOf(vp) := entry]];
    assert table != dir;
    SameDirectory(ram, ram', dir);
    forall q | 0 <= q < PAGES - 1024
      ensures Walk(ram', dir, q) == if SameEntry(ram, dir, vp, q)
                                    then (if Present(entry) then To(FrameOf(entry)) else Fault)
                                    else Walk(ram, dir, q)
    {
      EntryShared(ram, dir, vp, q);
    }
  }

  /** Two pages are read off one entry iff they have the table and the place in it in common. */
  lemma EntryShared(ram: Ram, dir: nat, vp: nat, q: nat)
    requires SpaceOk(ram, dir) && vp < PAGES - 1024 && q < PAGES - 1024 && Present(Pde(ram, dir, DirOf(vp)))
    ensures DirOf(q) < SELF
    ensures SameEntry(ram, dir, vp, q) <==>
              && Present(Pde(ram, dir, DirOf(q))) && SlotOf(q) == SlotOf(vp)
              && FrameOf(Pde(ram, dir, DirOf(q))) == FrameOf(Pde(ram, dir, DirOf(vp)))
  {
    PageParts(q, vp);
    TwinParts(q, vp);
    TwinParts(vp, q);
    hide Pde, Present, FrameOf, DirOf, SlotOf;
  }

  lemma PageParts(q: nat, vp: nat)
    ensures DirOf(q) == DirOf(vp) && SlotOf(q) == SlotOf(vp) ==> q == vp
    ensures q < PAGES - 1024 ==> DirOf(q) < SELF
    ensures vp < PAGES - 1024 ==> DirOf(vp) < SELF
  {
  }

  lemma TwinParts(q: nat, vp: nat)
    ensures q == vp + 1024 * USER_DIRS && DirOf(vp) == 0 <==>
            DirOf(vp) == 0 && DirOf(q) == USER_DIRS && SlotOf(q) == SlotOf(vp)
    ensures q == vp + 1024 * USER_DIRS ==> DirOf(q) != 0
  {
  }

  lemma AddedSpace(ram: Ram, ram': Ram, dir: nat, d: nat, table: nat)
    requires SpaceOk(ram, dir) && d < SELF && !Present(Pde(ram, dir, d)) && !IsTable(ram, dir, table)
    requires forall e :: 0 <= e < 1024 && e != d ==> Pde(ram', dir, e) == Pde(ram, dir, e)
    requires Present(Pde(ram', dir, d)) && FrameOf(Pde(ram', dir, d)) == table
    ensures SpaceOk(ram', dir) && forall g :: IsTable(ram', dir, g) <==> IsTable(ram, dir, g) || g == table
  {
    hide Pde, Present, FrameOf, Entry;
    forall e | 0 <= e < SELF && e != d && Present(Pde(ram, dir, e)) ensures FrameOf(Pde(ram, dir, e)) != table {
      assert IsTable(ram, dir, FrameOf(Pde(ram, dir, e)));
    }
    forall g ensures IsTable(ram', dir, g) <==> IsTable(ram, dir, g) || g == table {
      if IsTable(ram, dir, g) && g != dir {
        var e :| 0 <= e < SELF && Present(Pde(ram, dir, e)) && FrameOf(Pde(ram, dir, e)) == g;
        assert Present(Pde(ram', dir, e)) && FrameOf(Pde(ram', dir, e)) == g;
      }
      if g == table { assert IsTable(ram', dir, g); }
    }
  }

  /** Hanging a blank table into an empty directory slot changes no page's meaning. */
  lemma AddTable(ram: Ram, dir: nat, d: nat, table: nat)
    requires SpaceOk(ram, dir) && d < SELF && !Present(Pde(ram, dir, d)) && !IsTable(ram, dir, table)
    ensures var ram' := ram[dir := At(ram, dir)[d := Entry(table)]][table := Blank()];
            && SpaceOk(ram', dir) && Pde(ram', dir, d) == Entry(table)
            && (forall e :: 0 <= e < 1024 && e != d ==> Pde(ram', dir, e) == Pde(ram, dir, e))
            && (forall g :: IsTable(ram', dir, g) <==> IsTable(ram, dir, g) || g == table)
            && (Twins(ram', dir) <==> Twins(ram, dir))
            && forall q :: 0 <= q < PAGES - 1024 ==> Walk(ram', dir, q) == Walk(ram, dir, q)
  {
    var ram' := ram[dir := At(ram, dir)[d := Entry(table)]][table := Blank()];
    EntryFields(table);
    hide Entry;
    assert At(ram', dir) == At(ram, dir)[d := Entry(table)];
    forall e | 0 <= e < SELF && e != d && Present(Pde(ram, dir, e)) ensures FrameOf(Pde(ram, dir, e)) != table {
      assert IsTable(ram, dir, FrameOf(Pde(ram, dir, e)));
    }
    assert forall e :: 0 <= e < 1024 && e != d ==> Pde(ram', dir, e) == Pde(ram, dir, e);
    assert Pde(ram', dir, d) == Entry(table);
    AddedSpace(ram, ram', dir, d, table);
    assert Present(Pde(ram, dir, 0)) ==> IsTable(ram, dir, FrameOf(Pde(ram, dir, 0)));
    assert Present(Pde(ram, dir, USER_DIRS)) ==> IsTable(ram, dir, FrameOf(Pde(ram, dir, USER_DIRS)));
    forall q | 0 <= q < PAGES - 1024 ensures Walk(ram', dir, q) == Walk(ram, dir, q) {
      assert DirOf(q) < SELF;
    }
  }

  // ----- the loader's directory -----

  /** The directory boot/loader.S sets up in frame 0x100: slots 0 and 768 with the first table, slots 769 to
      1022 with the tables that follow, the last slot with itself. */
  function LoaderDirectory(): (words: seq<nat>)
    ensures |words| == 1024
  {
    seq(1024, d requires 0 <= d < 1024 => LoaderEntry(d))
  }

  function LoaderEntry(d: nat): nat {
    if d == 0 || d == USER_DIRS then Entry(0x101)
    else if USER_DIRS < d < SELF then Entry(0x101 + (d - USER_DIRS))
    else if d == SELF then Entry(0x100)
    else 0
  }

  /** Memory as the loader leaves it, the rest blank: the first table maps the low megabyte to itself. */
  function LoaderRam(): Ram {
    map[0x100 := LoaderDirectory(),
        0x101 := seq(1024, t requires 0 <= t < 1024 => LoaderPte(t))]
  }

  function LoaderPte(t: nat): nat {
    if t < 256 then Entry(t) else 0
  }

  lemma LoaderEntries(d: nat)
    requires d < 1024
    ensures var e := Pde(LoaderRam(), 0x100, d);
            && (Present(e) <==> d == 0 || d >= USER_DIRS)
            && (d == 0 || d == USER_DIRS ==> e == Entry(0x101) && FrameOf(e) == 0x101)
            && (USER_DIRS < d < SELF ==> FrameOf(e) == 0x101 + (d - USER_DIRS))
            && (d == SELF ==> e == Entry(0x100))
  {
    assert At(LoaderRam(), 0x100) == LoaderDirectory();
    EntryFields(0x101);
    EntryFields(0x100);
    if USER_DIRS < d < SELF { EntryFields(0x101 + (d - USER_DIRS)); }
    hide Entry;
  }

  /** It is in order, with its twins; it maps the low megabyte twice and no page of the heap. */
  lemma LoaderSpace()
    ensures SpaceOk(LoaderRam(), 0x100) && Twins(LoaderRam(), 0x100)
    ensures forall d :: USER_DIRS <= d < SELF ==> Present(Pde(LoaderRam(), 0x100, d))
    ensures forall q :: 1024 * USER_DIRS + 256 <= q < PAGES - 1024 ==> Walk(LoaderRam(), 0x100, q) == Fault
  {
    var ram := LoaderRam();
    forall d | 0 <= d < 1024
      ensures var e := Pde(ram, 0x100, d);
              && (Present(e) <==> d == 0 || d >= USER_DIRS)
              && (d == 0 || d == USER_DIRS ==> e == Entry(0x101) && FrameOf(e) == 0x101)
              && (USER_DIRS < d < SELF ==> FrameOf(e) == 0x101 + (d - USER_DIRS))
              && (d == SELF ==> e == Entry(0x100))
    {
      LoaderEntries(d);
    }
    hide Pde, LoaderRam, Entry, Present;
    forall q | 1024 * USER_DIRS + 256 <= q < PAGES - 1024 ensures Walk(ram, 0x100, q) == Fault {
      LoaderPage(q);
    }
  }

  lemma LoaderPage(q: nat)
    requires 1024 * USER_DIRS + 256 <= q < PAGES - 1024
    ensures Walk(LoaderRam(), 0x100, q) == Fault
  {
    var d, t := DirOf(q), SlotOf(q);
    LoaderEntries(d);
    if d == USER_DIRS {
      assert t >= 256;
      assert At(LoaderRam(), 0x101)[t] == 0;
    } else {
      assert At(LoaderRam(), 0x101 + (d - USER_DIRS)) == Blank();
    }
    hide LoaderRam, Entry;
  }
}
