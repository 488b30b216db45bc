/** copy_body_stack3 of userprog/fork.c: every page the parent's bitmap marks is copied into a frame of the
    child's, through a kernel page both see, while the active directory goes back and forth. */
module Fork {
  import opened Bits
  import opened Bitmaps
  import opened PageTables
  import opened Mmu

  const USER_PAGES: nat := USER_DIRS * 1024

  /** f is one of the parent's tables or holds one of its user pages. */
  ghost predicate Parents(ram: Ram, parent: nat, f: nat) {
    IsTable(ram, parent, f) || exists q :: 0 <= q < USER_PAGES && Walk(ram, parent, q) == To(f)
  }

  /** Nothing outside W was written, and nothing of the parent's is in W. */
  ghost predicate Confined(ram0: Ram, ram: Ram, parent: nat, W: set<nat>) {
    (forall g :: g !in W ==> At(ram, g) == At(ram0, g)) && (forall g :: g in W ==> !Parents(ram0, parent, g))
  }

  /** The child's space: its own directory and user tables, and the parent's kernel tables. */
  ghost predicate ChildSpace(ram0: Ram, ram: Ram, parent: nat, child: nat, W: set<nat>) {
    && SpaceOk(ram, child) && child in W
    && (forall d :: 0 <= d < USER_DIRS && Present(Pde(ram, child, d)) ==> FrameOf(Pde(ram, child, d)) in W)
    && (forall d :: USER_DIRS <= d < SELF ==> Pde(ram, child, d) == Pde(ram0, parent, d))
  }

  /** The child's user pages are those copied, each in a frame of its own with the parent's words. */
  ghost predicate Copied(ram0: Ram, ram: Ram, parent: nat, child: nat, W: set<nat>, pages: map<nat, nat>) {
    && (forall q :: 0 <= q < USER_PAGES ==> Walk(ram, child, q) == if q in pages then To(pages[q]) else Fault)
    && (forall q :: q in pages ==> q < USER_PAGES && pages[q] in W && !IsTable(ram, child, pages[q]))
    && (forall q, r :: q in pages && r in pages && q != r ==> pages[q] != pages[r])
    && (forall q :: q in pages ==>
          Walk(ram0, parent, q).To? && At(ram, pages[q]) == At(ram0, Walk(ram0, parent, q).frame))
  }

  /** No free frame is in use by either. */
  ghost predicate FreeOk(ram0: Ram, parent: nat, W: set<nat>, pool: seq<bool>, base: nat) {
    forall i :: 0 <= i < |pool| && !pool[i] ==> base + i !in W && !Parents(ram0, parent, base + i)
  }

  /** The kernel's page for copying leads to frame `buf` in both spaces, which is no table and no page. */
  ghost predicate BufferOk(ram0: Ram, ram: Ram, parent: nat, child: nat, W: set<nat>, pages: map<nat, nat>,
                           bufPage: nat, buf: nat) {
    && USER_PAGES <= bufPage < PAGES - 1024 && Walk(ram0, parent, bufPage) == To(buf)
    && buf in W && !IsTable(ram, child, buf) && forall q :: q in pages ==> pages[q] != buf
  }

  /** The parent's mapping and its user pages are as they were. */
  lemma ParentKept(ram0: Ram, ram: Ram, parent: nat, W: set<nat>)
    requires Confined(ram0, ram, parent, W)
    ensures forall q :: 0 <= q < PAGES - 1024 ==> Walk(ram, parent, q) == Walk(ram0, parent, q)
    ensures forall q :: 0 <= q < USER_PAGES && Walk(ram0, parent, q).To? ==>
              At(ram, Walk(ram0, parent, q).frame) == At(ram0, Walk(ram0, parent, q).frame)
  {
    assert Parents(ram0, parent, parent);
    forall q | 0 <= q < PAGES - 1024 ensures Walk(ram, parent, q) == Walk(ram0, parent, q) {
      assert DirOf(q) < SELF;
      if Present(Pde(ram0, parent, DirOf(q))) {
        assert IsTable(ram0, parent, FrameOf(Pde(ram0, parent, DirOf(q))));
        assert Parents(ram0, parent, FrameOf(Pde(ram0, parent, DirOf(q))));
      }
    }
    forall q | 0 <= q < USER_PAGES && Walk(ram0, parent, q).To?
      ensures At(ram, Walk(ram0, parent, q).frame) == At(ram0, Walk(ram0, parent, q).frame)
    {
      assert Parents(ram0, parent, Walk(ram0, parent, q).frame);
    }
  }

  /** The kernel half means the same to the child. */
  lemma KernelShared(ram0: Ram, ram: Ram, parent: nat, child: nat, W: set<nat>, q: nat)
    requires Confined(ram0, ram, parent, W) && ChildSpace(ram0, ram, parent, child, W)
    requires USER_PAGES <= q < PAGES - 1024
    ensures Walk(ram, child, q) == Walk(ram0, parent, q)
  {
    assert USER_DIRS <= DirOf(q) < SELF;
    if Present(Pde(ram0, parent, DirOf(q))) {
      assert IsTable(ram0, parent, FrameOf(Pde(ram0, parent, DirOf(q))));
      assert Parents(ram0, parent, FrameOf(Pde(ram0, parent, DirOf(q))));
    }
  }

  /** A frame that is neither in W nor the parent's is no table of the child. */
  lemma FreshIsNoTable(ram0: Ram, ram: Ram, parent: nat, child: nat, W: set<nat>, f: nat)
    requires ChildSpace(ram0, ram, parent, child, W) && f !in W && !Parents(ram0, parent, f)
    ensures !IsTable(ram, child, f)
  {
    ChildTables(ram0, ram, parent, child, W, f);
  }

  lemma ChildTables(ram0: Ram, ram: Ram, parent: nat, child: nat, W: set<nat>, f: nat)
    requires ChildSpace(ram0, ram, parent, child, W)
    ensures IsTable(ram, child, f) ==> f in W || IsTable(ram0, parent, f)
  {
    if IsTable(ram, child, f) && f != child {
      var d :| 0 <= d < SELF && Present(Pde(ram, child, d)) && FrameOf(Pde(ram, child, d)) == f;
      if d >= USER_DIRS { assert IsTable(ram0, parent, FrameOf(Pde(ram0, parent, d))); }
    }
  }

  /** The same directory slots hold a table. */
  ghost predicate SameSlots(ram: Ram, ram': Ram, child: nat) {
    forall d :: 0 <= d < USER_DIRS ==> (HasTable(ram', child, d) <==> HasTable(ram, child, d))
  }

  predicate HasTable(ram: Ram, child: nat, d: nat) {
    d < USER_DIRS && Present(Pde(ram, child, d))
  }

  /** A write to a frame of W that is no table of the child. */
  lemma WriteConfined(ram0: Ram, ram: Ram, parent: nat, child: nat, W: set<nat>, f: nat, words: seq<nat>)
    requires Confined(ram0, ram, parent, W) && ChildSpace(ram0, ram, parent, child, W)
    requires |words| == 1024 && f in W && !IsTable(ram, child, f)
    ensures Confined(ram0, ram[f := words], parent, W) && ChildSpace(ram0, ram[f := words], parent, child, W)
    ensures forall vp :: 0 <= vp < PAGES - 1024 ==> Walk(ram[f := words], child, vp) == Walk(ram, child, vp)
    ensures forall g :: IsTable(ram[f := words], child, g) <==> IsTable(ram, child, g)
    ensures SameSlots(ram, ram[f := words], child)
  {
    OtherFrame(ram, child, f, words);
    var ram' := ram[f := words];
    assert forall g :: g != f ==> At(ram', g) == At(ram, g);
    assert forall d :: 0 <= d < 1024 ==> Pde(ram', child, d) == Pde(ram, child, d);
    hide Parents, SpaceOk, IsTable, Walk, Pde, At;
  }

  /** Filling the buffer touches no page. */
  lemma BufferWritten(ram0: Ram, ram: Ram, parent: nat, child: nat, W: set<nat>, pages: map<nat, nat>,
                      bufPage: nat, buf: nat, words: seq<nat>)
    requires Confined(ram0, ram, parent, W) && ChildSpace(ram0, ram, parent, child, W)
    requires Copied(ram0, ram, parent, child, W, pages) && |words| == 1024
    requires BufferOk(ram0, ram, parent, child, W, pages, bufPage, buf)
    ensures var ram' := ram[buf := words];
            && Confined(ram0, ram', parent, W) && ChildSpace(ram0, ram', parent, child, W)
            && Copied(ram0, ram', parent, child, W, pages)
            && BufferOk(ram0, ram', parent, child, W, pages, bufPage, buf) && SameSlots(ram, ram', child)
  {
    hide Confined, ChildSpace, Copied, Walk, IsTable, Mapped, SameSlots;
    WriteConfined(ram0, ram, parent, child, W, buf, words);
    var ram' := ram[buf := words];
    forall q | q in pages ensures At(ram', pages[q]) == At(ram, pages[q]) { assert pages[q] != buf; }
    hide At;
    CopiedStill(ram0, ram, ram', parent, child, W, pages);
  }

  lemma CopiedStill(ram0: Ram, ram: Ram, ram': Ram, parent: nat, child: nat, W: set<nat>, pages: map<nat, nat>)
    requires Copied(ram0, ram, parent, child, W, pages)
    requires forall q :: 0 <= q < USER_PAGES ==> Walk(ram', child, q) == Walk(ram, child, q)
    requires forall g :: IsTable(ram', child, g) <==> IsTable(ram, child, g)
    requires forall q :: q in pages ==> At(ram', pages[q]) == At(ram, pages[q])
    ensures Copied(ram0, ram', parent, child, W, pages)
  {
    hide Walk, IsTable, At;
  }

  /** The frames written so far once page vp got frame f. */
  ghost function Grown(ram: Ram, child: nat, W: set<nat>, vp: nat, f: nat): set<nat>
    requires vp < USER_PAGES
  {
    W + {f, FrameOf(Pde(ram, child, DirOf(vp)))}
  }

  /** Page vp of the child has the empty frame f; the pages copied before are as they were. */
  ghost predicate MappedPost(ram0: Ram, ram: Ram, ram': Ram, parent: nat, child: nat, W: set<nat>, pages: map<nat, nat>,
                             bufPage: nat, buf: nat, vp: nat, f: nat)
    requires vp < USER_PAGES
  {
    var W' := Grown(ram', child, W, vp, f);
    && Confined(ram0, ram', parent, W') && ChildSpace(ram0, ram', parent, child, W')
    && Walk(ram', child, vp) == To(f) && !IsTable(ram', child, f) && f != buf && At(ram', buf) == At(ram, buf)
    && BufferOk(ram0, ram', parent, child, W', pages, bufPage, buf)
    && (forall q :: 0 <= q < USER_PAGES && q != vp ==>
          Walk(ram', child, q) == if q in pages then To(pages[q]) else Fault)
    && (forall q :: q in pages ==> pages[q] != f && !IsTable(ram', child, pages[q])
                                   && At(ram', pages[q]) == At(ram, pages[q]))
  }

  /** A frame f was mapped at page vp of the child, perhaps with a new table. */
  lemma PageMapped(ram0: Ram, ram: Ram, ram': Ram, parent: nat, child: nat, W: set<nat>, pages: map<nat, nat>,
                   bufPage: nat, buf: nat, vp: nat, f: nat)
    requires Confined(ram0, ram, parent, W) && ChildSpace(ram0, ram, parent, child, W)
    requires Copied(ram0, ram, parent, child, W, pages) && vp !in pages
    requires BufferOk(ram0, ram, parent, child, W, pages, bufPage, buf)
    requires vp < USER_PAGES && Mapped(ram, ram', child, vp, f)
    requires f !in W && !Parents(ram0, parent, f)
    requires var t := FrameOf(Pde(ram', child, DirOf(vp)));
             && t != f && (t in W || !Parents(ram0, parent, t))
             && (t in W ==> Present(Pde(ram, child, DirOf(vp))))
             && forall g :: IsTable(ram', child, g) <==> IsTable(ram, child, g) || g == t
    ensures MappedPost(ram0, ram, ram', parent, child, W, pages, bufPage, buf, vp, f)
  {
    hide Parents, IsTable, Walk, SpaceOk, Pte, Pde;
    var t := FrameOf(Pde(ram', child, DirOf(vp)));
    FreshIsNoTable(ram0, ram, parent, child, W, f);
    assert DirOf(vp) < USER_DIRS;
    TableNotPage(ram, child, vp, t, W, pages, buf);
  }

  /** The table written to is none of the child's pages, nor the buffer. */
  lemma TableNotPage(ram: Ram, child: nat, vp: nat, t: nat, W: set<nat>, pages: map<nat, nat>, buf: nat)
    requires vp < USER_PAGES
    requires forall q :: q in pages ==> pages[q] in W && !IsTable(ram, child, pages[q])
    requires buf in W && !IsTable(ram, child, buf) && child in W
    requires t in W ==> Present(Pde(ram, child, DirOf(vp))) && t == FrameOf(Pde(ram, child, DirOf(vp)))
    ensures t != buf && forall q :: q in pages ==> pages[q] != t && pages[q] != child
    ensures buf != child
  {
    if t in W { TableThere(ram, child, vp); }
  }

  /** The whole invariant of the copying loops. */
  ghost predicate ForkInv(ram0: Ram, ram: Ram, parent: nat, child: nat, W: set<nat>, pages: map<nat, nat>,
                          bufPage: nat, buf: nat, kpool: seq<bool>, kbase: nat, upool: seq<bool>, ubase: nat) {
    && Confined(ram0, ram, parent, W) && ChildSpace(ram0, ram, parent, child, W)
    && Copied(ram0, ram, parent, child, W, pages)
    && BufferOk(ram0, ram, parent, child, W, pages, bufPage, buf)
    && FreeOk(ram0, parent, W, kpool, kbase) && FreeOk(ram0, parent, W, upool, ubase)
    && kbase + |kpool| <= ubase
  }

  /** Filling the new page completes it. */
  lemma PageFilled(ram0: Ram, ram1: Ram, ram2: Ram, parent: nat, child: nat, W: set<nat>, pages: map<nat, nat>,
                   bufPage: nat, buf: nat, vp: nat, f: nat)
    requires vp < USER_PAGES && vp !in pages && Copied(ram0, ram1, parent, child, W, pages)
    requires MappedPost(ram0, ram1, ram2, parent, child, W, pages, bufPage, buf, vp, f)
    requires Walk(ram0, parent, vp).To? && At(ram1, buf) == At(ram0, Walk(ram0, parent, vp).frame)
    ensures var W' := Grown(ram2, child, W, vp, f);
            var ram' := ram2[f := At(ram2, buf)];
            && Confined(ram0, ram', parent, W') && ChildSpace(ram0, ram', parent, child, W')
            && Copied(ram0, ram', parent, child, W', pages[vp := f])
            && BufferOk(ram0, ram', parent, child, W', pages[vp := f], bufPage, buf) && SameSlots(ram2, ram', child)
  {
    var W' := Grown(ram2, child, W, vp, f);
    var ram' := ram2[f := At(ram2, buf)];
    hide SameSlots, Confined, ChildSpace, Walk, IsTable, Mapped, FrameOf, Pde, DirOf, BufferOk, Copied, At, Parents,
         SpaceOk;
    WriteConfined(ram0, ram2, parent, child, W', f, At(ram2, buf));
    FilledWords(ram1, ram2, pages, f, At(ram2, buf));
    CopiedMore(ram0, ram1, ram', parent, child, W, W', pages, vp, f);
    BufferStill(ram0, ram2, ram', parent, child, W', pages, bufPage, buf, vp, f);
  }

  lemma FilledWords(ram1: Ram, ram2: Ram, pages: map<nat, nat>, f: nat, words: seq<nat>)
    requires |words| == 1024
    requires forall q :: q in pages ==> pages[q] != f && At(ram2, pages[q]) == At(ram1, pages[q])
    ensures At(ram2[f := words], f) == words
    ensures forall q :: q in pages ==> At(ram2[f := words], pages[q]) == At(ram1, pages[q])
  {
  }

  lemma CopiedMore(ram0: Ram, ram: Ram, ram': Ram, parent: nat, child: nat, W: set<nat>, W': set<nat>,
                   pages: map<nat, nat>, vp: nat, f: nat)
    requires Copied(ram0, ram, parent, child, W, pages) && W <= W' && f in W' && vp < USER_PAGES && vp !in pages
    requires forall q :: 0 <= q < USER_PAGES && q != vp ==>
               Walk(ram', child, q) == if q in pages then To(pages[q]) else Fault
    requires Walk(ram', child, vp) == To(f) && !IsTable(ram', child, f)
    requires forall q :: q in pages ==> pages[q] != f && !IsTable(ram', child, pages[q])
                                        && At(ram', pages[q]) == At(ram, pages[q])
    requires Walk(ram0, parent, vp).To? && At(ram', f) == At(ram0, Walk(ram0, parent, vp).frame)
    ensures Copied(ram0, ram', parent, child, W', pages[vp := f])
  {
    hide Walk, IsTable, At;
  }

  lemma BufferStill(ram0: Ram, ram: Ram, ram': Ram, parent: nat, child: nat, W: set<nat>, pages: map<nat, nat>,
                    bufPage: nat, buf: nat, vp: nat, f: nat)
    requires BufferOk(ram0, ram, parent, child, W, pages, bufPage, buf) && f != buf
    requires forall g :: IsTable(ram', child, g) <==> IsTable(ram, child, g)
    ensures BufferOk(ram0, ram', parent, child, W, pages[vp := f], bufPage, buf)
  {
    hide Walk, IsTable;
  }

  /** The free frames are no tables of the child. */
  lemma FreeNoTables(ram0: Ram, ram: Ram, parent: nat, child: nat, W: set<nat>, pool: seq<bool>, base: nat)
    requires ChildSpace(ram0, ram, parent, child, W) && FreeOk(ram0, parent, W, pool, base)
    ensures SpaceOk(ram, child)
    ensures forall i :: 0 <= i < |pool| && !pool[i] ==> !IsTable(ram, child, base + i)
  {
    hide IsTable, SpaceOk, Parents;
    assert SpaceOk(ram, child) by { ChildSpaceOk(ram0, ram, parent, child, W); }
    hide ChildSpace;
    forall i | 0 <= i < |pool| && !pool[i] ensures !IsTable(ram, child, base + i) {
      FreshIsNoTable(ram0, ram, parent, child, W, base + i);
    }
  }

  lemma ChildSpaceOk(ram0: Ram, ram: Ram, parent: nat, child: nat, W: set<nat>)
    requires ChildSpace(ram0, ram, parent, child, W)
    ensures SpaceOk(ram, child)
  {
  }

  /** The table that holds the new entry is the child's own, or fresh from the kernel's pool. */
  lemma TableKinds(ram0: Ram, ram: Ram, ram': Ram, parent: nat, child: nat, W: set<nat>, vp: nat, f: nat,
                   kpool: seq<bool>, kpool': seq<bool>, kbase: nat)
    requires ChildSpace(ram0, ram, parent, child, W) && FreeOk(ram0, parent, W, kpool, kbase)
    requires vp < USER_PAGES && NewTable(ram, kpool, ram', kpool', child, kbase, vp) && Mapped(ram, ram', child, vp, f)
    requires f !in W && f >= kbase + |kpool|
    ensures var t := FrameOf(Pde(ram', child, DirOf(vp)));
            && t != f && (t in W || !Parents(ram0, parent, t))
            && (t in W ==> Present(Pde(ram, child, DirOf(vp))))
            && (t in W || t < kbase + |kpool|)
            && |kpool'| == |kpool| && FreeOk(ram0, parent, W + {f, t}, kpool', kbase)
  {
    hide Parents, SpaceOk, Walk;
    assert DirOf(vp) < USER_DIRS;
    var t := FrameOf(Pde(ram', child, DirOf(vp)));
    if !Present(Pde(ram, child, DirOf(vp))) {
      assert kbase + (t - kbase) == t;
    }
  }

  /** The users' free frames after one was taken. */
  lemma UserFrames(ram0: Ram, parent: nat, W: set<nat>, upool: seq<bool>, ubase: nat, f: nat, t: nat)
    requires FreeOk(ram0, parent, W, upool, ubase) && ubase <= f < ubase + |upool| && !upool[f - ubase]
    requires t in W || t < ubase
    ensures FreeOk(ram0, parent, W + {f, t}, upool[f - ubase := true], ubase)
  {
    hide Parents;
  }

  /** Frame f was free and is taken. */
  predicate TookUser(upool: seq<bool>, upool': seq<bool>, ubase: nat, f: nat) {
    ubase <= f < ubase + |upool| && !upool[f - ubase] && upool' == upool[f - ubase := true]
  }

  lemma FreshUser(ram0: Ram, parent: nat, W: set<nat>, upool: seq<bool>, ubase: nat, f: nat)
    requires FreeOk(ram0, parent, W, upool, ubase) && ubase <= f < ubase + |upool| && !upool[f - ubase]
    ensures f !in W && !Parents(ram0, parent, f)
  {
    hide Parents;
    assert ubase + (f - ubase) == f;
  }

  lemma NotYetMapped(ram0: Ram, ram: Ram, parent: nat, child: nat, W: set<nat>, pages: map<nat, nat>, vp: nat)
    requires Copied(ram0, ram, parent, child, W, pages) && vp < USER_PAGES && vp !in pages
    ensures Walk(ram, child, vp) == Fault
  {
    hide Walk;
  }

  /** get_a_page_without_opvaddrbitmap in the child's space: take a frame and map it at vp. */
  method MapChild(m: Machine, ghost parent: nat, vp: nat, ghost ram0: Ram, ghost W: set<nat>,
                  ghost pages: map<nat, nat>, ghost bufPage: nat, ghost buf: nat)
    returns (ok: bool, f: nat)
    requires ForkInv(ram0, m.ram, parent, m.dir, W, pages, bufPage, buf, m.kpool, m.kbase, m.upool, m.ubase)
    requires vp < USER_PAGES && vp !in pages
    modifies m`ram, m`kpool, m`upool
    ensures ok ==>
              var W' := Grown(m.ram, m.dir, W, vp, f);
              && FreeOk(ram0, parent, W', m.kpool, m.kbase) && FreeOk(ram0, parent, W', m.upool, m.ubase)
              && |m.kpool| == |old(m.kpool)| && TookUser(old(m.upool), m.upool, m.ubase, f)
              && MappedPost(ram0, old(m.ram), m.ram, parent, m.dir, W, pages, bufPage, buf, vp, f)
    ensures ok <==> FreeCount(old(m.upool)) > 0
                    && (HasTable(old(m.ram), m.dir, DirOf(vp)) || FreeCount(old(m.kpool)) > 0)
    ensures ok ==> TookFrames(old(m.ram), m.ram, m.dir, vp, old(m.upool), m.upool, old(m.kpool), m.kpool)
  {
    hide Confined, ChildSpace, Copied, BufferOk, FreeOk, Walk, IsTable, SpaceOk, FreeCount, Parents, At, Pde,
         NewTable, Mapped, MappedPost;
    assert DirOf(vp) < USER_DIRS;
    ghost var upool0, kpool0, ram1 := m.upool, m.kpool, m.ram;
    var halted;
    f, halted := m.PallocUser();
    if halted { return false, f; }
    FreeNoTables(ram0, m.ram, parent, m.dir, W, m.kpool, m.kbase);
    FreshUser(ram0, parent, W, upool0, m.ubase, f);
    NotYetMapped(ram0, m.ram, parent, m.dir, W, pages, vp);
    ok := m.PageTableAdd(vp, f);
    if !ok { return; }
    TableKinds(ram0, ram1, m.ram, parent, m.dir, W, vp, f, kpool0, m.kpool, m.kbase);
    UserFrames(ram0, parent, W, upool0, m.ubase, f, FrameOf(Pde(m.ram, m.dir, DirOf(vp))));
    PageMapped(ram0, ram1, m.ram, parent, m.dir, W, pages, bufPage, buf, vp, f);
    FramesCounted(ram1, m.ram, m.dir, vp, f, upool0, m.upool, m.ubase, kpool0, m.kpool, m.kbase);
  }

  /** A frame was taken from the users' pool, and one from the kernel's if the slot had no table. */
  ghost predicate TookFrames(ram: Ram, ram': Ram, child: nat, vp: nat, upool: seq<bool>, upool': seq<bool>,
                             kpool: seq<bool>, kpool': seq<bool>) {
    && FreeCount(upool) == FreeCount(upool') + 1
    && FreeCount(kpool) == FreeCount(kpool') + (if HasTable(ram, child, DirOf(vp)) then 0 else 1)
    && forall d :: 0 <= d < USER_DIRS ==> (HasTable(ram', child, d) <==> HasTable(ram, child, d) || d == DirOf(vp))
  }

  lemma FramesCounted(ram: Ram, ram': Ram, child: nat, vp: nat, f: nat, upool: seq<bool>, upool': seq<bool>, ubase: nat,
                      kpool: seq<bool>, kpool': seq<bool>, kbase: nat)
    requires vp < USER_PAGES && Mapped(ram, ram', child, vp, f) && NewTable(ram, kpool, ram', kpool', child, kbase, vp)
    requires TookUser(upool, upool', ubase, f)
    ensures TookFrames(ram, ram', child, vp, upool, upool', kpool, kpool')
  {
    hide Walk, SpaceOk, FreeCount;
    FreeCountSet(upool, f - ubase);
    if !HasTable(ram, child, DirOf(vp)) {
      FreeCountSet(kpool, FrameOf(Pde(ram', child, DirOf(vp))) - kbase);
    }
  }

  /** What the two copies of a turn read. */
  lemma PagesThere(ram0: Ram, ram: Ram, parent: nat, child: nat, W: set<nat>, pages: map<nat, nat>,
                   bufPage: nat, buf: nat, vp: nat)
    requires Confined(ram0, ram, parent, W) && ChildSpace(ram0, ram, parent, child, W)
    requires BufferOk(ram0, ram, parent, child, W, pages, bufPage, buf)
    requires vp < USER_PAGES && Walk(ram0, parent, vp).To?
    ensures bufPage < PAGES && Walk(ram, parent, bufPage) == To(buf) && Walk(ram, child, bufPage) == To(buf)
    ensures Walk(ram, parent, vp) == Walk(ram0, parent, vp)
    ensures At(ram, Walk(ram0, parent, vp).frame) == At(ram0, Walk(ram0, parent, vp).frame)
  {
    ParentKept(ram0, ram, parent, W);
    KernelShared(ram0, ram, parent, child, W, bufPage);
    hide Confined, ChildSpace, Walk, IsTable;
  }

  /** The body of the loops: one page, from the parent to the child. */
  method CopyPage(m: Machine, child: nat, bufPage: nat, vp: nat, ghost ram0: Ram, ghost W: set<nat>,
                  ghost pages: map<nat, nat>, ghost buf: nat)
    returns (ok: bool, ghost W': set<nat>, ghost f: nat)
    requires ForkInv(ram0, m.ram, m.dir, child, W, pages, bufPage, buf, m.kpool, m.kbase, m.upool, m.ubase)
    requires vp < USER_PAGES && vp !in pages && Walk(ram0, m.dir, vp).To?
    modifies m
    ensures m.dir == old(m.dir)
    ensures ok ==> ForkInv(ram0, m.ram, m.dir, child, W', pages[vp := f], bufPage, buf, m.kpool, m.kbase, m.upool,
                           m.ubase)
    ensures ok ==> TookUser(old(m.upool), m.upool, m.ubase, f)
    ensures ok <==> FreeCount(old(m.upool)) > 0
                    && (HasTable(old(m.ram), child, DirOf(vp)) || FreeCount(old(m.kpool)) > 0)
    ensures ok ==> TookFrames(old(m.ram), m.ram, child, vp, old(m.upool), m.upool, old(m.kpool), m.kpool)
  {
    hide HasTable, Confined, ChildSpace, Copied, BufferOk, FreeOk, Walk, IsTable, SpaceOk, FreeCount, Mapped, Parents,
         At, Pde, Grown;
    var parent := m.dir;
    W', f := W, 0;
    PagesThere(ram0, m.ram, parent, child, W, pages, bufPage, buf, vp);
    BufferWritten(ram0, m.ram, parent, child, W, pages, bufPage, buf, At(m.ram, Walk(m.ram, parent, vp).frame));
    var fault := CopyWords(m, bufPage, vp);
    ghost var ram1 := m.ram;
    BufferHas(old(m.ram), buf, At(old(m.ram), Walk(old(m.ram), parent, vp).frame));
    m.dir := child;
    var frame;
    ok, frame := MapChild(m, parent, vp, ram0, W, pages, bufPage, buf);
    if ok {
      f := frame;
      ghost var ram2 := m.ram;
      W' := Grown(ram2, child, W, vp, f);
      assert Walk(ram2, child, bufPage) == To(buf) by {
        BufferPage(ram0, ram2, parent, child, W', pages, bufPage, buf);
        KernelShared(ram0, ram2, parent, child, W', bufPage);
      }
      BufferPage(ram0, ram2, parent, child, W', pages, bufPage, buf);
      PageFilled(ram0, ram1, ram2, parent, child, W, pages, bufPage, buf, vp, f);
      fault := CopyWords(m, vp, bufPage);
    }
    m.dir := parent;
  }

  lemma BufferHas(ram: Ram, buf: nat, words: seq<nat>)
    requires |words| == 1024
    ensures At(ram[buf := words], buf) == words
  {
  }

  lemma BufferPage(ram0: Ram, ram: Ram, parent: nat, child: nat, W: set<nat>, pages: map<nat, nat>, bufPage: nat,
                   buf: nat)
    requires BufferOk(ram0, ram, parent, child, W, pages, bufPage, buf)
    ensures USER_PAGES <= bufPage < PAGES - 1024 && Walk(ram0, parent, bufPage) == To(buf)
  {
  }

  /** memcpy of a whole page to another under the active directory. */
  method CopyWords(m: Machine, dst: nat, src: nat) returns (fault: bool)
    requires dst < PAGES && src < PAGES
    modifies m`ram
    ensures fault <==> Walk(old(m.ram), m.dir, dst) == Fault || Walk(old(m.ram), m.dir, src) == Fault
    ensures fault ==> m.ram == old(m.ram)
    ensures !fault ==>
              m.ram == old(m.ram)[Walk(old(m.ram), m.dir, dst).frame :=
                                    At(old(m.ram), Walk(old(m.ram), m.dir, src).frame)]
  {
    var d, s := Walk(m.ram, m.dir, dst), Walk(m.ram, m.dir, src);
    if d == Fault || s == Fault { return true; }
    m.ram := m.ram[d.frame := At(m.ram, s.frame)];
    return false;
  }

  // ----- the loops -----

  predicate BitAt(bytes: seq<Byte>, i: nat) {
    i < 8 * |bytes| && Bit(bytes[i / 8], i % 8)
  }

  /** The pages copied are those marked among the first n bits. */
  ghost predicate MarkedPages(bytes: seq<Byte>, start: nat, n: nat, pages: map<nat, nat>) {
    forall q :: q in pages <==> start <= q < start + n && BitAt(bytes, q - start)
  }

  /** The frames taken were free at the beginning. */
  ghost predicate WereFree(upool0: seq<bool>, upool: seq<bool>, ubase: nat, pages: map<nat, nat>) {
    && |upool| == |upool0| && (forall i :: 0 <= i < |upool| && upool0[i] ==> upool[i])
    && forall q :: q in pages ==> ubase <= pages[q] < ubase + |upool0| && !upool0[pages[q] - ubase]
  }

  /** What a successful copy yields: the child's user pages are exactly the marked ones, each with the parent's
      words in a frame of its own that was free. */
  lemma CopiedPages(ram0: Ram, ram: Ram, parent: nat, child: nat, W: set<nat>, pages: map<nat, nat>,
                    upool0: seq<bool>, upool: seq<bool>, ubase: nat, bytes: seq<Byte>, start: nat)
    requires Copied(ram0, ram, parent, child, W, pages) && WereFree(upool0, upool, ubase, pages)
    requires MarkedPages(bytes, start, 8 * |bytes|, pages)
    ensures forall q :: 0 <= q < USER_PAGES ==> Walk(ram, child, q) == if q in pages then To(pages[q]) else Fault
    ensures forall q :: q in pages <==> start <= q < start + 8 * |bytes| && BitAt(bytes, q - start)
    ensures forall q :: q in pages ==>
              && ubase <= pages[q] < ubase + |upool0| && !upool0[pages[q] - ubase]
              && Walk(ram0, parent, q).To? && At(ram, pages[q]) == At(ram0, Walk(ram0, parent, q).frame)
    ensures forall q, r :: q in pages && r in pages && q != r ==> pages[q] != pages[r]
  {
    hide Walk, At, BitAt;
  }

  /** Before the loops: the child has the kernel's half and nothing else, and the buffer is a kernel page. */
  ghost predicate ForkReady(ram: Ram, parent: nat, child: nat, bufPage: nat, buf: nat,
                            kpool: seq<bool>, kbase: nat, upool: seq<bool>, ubase: nat) {
    ForkInv(ram, ram, parent, child, {child, buf}, map[], bufPage, buf, kpool, kbase, upool, ubase)
  }

  /** A directory fresh from create_page_dir and a kernel page for copying make the child ready. */
  lemma ReadyAfterCreate(ram: Ram, parent: nat, child: nat, bufPage: nat, buf: nat,
                         kpool: seq<bool>, kbase: nat, upool: seq<bool>, ubase: nat)
    requires SpaceOk(ram, parent) && !Parents(ram, parent, child) && !Parents(ram, parent, buf) && child != buf
    requires At(ram, child) == NewDirectory(ram, parent, child)
    requires USER_PAGES <= bufPage < PAGES - 1024 && Walk(ram, parent, bufPage) == To(buf)
    requires FreeOk(ram, parent, {child, buf}, kpool, kbase) && FreeOk(ram, parent, {child, buf}, upool, ubase)
    requires kbase + |kpool| <= ubase
    ensures ForkReady(ram, parent, child, bufPage, buf, kpool, kbase, upool, ubase)
  {
    NewEntries(ram, ram, parent, child);
    hide NewDirectory, At;
    assert ChildSpace(ram, ram, parent, child, {child, buf});
    forall q | 0 <= q < USER_PAGES ensures Walk(ram, child, q) == Fault {
      assert DirOf(q) < USER_DIRS;
    }
    hide Walk;
    ChildTables(ram, ram, parent, child, {child}, buf);
  }

  /** The pages the bitmap marks are there. */
  ghost predicate AllThere(ram: Ram, parent: nat, bytes: seq<Byte>, start: nat)
    requires start + 8 * |bytes| <= USER_PAGES
  {
    forall i: nat :: BitAt(bytes, i) ==> Walk(ram, parent, start + i).To?
  }

  lemma NoneMarked(bytes: seq<Byte>, start: nat, upool: seq<bool>, ubase: nat)
    ensures MarkedPages(bytes, start, 0, map[]) && WereFree(upool, upool, ubase, map[])
  {
  }

  lemma BitHere(bytes: seq<Byte>, i: nat, k: nat)
    requires i < |bytes| && k < 8
    ensures BitAt(bytes, 8 * i + k) <==> Bit(bytes[i], k)
  {
    hide Bit;
    assert (8 * i + k) / 8 == i && (8 * i + k) % 8 == k;
  }

  lemma NotMarked(bytes: seq<Byte>, start: nat, n: nat, pages: map<nat, nat>)
    requires MarkedPages(bytes, start, n, pages)
    ensures start + n !in pages
  {
    hide BitAt;
  }

  lemma ThereAt(ram: Ram, parent: nat, bytes: seq<Byte>, start: nat, i: nat)
    requires start + 8 * |bytes| <= USER_PAGES && AllThere(ram, parent, bytes, start) && BitAt(bytes, i)
    ensures start + i < USER_PAGES && Walk(ram, parent, start + i).To?
  {
    hide Walk;
  }

  lemma MarkedMore(bytes: seq<Byte>, start: nat, n: nat, before: map<nat, nat>, pages: map<nat, nat>, f: nat)
    requires MarkedPages(bytes, start, n, before)
    requires pages == if BitAt(bytes, n) then before[start + n := f] else before
    ensures MarkedPages(bytes, start, n + 1, pages)
  {
    hide BitAt;
    assert start + n - start == n;
  }

  /** A zero byte marks no page. */
  lemma MarkedByte(bytes: seq<Byte>, start: nat, i: nat, pages: map<nat, nat>)
    requires i < |bytes| && bytes[i] == 0 && MarkedPages(bytes, start, 8 * i, pages)
    ensures MarkedPages(bytes, start, 8 * (i + 1), pages)
  {
    forall k | 8 * i <= k < 8 * i + 8 ensures !BitAt(bytes, k) {
      BitHere(bytes, i, k - 8 * i);
      ZeroByte(k - 8 * i);
    }
    hide BitAt;
  }

  lemma OneMoreFree(upool0: seq<bool>, upool: seq<bool>, upool': seq<bool>, ubase: nat, pages: map<nat, nat>, vp: nat,
                    f: nat)
    requires WereFree(upool0, upool, ubase, pages) && TookUser(upool, upool', ubase, f)
    ensures WereFree(upool0, upool', ubase, pages[vp := f])
  {
  }

  lemma InvParts(ram0: Ram, ram: Ram, parent: nat, child: nat, W: set<nat>, pages: map<nat, nat>,
                 bufPage: nat, buf: nat, kpool: seq<bool>, kbase: nat, upool: seq<bool>, ubase: nat)
    requires ForkInv(ram0, ram, parent, child, W, pages, bufPage, buf, kpool, kbase, upool, ubase)
    ensures Confined(ram0, ram, parent, W) && Copied(ram0, ram, parent, child, W, pages)
  {
    hide Confined, Copied, ChildSpace, BufferOk, FreeOk;
  }

  predicate IsMarked(bytes: seq<Byte>, start: nat, q: nat) {
    start <= q && BitAt(bytes, q - start)
  }

  /** All pages the bitmap marks. */
  ghost function AllMarked(bytes: seq<Byte>, start: nat): set<nat> {
    set q: nat | q < start + 8 * |bytes| && IsMarked(bytes, start, q)
  }

  /** The directory slots of these pages. */
  ghost function Dirs(pages: set<nat>): set<nat> {
    set q | q in pages :: DirOf(q)
  }

  /** What was taken from the pools so far: a frame for each page, and one for each slot with a table. */
  ghost predicate TakenSoFar(ram: Ram, child: nat, pages: set<nat>, upool0: seq<bool>, upool: seq<bool>,
                             kpool0: seq<bool>, kpool: seq<bool>) {
    && FreeCount(upool0) == FreeCount(upool) + |pages| && FreeCount(kpool0) == FreeCount(kpool) + |Dirs(pages)|
    && forall d :: 0 <= d < USER_DIRS ==> (HasTable(ram, child, d) <==> d in Dirs(pages))
  }

  lemma NothingTaken(ram: Ram, parent: nat, child: nat, bufPage: nat, buf: nat, upool: seq<bool>, kpool: seq<bool>,
                     kbase: nat, ubase: nat)
    requires ForkReady(ram, parent, child, bufPage, buf, kpool, kbase, upool, ubase)
    ensures TakenSoFar(ram, child, {}, upool, upool, kpool, kpool)
  {
    hide Walk, FreeCount, Confined, Copied, FreeOk;
    forall d | 0 <= d < USER_DIRS ensures !HasTable(ram, child, d) {
      SlotTable(ram, child, d);
    }
  }

  lemma AddSize(a: set<nat>, x: nat)
    ensures |a + {x}| == |a| + if x in a then 0 else 1
  {
    if x in a { assert a + {x} == a; }
  }

  lemma SlotTable(ram: Ram, child: nat, d: nat)
    ensures HasTable(ram, child, d) ==> IsTable(ram, child, FrameOf(Pde(ram, child, d)))
  {
  }

  lemma TakenMore(ram: Ram, ram': Ram, child: nat, pages: set<nat>, vp: nat, upool0: seq<bool>, upool: seq<bool>,
                  upool': seq<bool>, kpool0: seq<bool>, kpool: seq<bool>, kpool': seq<bool>)
    requires TakenSoFar(ram, child, pages, upool0, upool, kpool0, kpool) && vp !in pages && vp < USER_PAGES
    requires TookFrames(ram, ram', child, vp, upool, upool', kpool, kpool')
    ensures TakenSoFar(ram', child, pages + {vp}, upool0, upool', kpool0, kpool')
  {
    hide FreeCount, HasTable;
    var d := DirOf(vp);
    assert d < USER_DIRS && (HasTable(ram, child, d) <==> d in Dirs(pages));
    assert Dirs(pages + {vp}) == Dirs(pages) + {d};
    AddSize(pages, vp);
    AddSize(Dirs(pages), d);
    hide Dirs, DirOf;
  }

  /** When a page finds no frame, the pools were too small for all marked pages. */
  lemma TooFew(ram: Ram, child: nat, pages: set<nat>, all: set<nat>, vp: nat, upool0: seq<bool>, upool: seq<bool>,
               kpool0: seq<bool>, kpool: seq<bool>)
    requires TakenSoFar(ram, child, pages, upool0, upool, kpool0, kpool)
    requires pages <= all && vp in all && vp !in pages && vp < USER_PAGES
    requires FreeCount(upool) == 0 || (!HasTable(ram, child, DirOf(vp)) && FreeCount(kpool) == 0)
    ensures |all| > FreeCount(upool0) || |Dirs(all)| > FreeCount(kpool0)
  {
    hide FreeCount, HasTable;
    SubsetSmaller(pages + {vp}, all);
    assert DirOf(vp) < USER_DIRS;
    assert Dirs(pages) + {DirOf(vp)} <= Dirs(all);
    SubsetSmaller(Dirs(pages) + {DirOf(vp)}, Dirs(all));
  }

  lemma Enough(ram: Ram, child: nat, pages: set<nat>, upool0: seq<bool>, upool: seq<bool>, kpool0: seq<bool>,
               kpool: seq<bool>)
    requires TakenSoFar(ram, child, pages, upool0, upool, kpool0, kpool)
    ensures |pages| <= FreeCount(upool0) && |Dirs(pages)| <= FreeCount(kpool0)
  {
    hide FreeCount, HasTable;
  }

  lemma SubsetSmaller(a: set<nat>, b: set<nat>)
    requires a <= b
    ensures |a| <= |b|
  {
    assert |b| == |a| + |b - a|;
  }

  lemma MarkedAreAll(bytes: seq<Byte>, start: nat, n: nat, pages: map<nat, nat>)
    requires MarkedPages(bytes, start, n, pages) && n <= 8 * |bytes|
    ensures pages.Keys <= AllMarked(bytes, start)
    ensures n == 8 * |bytes| ==> pages.Keys == AllMarked(bytes, start)
  {
    hide BitAt;
    forall q: nat ensures q in pages <==> q < start + n && IsMarked(bytes, start, q) {
    }
  }

  lemma MarkedIn(bytes: seq<Byte>, start: nat, i: nat)
    requires BitAt(bytes, i)
    ensures start + i in AllMarked(bytes, start)
  {
    hide Bit;
    assert start + i - start == i;
  }

  /** copy_body_stack3. If the frames suffice, the child has exactly the pages the bitmap marks, each in a
      frame of its own that was free, with the parent's words; the parent's mapping and pages are as before,
      and the parent's directory is active again. */
  method CopyBodyStack3(m: Machine, child: nat, bufPage: nat, bytes: seq<Byte>, start: nat, ghost buf: nat)
    returns (ok: bool, ghost W: set<nat>, ghost pages: map<nat, nat>)
    requires ForkReady(m.ram, m.dir, child, bufPage, buf, m.kpool, m.kbase, m.upool, m.ubase)
    requires start + 8 * |bytes| <= USER_PAGES && AllThere(m.ram, m.dir, bytes, start)
    modifies m
    ensures m.dir == old(m.dir)
    ensures ok <==>
              && |AllMarked(bytes, start)| <= FreeCount(old(m.upool))
              && |Dirs(AllMarked(bytes, start))| <= FreeCount(old(m.kpool))
    ensures ok ==> MarkedPages(bytes, start, 8 * |bytes|, pages)
    ensures ok ==> Copied(old(m.ram), m.ram, m.dir, child, W, pages) && WereFree(old(m.upool), m.upool, m.ubase, pages)
    ensures ok ==> Confined(old(m.ram), m.ram, m.dir, W)
    ensures ok ==> forall q :: 0 <= q < PAGES - 1024 ==> Walk(m.ram, m.dir, q) == Walk(old(m.ram), m.dir, q)
    ensures ok ==> forall q :: 0 <= q < USER_PAGES && Walk(old(m.ram), m.dir, q).To? ==>
              At(m.ram, Walk(old(m.ram), m.dir, q).frame) == At(old(m.ram), Walk(old(m.ram), m.dir, q).frame)
  {
    hide Confined, ChildSpace, Copied, BufferOk, FreeOk, Walk, At, FreeCount, Bit, BitAt, MarkedPages, WereFree,
         AllThere, ForkInv;
    hide TakenSoFar, TookFrames, HasTable, Dirs, AllMarked;
    ghost var ram0 := m.ram;
    W, pages := {child, buf}, map[];
    var idxByte := 0;
    NoneMarked(bytes, start, m.upool, m.ubase);
    NothingTaken(ram0, m.dir, child, bufPage, buf, m.upool, m.kpool, m.kbase, m.ubase);
    ghost var upool0, kpool0 := m.upool, m.kpool;
    assert pages.Keys == {};
    while idxByte < |bytes|
      invariant idxByte <= |bytes| && m.dir == old(m.dir)
      invariant ForkInv(ram0, m.ram, m.dir, child, W, pages, bufPage, buf, m.kpool, m.kbase, m.upool, m.ubase)
      invariant MarkedPages(bytes, start, 8 * idxByte, pages) && WereFree(upool0, m.upool, m.ubase, pages)
      invariant TakenSoFar(m.ram, child, pages.Keys, upool0, m.upool, kpool0, m.kpool)
    {
      if bytes[idxByte] != 0 {
        var idxBit := 0;
        while idxBit < 8
          invariant idxBit <= 8 && m.dir == old(m.dir)
          invariant ForkInv(ram0, m.ram, m.dir, child, W, pages, bufPage, buf, m.kpool, m.kbase, m.upool, m.ubase)
          invariant MarkedPages(bytes, start, 8 * idxByte + idxBit, pages) && WereFree(upool0, m.upool, m.ubase, pages)
          invariant TakenSoFar(m.ram, child, pages.Keys, upool0, m.upool, kpool0, m.kpool)
        {
          BitHere(bytes, idxByte, idxBit);
          ghost var before := pages;
          ghost var f := 0;
          if Bit(bytes[idxByte], idxBit) {
            var vp := idxByte * 8 + idxBit + start;
            NotMarked(bytes, start, 8 * idxByte + idxBit, pages);
            ThereAt(ram0, m.dir, bytes, start, 8 * idxByte + idxBit);
            MarkedIn(bytes, start, 8 * idxByte + idxBit);
            MarkedAreAll(bytes, start, 8 * idxByte + idxBit, pages);
            ghost var ram1, upool1, kpool1 := m.ram, m.upool, m.kpool;
            ok, W, f := CopyPage(m, child, bufPage, vp, ram0, W, pages, buf);
            if !ok {
              TooFew(ram1, child, pages.Keys, AllMarked(bytes, start), vp, upool0, upool1, kpool0, kpool1);
              return;
            }
            OneMoreFree(upool0, upool1, m.upool, m.ubase, pages, vp, f);
            TakenMore(ram1, m.ram, child, pages.Keys, vp, upool0, upool1, m.upool, kpool0, kpool1, m.kpool);
            pages := pages[vp := f];
            assert pages.Keys == before.Keys + {vp};
          }
          MarkedMore(bytes, start, 8 * idxByte + idxBit, before, pages, f);
          idxBit := idxBit + 1;
        }
      } else {
        MarkedByte(bytes, start, idxByte, pages);
      }
      idxByte := idxByte + 1;
    }
    InvParts(ram0, m.ram, m.dir, child, W, pages, bufPage, buf, m.kpool, m.kbase, m.upool, m.ubase);
    ParentKept(ram0, m.ram, m.dir, W);
    MarkedAreAll(bytes, start, 8 * |bytes|, pages);
    Enough(m.ram, child, pages.Keys, upool0, m.upool, kpool0, m.kpool);
    return true, W, pages;
  }
}
