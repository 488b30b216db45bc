/** What the allocation half of file_write (fs/file.c:264-389) achieves, and the bookkeeping behind it. */
module FileGrow {
  import opened Seqs
  import opened Bits
  import opened Disk
  import opened FileLayout

  /** How many sectors it takes to grow a file from n0 to n1 data blocks: one more for a new table. */
  function Needed(n0: nat, n1: nat): nat
    requires n0 <= n1
  {
    n1 - n0 + if n0 <= 12 < n1 then 1 else 0
  }

  /** Midway: data blocks bl and table tbl are in hand, `taken` of them newly allocated; nothing is
      written to the disk yet. */
  ghost predicate Growing(fs0: Fs, fs: Fs, ino: nat, taken: set<nat>) {
    && fs.dataStart == fs0.dataStart && fs.disk == fs0.disk
    && ino in fs0.inodes && ino in fs.inodes
    && fs.inodes == fs0.inodes[ino := fs.inodes[ino]]
    && fs.inodes[ino].size == fs0.inodes[ino].size
    && Took(fs0.used, fs.used, fs0.dataStart, taken)
  }

  ghost predicate Holding(fs: Fs, ino: nat, bl: seq<nat>, tbl: nat, owned0: set<nat>, taken: set<nat>) {
    && ino in fs.inodes && tbl < |fs.disk|
    && ListOk(fs, bl, tbl) && SectorsAre(fs.inodes[ino], bl, tbl)
    && OwnedBy(bl, tbl) == owned0 + taken
  }

  /** After: the first n1 slots are reserved, the first n0 of them as before; the other sectors now
      owned were free and are the only ones newly marked; no sector but the table changed. */
  ghost predicate Grown(fs0: Fs, fs1: Fs, ino: nat, n0: nat, n1: nat) {
    && n0 <= n1 && ino in fs0.inodes && ino in fs1.inodes
    && Reserved(fs0, fs0.inodes[ino], n0) && Reserved(fs1, fs1.inodes[ino], n1)
    && GrownBy(fs0, fs1, ino,
               AllBlocks(fs0.disk, fs0.inodes[ino])[..n0], AllBlocks(fs1.disk, fs1.inodes[ino])[..n1],
               fs0.inodes[ino].sectors[12], fs1.inodes[ino].sectors[12])
  }

  /** The same in terms of data blocks and table before (bl0, t0) and after (bl1, t1). */
  ghost predicate GrownBy(fs0: Fs, fs1: Fs, ino: nat, bl0: seq<nat>, bl1: seq<nat>, t0: nat, t1: nat) {
    && fs1.dataStart == fs0.dataStart
    && ino in fs0.inodes && ino in fs1.inodes
    && fs1.inodes == fs0.inodes[ino := fs1.inodes[ino]]
    && fs1.inodes[ino].size == fs0.inodes[ino].size
    && bl0 <= bl1
    && OwnedBy(bl0, t0) <= OwnedBy(bl1, t1)
    && Took(fs0.used, fs1.used, fs0.dataStart, OwnedBy(bl1, t1) - OwnedBy(bl0, t0))
    && SameOutside(fs0.disk, fs1.disk, OwnedBy(bl1, t1) - SetOf(bl1))
  }

  lemma TakeOne(fs0: Fs, fs: Fs, ino: nat, taken: set<nat>, bl: seq<nat>, tbl: nat, lba: nat)
    requires BitmapOk(fs0) && Growing(fs0, fs, ino, taken) && ListOk(fs, bl, tbl)
    requires fs.dataStart <= lba < fs.dataStart + |fs.used| && !fs.used[lba - fs.dataStart]
    ensures lba !in taken && lba !in bl && lba != tbl
    ensures fs.dataStart < lba < |fs.disk| && lba < MAX_WORD
    ensures var fs' := fs.(used := fs.used[lba - fs.dataStart := true]);
            && Growing(fs0, fs', ino, taken + {lba})
            && ListOk(fs', bl + [lba], tbl)
            && (tbl == 0 ==> ListOk(fs', bl, lba))
  {
    hide FreeCount;
    TookOneMore(fs0.used, fs.used, fs.dataStart, taken, lba);
    assert fs.used[0] && !fs0.used[lba - fs.dataStart];
    ListOkExtend(fs, fs.(used := fs.used[lba - fs.dataStart := true]), bl, tbl, lba);
  }

  lemma FullCount(fs0: Fs, fs: Fs, ino: nat, taken: set<nat>)
    requires Growing(fs0, fs, ino, taken)
    ensures FreeCount(fs.used) == 0 <==> FreeCount(fs0.used) == |taken|
  {
  }

  lemma TakenCount(fs0: Fs, fs: Fs, ino: nat, taken: set<nat>)
    requires Growing(fs0, fs, ino, taken)
    ensures |taken| <= FreeCount(fs0.used)
  {
  }

  /** Before anything is allocated. */
  lemma Begin(fs: Fs, ino: nat, has: nat)
    requires ino in fs.inodes && Reserved(fs, fs.inodes[ino], has)
    ensures var v := fs.inodes[ino];
            var bl := AllBlocks(fs.disk, v)[..has];
            && Growing(fs, fs, ino, {})
            && Holding(fs, ino, bl, v.sectors[12], OwnedBy(bl, v.sectors[12]), {})
  {
    hide AllBlocks, ListOk, Decode;
    Disassemble(fs, fs.inodes[ino], has);
    TookNothing(fs.used, fs.dataStart);
  }

  /** The same for a file without a table. */
  lemma BeginDirect(fs: Fs, ino: nat, has: nat)
    requires ino in fs.inodes && Reserved(fs, fs.inodes[ino], has) && 1 <= has <= 12
    ensures var v := fs.inodes[ino];
            && |v.sectors| == 13 && v.sectors[12] == 0 && 0 < |fs.disk|
            && var bl := AllBlocks(fs.disk, v)[..has];
            && bl[has - 1] == v.sectors[has - 1]
            && Growing(fs, fs, ino, {}) && Holding(fs, ino, bl, 0, OwnedBy(bl, 0), {})
  {
    hide ListOk, Decode;
    Begin(fs, ino, has);
  }

  /** Recording a newly taken block in the inode, or just counting it as held beyond the direct slots. */
  lemma HoldMore(fs: Fs, fs': Fs, ino: nat, bl: seq<nat>, tbl: nat, own0: set<nat>, taken: set<nat>, lba: nat)
    requires Holding(fs, ino, bl, tbl, own0, taken)
    requires fs' == fs.(used := fs'.used, inodes := fs'.inodes) && ListOk(fs', bl + [lba], tbl)
    requires ino in fs'.inodes
    requires if |bl| < 12 then fs'.inodes[ino].sectors == fs.inodes[ino].sectors[|bl| := lba]
             else fs'.inodes[ino].sectors == fs.inodes[ino].sectors
    ensures Holding(fs', ino, bl + [lba], tbl, own0, taken + {lba})
  {
    hide ListOk;
    var bl' := bl + [lba];
    assert forall b :: b in bl' <==> b in bl || b == lba;
    assert SetOf(bl') == SetOf(bl) + {lba};
  }

  /** What is held midway, put in the inode and the table, is the grown file. */
  lemma Finish(fs0: Fs, fs: Fs, fs1: Fs, ino: nat, n0: nat, bl: seq<nat>, tbl: nat, taken: set<nat>)
    requires ino in fs0.inodes && n0 <= |bl| <= 139 && 0 < |bl|
    requires Reserved(fs0, fs0.inodes[ino], n0) && Growing(fs0, fs, ino, taken)
    requires var v0 := fs0.inodes[ino];
             && AllBlocks(fs0.disk, v0)[..n0] == bl[..n0]
             && Holding(fs, ino, bl, tbl, OwnedBy(bl[..n0], v0.sectors[12]), taken)
    requires fs1 == fs.(disk := fs1.disk) && SameOutside(fs.disk, fs1.disk, if tbl == 0 then {} else {tbl})
    requires tbl != 0 <==> |bl| > 12
    requires tbl != 0 ==> TableIs(Decode(fs1.disk[tbl]), bl)
    ensures Grown(fs0, fs1, ino, n0, |bl|) && AllBlocks(fs1.disk, fs1.inodes[ino])[..|bl|] == bl
  {
    hide AllBlocks, Allocated, Decode, NoDup, FreeCount, TableIs;
    var v0 := fs0.inodes[ino];
    AllocatedSame(fs, fs1);
    assert ListOk(fs1, bl, tbl);
    Assemble(fs1, fs1.inodes[ino], bl, tbl);
    var own0, own1 := OwnedBy(bl[..n0], v0.sectors[12]), OwnedBy(bl, tbl);
    forall b | b in taken && b in own0 ensures false {
      OldIsUsed(fs0, v0, n0, b);
    }
    assert own1 - own0 == taken;
    assert tbl !in bl;
    assert tbl != 0 ==> tbl in own1 - SetOf(bl);
  }

  lemma AllocatedSame(fs: Fs, fs1: Fs)
    requires fs1 == fs.(disk := fs1.disk) && |fs1.disk| == |fs.disk|
    ensures forall b :: Allocated(fs1, b) == Allocated(fs, b)
  {
  }

  /** What a file owns is marked used. */
  lemma OldIsUsed(fs: Fs, v: Inode, n: nat, b: nat)
    requires Reserved(fs, v, n) && b in OwnedBy(AllBlocks(fs.disk, v)[..n], v.sectors[12])
    ensures fs.dataStart < b < fs.dataStart + |fs.used| && fs.used[b - fs.dataStart]
  {
    hide AllBlocks;
    var bl := AllBlocks(fs.disk, v)[..n];
    if b in bl {
      var i :| 0 <= i < |bl| && bl[i] == b;
    }
  }

  lemma SameListOk(fs: Fs, fs': Fs, bl: seq<nat>, tbl: nat)
    requires ListOk(fs, bl, tbl) && fs'.disk == fs.disk && fs'.used == fs.used && fs'.dataStart == fs.dataStart
    ensures ListOk(fs', bl, tbl)
  {
  }

  lemma TookNothing(used: seq<bool>, dataStart: nat)
    ensures Took(used, used, dataStart, {})
  {
  }

  /** The first block of a file never written to. */
  lemma FirstBlock(fs: Fs, fs1: Fs, ino: nat, lba: nat)
    requires BitmapOk(fs) && ino in fs.inodes && FileOk(fs, fs.inodes[ino]) && fs.inodes[ino].sectors[0] == 0
    requires fs.dataStart <= lba < fs.dataStart + |fs.used| && !fs.used[lba - fs.dataStart]
    requires fs1 == fs.(used := fs.used[lba - fs.dataStart := true],
                        inodes := fs.inodes[ino := Inode(0, fs.inodes[ino].sectors[0 := lba])])
    ensures lba != fs.dataStart
    ensures Grown(fs, fs1, ino, 0, 1) && FreeCount(fs.used) == FreeCount(fs1.used) + 1
  {
    hide Decode, FreeCount;
    var v, v1 := fs.inodes[ino], fs1.inodes[ino];
    var all := AllBlocks(fs.disk, v);
    assert forall i :: 0 <= i < 13 ==> v.sectors[i] == 0 by {
      assert forall i :: 0 <= i < 12 ==> all[i] == v.sectors[i];
    }
    TookNothing(fs.used, fs.dataStart);
    TookOneMore(fs.used, fs.used, fs.dataStart, {}, lba);
    Assemble(fs1, v1, [lba], 0);
    assert AllBlocks(fs1.disk, v1)[..1] == [lba];
    assert all[..0] == [];
    assert OwnedBy([lba], 0) - OwnedBy([], 0) == {} + {lba};
  }

  lemma TookBoth(u0: seq<bool>, u1: seq<bool>, u2: seq<bool>, dataStart: nat, s: set<nat>, t: set<nat>)
    requires Took(u0, u1, dataStart, s) && Took(u1, u2, dataStart, t)
    ensures Took(u0, u2, dataStart, s + t) && s !! t
  {
    assert forall b :: b in s && b in t ==> false;
    assert |s + t| == |s| + |t|;
  }

  lemma SetSteps(a: set<nat>, b: set<nat>, c: set<nat>)
    requires a <= b <= c
    ensures (b - a) + (c - b) == c - a
  {
  }

  lemma GrownByTrans(fs0: Fs, fs1: Fs, fs2: Fs, ino: nat, bl0: seq<nat>, bl1: seq<nat>, bl2: seq<nat>, t2: nat)
    requires GrownBy(fs0, fs1, ino, bl0, bl1, 0, 0) && GrownBy(fs1, fs2, ino, bl1, bl2, 0, t2)
    ensures GrownBy(fs0, fs2, ino, bl0, bl2, 0, t2)
  {
    hide Took, OwnedBy;
    var own0, own1, own2 := OwnedBy(bl0, 0), OwnedBy(bl1, 0), OwnedBy(bl2, t2);
    TookBoth(fs0.used, fs1.used, fs2.used, fs0.dataStart, own1 - own0, own2 - own1);
    SetSteps(own0, own1, own2);
    assert Took(fs0.used, fs2.used, fs0.dataStart, own2 - own0);
    NoTable(bl1);
    NothingWritten(fs0.disk, fs1.disk);
    MapTwice(fs0.inodes, fs1.inodes, fs2.inodes, ino);
  }

  lemma MapTwice(m0: map<nat, Inode>, m1: map<nat, Inode>, m2: map<nat, Inode>, k: nat)
    requires k in m1 && k in m2 && m1 == m0[k := m1[k]] && m2 == m1[k := m2[k]]
    ensures m2 == m0[k := m2[k]]
  {
  }

  lemma NothingWritten(d: seq<Sector>, d': seq<Sector>)
    requires SameOutside(d, d', {})
    ensures d' == d
  {
  }

  lemma GrownTrans(fs0: Fs, fs1: Fs, fs2: Fs, ino: nat, n0: nat, n1: nat, n2: nat)
    requires Grown(fs0, fs1, ino, n0, n1) && Grown(fs1, fs2, ino, n1, n2) && n1 <= 12
    ensures Grown(fs0, fs2, ino, n0, n2)
  {
    hide AllBlocks, GrownBy, SlotsOk, ListOk;
    GrownByTrans(fs0, fs1, fs2, ino, AllBlocks(fs0.disk, fs0.inodes[ino])[..n0],
                 AllBlocks(fs1.disk, fs1.inodes[ino])[..n1], AllBlocks(fs2.disk, fs2.inodes[ino])[..n2],
                 fs2.inodes[ino].sectors[12]);
  }

  lemma NoTable(bl: seq<nat>)
    ensures OwnedBy(bl, 0) - SetOf(bl) == {}
  {
  }

  lemma ReservedTable(fs: Fs, v: Inode, n: nat)
    requires Reserved(fs, v, n)
    ensures |v.sectors| == 13 && v.sectors[12] < |fs.disk| && n <= 139
    ensures v.sectors[12] != 0 <==> n > 12
  {
  }

  lemma TailIs(all: seq<nat>, lo: nat, bl: seq<nat>)
    requires lo <= 12 <= |bl| <= |all| && all[lo..|bl|] == bl[lo..]
    requires forall i :: |bl| <= i < |all| ==> all[i] == 0
    ensures forall i :: 12 <= i < |all| ==> all[i] == if i < |bl| then bl[i] else 0
  {
    forall i | 12 <= i < |bl| ensures all[i] == bl[i] {
      assert all[i] == all[lo..|bl|][i - lo];
    }
  }

  lemma TableTail(all: seq<nat>, bl: seq<nat>)
    requires |all| == 140 && 12 <= |bl| <= 140 && TableIs(all[12..], bl)
    ensures all[12..|bl|] == bl[12..] && forall i :: |bl| <= i < 140 ==> all[i] == 0
  {
    assert forall i :: 12 <= i < 140 ==> all[i] == all[12..][i - 12];
  }

  /** A write that stays within the last block reserves nothing. */
  lemma GrownRefl(fs: Fs, ino: nat, n: nat)
    requires ino in fs.inodes && Reserved(fs, fs.inodes[ino], n)
    ensures Grown(fs, fs, ino, n, n)
  {
    hide AllBlocks, ListOk;
    TookNothing(fs.used, fs.dataStart);
    var own := OwnedBy(AllBlocks(fs.disk, fs.inodes[ino])[..n], fs.inodes[ino].sectors[12]);
    assert own - own == {};
    assert fs.inodes == fs.inodes[ino := fs.inodes[ino]];
    assert n <= 140;
  }

  lemma SameDisk(fs: Fs)
    ensures fs == fs.(disk := fs.disk) && SameOutside(fs.disk, fs.disk, {})
  {
  }

  lemma ListPush(all: seq<nat>, lo: nat, idx: nat, bl: seq<nat>, lba: nat)
    requires lo <= idx == |bl| && idx < |all| && all[lo..idx] == bl[lo..]
    ensures all[idx := lba][lo..idx + 1] == (bl + [lba])[lo..]
    ensures forall k :: 0 <= k <= idx ==> (bl + [lba])[..k] == bl[..k]
  {
    assert all[idx := lba][lo..idx + 1] == all[lo..idx] + [lba];
  }
}
