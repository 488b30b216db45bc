/** What a successful file_write, a release and a creation do to the partition as a whole. */
module FileWritePost {
  import opened Seqs
  import opened Bits
  import opened Disk
  import opened FileLayout
  import opened FileGrow

  /** A write appends buf to file ino. Every other file keeps its bytes and its sectors; the sectors
      gained were free, and they only are newly marked; no sector the file does not own is touched. */
  ghost predicate WritePost(fs0: Fs, fs1: Fs, ino: nat, buf: seq<byte>) {
    && FsInv(fs0) && FsInv(fs1) && ino in fs0.inodes && ino in fs1.inodes
    && fs1.dataStart == fs0.dataStart
    && fs1.inodes == fs0.inodes[ino := fs1.inodes[ino]]
    && Contents(fs1, fs1.inodes[ino]) == Contents(fs0, fs0.inodes[ino]) + buf
    && (forall m :: m in fs0.inodes && m != ino ==> Untouched(fs0, fs1, fs0.inodes[m]))
    && Owned(fs0.disk, fs0.inodes[ino]) <= Owned(fs1.disk, fs1.inodes[ino])
    && Took(fs0.used, fs1.used, fs0.dataStart, Owned(fs1.disk, fs1.inodes[ino]) - Owned(fs0.disk, fs0.inodes[ino]))
    && SameOutside(fs0.disk, fs1.disk, Owned(fs1.disk, fs1.inodes[ino]))
  }

  ghost predicate Untouched(fs0: Fs, fs1: Fs, v: Inode) {
    && FileOk(fs0, v) && FileOk(fs1, v)
    && Contents(fs1, v) == Contents(fs0, v) && Owned(fs1.disk, v) == Owned(fs0.disk, v)
  }

  /** Growth alone does not change the bytes. */
  lemma BytesGrow(d: seq<Sector>, d': seq<Sector>, bl: seq<nat>, bl': seq<nat>, size: nat)
    requires bl <= bl' && size <= 512 * |bl| && |d'| == |d|
    requires forall i :: 0 <= i < |bl| ==> bl[i] < |d| && d'[bl[i]] == d[bl[i]]
    requires forall i :: 0 <= i < |bl'| ==> bl'[i] < |d|
    ensures BytesOf(d', bl', size) == BytesOf(d, bl, size)
  {
  }

  lemma ListRange(fs: Fs, bl: seq<nat>, tbl: nat)
    requires ListOk(fs, bl, tbl)
    ensures forall i :: 0 <= i < |bl| ==> bl[i] < |fs.disk|
  {
  }

  /** The state after the chunk loop, seen from the state after the allocation. */
  ghost predicate Filled(fs1: Fs, fs2: Fs, ino: nat, bl: seq<nat>, buf: seq<byte>) {
    && ino in fs1.inodes && fs2 == fs1.(disk := fs2.disk, inodes := fs2.inodes)
    && fs2.inodes == fs1.inodes[ino := Inode(fs1.inodes[ino].size + |buf|, fs1.inodes[ino].sectors)]
    && SameOutside(fs1.disk, fs2.disk, SetOf(bl))
    && fs1.inodes[ino].size <= 512 * |bl| && fs2.inodes[ino].size <= 512 * |bl|
    && (forall i :: 0 <= i < |bl| ==> bl[i] < |fs1.disk|)
    && BytesOf(fs2.disk, bl, fs2.inodes[ino].size) == BytesOf(fs1.disk, bl, fs1.inodes[ino].size) + buf
  }

  lemma FilledFileOk(fs1: Fs, fs2: Fs, ino: nat, bl: seq<nat>, buf: seq<byte>)
    requires Filled(fs1, fs2, ino, bl, buf)
    requires Reserved(fs1, fs1.inodes[ino], |bl|) && bl == AllBlocks(fs1.disk, fs1.inodes[ino])[..|bl|]
    requires |bl| == fs2.inodes[ino].size / 512 + 1
    ensures FileOk(fs2, fs2.inodes[ino]) && Blocks(fs2.disk, fs2.inodes[ino]) == bl
    ensures Contents(fs2, fs2.inodes[ino]) == BytesOf(fs1.disk, bl, fs1.inodes[ino].size) + buf
  {
    hide Decode, BytesOf;
    var v1, v2 := fs1.inodes[ino], fs2.inodes[ino];
    SlotsFrame(fs1.disk, fs2.disk, v1);
    assert AllBlocks(fs2.disk, v2) == AllBlocks(fs1.disk, v1);
    assert v2.sectors[0] == AllBlocks(fs1.disk, v1)[0];
    assert ListOk(fs2, bl, v2.sectors[12]);
  }

  lemma OldBytes(fs0: Fs, fs1: Fs, ino: nat, n0: nat, n1: nat)
    requires Grown(fs0, fs1, ino, n0, n1) && FileOk(fs0, fs0.inodes[ino]) && n0 == BlockCount(fs0.inodes[ino])
    requires fs0.inodes[ino].size <= 512 * n1
    ensures var bl1 := AllBlocks(fs1.disk, fs1.inodes[ino])[..n1];
            && (forall i :: 0 <= i < n1 ==> bl1[i] < |fs1.disk|)
            && BytesOf(fs1.disk, bl1, fs0.inodes[ino].size) == Contents(fs0, fs0.inodes[ino])
  {
    hide AllBlocks, Took, BytesOf, SlotsOk;
    var v0, v1 := fs0.inodes[ino], fs1.inodes[ino];
    var bl0, bl1 := AllBlocks(fs0.disk, v0)[..n0], AllBlocks(fs1.disk, v1)[..n1];
    ListRange(fs0, bl0, v0.sectors[12]);
    ListRange(fs1, bl1, v1.sectors[12]);
    forall i | 0 <= i < n0 ensures fs1.disk[bl0[i]] == fs0.disk[bl0[i]] {
      assert bl1[i] in SetOf(bl1);
    }
    BytesGrow(fs0.disk, fs1.disk, bl0, bl1, v0.size);
  }

  /** Any other file shares no sector with the grown one. */
  lemma OthersApart(fs0: Fs, fs1: Fs, ino: nat, n0: nat, n1: nat, m: nat)
    requires FsInv(fs0) && Grown(fs0, fs1, ino, n0, n1) && n0 == BlockCount(fs0.inodes[ino])
    requires m in fs0.inodes && m != ino
    ensures Owned(fs0.disk, fs0.inodes[m])
         !! OwnedBy(AllBlocks(fs1.disk, fs1.inodes[ino])[..n1], fs1.inodes[ino].sectors[12])
  {
    hide AllBlocks, FreeCount, SameOutside, SlotsOk, OwnedBy, ListOk;
    var own0 := Owned(fs0.disk, fs0.inodes[ino]);
    var own1 := OwnedBy(AllBlocks(fs1.disk, fs1.inodes[ino])[..n1], fs1.inodes[ino].sectors[12]);
    assert Owned(fs0.disk, fs0.inodes[m]) !! own0;
    assert FileOk(fs0, fs0.inodes[m]);
    forall b | b in Owned(fs0.disk, fs0.inodes[m]) ensures b !in own1 {
      OldIsUsed(fs0, fs0.inodes[m], BlockCount(fs0.inodes[m]), b);
      assert b !in own0;
      assert b !in own1 - own0;
    }
  }

  /** Marks are only added. */
  lemma StillAllocated(fs0: Fs, fs1: Fs, taken: set<nat>)
    requires Took(fs0.used, fs1.used, fs0.dataStart, taken)
    requires fs1.dataStart == fs0.dataStart && |fs1.disk| == |fs0.disk|
    ensures forall b :: Allocated(fs0, b) ==> Allocated(fs1, b)
    ensures BitmapOk(fs0) ==> BitmapOk(fs1)
    ensures |fs1.used| == |fs0.used|
  {
    hide FreeCount;
  }

  lemma OutsideBoth(d0: seq<Sector>, d1: seq<Sector>, d2: seq<Sector>, s: set<nat>, t: set<nat>, u: set<nat>)
    requires SameOutside(d0, d1, s) && SameOutside(d1, d2, t) && s <= u && t <= u
    ensures SameOutside(d0, d2, u)
  {
  }

  lemma OthersUntouched(fs0: Fs, fs1: Fs, fs2: Fs, ino: nat, n0: nat, n1: nat)
    requires FsInv(fs0) && Grown(fs0, fs1, ino, n0, n1) && n0 == BlockCount(fs0.inodes[ino])
    requires fs2.dataStart == fs1.dataStart && fs2.used == fs1.used
    requires var own1 := OwnedBy(AllBlocks(fs1.disk, fs1.inodes[ino])[..n1], fs1.inodes[ino].sectors[12]);
             SameOutside(fs0.disk, fs2.disk, own1)
    ensures BitmapOk(fs2)
    ensures forall m :: m in fs0.inodes && m != ino ==>
              && Untouched(fs0, fs2, fs0.inodes[m])
              && Owned(fs0.disk, fs0.inodes[m])
              !! OwnedBy(AllBlocks(fs1.disk, fs1.inodes[ino])[..n1], fs1.inodes[ino].sectors[12])
  {
    hide AllBlocks, BytesOf, Reserved, Took, Allocated, OwnedBy;
    var own0 := Owned(fs0.disk, fs0.inodes[ino]);
    ReservedTable(fs0, fs0.inodes[ino], n0);
    ReservedTable(fs1, fs1.inodes[ino], n1);
    var own1 := OwnedBy(AllBlocks(fs1.disk, fs1.inodes[ino])[..n1], fs1.inodes[ino].sectors[12]);
    StillAllocated(fs0, fs2, own1 - own0);
    forall m | m in fs0.inodes && m != ino
      ensures Untouched(fs0, fs2, fs0.inodes[m]) && Owned(fs0.disk, fs0.inodes[m]) !! own1
    {
      OthersApart(fs0, fs1, ino, n0, n1, m);
      Frame(fs0, fs2, fs0.inodes[m], own1);
    }
  }

  /** Allocation and chunk loop together make a write. */
  lemma WriteDone(fs0: Fs, fs1: Fs, fs2: Fs, ino: nat, n0: nat, bl: seq<nat>, buf: seq<byte>)
    requires FsInv(fs0) && Grown(fs0, fs1, ino, n0, |bl|) && n0 == BlockCount(fs0.inodes[ino])
    requires bl == AllBlocks(fs1.disk, fs1.inodes[ino])[..|bl|]
    requires Filled(fs1, fs2, ino, bl, buf)
    requires |bl| == fs2.inodes[ino].size / 512 + 1
    ensures WritePost(fs0, fs2, ino, buf)
  {
    hide AllBlocks, BytesOf, Reserved, Decode, Took, Allocated, OwnedBy, SetOf, BitmapOk;
    var v0, v1, v2 := fs0.inodes[ino], fs1.inodes[ino], fs2.inodes[ino];
    FilledFileOk(fs1, fs2, ino, bl, buf);
    OldBytes(fs0, fs1, ino, n0, |bl|);
    hide Contents;
    var own0, own2 := Owned(fs0.disk, v0), Owned(fs2.disk, v2);
    OwnedUnion(bl, v1.sectors[12]);
    OutsideBoth(fs0.disk, fs1.disk, fs2.disk, own2 - SetOf(bl), SetOf(bl), own2);
    OthersUntouched(fs0, fs1, fs2, ino, n0, |bl|);
    MapTwice(fs0.inodes, fs1.inodes, fs2.inodes, ino);
    WriteInv(fs0, fs2, ino);
  }

  lemma OwnedUnion(bl: seq<nat>, tbl: nat)
    ensures SetOf(bl) <= OwnedBy(bl, tbl)
  {
  }

  lemma WriteInv(fs0: Fs, fs2: Fs, ino: nat)
    requires FsInv(fs0) && BitmapOk(fs2) && ino in fs0.inodes && ino in fs2.inodes
    requires fs2.inodes == fs0.inodes[ino := fs2.inodes[ino]]
    requires FileOk(fs2, fs2.inodes[ino])
    requires forall m :: m in fs0.inodes && m != ino ==>
               Untouched(fs0, fs2, fs0.inodes[m]) && Owned(fs0.disk, fs0.inodes[m]) !! Owned(fs2.disk, fs2.inodes[ino])
    ensures FsInv(fs2)
  {
    hide Contents, Reserved, Owned;
  }

  // ----- the first block of a fresh file -----

  /** After fs/file.c:265-277 the file has the block its size asks for, at the price of at most one. */
  ghost predicate Started(fs0: Fs, fs1: Fs, ino: nat, n0: nat, has: nat) {
    || (fs1 == fs0 && has == n0)
    || (n0 == 0 && has == 1 && Grown(fs0, fs1, ino, 0, 1) && FreeCount(fs0.used) == FreeCount(fs1.used) + 1)
  }

  lemma StartedOk(fs0: Fs, fs1: Fs, ino: nat, n0: nat, has: nat)
    requires FsInv(fs0) && ino in fs0.inodes && n0 == BlockCount(fs0.inodes[ino])
             && has == fs0.inodes[ino].size / 512 + 1
    requires Started(fs0, fs1, ino, n0, has)
    ensures BitmapOk(fs1) && ino in fs1.inodes && fs1.inodes[ino].size == fs0.inodes[ino].size
    ensures Reserved(fs1, fs1.inodes[ino], has)
  {
    hide AllBlocks, ListOk, SlotsOk, Allocated;
    if fs1 != fs0 {
      StillAllocated(fs0, fs1, OwnedBy(AllBlocks(fs1.disk, fs1.inodes[ino])[..1], fs1.inodes[ino].sectors[12])
                             - OwnedBy(AllBlocks(fs0.disk, fs0.inodes[ino])[..0], fs0.inodes[ino].sectors[12]));
    }
  }

  lemma StartedGrown(fs0: Fs, fsF: Fs, fs1: Fs, ino: nat, n0: nat, has: nat, will: nat)
    requires Started(fs0, fsF, ino, n0, has) && Grown(fsF, fs1, ino, has, will)
    ensures Grown(fs0, fs1, ino, n0, will)
  {
    hide Grown;
    if fsF != fs0 {
      GrownTrans(fs0, fsF, fs1, ino, 0, 1, will);
    }
  }

  /** What the write loop needs to know of the grown file. */
  lemma GrownList(fs0: Fs, fs1: Fs, ino: nat, n0: nat, n1: nat)
    requires Grown(fs0, fs1, ino, n0, n1)
    ensures ino in fs1.inodes && |fs1.inodes[ino].sectors| == 13 && fs1.inodes[ino].sectors[12] < |fs1.disk|
    ensures n1 <= 139 && fs1.inodes[ino].size == fs0.inodes[ino].size
    ensures NoDup(AllBlocks(fs1.disk, fs1.inodes[ino])[..n1])
    ensures forall i :: 0 <= i < n1 ==> AllBlocks(fs1.disk, fs1.inodes[ino])[i] < |fs1.disk|
  {
    hide AllBlocks;
    var bl := AllBlocks(fs1.disk, fs1.inodes[ino])[..n1];
    ListRange(fs1, bl, fs1.inodes[ino].sectors[12]);
    assert forall i :: 0 <= i < n1 ==> bl[i] == AllBlocks(fs1.disk, fs1.inodes[ino])[i];
  }

  // ----- creating and releasing a file -----

  /** A new file: an inode with size 0 and thirteen zero sectors. */
  ghost predicate CreatePost(fs0: Fs, fs1: Fs, ino: nat) {
    && FsInv(fs0) && FsInv(fs1) && ino !in fs0.inodes
    && fs1 == fs0.(inodes := fs0.inodes[ino := Inode(0, seq(13, _ => 0))])
  }

  lemma NewFileOk(fs: Fs, v: Inode)
    requires v == Inode(0, seq(13, _ => 0)) && |fs.disk| > 0
    ensures FileOk(fs, v) && Owned(fs.disk, v) == {} && Contents(fs, v) == []
  {
    assert forall i :: 0 <= i < 140 ==> AllBlocks(fs.disk, v)[i] == 0;
    assert Blocks(fs.disk, v) == [];
  }

  lemma SameDiskFileOk(fs: Fs, fs1: Fs, v: Inode)
    requires FileOk(fs, v) && fs1.disk == fs.disk && fs1.used == fs.used && fs1.dataStart == fs.dataStart
    ensures FileOk(fs1, v)
  {
    hide AllBlocks, ListOk;
    SameListOk(fs, fs1, Blocks(fs.disk, v), v.sectors[12]);
  }

  lemma CreateKeeps(fs: Fs, ino: nat)
    requires FsInv(fs) && ino !in fs.inodes
    ensures CreatePost(fs, fs.(inodes := fs.inodes[ino := Inode(0, seq(13, _ => 0))]), ino)
  {
    hide Reserved, Owned;
    var v := Inode(0, seq(13, _ => 0));
    var fs1 := fs.(inodes := fs.inodes[ino := v]);
    NewFileOk(fs1, v);
    forall m | m in fs.inodes ensures FileOk(fs1, fs.inodes[m]) {
      SameDiskFileOk(fs, fs1, fs.inodes[m]);
    }
  }

  /** From used to used' exactly the bits of the sectors in `gone` were cleared. */
  ghost predicate Cleared(used: seq<bool>, used': seq<bool>, dataStart: nat, gone: set<nat>) {
    |used'| == |used| && forall i :: 0 <= i < |used| ==> (used'[i] <==> used[i] && dataStart + i !in gone)
  }

  /** Releasing file ino frees exactly what it owned and touches nothing else. */
  ghost predicate ReleasePost(fs0: Fs, fs1: Fs, ino: nat) {
    && FsInv(fs0) && FsInv(fs1) && ino in fs0.inodes
    && fs1 == fs0.(used := fs1.used, inodes := fs0.inodes - {ino})
    && Cleared(fs0.used, fs1.used, fs0.dataStart, Owned(fs0.disk, fs0.inodes[ino]))
    && (forall m :: m in fs1.inodes ==> Untouched(fs0, fs1, fs1.inodes[m]))
  }

  lemma ReleaseDone(fs0: Fs, fs1: Fs, ino: nat)
    requires FsInv(fs0) && ino in fs0.inodes
    requires fs1 == fs0.(used := fs1.used, inodes := fs0.inodes - {ino})
    requires Cleared(fs0.used, fs1.used, fs0.dataStart, Owned(fs0.disk, fs0.inodes[ino]))
    ensures ReleasePost(fs0, fs1, ino)
  {
    hide AllBlocks, BytesOf, Reserved, OwnedBy;
    var own := Owned(fs0.disk, fs0.inodes[ino]);
    assert BitmapOk(fs1) by {
      assert fs0.dataStart !in own by {
        assert FileOk(fs0, fs0.inodes[ino]);
        if fs0.dataStart in own { OldIsUsed(fs0, fs0.inodes[ino], BlockCount(fs0.inodes[ino]), fs0.dataStart); }
      }
      forall i | 0 <= i < |fs1.used| && !fs1.used[i]
        ensures fs1.dataStart + i < |fs1.disk| && fs1.dataStart + i < MAX_WORD
      {
        if fs0.used[i] { OwnedInRange(fs0, fs0.inodes[ino], fs0.dataStart + i); }
      }
    }
    forall m | m in fs1.inodes ensures Untouched(fs0, fs1, fs1.inodes[m]) {
      assert Owned(fs0.disk, fs0.inodes[m]) !! own;
      Frame(fs0, fs1, fs0.inodes[m], {});
    }
  }

  lemma OwnedInRange(fs: Fs, v: Inode, b: nat)
    requires FileOk(fs, v) && b in Owned(fs.disk, v)
    ensures fs.dataStart < b < |fs.disk| && b < MAX_WORD && b - fs.dataStart < |fs.used|
  {
    hide AllBlocks;
    var bl := Blocks(fs.disk, v);
    if b in bl {
      var i :| 0 <= i < |bl| && bl[i] == b;
      assert Allocated(fs, bl[i]);
    }
  }

  /** The non-zero slots of a list. */
  function NonZero(s: seq<nat>): (r: seq<nat>)
    ensures forall b :: b in r <==> b in s && b != 0
  {
    if s == [] then [] else (if s[0] == 0 then [] else [s[0]]) + NonZero(s[1..])
  }

  /** Every non-zero slot names a sector of the data area. */
  lemma SlotsAllocated(fs: Fs, v: Inode)
    requires FileOk(fs, v)
    ensures forall i :: 0 <= i < 140 && AllBlocks(fs.disk, v)[i] != 0 ==>
              fs.dataStart < AllBlocks(fs.disk, v)[i] < fs.dataStart + |fs.used|
    ensures v.sectors[12] != 0 ==> fs.dataStart < v.sectors[12] < fs.dataStart + |fs.used|
  {
    hide AllBlocks;
    var all, n := AllBlocks(fs.disk, v), BlockCount(v);
    forall i | 0 <= i < 140 && all[i] != 0 ensures fs.dataStart < all[i] < fs.dataStart + |fs.used| {
      assert Allocated(fs, Blocks(fs.disk, v)[i]);
    }
  }

  /** The non-zero slots are the data blocks; without a table they are among the first twelve. */
  lemma SlotsAreBlocks(fs: Fs, v: Inode)
    requires FileOk(fs, v)
    ensures SetOf(NonZero(AllBlocks(fs.disk, v)[..140])) == SetOf(Blocks(fs.disk, v))
    ensures v.sectors[12] == 0 ==> SetOf(NonZero(AllBlocks(fs.disk, v)[..12])) == SetOf(Blocks(fs.disk, v))
  {
    hide AllBlocks, ListOk, NonZero, SetOf, SlotsOk;
    SameNonZero(AllBlocks(fs.disk, v), BlockCount(v), 140);
    if v.sectors[12] == 0 { SameNonZero(AllBlocks(fs.disk, v), BlockCount(v), 12); }
  }

  lemma OwnedSlots(fs: Fs, v: Inode)
    requires FileOk(fs, v)
    ensures Owned(fs.disk, v) == if v.sectors[12] == 0 then {} + SetOf(NonZero(AllBlocks(fs.disk, v)[..12]))
                                 else {v.sectors[12]} + SetOf(NonZero(AllBlocks(fs.disk, v)[..140]))
  {
    hide AllBlocks, NonZero, SetOf, Reserved;
    SlotsAreBlocks(fs, v);
  }

  lemma SameNonZero(all: seq<nat>, n: nat, m: nat)
    requires n <= m <= |all| && SlotsOk(all, n)
    ensures SetOf(NonZero(all[..m])) == SetOf(all[..n])
  {
    assert forall b :: b in all[..n] ==> b in all[..m];
  }
}
