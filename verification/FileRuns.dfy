/** Whole runs of file operations: the partition refines a map from inode numbers to byte sequences,
    no block is owned twice, and the block bitmap accounts for every owned block. */
module FileRuns {
  import opened Bits
  import opened Disk
  import opened FileLayout
  import opened FileGrow
  import opened FileWritePost
  import opened FileReading

  datatype Op = Create(ino: nat) | Write(ino: nat, buf: seq<byte>) | Release(ino: nat)

  /** What a successful operation does to the partition; FileOps proves the code does it. */
  ghost predicate FsStep(fs: Fs, op: Op, fs': Fs) {
    match op
    case Create(n) => CreatePost(fs, fs', n)
    case Write(n, buf) => WritePost(fs, fs', n, buf)
    case Release(n) => ReleasePost(fs, fs', n)
  }

  ghost predicate IsRun(states: seq<Fs>, ops: seq<Op>) {
    && |states| == |ops| + 1
    && (forall i :: 0 <= i < |ops| ==> FsStep(states[i], ops[i], states[i + 1]))
  }

  // ----- the simple specification: one byte sequence per file -----

  type Files = map<nat, seq<byte>>

  ghost function FilesOf(fs: Fs): Files
    requires FsInv(fs)
  {
    map n | n in fs.inodes :: Contents(fs, fs.inodes[n])
  }

  function Apply(files: Files, op: Op): Files {
    match op
    case Create(n) => files[n := []]
    case Write(n, buf) => if n in files then files[n := files[n] + buf] else files
    case Release(n) => files - {n}
  }

  function ApplyAll(files: Files, ops: seq<Op>): Files
    decreases |ops|
  {
    if ops == [] then files else ApplyAll(Apply(files, ops[0]), ops[1..])
  }

  lemma CreateRefines(fs: Fs, fs': Fs, n: nat)
    requires CreatePost(fs, fs', n)
    ensures FilesOf(fs') == FilesOf(fs)[n := []]
  {
    hide Reserved, Contents, BitmapOk, Owned;
    NewFileOk(fs', fs'.inodes[n]);
    assert fs'.inodes.Keys == fs.inodes.Keys + {n};
    forall m | m in fs.inodes ensures Contents(fs', fs.inodes[m]) == Contents(fs, fs.inodes[m]) {
      SameDiskContents(fs, fs', fs.inodes[m]);
    }
  }

  lemma SameDiskContents(fs: Fs, fs': Fs, v: Inode)
    requires FileOk(fs, v) && FileOk(fs', v) && fs'.disk == fs.disk
    ensures Contents(fs', v) == Contents(fs, v)
  {
  }

  /** Every operation does to the partition's files what it does to the map. */
  lemma StepRefines(fs: Fs, op: Op, fs': Fs)
    requires FsStep(fs, op, fs')
    ensures FsInv(fs) && FsInv(fs')
    ensures FilesOf(fs') == Apply(FilesOf(fs), op)
  {
    hide Reserved, Contents, Took, BitmapOk, Owned, SameOutside;
    match op
    case Create(n) => CreateRefines(fs, fs', n);
    case Write(n, buf) => WriteRefines(fs, fs', n, buf);
    case Release(n) => ReleaseRefines(fs, fs', n);
  }

  lemma WriteRefines(fs: Fs, fs': Fs, n: nat, buf: seq<byte>)
    requires WritePost(fs, fs', n, buf)
    ensures FilesOf(fs') == FilesOf(fs)[n := FilesOf(fs)[n] + buf]
  {
    hide FileOk, Contents, Took, BitmapOk, Owned, SameOutside;
    assert FilesOf(fs').Keys == FilesOf(fs).Keys;
    forall m | m in fs.inodes && m != n ensures Contents(fs', fs'.inodes[m]) == Contents(fs, fs.inodes[m]) {
      assert Untouched(fs, fs', fs.inodes[m]);
    }
  }

  lemma ReleaseRefines(fs: Fs, fs': Fs, n: nat)
    requires ReleasePost(fs, fs', n)
    ensures FilesOf(fs') == FilesOf(fs) - {n}
  {
    hide Reserved, Contents, Cleared, BitmapOk, Owned;
    assert FilesOf(fs').Keys == FilesOf(fs).Keys - {n};
    forall m | m in fs'.inodes ensures Contents(fs', fs'.inodes[m]) == Contents(fs, fs'.inodes[m]) {
      assert Untouched(fs, fs', fs'.inodes[m]);
    }
  }

  lemma {:induction false} RunRefines(states: seq<Fs>, ops: seq<Op>)
    requires IsRun(states, ops) && FsInv(states[0])
    ensures FsInv(states[|ops|])
    ensures FilesOf(states[|ops|]) == ApplyAll(FilesOf(states[0]), ops)
    decreases |ops|
  {
    hide FsStep, FsInv, FilesOf, Apply;
    if ops != [] {
      StepRefines(states[0], ops[0], states[1]);
      RunRefines(states[1..], ops[1..]);
    }
  }

  // ----- accounting for blocks -----

  ghost predicate OwnedBySome(fs: Fs, b: nat)
    requires FsInv(fs)
  {
    exists n :: n in fs.inodes && b in Owned(fs.disk, fs.inodes[n])
  }

  /** The marked bits are those in `base`, which are the system's, and those of owned blocks. */
  ghost predicate Accounted(fs: Fs, base: set<nat>) {
    && FsInv(fs)
    && (forall i :: 0 <= i < |fs.used| ==> (fs.used[i] <==> i in base || OwnedBySome(fs, fs.dataStart + i)))
    && (forall i :: i in base ==> !OwnedBySome(fs, fs.dataStart + i))
  }

  lemma CreateAccounts(fs: Fs, fs': Fs, n: nat, base: set<nat>)
    requires CreatePost(fs, fs', n) && Accounted(fs, base)
    ensures Accounted(fs', base)
  {
    hide Reserved, BitmapOk, Blocks, OwnedBy;
    NewFileOk(fs', fs'.inodes[n]);
    forall b ensures OwnedBySome(fs', b) == OwnedBySome(fs, b) {
      if OwnedBySome(fs, b) {
        var m :| m in fs.inodes && b in Owned(fs.disk, fs.inodes[m]);
        assert m in fs'.inodes && b in Owned(fs'.disk, fs'.inodes[m]);
      }
    }
  }

  lemma WriteOwners(fs: Fs, fs': Fs, n: nat, buf: seq<byte>, b: nat)
    requires WritePost(fs, fs', n, buf)
    ensures OwnedBySome(fs', b) <==>
            OwnedBySome(fs, b) || b in Owned(fs'.disk, fs'.inodes[n]) - Owned(fs.disk, fs.inodes[n])
  {
    hide Reserved, BitmapOk, Contents, Took, SameOutside, Owned;
    assert forall m :: m in fs.inodes && m != n ==> Owned(fs'.disk, fs'.inodes[m]) == Owned(fs.disk, fs.inodes[m]) by {
      forall m | m in fs.inodes && m != n ensures Owned(fs'.disk, fs'.inodes[m]) == Owned(fs.disk, fs.inodes[m]) {
        assert Untouched(fs, fs', fs.inodes[m]);
      }
    }
    if OwnedBySome(fs, b) {
      var m :| m in fs.inodes && b in Owned(fs.disk, fs.inodes[m]);
      assert m in fs'.inodes && b in Owned(fs'.disk, fs'.inodes[m]);
    }
    if b in Owned(fs'.disk, fs'.inodes[n]) - Owned(fs.disk, fs.inodes[n]) {
      assert n in fs'.inodes && b in Owned(fs'.disk, fs'.inodes[n]);
    }
  }

  lemma WriteAccounts(fs: Fs, fs': Fs, n: nat, buf: seq<byte>, base: set<nat>)
    requires WritePost(fs, fs', n, buf) && Accounted(fs, base)
    ensures Accounted(fs', base)
  {
    hide Reserved, BitmapOk, Contents, FreeCount, SameOutside, Owned, OwnedBySome, Untouched;
    var taken := Owned(fs'.disk, fs'.inodes[n]) - Owned(fs.disk, fs.inodes[n]);
    forall b: nat ensures OwnedBySome(fs', b) <==> OwnedBySome(fs, b) || b in taken {
      WriteOwners(fs, fs', n, buf, b);
    }
    forall i | i in base ensures !OwnedBySome(fs', fs.dataStart + i) {
      assert fs.dataStart + i !in taken;
    }
  }

  lemma ReleaseOwners(fs: Fs, fs': Fs, n: nat, b: nat)
    requires ReleasePost(fs, fs', n)
    ensures OwnedBySome(fs', b) <==> OwnedBySome(fs, b) && b !in Owned(fs.disk, fs.inodes[n])
  {
    hide Reserved, BitmapOk, Contents, Cleared, Owned;
    assert forall m :: m in fs'.inodes ==> m in fs.inodes && m != n && fs'.inodes[m] == fs.inodes[m];
    if OwnedBySome(fs, b) && b !in Owned(fs.disk, fs.inodes[n]) {
      var m :| m in fs.inodes && b in Owned(fs.disk, fs.inodes[m]);
      assert m in fs'.inodes && b in Owned(fs'.disk, fs'.inodes[m]);
    }
    if OwnedBySome(fs', b) {
      var m :| m in fs'.inodes && b in Owned(fs'.disk, fs'.inodes[m]);
      assert Owned(fs.disk, fs.inodes[m]) !! Owned(fs.disk, fs.inodes[n]);
    }
  }

  lemma ReleaseAccounts(fs: Fs, fs': Fs, n: nat, base: set<nat>)
    requires ReleasePost(fs, fs', n) && Accounted(fs, base)
    ensures Accounted(fs', base)
  {
    hide Reserved, BitmapOk, Contents, Owned, OwnedBySome, Untouched;
    var own := Owned(fs.disk, fs.inodes[n]);
    forall b: nat ensures OwnedBySome(fs', b) <==> OwnedBySome(fs, b) && b !in own {
      ReleaseOwners(fs, fs', n, b);
    }
    forall i | i in base ensures fs.dataStart + i !in own {
      NoOwnerIsThis(fs, n, fs.dataStart + i);
    }
  }

  lemma NoOwnerIsThis(fs: Fs, n: nat, b: nat)
    requires FsInv(fs) && n in fs.inodes && !OwnedBySome(fs, b)
    ensures b !in Owned(fs.disk, fs.inodes[n])
  {
  }

  lemma {:induction false} RunAccounts(states: seq<Fs>, ops: seq<Op>, base: set<nat>)
    requires IsRun(states, ops) && Accounted(states[0], base)
    ensures Accounted(states[|ops|], base)
    ensures states[|ops|].dataStart == states[0].dataStart && |states[|ops|].used| == |states[0].used|
    decreases |ops|
  {
    hide Accounted, FsInv, WritePost, CreatePost, ReleasePost;
    if ops != [] {
      assert FsStep(states[0], ops[0], states[1]);
      StepAccounts(states[0], ops[0], states[1], base);
      RunAccounts(states[1..], ops[1..], base);
    }
  }

  lemma StepAccounts(fs: Fs, op: Op, fs': Fs, base: set<nat>)
    requires FsStep(fs, op, fs') && Accounted(fs, base)
    ensures Accounted(fs', base)
    ensures fs'.dataStart == fs.dataStart && |fs'.used| == |fs.used|
  {
    hide Accounted, FsInv, FreeCount, SameOutside, Untouched, Contents;
    match op
    case Create(n) => CreateAccounts(fs, fs', n, base);
    case Write(n, buf) => WriteAccounts(fs, fs', n, buf, base);
    case Release(n) => ReleaseAccounts(fs, fs', n, base);
  }

  /** A block has at most one owner, and serves its owner once. */
  lemma NoBlockOwnedTwice(states: seq<Fs>, ops: seq<Op>, n: nat, m: nat, i: nat, j: nat)
    requires IsRun(states, ops) && FsInv(states[0])
    requires var fs := states[|ops|];
             && n in fs.inodes && m in fs.inodes && (n != m || i != j)
             && |fs.inodes[n].sectors| == 13 && |fs.inodes[m].sectors| == 13
             && fs.inodes[n].sectors[12] < |fs.disk| && fs.inodes[m].sectors[12] < |fs.disk|
             && i < BlockCount(fs.inodes[n]) <= 139 && j < BlockCount(fs.inodes[m]) <= 139
    ensures var fs := states[|ops|];
            && AllBlocks(fs.disk, fs.inodes[n])[i] != AllBlocks(fs.disk, fs.inodes[m])[j]
            && AllBlocks(fs.disk, fs.inodes[n])[i] != fs.inodes[m].sectors[12]
  {
    hide AllBlocks, BitmapOk, ListOk, FsStep;
    RunRefines(states, ops);
    var fs := states[|ops|];
    var v, w := fs.inodes[n], fs.inodes[m];
    assert FileOk(fs, v) && FileOk(fs, w);
    assert AllBlocks(fs.disk, v)[i] == Blocks(fs.disk, v)[i] && AllBlocks(fs.disk, w)[j] == Blocks(fs.disk, w)[j];
    BlockIsOwned(fs, v, i);
    BlockIsOwned(fs, w, j);
    if n == m {
      DistinctBlocks(fs, v, i, j);
    } else {
      assert Owned(fs.disk, v) !! Owned(fs.disk, w);
    }
  }

  lemma BlockIsOwned(fs: Fs, v: Inode, i: nat)
    requires FileOk(fs, v) && i < BlockCount(v)
    ensures Blocks(fs.disk, v)[i] in Owned(fs.disk, v)
    ensures v.sectors[12] != 0 ==> v.sectors[12] in Owned(fs.disk, v)
    ensures Blocks(fs.disk, v)[i] != 0
  {
    hide AllBlocks;
    assert Allocated(fs, Blocks(fs.disk, v)[i]);
  }

  lemma DistinctBlocks(fs: Fs, v: Inode, i: nat, j: nat)
    requires FileOk(fs, v) && i < BlockCount(v) && j < BlockCount(v) && i != j
    ensures Blocks(fs.disk, v)[i] != Blocks(fs.disk, v)[j]
    ensures Blocks(fs.disk, v)[i] != v.sectors[12]
  {
    hide AllBlocks;
    assert Blocks(fs.disk, v)[i] in Blocks(fs.disk, v);
  }

  /** Conservation: whatever was created, written and released, in any order, once no file is left the
      block bitmap is what it was when there was none. */
  lemma ReleasingAllRestoresBitmap(states: seq<Fs>, ops: seq<Op>)
    requires IsRun(states, ops) && FsInv(states[0])
    requires states[0].inodes == map[] && states[|ops|].inodes == map[]
    ensures states[|ops|].used == states[0].used
  {
    var fs, fs' := states[0], states[|ops|];
    var base := set i | 0 <= i < |fs.used| && fs.used[i];
    assert Accounted(fs, base);
    RunAccounts(states, ops, base);
    assert forall i :: 0 <= i < |fs.used| ==> (fs'.used[i] <==> fs.used[i]);
  }

  /** Writing a file and releasing it gives back exactly the blocks: the bitmap is as before. */
  lemma WriteThenRelease(fs0: Fs, fs1: Fs, fs2: Fs, fs3: Fs, n: nat, buf: seq<byte>)
    requires CreatePost(fs0, fs1, n) && WritePost(fs1, fs2, n, buf) && ReleasePost(fs2, fs3, n)
    ensures fs3.used == fs0.used && fs3.inodes == fs0.inodes
    ensures FilesOf(fs3) == FilesOf(fs0)
  {
    hide CreatePost, WritePost, ReleasePost, FsInv, FilesOf, Took, Cleared, Owned;
    FilesBack(fs0, fs1, fs2, fs3, n, buf);
    CreatedBits(fs0, fs1, n);
    WrittenBits(fs1, fs2, n, buf);
    ReleasedBits(fs2, fs3, n);
    assert Owned(fs2.disk, fs2.inodes[n]) - {} == Owned(fs2.disk, fs2.inodes[n]);
    TookCleared(fs0.used, fs2.used, fs3.used, fs0.dataStart, Owned(fs2.disk, fs2.inodes[n]));
    assert fs3.inodes == fs0.inodes;
  }

  lemma CreatedBits(fs: Fs, fs': Fs, n: nat)
    requires CreatePost(fs, fs', n)
    ensures fs'.used == fs.used && fs'.dataStart == fs.dataStart && n !in fs.inodes
    ensures fs'.inodes == fs.inodes[n := fs'.inodes[n]]
    ensures Shape(fs'.disk, fs'.inodes[n]) && Owned(fs'.disk, fs'.inodes[n]) == {}
  {
    hide FsInv, FileOk;
    assert |fs'.disk| > 0 by { InvDisk(fs'); }
    NewFileOk(fs', fs'.inodes[n]);
    FileShape(fs', fs'.inodes[n]);
  }

  lemma InvDisk(fs: Fs)
    requires FsInv(fs)
    ensures |fs.disk| > 0
  {
  }

  lemma FileShape(fs: Fs, v: Inode)
    requires FileOk(fs, v)
    ensures Shape(fs.disk, v)
  {
  }

  lemma WrittenBits(fs: Fs, fs': Fs, n: nat, buf: seq<byte>)
    requires WritePost(fs, fs', n, buf)
    ensures n in fs.inodes && n in fs'.inodes && fs'.dataStart == fs.dataStart
    ensures fs'.inodes == fs.inodes[n := fs'.inodes[n]]
    ensures Shape(fs.disk, fs.inodes[n]) && Shape(fs'.disk, fs'.inodes[n])
    ensures Took(fs.used, fs'.used, fs.dataStart, Owned(fs'.disk, fs'.inodes[n]) - Owned(fs.disk, fs.inodes[n]))
  {
    hide Took, Owned, Contents, Untouched, SameOutside, Reserved, BitmapOk;
  }

  lemma ReleasedBits(fs: Fs, fs': Fs, n: nat)
    requires ReleasePost(fs, fs', n)
    ensures n in fs.inodes && fs'.inodes == fs.inodes - {n} && Shape(fs.disk, fs.inodes[n])
    ensures Cleared(fs.used, fs'.used, fs.dataStart, Owned(fs.disk, fs.inodes[n]))
  {
    hide Cleared, Owned, Untouched, Reserved, BitmapOk;
  }

  lemma TookCleared(u: seq<bool>, u': seq<bool>, u'': seq<bool>, dataStart: nat, s: set<nat>)
    requires Took(u, u', dataStart, s) && Cleared(u', u'', dataStart, s)
    ensures u'' == u
  {
    hide FreeCount;
    assert forall i :: 0 <= i < |u| ==> (u''[i] <==> u[i]);
  }

  lemma FilesBack(fs0: Fs, fs1: Fs, fs2: Fs, fs3: Fs, n: nat, buf: seq<byte>)
    requires CreatePost(fs0, fs1, n) && WritePost(fs1, fs2, n, buf) && ReleasePost(fs2, fs3, n)
    ensures FilesOf(fs3) == FilesOf(fs0)
  {
    hide FsInv, FilesOf, CreatePost, WritePost, ReleasePost;
    StepRefines(fs0, Create(n), fs1);
    StepRefines(fs1, Write(n, buf), fs2);
    StepRefines(fs2, Release(n), fs3);
    assert n !in FilesOf(fs0) by { FreshName(fs0, fs1, n); }
  }

  lemma FreshName(fs: Fs, fs': Fs, n: nat)
    requires CreatePost(fs, fs', n)
    ensures n !in FilesOf(fs)
  {
  }

  /** Reading back at the place where a write began returns what was written. */
  lemma WriteThenRead(fs: Fs, fs': Fs, n: nat, buf: seq<byte>)
    requires WritePost(fs, fs', n, buf)
    requires !SkipsDirect(fs.inodes[n].size, |buf|)
    ensures FileOk(fs', fs'.inodes[n]) && fs.inodes[n].size <= fs'.inodes[n].size
    ensures ReadAt(fs'.disk, fs'.inodes[n], fs.inodes[n].size, |buf|) == Data(buf)
  {
    hide BitmapOk, Contents, Took, SameOutside, Untouched, Owned, AllBlocks, Collected, ReadVia, Reserved, ListOk,
         SlotsOk;
    var v, v' := fs.inodes[n], fs'.inodes[n];
    assert FileOk(fs, v) && FileOk(fs', v');
    ContentsLength(fs, v);
    ContentsLength(fs', v');
    ReadsContents(fs', v', v.size, |buf|);
    assert Contents(fs', v')[v.size..v.size + |buf|] == buf;
  }
}
