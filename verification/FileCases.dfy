/** A file the kernel can write whose first block file_read returns from sector 0. */
module FileCases {
  import opened Bits
  import opened Disk
  import opened FileLayout
  import opened FileGrow
  import opened FileWritePost
  import opened FileReading
  import opened FileRuns
  import opened FileOps

  /** One byte more than twelve blocks, all zero. */
  const ZERO_FILE: seq<byte> := seq(12 * 512 + 1, _ => 0)

  /** A formatted partition of 4096 blocks on a disk whose sector 0 is filled with ones. */
  function Formatted(): Fs {
    var ones: Sector := seq(512, _ => 1);
    Fs([ones] + seq(8191, _ => ZEROS), [true] + seq(4095, _ => false), 2660, map[])
  }

  lemma {:induction false} AllFree(used: seq<bool>)
    requires forall i :: 0 <= i < |used| ==> !used[i]
    ensures FreeCount(used) == |used|
  {
    if used != [] { AllFree(used[1..]); }
  }

  lemma FormattedRoom()
    ensures FsInv(Formatted()) && FreeCount(Formatted().used) == 4095
  {
    AllFree(Formatted().used[1..]);
  }

  /** The partition with one empty file. */
  function WithFile(): Fs {
    Formatted().(inodes := map[1 := Inode(0, seq(13, _ => 0))])
  }

  lemma FileCreated()
    ensures CreatePost(Formatted(), WithFile(), 1)
    ensures FsInv(Formatted()) && Formatted().inodes == map[]
    ensures var fs := WithFile();
            && FsInv(fs) && 1 in fs.inodes && fs.inodes[1].size == 0 && |fs.inodes[1].sectors| == 13
            && BlockCount(fs.inodes[1]) == 0 && FreeCount(fs.used) == 4095
  {
    hide Formatted, FsInv, FreeCount;
    FormattedRoom();
    assert Formatted().inodes == map[] by { NoFileYet(); }
    CreateKeeps(Formatted(), 1);
    assert WithFile() == Formatted().(inodes := Formatted().inodes[1 := Inode(0, seq(13, _ => 0))]);
  }

  lemma NoFileYet()
    ensures Formatted().inodes == map[]
  {
  }

  /** What is in the partition when the file has been written. */
  lemma FileWritten(fs: Fs)
    requires WritePost(WithFile(), fs, 1, ZERO_FILE)
    ensures FsInv(fs) && 1 in fs.inodes && FileOk(fs, fs.inodes[1]) && Contents(fs, fs.inodes[1]) == ZERO_FILE
    ensures fs.inodes[1].size == |ZERO_FILE|
  {
    hide Formatted, Contents, Took, Owned, Untouched, BitmapOk, Reserved, SameOutside;
    ContentsLength(WithFile(), WithFile().inodes[1]);
    ContentsLength(fs, fs.inodes[1]);
    assert [] + ZERO_FILE == ZERO_FILE;
  }

  /** Sector 0 is not the file's, so the write left it alone, and the read returns its byte. */
  lemma ReadsOne(fs: Fs)
    requires WritePost(WithFile(), fs, 1, ZERO_FILE)
    ensures 1 in fs.inodes && Shape(fs.disk, fs.inodes[1]) && fs.inodes[1].size == |ZERO_FILE|
    ensures var r := ReadAt(fs.disk, fs.inodes[1], 0, 12 * 512);
            r.Data? && |r.bytes| == 12 * 512 && r.bytes[0] == 1
  {
    hide Contents, Took, Owned, Untouched, BitmapOk, Collected, ReadVia, Reserved;
    FileWritten(fs);
    var v := fs.inodes[1];
    NotSectorZero(fs, v);
    ReadsBootSector(fs, v, 0, 12 * 512);
    CollectedLength(fs.disk, v, 0, 12);
    ReadsJoin(fs.disk, Collected(fs.disk, v, 0, 12), 0, 12 * 512, 0);
  }

  lemma NotSectorZero(fs: Fs, v: Inode)
    requires FileOk(fs, v)
    ensures 0 !in Owned(fs.disk, v)
  {
    hide AllBlocks;
    if 0 in Owned(fs.disk, v) { OldIsUsed(fs, v, BlockCount(v), 0); }
  }

  /** A file is created, written and read from its start up to block 12: the bytes written are zero, and the
      first byte read is sector 0's. */
  method SkippedRead() returns (ghost states: seq<Fs>, r: ReadResult)
    ensures IsRun(states, [Create(1), Write(1, ZERO_FILE)])
    ensures FsInv(states[0]) && states[0].inodes == map[]
    ensures FsInv(states[2]) && 1 in states[2].inodes && Contents(states[2], states[2].inodes[1]) == ZERO_FILE
    ensures SkipsDirect(0, 12 * 512)
    ensures r == ReadAt(states[2].disk, states[2].inodes[1], 0, 12 * 512)
    ensures r.Data? && |r.bytes| == 12 * 512 && r.bytes[0] == 1
  {
    hide Formatted, WithFile, FsInv, FreeCount, ReadAt, CreatePost, WritePost, FileOk, Contents;
    FileCreated();
    var p := new Partition(WithFile());
    var file := new File(1, 0);
    var w := p.FileWrite(file, ZERO_FILE);
    states := [Formatted(), WithFile(), p.View()];
    FileWritten(p.View());
    ReadsOne(p.View());
    file.pos := 0;
    r := p.FileRead(file, 12 * 512);
  }
}
