/** What file_read (fs/file.c:441-549) returns, and when that is the file's own bytes. */
module FileReading {
  import opened Disk
  import opened FileLayout
  import opened FileGrow
  import opened FileWritePost

  datatype ReadResult = Data(bytes: seq<byte>) | AtEnd | Runaway | Halted

  /** The addresses file_read has in all_blocks when it reads blocks start..end: the table's words if
      block 12 or later is involved, and the direct blocks asked for, unless `end` is exactly 12. */
  function Collected(disk: seq<Sector>, v: Inode, start: nat, end: nat): seq<nat>
    requires |v.sectors| == 13 && v.sectors[12] < |disk|
  {
    seq(140, i requires 0 <= i < 140 =>
      if i >= 12 then if end >= 12 then Decode(disk[v.sectors[12]])[i - 12] else 0
      else if start <= i <= end && end != 12 then v.sectors[i]
      else 0)
  }

  /** The bytes found at positions pos .. pos+n through a list of block addresses; an address the disk
      does not have reads as zeros. */
  function ReadVia(disk: seq<Sector>, all: seq<nat>, pos: nat, n: nat): seq<byte>
    requires |all| == 140 && pos + n <= 139 * 512
  {
    seq(n, k requires 0 <= k < n =>
      if all[(pos + k) / 512] < |disk| then disk[all[(pos + k) / 512]][(pos + k) % 512] else 0)
  }

  /** file_read as a function of the disk, the inode, the position and the count asked for. */
  function ReadAt(disk: seq<Sector>, v: Inode, pos: nat, count: nat): ReadResult
    requires Shape(disk, v) && pos <= v.size
  {
    var n := if pos + count > v.size then v.size - pos else count;
    if pos + count > v.size && n == 0 then AtEnd
    else Data(ReadVia(disk, Collected(disk, v, pos / 512, (pos + n) / 512), pos, n))
  }

  /** The addresses file_read fails to collect: it starts in a direct block and ends exactly in block 12. */
  predicate SkipsDirect(pos: nat, n: nat) {
    pos / 512 < 12 && (pos + n) / 512 == 12
  }

  lemma BlockIndex(pos: nat, n: nat, k: nat)
    requires k < n
    ensures pos / 512 <= (pos + k) / 512 <= (pos + n) / 512
  {
  }

  /** The collected address of every block from start to end is the file's own, but in that one case. */
  lemma CollectedIsOwn(fs: Fs, v: Inode, start: nat, end: nat, i: nat)
    requires FileOk(fs, v) && start <= i <= end <= v.size / 512 && i < BlockCount(v)
    requires !(start < 12 && end == 12)
    ensures Collected(fs.disk, v, start, end)[i] == Blocks(fs.disk, v)[i]
  {
    hide Decode;
  }

  lemma ContentAt(fs: Fs, v: Inode, j: nat)
    requires FileOk(fs, v) && j < v.size
    ensures j / 512 < BlockCount(v) && fs.dataStart < Blocks(fs.disk, v)[j / 512] < |fs.disk|
    ensures Contents(fs, v)[j] == fs.disk[Blocks(fs.disk, v)[j / 512]][j % 512]
  {
    hide Decode, AllBlocks;
    ListRange(fs, Blocks(fs.disk, v), v.sectors[12]);
    assert Allocated(fs, Blocks(fs.disk, v)[j / 512]);
  }

  lemma WritesFit(fs: Fs, v: Inode)
    requires FileOk(fs, v)
    ensures Shape(fs.disk, v) && v.size < 139 * 512
    ensures v.sectors[0] == 0 ==> v.size == 0
  {
  }

  lemma InvFile(fs: Fs, n: nat)
    requires FsInv(fs) && n in fs.inodes
    ensures FileOk(fs, fs.inodes[n])
  {
  }

  /** Outside that case a read returns exactly the file's bytes from the position on. */
  lemma ReadsContents(fs: Fs, v: Inode, pos: nat, n: nat)
    requires FileOk(fs, v) && pos + n <= v.size
    requires !SkipsDirect(pos, n)
    ensures pos + n <= 139 * 512
    ensures ReadVia(fs.disk, Collected(fs.disk, v, pos / 512, (pos + n) / 512), pos, n) == Contents(fs, v)[pos..pos + n]
  {
    hide Decode, AllBlocks, Contents, Collected, ListOk;
    WritesFit(fs, v);
    var all := Collected(fs.disk, v, pos / 512, (pos + n) / 512);
    CollectedLength(fs.disk, v, pos / 512, (pos + n) / 512);
    ContentsLength(fs, v);
    forall k | 0 <= k < n ensures ReadVia(fs.disk, all, pos, n)[k] == Contents(fs, v)[pos + k] {
      BlockIndex(pos, n, k);
      ContentAt(fs, v, pos + k);
      CollectedIsOwn(fs, v, pos / 512, (pos + n) / 512, (pos + k) / 512);
    }
  }

  lemma CollectedLength(disk: seq<Sector>, v: Inode, start: nat, end: nat)
    requires |v.sectors| == 13 && v.sectors[12] < |disk|
    ensures |Collected(disk, v, start, end)| == 140
    ensures end == 12 ==> forall i :: 0 <= i < 12 ==> Collected(disk, v, start, end)[i] == 0
  {
    hide Decode;
  }

  lemma ContentsLength(fs: Fs, v: Inode)
    requires FileOk(fs, v)
    ensures |Contents(fs, v)| == v.size
  {
    hide AllBlocks;
  }

  /** In that case every byte of a direct block is taken from sector 0, the boot sector, and only those of block
      12 are the file's. */
  lemma ReadsBootSector(fs: Fs, v: Inode, pos: nat, n: nat)
    requires FileOk(fs, v) && pos + n <= v.size && SkipsDirect(pos, n)
    ensures 0 < n && pos + n <= 139 * 512 && |fs.disk| > 0
    ensures var r := ReadVia(fs.disk, Collected(fs.disk, v, pos / 512, (pos + n) / 512), pos, n);
            && |r| == n && |Contents(fs, v)| == v.size
            && forall k :: 0 <= k < n ==>
                 r[k] == if (pos + k) / 512 < 12 then fs.disk[0][(pos + k) % 512] else Contents(fs, v)[pos + k]
  {
    hide Decode, Collected, AllBlocks, Contents, FileOk;
    WritesFit(fs, v);
    ContentsLength(fs, v);
    var all := Collected(fs.disk, v, pos / 512, (pos + n) / 512);
    CollectedLength(fs.disk, v, pos / 512, (pos + n) / 512);
    ContentAt(fs, v, pos);
    forall k | 0 <= k < n
      ensures ReadVia(fs.disk, all, pos, n)[k] ==
              if (pos + k) / 512 < 12 then fs.disk[0][(pos + k) % 512] else Contents(fs, v)[pos + k]
    {
      BlockIndex(pos, n, k);
      ContentAt(fs, v, pos + k);
      if (pos + k) / 512 >= 12 { LastBlockIsOwn(fs, v, pos / 512); }
    }
  }

  /** Block 12 is collected from the table even then. */
  lemma LastBlockIsOwn(fs: Fs, v: Inode, start: nat)
    requires FileOk(fs, v) && start < 12 < BlockCount(v)
    ensures |Collected(fs.disk, v, start, 12)| == 140 && Collected(fs.disk, v, start, 12)[12] == Blocks(fs.disk, v)[12]
  {
    hide Decode;
  }

  /** The boot sector belongs to no file. */
  lemma BootSectorFrame(fs: Fs, v: Inode, z: Sector)
    requires FileOk(fs, v) && |fs.disk| > 0
    ensures FileOk(fs.(disk := fs.disk[0 := z]), v)
    ensures Contents(fs.(disk := fs.disk[0 := z]), v) == Contents(fs, v)
  {
    hide AllBlocks, BytesOf, SlotsOk;
    var fs' := fs.(disk := fs.disk[0 := z]);
    assert 0 !in Owned(fs.disk, v) by {
      if 0 in Owned(fs.disk, v) { OldIsUsed(fs, v, BlockCount(v), 0); }
    }
    Frame(fs, fs', v, {0});
  }

  /** The read is right whatever the boot sector holds. */
  ghost predicate ReadsRight(fs: Fs, v: Inode, pos: nat, n: nat)
    requires FileOk(fs, v) && pos + n <= v.size && |fs.disk| > 0
  {
    forall z: Sector :: ReadsRightWith(fs, v, pos, n, z)
  }

  ghost predicate ReadsRightWith(fs: Fs, v: Inode, pos: nat, n: nat, z: Sector)
    requires FileOk(fs, v) && pos + n <= v.size && |fs.disk| > 0
  {
    WritesFit(fs, v);
    ContentsLength(fs, v);
    ReadVia(fs.disk[0 := z], Collected(fs.disk[0 := z], v, pos / 512, (pos + n) / 512), pos, n)
    == Contents(fs, v)[pos..pos + n]
  }

  /** file_read is right exactly when it does not start in a direct block and end in block 12: the
      branch at fs/file.c:494 tests `> 12` where `>= 12` would be needed. */
  lemma ReadRightIff(fs: Fs, v: Inode, pos: nat, n: nat)
    requires FileOk(fs, v) && pos + n <= v.size && |fs.disk| > 0
    ensures ReadsRight(fs, v, pos, n) <==> !SkipsDirect(pos, n)
  {
    hide Contents, FileOk, Collected;
    if SkipsDirect(pos, n) {
      WrongByte(fs, v, pos, n);
    } else {
      forall z: Sector ensures ReadsRightWith(fs, v, pos, n, z) {
        BootSectorFrame(fs, v, z);
        ReadsContents(fs.(disk := fs.disk[0 := z]), v, pos, n);
      }
    }
  }

  lemma WrongByte(fs: Fs, v: Inode, pos: nat, n: nat)
    requires FileOk(fs, v) && pos + n <= v.size && |fs.disk| > 0 && SkipsDirect(pos, n)
    ensures !ReadsRight(fs, v, pos, n)
  {
    hide Contents, FileOk, Collected;
    ContentsLength(fs, v);
    WritesFit(fs, v);
    var b: byte := if Contents(fs, v)[pos] == 0 then 1 else 0;
    var z: Sector := seq(512, _ => b);
    BootSectorFrame(fs, v, z);
    ReadsBootSector(fs.(disk := fs.disk[0 := z]), v, pos, n);
    assert !ReadsRightWith(fs, v, pos, n, z);
  }

  /** What a read of `bytes` from pos on returns: the file's own bytes, but in that case sector 0's. */
  ghost predicate ReadFrom(fs: Fs, v: Inode, pos: nat, bytes: seq<byte>) {
    && FileOk(fs, v) && |Contents(fs, v)| == v.size && pos + |bytes| <= v.size && |fs.disk| > 0
    && (!SkipsDirect(pos, |bytes|) ==> bytes == Contents(fs, v)[pos..pos + |bytes|])
    && (SkipsDirect(pos, |bytes|) ==> forall k :: 0 <= k < |bytes| ==>
          bytes[k] == if (pos + k) / 512 < 12 then fs.disk[0][(pos + k) % 512] else Contents(fs, v)[pos + k])
  }

  lemma ReadIsFrom(fs: Fs, v: Inode, pos: nat, n: nat)
    requires FileOk(fs, v) && pos + n <= v.size
    ensures pos + n <= 139 * 512
    ensures var bytes := ReadVia(fs.disk, Collected(fs.disk, v, pos / 512, (pos + n) / 512), pos, n);
            |bytes| == n && ReadFrom(fs, v, pos, bytes)
  {
    hide Collected, Contents, FileOk, SkipsDirect;
    WritesFit(fs, v);
    ContentsLength(fs, v);
    InRange(fs, v, pos, n);
    CollectedLength(fs.disk, v, pos / 512, (pos + n) / 512);
    if SkipsDirect(pos, n) { ReadsBootSector(fs, v, pos, n); } else { ReadsContents(fs, v, pos, n); }
  }

  // ----- used by the loops of file_read -----

  /** The number of bytes file_read sets out to copy; the sum and the difference wrap at 32 bits. */
  function Wanted(size: nat, pos: nat, count: nat): nat {
    if (pos + count) % MAX_WORD > size then (size - pos) % MAX_WORD else count
  }

  /** They wrap only from a position behind the end. */
  lemma WantedIs(size: nat, pos: nat, count: nat)
    requires size < 139 * 512 && pos < MAX_WORD && count <= 0xc000_0000
    ensures var n := Wanted(size, pos, count);
            && (pos <= size ==> n == if pos + count > size then size - pos else count)
            && (pos <= size ==> pos / 512 < 139 && (pos + n) % MAX_WORD / 512 < 139)
            && (size < pos < 139 * 512 ==> pos / 512 < 139 && (pos + n) % MAX_WORD / 512 < 139)
            && (pos >= 139 * 512 ==> pos / 512 >= 139)
            && ((pos + count) % MAX_WORD > size && n == 0 <==> pos == size && count > 0)
  {
    if pos < 139 * 512 { assert (pos + count) % MAX_WORD == pos + count; }
    assert (size - pos) % MAX_WORD == if pos <= size then size - pos else MAX_WORD + size - pos;
    assert size < pos ==> (pos + (MAX_WORD + size - pos)) % MAX_WORD == size;
  }

  lemma InRange(fs: Fs, v: Inode, pos: nat, n: nat)
    requires FileOk(fs, v) && pos + n <= v.size
    ensures pos / 512 <= (pos + n) / 512 < 139 && pos + n <= 139 * 512
    ensures (pos + n) / 512 >= 12 ==> v.sectors[12] != 0
    ensures |fs.disk| > 0
  {
    hide AllBlocks, ListOk;
  }

  lemma SlotsInRange(fs: Fs, v: Inode, start: nat, end: nat)
    requires FileOk(fs, v) && start <= end <= v.size / 512
    ensures forall i :: start <= i <= end ==> Collected(fs.disk, v, start, end)[i] < |fs.disk|
  {
    hide Decode, AllBlocks, Collected;
    CollectedLength(fs.disk, v, start, end);
    forall i | start <= i <= end ensures Collected(fs.disk, v, start, end)[i] < |fs.disk| {
      if v.sectors[0] == 0 {
        EmptySlots(fs, v, start, end);
      } else if start < 12 && end == 12 {
        if i == 12 { CollectedTable(fs, v, start, end, 12); }
      } else {
        CollectedIsOwn(fs, v, start, end, i);
        ListRange(fs, Blocks(fs.disk, v), v.sectors[12]);
      }
    }
  }

  lemma CollectedTable(fs: Fs, v: Inode, start: nat, end: nat, i: nat)
    requires FileOk(fs, v) && 12 <= i <= end < BlockCount(v)
    ensures Collected(fs.disk, v, start, end)[i] < |fs.disk|
  {
    hide Decode;
    assert Allocated(fs, Blocks(fs.disk, v)[i]);
  }

  lemma EmptySlots(fs: Fs, v: Inode, start: nat, end: nat)
    requires FileOk(fs, v) && v.sectors[0] == 0 && start <= end <= v.size / 512
    ensures start == end == 0 && Collected(fs.disk, v, start, end)[0] == 0
  {
    hide Decode;
  }

  /** What one pass of the read loop copies. */
  lemma ReadChunk(disk: seq<Sector>, all: seq<nat>, pos: nat, chunk: nat)
    requires |all| == 140 && pos + chunk <= 139 * 512
    requires pos % 512 + chunk <= 512 && all[pos / 512] < |disk|
    ensures disk[all[pos / 512]][pos % 512..pos % 512 + chunk] == ReadVia(disk, all, pos, chunk)
  {
    forall k | 0 <= k < chunk
      ensures disk[all[pos / 512]][pos % 512..pos % 512 + chunk][k] == ReadVia(disk, all, pos, chunk)[k]
    {
      InChunk(pos, chunk, pos + k);
    }
  }

  lemma ReadsJoin(disk: seq<Sector>, all: seq<nat>, pos: nat, m: nat, n: nat)
    requires |all| == 140 && pos + m + n <= 139 * 512
    ensures |ReadVia(disk, all, pos, m)| == m
    ensures ReadVia(disk, all, pos, m) + ReadVia(disk, all, pos + m, n) == ReadVia(disk, all, pos, m + n)
  {
    var r := ReadVia(disk, all, pos, m) + ReadVia(disk, all, pos + m, n);
    forall k | 0 <= k < m + n ensures r[k] == ReadVia(disk, all, pos, m + n)[k] {
      if k >= m { assert pos + m + (k - m) == pos + k; }
    }
  }
}
