/** How fs/file.c lays a file out on the disk, and the byte sequence a file stands for. */
module FileLayout {
  import opened Seqs
  import opened Bits
  import opened Disk

  /** The fields of struct inode that say where a file is: i_size and i_sectors[13]. */
  datatype Inode = Inode(size: nat, sectors: seq<nat>)

  /** The mounted partition: its sectors, its block bitmap (bit i stands for sector dataStart + i), and
      the current inode of every regular file. */
  datatype Fs = Fs(disk: seq<Sector>, used: seq<bool>, dataStart: nat, inodes: map<nat, Inode>)

  /** Every slot of the 12 direct and 128 indirect block addresses. */
  function AllBlocks(disk: seq<Sector>, v: Inode): (bl: seq<nat>)
    requires |v.sectors| == 13 && v.sectors[12] < |disk|
    ensures |bl| == 140
  {
    v.sectors[..12] + if v.sectors[12] == 0 then seq(128, _ => 0) else Decode(disk[v.sectors[12]])
  }

  /** Blocks 0 .. size/512 hold the file; a file never written to has none. */
  function BlockCount(v: Inode): nat
    requires |v.sectors| == 13
  {
    if v.sectors[0] == 0 then 0 else v.size / 512 + 1
  }

  predicate Shape(disk: seq<Sector>, v: Inode) {
    && |v.sectors| == 13 && v.sectors[12] < |disk|
    && BlockCount(v) <= 139
    && (v.sectors[0] == 0 ==> v.size == 0)
  }

  /** The file's data blocks in order. */
  function Blocks(disk: seq<Sector>, v: Inode): (bl: seq<nat>)
    requires Shape(disk, v)
    ensures |bl| == BlockCount(v)
  {
    AllBlocks(disk, v)[..BlockCount(v)]
  }

  ghost function SetOf(bl: seq<nat>): set<nat> {
    set b | b in bl
  }

  /** The sectors that data blocks bl and table tbl (0 for none) occupy. */
  ghost function OwnedBy(bl: seq<nat>, tbl: nat): set<nat> {
    SetOf(bl) + (if tbl == 0 then {} else {tbl})
  }

  ghost function Owned(disk: seq<Sector>, v: Inode): set<nat>
    requires Shape(disk, v)
  {
    OwnedBy(Blocks(disk, v), v.sectors[12])
  }

  /** The byte sequence stored in the first `size` bytes of the blocks bl. */
  ghost function BytesOf(disk: seq<Sector>, bl: seq<nat>, size: nat): (r: seq<byte>)
    requires size <= 512 * |bl|
    requires forall i :: 0 <= i < |bl| ==> bl[i] < |disk|
  {
    seq(size, i requires 0 <= i < size => disk[bl[i / 512]][i % 512])
  }

  /** Sector b lies in the data area behind the root directory's block and is marked used. */
  predicate Allocated(fs: Fs, b: nat) {
    && fs.dataStart < b < |fs.disk| && b < MAX_WORD
    && b - fs.dataStart < |fs.used| && fs.used[b - fs.dataStart]
  }

  /** No sector serves twice, and all are marked used. */
  ghost predicate ListOk(fs: Fs, bl: seq<nat>, tbl: nat) {
    && NoDup(bl) && tbl !in bl
    && (forall i :: 0 <= i < |bl| ==> Allocated(fs, bl[i]))
    && (tbl != 0 ==> Allocated(fs, tbl))
  }

  /** Exactly the first n slots are filled. */
  ghost predicate SlotsOk(slots: seq<nat>, n: nat) {
    forall i :: 0 <= i < |slots| ==> (slots[i] != 0 <==> i < n)
  }

  /** The inode's first n slots, and they only, name blocks; the table exists iff n needs it. */
  ghost predicate Reserved(fs: Fs, v: Inode, n: nat) {
    && |v.sectors| == 13 && v.sectors[12] < |fs.disk| && n <= 139
    && SlotsOk(AllBlocks(fs.disk, v), n)
    && (v.sectors[12] != 0 <==> n > 12)
    && ListOk(fs, AllBlocks(fs.disk, v)[..n], v.sectors[12])
  }

  /** Between two file operations exactly the blocks 0 .. size/512 are reserved. */
  ghost predicate FileOk(fs: Fs, v: Inode) {
    Shape(fs.disk, v) && Reserved(fs, v, BlockCount(v))
  }

  ghost function Contents(fs: Fs, v: Inode): seq<byte>
    requires FileOk(fs, v)
  {
    BytesOf(fs.disk, Blocks(fs.disk, v), v.size)
  }

  /** Block 0 belongs to the root directory, and every clear bit stands for a sector of the disk. */
  ghost predicate BitmapOk(fs: Fs) {
    && |fs.used| > 0 && fs.used[0] && fs.dataStart < |fs.disk|
    && (forall i :: 0 <= i < |fs.used| && !fs.used[i] ==>
          fs.dataStart + i < |fs.disk| && fs.dataStart + i < MAX_WORD)
  }

  ghost predicate FsInv(fs: Fs) {
    && BitmapOk(fs)
    && (forall n :: n in fs.inodes ==> FileOk(fs, fs.inodes[n]))
    && (forall n, m :: n in fs.inodes && m in fs.inodes && n != m ==>
          Owned(fs.disk, fs.inodes[n]) !! Owned(fs.disk, fs.inodes[m]))
  }

  /** The two disks agree on every sector outside S. */
  ghost predicate SameOutside(d: seq<Sector>, d': seq<Sector>, S: set<nat>) {
    |d'| == |d| && forall b :: 0 <= b < |d| && b !in S ==> d'[b] == d[b]
  }

  /** The slots of a file are read off its inode and its own table sector. */
  lemma SlotsFrame(d: seq<Sector>, d': seq<Sector>, v: Inode)
    requires |v.sectors| == 13 && v.sectors[12] < |d| && |d'| == |d|
    requires v.sectors[12] != 0 ==> d'[v.sectors[12]] == d[v.sectors[12]]
    ensures AllBlocks(d', v) == AllBlocks(d, v)
  {
  }

  /** The bytes of a file are read off its own data blocks. */
  lemma BytesFrame(d: seq<Sector>, d': seq<Sector>, bl: seq<nat>, size: nat)
    requires size <= 512 * |bl| && |d'| == |d|
    requires forall i :: 0 <= i < |bl| ==> bl[i] < |d| && d'[bl[i]] == d[bl[i]]
    ensures BytesOf(d', bl, size) == BytesOf(d, bl, size)
  {
  }

  /** A file is what its own sectors say: changing other sectors and bits leaves it alone. */
  lemma Frame(fs: Fs, fs': Fs, v: Inode, S: set<nat>)
    requires FileOk(fs, v)
    requires fs'.dataStart == fs.dataStart && |fs'.used| == |fs.used|
    requires SameOutside(fs.disk, fs'.disk, S) && Owned(fs.disk, v) !! S
    requires forall b :: b in Owned(fs.disk, v) && Allocated(fs, b) ==> Allocated(fs', b)
    ensures FileOk(fs', v) && Owned(fs'.disk, v) == Owned(fs.disk, v)
    ensures Blocks(fs'.disk, v) == Blocks(fs.disk, v) && Contents(fs', v) == Contents(fs, v)
  {
    hide AllBlocks, BytesOf, Allocated;
    var bl := Blocks(fs.disk, v);
    assert v.sectors[12] != 0 ==> v.sectors[12] in Owned(fs.disk, v);
    AllocatedRange(fs, v.sectors[12]);
    SlotsFrame(fs.disk, fs'.disk, v);
    assert Blocks(fs'.disk, v) == bl;
    forall i | 0 <= i < |bl|
      ensures bl[i] < |fs.disk| && fs'.disk[bl[i]] == fs.disk[bl[i]] && Allocated(fs', bl[i])
    {
      assert bl[i] in Owned(fs.disk, v);
      AllocatedRange(fs, bl[i]);
    }
    BytesFrame(fs.disk, fs'.disk, bl, v.size);
  }

  lemma AllocatedRange(fs: Fs, b: nat)
    ensures Allocated(fs, b) ==> fs.dataStart < b < |fs.disk|
  {
  }

  // ----- free blocks -----

  /** From used to used' exactly the sectors in `taken` were allocated. */
  ghost predicate Took(used: seq<bool>, used': seq<bool>, dataStart: nat, taken: set<nat>) {
    && |used'| == |used|
    && (forall b :: b in taken ==> dataStart <= b < dataStart + |used| && !used[b - dataStart])
    && (forall i :: 0 <= i < |used| ==> (used'[i] <==> used[i] || dataStart + i in taken))
    && FreeCount(used) == FreeCount(used') + |taken|
  }

  lemma TookOneMore(used: seq<bool>, used': seq<bool>, dataStart: nat, taken: set<nat>, b: nat)
    requires Took(used, used', dataStart, taken)
    requires dataStart <= b < dataStart + |used| && !used'[b - dataStart]
    ensures b !in taken
    ensures Took(used, used'[b - dataStart := true], dataStart, taken + {b})
  {
    FreeCountSet(used', b - dataStart);
    assert !used[b - dataStart] && b !in taken;
    assert |taken + {b}| == |taken| + 1;
  }

  /** A fresh block extends a list of allocated ones. */
  lemma ListOkExtend(fs: Fs, fs': Fs, bl: seq<nat>, tbl: nat, b: nat)
    requires ListOk(fs, bl, tbl)
    requires |fs.used| > 0 && fs.used[0] && |fs'.disk| == |fs.disk| && fs'.dataStart == fs.dataStart
    requires fs.dataStart <= b < fs.dataStart + |fs.used| && !fs.used[b - fs.dataStart]
    requires b < |fs.disk| && b < MAX_WORD
    requires fs'.used == fs.used[b - fs.dataStart := true]
    ensures ListOk(fs', bl + [b], tbl)
    ensures tbl == 0 ==> ListOk(fs', bl, b)
  {
  }

  /** The inode sectors of a file with data blocks bl and table tbl. */
  predicate SectorsAre(v: Inode, bl: seq<nat>, tbl: nat) {
    && |v.sectors| == 13 && v.sectors[12] == tbl
    && forall i :: 0 <= i < 12 ==> v.sectors[i] == if i < |bl| then bl[i] else 0
  }

  /** The words of the table of a file with data blocks bl. */
  predicate TableIs(ws: seq<nat>, bl: seq<nat>) {
    |ws| == 128 && forall i :: 0 <= i < 128 ==> ws[i] == if 12 + i < |bl| then bl[12 + i] else 0
  }

  /** Inode and table written as above represent the list bl. */
  lemma Assemble(fs: Fs, v: Inode, bl: seq<nat>, tbl: nat)
    requires 0 < |bl| <= 139 && tbl < |fs.disk| && SectorsAre(v, bl, tbl) && ListOk(fs, bl, tbl)
    requires tbl != 0 <==> |bl| > 12
    requires tbl != 0 ==> TableIs(Decode(fs.disk[tbl]), bl)
    ensures Reserved(fs, v, |bl|) && AllBlocks(fs.disk, v)[..|bl|] == bl
  {
    hide Decode;
    var all := AllBlocks(fs.disk, v);
    forall i | 0 <= i < 140 ensures all[i] == if i < |bl| then bl[i] else 0 {
      if i >= 12 && tbl != 0 { assert all[i] == Decode(fs.disk[tbl])[i - 12]; }
    }
    assert all[..|bl|] == bl;
    assert forall i :: 0 <= i < |bl| ==> Allocated(fs, bl[i]);
  }

  /** ... and a represented list is written that way. */
  lemma Disassemble(fs: Fs, v: Inode, n: nat)
    requires Reserved(fs, v, n)
    ensures SectorsAre(v, AllBlocks(fs.disk, v)[..n], v.sectors[12])
    ensures v.sectors[12] != 0 ==> TableIs(Decode(fs.disk[v.sectors[12]]), AllBlocks(fs.disk, v)[..n])
  {
    hide Decode;
    var all := AllBlocks(fs.disk, v);
    assert forall i :: 0 <= i < 12 ==> all[i] == v.sectors[i];
    if v.sectors[12] != 0 {
      assert forall i :: 0 <= i < 128 ==> all[12 + i] == Decode(fs.disk[v.sectors[12]])[i];
    }
  }

  /** Writing the next chunk of data into block size/512 appends it to the file's bytes. */
  lemma AppendChunk(disk: seq<Sector>, bl: seq<nat>, size: nat, data: seq<byte>, s: Sector)
    requires size % 512 + |data| <= 512 && size / 512 < |bl|
    requires NoDup(bl) && forall i :: 0 <= i < |bl| ==> bl[i] < |disk|
    requires forall i :: 0 <= i < size % 512 ==> s[i] == disk[bl[size / 512]][i]
    requires forall i :: size % 512 <= i < size % 512 + |data| ==> s[i] == data[i - size % 512]
    ensures size + |data| <= 512 * |bl|
    ensures BytesOf(disk[bl[size / 512] := s], bl, size + |data|) == BytesOf(disk, bl, size) + data
  {
    var k, off := size / 512, size % 512;
    var disk' := disk[bl[k] := s];
    forall j | 0 <= j < size + |data|
      ensures BytesOf(disk', bl, size + |data|)[j] == (BytesOf(disk, bl, size) + data)[j]
    {
      InChunk(size, |data|, j);
      if j / 512 != k { assert bl[j / 512] != bl[k]; }
    }
  }

  lemma InChunk(size: nat, c: nat, j: nat)
    requires size % 512 + c <= 512 && j < size + c
    ensures j / 512 <= size / 512
    ensures j >= size ==> j / 512 == size / 512 && j % 512 == size % 512 + (j - size)
    ensures j < size && j / 512 == size / 512 ==> j % 512 < size % 512
  {
  }
}
