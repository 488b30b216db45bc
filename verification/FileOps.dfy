/** fs/file.c and fs/inode.c on a mounted partition: append to a file, read it, release it.

    sys_malloc never returns NULL to these functions for the small buffers they ask for, and
    block_bitmap_alloc halts instead of failing, so an operation ends in its result or in a halt. */
module FileOps {
  import opened Seqs
  import opened Bits
  import opened Disk
  import opened FileLayout
  import opened FileGrow
  import opened FileWritePost
  import opened FileReading

  class Partition {
    var disk: seq<Sector>
    var used: seq<bool>
    const dataStart: nat
    var inodes: map<nat, Inode>

    function View(): Fs
      reads this
    {
      Fs(disk, used, dataStart, inodes)
    }

    constructor (fs: Fs)
      ensures View() == fs
    {
      disk, used, dataStart, inodes := fs.disk, fs.used, fs.dataStart, fs.inodes;
    }

    /** block_bitmap_alloc: the least free block; bitmap_scan halts on a full map. */
    method BlockBitmapAlloc() returns (lba: nat, halted: bool)
      modifies this`used
      ensures halted <==> FreeCount(old(used)) == 0
      ensures halted ==> used == old(used)
      ensures !halted ==>
                && dataStart <= lba < dataStart + |old(used)| && !old(used)[lba - dataStart]
                && (forall j :: 0 <= j < lba - dataStart ==> old(used)[j])
                && used == old(used)[lba - dataStart := true]
    {
      var index;
      index, halted, used := TakeBit(used);
      lba := dataStart + index;
    }

    /** One more block, with the bookkeeping of what is held. */
    method TakeBlock(ghost fs0: Fs, ghost ino: nat, ghost taken: set<nat>, ghost bl: seq<nat>, ghost tbl: nat)
      returns (lba: nat, halted: bool)
      requires BitmapOk(fs0) && Growing(fs0, View(), ino, taken) && ListOk(View(), bl, tbl)
      modifies this`used
      ensures halted <==> FreeCount(fs0.used) == |taken|
      ensures !halted ==>
                && lba !in taken && lba !in bl && lba != tbl
                && dataStart < lba < |disk| && lba < MAX_WORD
                && Growing(fs0, View(), ino, taken + {lba})
                && ListOk(View(), bl + [lba], tbl)
                && (tbl == 0 ==> ListOk(View(), bl, lba))
    {
      hide ListOk, BitmapOk, Took;
      ghost var before := View();
      lba, halted := BlockBitmapAlloc();
      FullCount(fs0, before, ino, taken);
      if !halted {
        TakeOne(fs0, before, ino, taken, bl, tbl, lba);
        assert View() == before.(used := before.used[lba - dataStart := true]);
      }
    }

    method SetSector(ino: nat, k: nat, lba: nat)
      requires ino in inodes && |inodes[ino].sectors| == 13 && k < 13
      modifies this`inodes
      ensures inodes == old(inodes)[ino := Inode(old(inodes)[ino].size, old(inodes)[ino].sectors[k := lba])]
    {
      var v := inodes[ino];
      inodes := inodes[ino := Inode(v.size, v.sectors[k := lba])];
    }

    /** Allocate data block idx and enter it in the inode if its slot is a direct one. */
    method TakeData(ghost fs0: Fs, ino: nat, idx: nat, ghost own0: set<nat>, ghost taken: set<nat>, ghost bl: seq<nat>,
                    ghost tbl: nat)
      returns (lba: nat, halted: bool)
      requires BitmapOk(fs0) && Growing(fs0, View(), ino, taken) && Holding(View(), ino, bl, tbl, own0, taken)
      requires |bl| == idx
      modifies this`used, this`inodes
      ensures halted <==> FreeCount(fs0.used) == |taken|
      ensures !halted ==>
                && lba !in taken && lba < MAX_WORD
                && Growing(fs0, View(), ino, taken + {lba})
                && Holding(View(), ino, bl + [lba], tbl, own0, taken + {lba})
    {
      hide ListOk, BitmapOk, Took;
      ghost var before := View();
      lba, halted := TakeBlock(fs0, ino, taken, bl, tbl);
      if halted { return; }
      ghost var between := View();
      if idx < 12 {
        assert inodes[ino].sectors[idx] == 0;   // the source's ASSERT
        SetSector(ino, idx, lba);
      }
      SameListOk(between, View(), bl + [lba], tbl);
      HoldMore(before, View(), ino, bl, tbl, own0, taken, lba);
    }

    /** The allocation loop that closes each growing case: data blocks |bl0| .. will. */
    method FillBlocks(ghost fs0: Fs, ino: nat, from: nat, will: nat, ghost own0: set<nat>, ghost taken0: set<nat>,
                      ghost bl0: seq<nat>, ghost tbl: nat, ghost lo: nat, all0: seq<nat>)
      returns (all: seq<nat>, halted: bool, ghost bl: seq<nat>, ghost taken: set<nat>)
      requires BitmapOk(fs0) && Growing(fs0, View(), ino, taken0) && Holding(View(), ino, bl0, tbl, own0, taken0)
      requires |bl0| == from <= will <= 139 && |all0| == 140
      requires lo <= from && all0[lo..from] == bl0[lo..] && forall i :: from <= i < 140 ==> all0[i] == 0
      modifies this`used, this`inodes
      ensures halted ==> FreeCount(fs0.used) < |taken0| + will - from
      ensures !halted ==>
                && Growing(fs0, View(), ino, taken) && Holding(View(), ino, bl, tbl, own0, taken)
                && |bl| == will && bl[..from] == bl0 && |taken| == |taken0| + will - from
                && |all| == 140 && all[lo..will] == bl[lo..] && forall i :: will <= i < 140 ==> all[i] == 0
    {
      hide Growing, Holding, BitmapOk, FreeCount;
      bl, taken, all := bl0, taken0, all0;
      var idx := from;
      while idx < will
        invariant from <= idx <= will && |all| == 140
        invariant Growing(fs0, View(), ino, taken) && Holding(View(), ino, bl, tbl, own0, taken)
        invariant |bl| == idx && bl[..from] == bl0
        invariant |taken| == |taken0| + idx - from
        invariant all[lo..idx] == bl[lo..]
        invariant forall i :: idx <= i < 140 ==> all[i] == 0
      {
        var lba, full := TakeData(fs0, ino, idx, own0, taken, bl, tbl);
        if full {
          return all, true, bl, taken;
        }
        ListPush(all, lo, idx, bl, lba);
        all := all[idx := lba];
        bl, taken := bl + [lba], taken + {lba};
        idx := idx + 1;
      }
      return all, false, bl, taken;
    }

    /** fs/file.c:302-325: only direct blocks are needed. */
    method GrowDirect(ino: nat, has: nat, will: nat, all0: seq<nat>) returns (all: seq<nat>, halted: bool)
      requires BitmapOk(View()) && ino in inodes && Reserved(View(), inodes[ino], has)
      requires 1 <= has < will <= 12 && all0 == seq(140, _ => 0)
      modifies this`used, this`inodes
      ensures halted <==> FreeCount(old(used)) < Needed(has, will)
      ensures !halted ==> |all| == 140 && Grown(old(View()), View(), ino, has, will)
      ensures !halted ==> all[has - 1..will] == AllBlocks(disk, inodes[ino])[has - 1..will]
    {
      hide AllBlocks, Growing, Holding, ListOk, BitmapOk, Decode, Reserved, Grown, OwnedBy, FreeCount, SameOutside;
      ghost var fs0 := View();
      BeginDirect(fs0, ino, has);
      ghost var bl0 := AllBlocks(disk, inodes[ino])[..has];
      ghost var own0 := OwnedBy(bl0, 0);
      all := all0[has - 1 := inodes[ino].sectors[has - 1]];
      assert all[has - 1..has] == bl0[has - 1..];
      ghost var bl, taken;
      all, halted, bl, taken := FillBlocks(fs0, ino, has, will, own0, {}, bl0, 0, has - 1, all);
      if !halted {
        TakenCount(fs0, View(), ino, taken);
        SameDisk(View());
        Finish(fs0, View(), View(), ino, has, bl, 0, taken);
      }
    }

    /** Allocate the table and enter it in the inode. */
    method TakeTable(ghost fs0: Fs, ino: nat, ghost own0: set<nat>, ghost bl: seq<nat>)
      returns (tbl: nat, halted: bool)
      requires BitmapOk(fs0) && Growing(fs0, View(), ino, {}) && Holding(View(), ino, bl, 0, own0, {})
      modifies this`used, this`inodes
      ensures halted <==> FreeCount(fs0.used) == 0
      ensures !halted ==>
                && tbl != 0 && tbl < |disk|
                && Growing(fs0, View(), ino, {tbl})
                && Holding(View(), ino, bl, tbl, own0, {tbl})
    {
      hide ListOk, BitmapOk, Took;
      ghost var before := View();
      tbl, halted := TakeBlock(fs0, ino, {}, bl, 0);
      if halted { return; }
      ghost var between := View();
      assert inodes[ino].sectors[12] == 0;   // the source's ASSERT
      SetSector(ino, 12, tbl);
      assert {} + {tbl} == {tbl};
      SameListOk(between, View(), bl, tbl);
      assert OwnedBy(bl, tbl) == OwnedBy(bl, 0) + {tbl};
    }

    /** ide_write of all_blocks+12 to the table's sector. */
    method WriteTable(tbl: nat, all: seq<nat>, ghost bl: seq<nat>)
      requires tbl < |disk| && |all| == 140 && ListOk(View(), bl, tbl)
      requires forall i :: 12 <= i < 140 ==> all[i] == if i < |bl| then bl[i] else 0
      modifies this`disk
      ensures disk == old(disk)[tbl := Encode(all[12..])]
      ensures TableIs(Decode(disk[tbl]), bl)
    {
      forall i | 12 <= i < 140 ensures all[i] < MAX_WORD {
        if i < |bl| { assert Allocated(View(), bl[i]); }
      }
      hide Encode, Decode, ListOk;
      disk := disk[tbl := Encode(all[12..])];
      DecodeEncode(all[12..]);
    }

    /** fs/file.c:326-363: the file outgrows its direct blocks. */
    method GrowAcross(ino: nat, has: nat, will: nat, all0: seq<nat>) returns (all: seq<nat>, halted: bool)
      requires BitmapOk(View()) && ino in inodes && Reserved(View(), inodes[ino], has)
      requires 1 <= has <= 12 < will <= 139 && all0 == seq(140, _ => 0)
      modifies this`used, this`inodes, this`disk
      ensures halted <==> FreeCount(old(used)) < Needed(has, will)
      ensures !halted ==> |all| == 140 && Grown(old(View()), View(), ino, has, will)
      ensures !halted ==> all[has - 1..will] == AllBlocks(disk, inodes[ino])[has - 1..will]
    {
      hide AllBlocks, Growing, Holding, ListOk, BitmapOk, Decode, Encode, Reserved, Grown, OwnedBy, FreeCount,
           SameOutside, TableIs;
      ghost var fs0 := View();
      BeginDirect(fs0, ino, has);
      ghost var bl0 := AllBlocks(disk, inodes[ino])[..has];
      ghost var own0 := OwnedBy(bl0, 0);
      all := all0[has - 1 := inodes[ino].sectors[has - 1]];
      assert all[has - 1..has] == bl0[has - 1..];
      var tbl;
      tbl, halted := TakeTable(fs0, ino, own0, bl0);
      if halted {
        return;
      }
      ghost var bl, taken;
      all, halted, bl, taken := FillBlocks(fs0, ino, has, will, own0, {tbl}, bl0, tbl, has - 1, all);
      if !halted {
        TakenCount(fs0, View(), ino, taken);
        TailIs(all, has - 1, bl);
        StoreTable(fs0, ino, has, bl, tbl, own0, taken, all);
      }
    }

    /** fs/file.c:364-388: the file already has a table. */
    method GrowIndirect(ino: nat, has: nat, will: nat, all0: seq<nat>) returns (all: seq<nat>, halted: bool)
      requires BitmapOk(View()) && ino in inodes && Reserved(View(), inodes[ino], has)
      requires 12 < has < will <= 139 && |all0| == 140
      modifies this`used, this`inodes, this`disk
      ensures halted <==> FreeCount(old(used)) < Needed(has, will)
      ensures !halted ==> |all| == 140 && Grown(old(View()), View(), ino, has, will)
      ensures !halted ==> all[has - 1..will] == AllBlocks(disk, inodes[ino])[has - 1..will]
    {
      hide AllBlocks, Growing, Holding, ListOk, BitmapOk, Decode, Encode, Grown, OwnedBy, FreeCount, SameOutside,
           TableIs, SlotsOk;
      ghost var fs0 := View();
      ghost var bl0 := AllBlocks(disk, inodes[ino])[..has];
      var tbl := inodes[ino].sectors[12];
      assert tbl != 0;   // the source's ASSERT
      ghost var own0 := OwnedBy(bl0, tbl);
      Begin(fs0, ino, has);
      Disassemble(fs0, inodes[ino], has);
      all := all0[..12] + Decode(disk[tbl]);
      assert all[12..] == Decode(disk[tbl]);
      TableTail(all, bl0);
      ghost var bl, taken;
      all, halted, bl, taken := FillBlocks(fs0, ino, has, will, own0, {}, bl0, tbl, 12, all);
      if !halted {
        TakenCount(fs0, View(), ino, taken);
        TailIs(all, 12, bl);
        StoreTable(fs0, ino, has, bl, tbl, own0, taken, all);
        assert all[has - 1..will] == all[12..will][has - 13..];
      }
    }

    /** Writing the table completes the growth. */
    method StoreTable(ghost fs0: Fs, ghost ino: nat, ghost has: nat, ghost bl: seq<nat>, tbl: nat,
                      ghost own0: set<nat>, ghost taken: set<nat>, all: seq<nat>)
      requires ino in fs0.inodes && has <= |bl| <= 139 && 12 < |bl| && tbl != 0 && |all| == 140
      requires Reserved(fs0, fs0.inodes[ino], has) && Growing(fs0, View(), ino, taken)
      requires AllBlocks(fs0.disk, fs0.inodes[ino])[..has] == bl[..has]
      requires own0 == OwnedBy(bl[..has], fs0.inodes[ino].sectors[12])
      requires Holding(View(), ino, bl, tbl, own0, taken)
      requires forall i :: 12 <= i < 140 ==> all[i] == if i < |bl| then bl[i] else 0
      modifies this`disk
      ensures ino in inodes
      ensures Grown(fs0, View(), ino, has, |bl|) && AllBlocks(disk, inodes[ino])[..|bl|] == bl
    {
      hide AllBlocks, Reserved, Grown, Decode, TableIs, Growing, ListOk, OwnedBy;
      ghost var fs := View();
      WriteTable(tbl, all, bl);
      assert View() == fs.(disk := disk);
      Finish(fs0, fs, View(), ino, has, bl, tbl, taken);
    }

    /** fs/file.c:264-389: reserve what the write needs and collect the blocks it will touch. */
    method CollectBlocks(ino: nat, has: nat, will: nat) returns (all: seq<nat>, halted: bool)
      requires BitmapOk(View()) && ino in inodes && Reserved(View(), inodes[ino], has)
      requires 1 <= has <= will <= 139
      modifies this`used, this`inodes, this`disk
      ensures halted <==> FreeCount(old(used)) < Needed(has, will)
      ensures !halted ==> |all| == 140 && Grown(old(View()), View(), ino, has, will)
      ensures !halted ==> all[has - 1..will] == AllBlocks(disk, inodes[ino])[has - 1..will]
    {
      hide AllBlocks, Grown, SlotsOk, ListOk, Decode, BitmapOk, FreeCount;
      all, halted := seq(140, _ => 0), false;
      if will == has {
        GrownRefl(View(), ino, has);
        if will <= 12 {
          all := all[has - 1 := inodes[ino].sectors[has - 1]];
          DirectSlot(View(), inodes[ino], has - 1);
        } else {
          assert inodes[ino].sectors[12] != 0;   // the source's ASSERT
          all := all[..12] + Decode(disk[inodes[ino].sectors[12]]);
          IndirectSlots(View(), inodes[ino], all);
        }
        assert all[has - 1..will] == [all[has - 1]];
      } else if will <= 12 {
        all, halted := GrowDirect(ino, has, will, all);
      } else if has <= 12 {
        all, halted := GrowAcross(ino, has, will, all);
      } else {
        all, halted := GrowIndirect(ino, has, will, all);
      }
    }

    /** One pass of the chunk loop: the part of `rest` that fits into the block at size/512. Only the
        first pass reads the block before it changes it. */
    method WriteChunk(file: File, rest: seq<byte>, all: seq<nat>, first: bool, ghost bl: seq<nat>) returns (chunk: nat)
      requires file.ino in inodes && |rest| > 0 && |all| == 140
      requires NoDup(bl) && forall i :: 0 <= i < |bl| ==> bl[i] < |disk|
      requires var size := inodes[file.ino].size;
               size / 512 < |bl| && |bl| <= 140 && all[size / 512] == bl[size / 512] && (!first ==> Aligned(size))
      modifies this`disk, this`inodes, file`pos
      ensures var size := old(inodes)[file.ino].size;
              && 0 < chunk <= |rest| && (chunk == |rest| || Aligned(size + chunk))
              && Filled(old(View()), View(), file.ino, bl, rest[..chunk])
              && (old(file.pos) == PosAfter(size) ==> file.pos == PosAfter(size + chunk))
    {
      hide BytesOf, PosAfter;
      var ioBuf: Sector := ZEROS;
      var size := inodes[file.ino].size;
      var secIdx := size / 512;
      var lba := all[secIdx];
      var off := size % 512;
      var left := 512 - off;
      chunk := if |rest| > left then left else |rest|;
      if first {
        ioBuf := disk[lba];
      }
      AppendChunk(disk, bl, size, rest[..chunk], Splice(ioBuf, off, rest[..chunk]));
      disk := disk[lba := Splice(ioBuf, off, rest[..chunk])];
      inodes := inodes[file.ino := Inode(size + chunk, inodes[file.ino].sectors)];
      file.pos := (file.pos + chunk) % 0x1_0000_0000;
      AddChunk(size, chunk);
      assert bl[size / 512] in SetOf(bl);
    }

    /** fs/file.c:393-420: copy the data block by block. */
    method WriteChunks(file: File, buf: seq<byte>, all: seq<nat>, ghost bl: seq<nat>)
      requires file.ino in inodes && |all| == 140 && |bl| <= 140
      requires NoDup(bl) && forall i :: 0 <= i < |bl| ==> bl[i] < |disk|
      requires |bl| == (inodes[file.ino].size + |buf|) / 512 + 1
      requires all[inodes[file.ino].size / 512..|bl|] == bl[inodes[file.ino].size / 512..]
      modifies this`disk, this`inodes, file`pos
      ensures Filled(old(View()), View(), file.ino, bl, buf)
      ensures file.pos == PosAfter(old(inodes)[file.ino].size + |buf|)
    {
      hide Filled, PosAfter, NoDup, Aligned;
      ghost var size0, fs1 := inodes[file.ino].size, View();
      var first, written := true, 0;
      PosIs(inodes[file.ino].size);
      file.pos := (inodes[file.ino].size - 1) % 0x1_0000_0000;
      FilledNone(fs1, file.ino, bl);
      while written < |buf|
        invariant written <= |buf| && Filled(fs1, View(), file.ino, bl, buf[..written])
        invariant first ==> written == 0
        invariant !first ==> written == |buf| || Aligned(size0 + written)
        invariant file.pos == PosAfter(size0 + written)
      {
        FilledSize(fs1, View(), file.ino, bl, buf[..written]);
        WithinBlocks(size0, written, |buf|, all, bl);
        ghost var before := View();
        var chunk := WriteChunk(file, buf[written..], all, first, bl);
        first := false;
        FilledMore(fs1, before, View(), file.ino, bl, buf[..written], buf[written..][..chunk]);
        assert buf[..written] + buf[written..][..chunk] == buf[..written + chunk];
        written := written + chunk;
      }
      assert buf[..written] == buf;
    }

    /** The first block of a file that was never written to (fs/file.c:265-277). */
    method FirstWrite(ino: nat) returns (halted: bool)
      requires FsInv(View()) && ino in inodes
      modifies this`used, this`inodes
      ensures var v0 := old(inodes)[ino];
              && BlockCount(v0) <= 139
              && (halted <==> BlockCount(v0) == 0 && FreeCount(old(used)) == 0)
              && (!halted ==> Started(old(View()), View(), ino, BlockCount(v0), v0.size / 512 + 1))
    {
      hide AllBlocks, ListOk, Grown, Owned, SlotsOk, FreeCount;
      halted := false;
      assert FileOk(View(), inodes[ino]);
      if inodes[ino].sectors[0] == 0 {
        ghost var fs0 := View();
        var lba;
        lba, halted := BlockBitmapAlloc();
        if !halted {
          inodes := inodes[ino := Inode(inodes[ino].size, inodes[ino].sectors[0 := lba])];
          FirstBlock(fs0, View(), ino, lba);
          assert lba - dataStart != 0;   // the source's ASSERT
        }
      }
    }

    /** file_write: append buf to the file. -1 if it would exceed 140 blocks; a halt if it needs the
        140th block or more free blocks than there are; otherwise every byte is written. */
    method FileWrite(file: File, buf: seq<byte>) returns (r: WriteResult)
      requires FsInv(View()) && file.ino in inodes && |buf| <= 0xc000_0000
      modifies this, file
      ensures var v0 := old(inodes)[file.ino];
              var total := v0.size + |buf|;
              && BlockCount(v0) <= total / 512 + 1
              && (r.Rejected? <==> total > 140 * 512)
              && (r.Halted? <==> total <= 140 * 512 &&
                                 (total / 512 + 1 >= 140 ||
                                  FreeCount(old(used)) < Needed(BlockCount(v0), total / 512 + 1)))
              && (r.Rejected? ==> View() == old(View()) && file.pos == old(file.pos))
              && (r.Written? ==>
                    && r.count == |buf|
                    && WritePost(old(View()), View(), file.ino, buf)
                    && file.pos == (total - 1) % 0x1_0000_0000)
    {
      hide AllBlocks, ListOk, Grown, Owned, SlotsOk, FreeCount, Took, WritePost, BytesOf, Filled, BitmapOk, PosAfter;
      ghost var fs0 := View();
      assert FileOk(fs0, inodes[file.ino]);
      ghost var n0 := BlockCount(inodes[file.ino]);
      var size0 := inodes[file.ino].size;
      if size0 + |buf| > BLOCK_SIZE * 140 {
        return Rejected;
      }
      var halted := FirstWrite(file.ino);
      if halted {
        return WriteResult.Halted;
      }
      ghost var fsF := View();
      var has := size0 / BLOCK_SIZE + 1;
      var will := (size0 + |buf|) / BLOCK_SIZE + 1;
      StartedOk(fs0, fsF, file.ino, n0, has);
      if !(will < 140) {
        return WriteResult.Halted;
      }
      var all;
      all, halted := CollectBlocks(file.ino, has, will);
      if halted {
        return WriteResult.Halted;
      }
      ghost var fs1 := View();
      StartedGrown(fs0, fsF, fs1, file.ino, n0, has, will);
      GrownList(fs0, fs1, file.ino, n0, will);
      ghost var bl := AllBlocks(disk, inodes[file.ino])[..will];
      assert all[has - 1..will] == bl[has - 1..];
      WriteChunks(file, buf, all, bl);
      FilledSize(fs1, View(), file.ino, bl, buf);
      assert Filled(fs1, View(), file.ino, bl, buf);
      WriteDone(fs0, fs1, View(), file.ino, n0, bl, buf);
      PosIs(size0 + |buf|);
      return Written(|buf|);
    }

    /** file_read: up to count bytes from the file position on, -1 at the end of the file. From a position
        behind the end it sets out to copy nearly 2^32 bytes, or halts behind the last block a file can have. */
    method FileRead(file: File, count: nat) returns (r: ReadResult)
      requires FsInv(View()) && file.ino in inodes && count <= 0xc000_0000 && file.pos < MAX_WORD
      modifies file`pos
      ensures var v := inodes[file.ino];
              && v.size < 139 * 512
              && (r.Halted? <==> old(file.pos) >= 139 * 512)
              && (r.Runaway? <==> v.size < old(file.pos) < 139 * 512)
              && (old(file.pos) <= v.size ==> r == ReadAt(disk, v, old(file.pos), count))
              && (r.AtEnd? <==> old(file.pos) == v.size && count > 0)
              && (r.Data? ==>
                    && |r.bytes| == (if count <= v.size - old(file.pos) then count else v.size - old(file.pos))
                    && ReadFrom(View(), v, old(file.pos), r.bytes))
      ensures file.pos == old(file.pos) + if r.Data? then |r.bytes| else 0
    {
      hide FsInv, FileOk, Decode, Collected, ReadVia, BlockCount, ReadFrom;
      var v := inodes[file.ino];
      InvFile(View(), file.ino);
      WritesFit(View(), v);
      WantedIs(v.size, file.pos, count);
      var size := count;
      if (file.pos + count) % MAX_WORD > v.size {
        size := (v.size - file.pos) % MAX_WORD;
        if size == 0 {
          return AtEnd;
        }
      }
      var start := file.pos / BLOCK_SIZE;
      var end := (file.pos + size) % MAX_WORD / BLOCK_SIZE;
      if !(start < 139 && end < 139) {
        return ReadResult.Halted;
      }
      if file.pos > v.size {
        return Runaway;
      }
      ReadIsFrom(View(), v, file.pos, size);
      var bytes := Fetch(file, v, size);
      return Data(bytes);
    }

    /** fs/file.c:477-545: collect the addresses, then copy. */
    method Fetch(file: File, v: Inode, size: nat) returns (bytes: seq<byte>)
      requires FileOk(View(), v) && file.pos + size <= v.size < 139 * 512
      modifies file`pos
      ensures bytes == ReadVia(disk, Collected(disk, v, old(file.pos) / 512, (old(file.pos) + size) / 512),
                               old(file.pos), size)
      ensures file.pos == old(file.pos) + |bytes|
    {
      hide FileOk, Decode, Collected, ReadVia, BlockCount;
      WritesFit(View(), v);
      InRange(View(), v, file.pos, size);
      var start, end := file.pos / BLOCK_SIZE, (file.pos + size) / BLOCK_SIZE;
      var all := CollectForRead(v, start, end);
      CollectedLength(disk, v, start, end);
      SlotsInRange(View(), v, start, end);
      bytes := ReadBlocks(file, all, size);
    }

    /** fs/file.c:515-545: copy the bytes block by block. */
    method ReadBlocks(file: File, all: seq<nat>, size: nat) returns (bytes: seq<byte>)
      requires |all| == 140 && file.pos + size <= 139 * 512
      requires forall i :: file.pos / 512 <= i <= (file.pos + size) / 512 ==> all[i] < |disk|
      modifies file`pos
      ensures bytes == ReadVia(disk, all, old(file.pos), size)
      ensures file.pos == old(file.pos) + |bytes| == old(file.pos) + size
    {
      hide ReadVia;
      ghost var pos0 := file.pos;
      bytes := [];
      ReadsJoin(disk, all, pos0, 0, 0);
      while |bytes| < size
        invariant |bytes| <= size && file.pos == pos0 + |bytes|
        invariant bytes == ReadVia(disk, all, pos0, |bytes|)
      {
        BetweenBlocks(pos0, file.pos, pos0 + size);
        var next := NextChunk(all, file.pos, size - |bytes|);
        ReadsJoin(disk, all, pos0, |bytes|, |next|);
        bytes := bytes + next;
        file.pos := file.pos + |next|;
      }
    }

    /** One pass of the read loop: what is wanted of the block at pos/512. */
    method NextChunk(all: seq<nat>, pos: nat, left: nat) returns (chunk: seq<byte>)
      requires |all| == 140 && left > 0 && pos + left <= 139 * 512 && all[pos / 512] < |disk|
      ensures 0 < |chunk| <= left
      ensures chunk == ReadVia(disk, all, pos, |chunk|)
    {
      var lba := all[pos / BLOCK_SIZE];
      var off := pos % BLOCK_SIZE;
      var secLeft := BLOCK_SIZE - off;
      var n := if left > secLeft then secLeft else left;
      ReadChunk(disk, all, pos, n);
      var ioBuf := disk[lba];
      return ioBuf[off..off + n];
    }

    /** fs/file.c:477-522: which block addresses file_read collects. */
    method CollectForRead(v: Inode, start: nat, end: nat) returns (all: seq<nat>)
      requires |v.sectors| == 13 && v.sectors[12] < |disk| && start <= end < 139
      requires end >= 12 ==> v.sectors[12] != 0
      ensures all == Collected(disk, v, start, end)
    {
      hide Decode;
      all := seq(140, _ => 0);
      if end == start {
        if end < 12 {
          all := all[start := v.sectors[start]];
        } else {
          all := all[..12] + Decode(disk[v.sectors[12]]);
        }
      } else if end < 12 {
        var idx := start;
        while idx <= end
          invariant start <= idx <= end + 1 && |all| == 140
          invariant forall i :: 0 <= i < 140 ==> all[i] == if start <= i < idx then v.sectors[i] else 0
        {
          all := all[idx := v.sectors[idx]];
          idx := idx + 1;
        }
      } else if start < 12 && end > 12 {
        var idx := start;
        while idx <= 12
          invariant start <= idx <= 13 && |all| == 140
          invariant forall i :: 0 <= i < 140 ==> all[i] == if start <= i < idx then v.sectors[i] else 0
        {
          all := all[idx := v.sectors[idx]];
          idx := idx + 1;
        }
        assert v.sectors[12] != 0;   // the source's ASSERT
        all := all[..12] + Decode(disk[v.sectors[12]]);
      } else {
        assert v.sectors[12] != 0;   // the source's ASSERT
        all := all[..12] + Decode(disk[v.sectors[12]]);
      }
      assert forall i :: 0 <= i < 140 ==> all[i] == Collected(disk, v, start, end)[i];
    }

    /** inode_release: clear the bits of the table and of every data block, then drop the inode. */
    method InodeRelease(ino: nat)
      requires FsInv(View()) && ino in inodes
      modifies this`used, this`inodes
      ensures ReleasePost(old(View()), View(), ino)
    {
      hide Decode, Contents, AllBlocks, Reserved, ListOk, Allocated, SetOf, NonZero, Owned, BitmapOk;
      ghost var fs0 := View();
      var v := inodes[ino];
      assert FileOk(fs0, v);
      var all := AllBlocks(disk, v);
      SlotsAllocated(fs0, v);
      OwnedSlots(fs0, v);
      ghost var own := Owned(disk, v);
      hide FsInv, FileOk, Blocks;
      ghost var table := if v.sectors[12] == 0 then {} else {v.sectors[12]};
      var cnt := 12;
      if v.sectors[12] != 0 {
        cnt := 140;
        used := used[v.sectors[12] - dataStart := false];
      }
      NonZeroNone(all);
      assert table + {} == table;
      var idx := 0;
      while idx < cnt
        invariant 0 <= idx <= cnt
        invariant Cleared(fs0.used, used, dataStart, table + SetOf(NonZero(all[..idx])))
        invariant inodes == old(inodes)
      {
        NonZeroNext(all, idx);
        if all[idx] != 0 {
          assert all[idx] - dataStart > 0;   // the source's ASSERT
          ClearMore(fs0.used, used, dataStart, table + SetOf(NonZero(all[..idx])), all[idx]);
          assert table + SetOf(NonZero(all[..idx])) + {all[idx]} == table + (SetOf(NonZero(all[..idx])) + {all[idx]});
          used := used[all[idx] - dataStart := false];
        }
        idx := idx + 1;
      }
      assert table + SetOf(NonZero(all[..cnt])) == own;
      inodes := inodes - {ino};
      ReleaseDone(fs0, View(), ino);
    }
  }

  datatype WriteResult = Written(count: nat) | Rejected | Halted

  predicate Aligned(size: nat) {
    size % 512 == 0
  }

  /** fd_pos after file_write left a file of the given size: size - 1 in 32 bits. */
  function PosAfter(size: nat): nat {
    (size - 1) % 0x1_0000_0000
  }

  class File {
    var pos: nat
    const ino: nat

    constructor (ino: nat, pos: nat)
      ensures this.ino == ino && this.pos == pos
    {
      this.ino, this.pos := ino, pos;
    }
  }

  lemma DirectSlot(fs: Fs, v: Inode, i: nat)
    requires |v.sectors| == 13 && v.sectors[12] < |fs.disk| && i < 12
    ensures v.sectors[i] == AllBlocks(fs.disk, v)[i]
    ensures AllBlocks(fs.disk, v)[i..i + 1] == [v.sectors[i]]
  {
  }

  lemma IndirectSlots(fs: Fs, v: Inode, all: seq<nat>)
    requires |v.sectors| == 13 && v.sectors[12] < |fs.disk| && v.sectors[12] != 0
    requires |all| == 140 && all[12..] == Decode(fs.disk[v.sectors[12]])
    ensures all[12..] == AllBlocks(fs.disk, v)[12..]
    ensures forall i :: 12 <= i < 140 ==> AllBlocks(fs.disk, v)[i..i + 1] == [all[i]]
  {
    hide Decode;
    forall i | 12 <= i < 140 ensures AllBlocks(fs.disk, v)[i..i + 1] == [all[i]] {
      assert all[i] == all[12..][i - 12] == AllBlocks(fs.disk, v)[12..][i - 12];
    }
  }

  lemma FilledNone(fs: Fs, ino: nat, bl: seq<nat>)
    requires ino in fs.inodes && fs.inodes[ino].size <= 512 * |bl| && forall i :: 0 <= i < |bl| ==> bl[i] < |fs.disk|
    ensures Filled(fs, fs, ino, bl, [])
  {
    var v := fs.inodes[ino];
    assert BytesOf(fs.disk, bl, v.size) == BytesOf(fs.disk, bl, v.size) + [];
  }

  lemma FilledSize(fs1: Fs, fs2: Fs, ino: nat, bl: seq<nat>, data: seq<byte>)
    requires Filled(fs1, fs2, ino, bl, data)
    ensures ino in fs1.inodes && ino in fs2.inodes && fs2.inodes[ino].size == fs1.inodes[ino].size + |data|
    ensures forall i :: 0 <= i < |bl| ==> bl[i] < |fs2.disk|
  {
  }

  /** Two chunks one after the other. */
  lemma FilledMore(fs1: Fs, fs2: Fs, fs3: Fs, ino: nat, bl: seq<nat>, data: seq<byte>, more: seq<byte>)
    requires Filled(fs1, fs2, ino, bl, data) && Filled(fs2, fs3, ino, bl, more)
    ensures Filled(fs1, fs3, ino, bl, data + more)
  {
    hide BytesOf, SetOf;
    MapTwice(fs1.inodes, fs2.inodes, fs3.inodes, ino);
    assert SameOutside(fs1.disk, fs3.disk, SetOf(bl));
  }

  lemma PosIs(size: nat)
    ensures PosAfter(size) == (size - 1) % 0x1_0000_0000
  {
  }

  /** A chunk that fills the block ends on a block boundary; the file position wraps at 32 bits. */
  lemma AddChunk(size: nat, chunk: nat)
    ensures chunk == 512 - size % 512 ==> Aligned(size + chunk)
    ensures (PosAfter(size) + chunk) % 0x1_0000_0000 == PosAfter(size + chunk)
  {
  }

  lemma WithinBlocks(size0: nat, written: nat, count: nat, all: seq<nat>, bl: seq<nat>)
    requires written < count && |bl| == (size0 + count) / 512 + 1 && |bl| <= |all|
    requires all[size0 / 512..|bl|] == bl[size0 / 512..]
    ensures size0 / 512 <= (size0 + written) / 512 < |bl|
    ensures all[(size0 + written) / 512] == bl[(size0 + written) / 512]
  {
    var k := (size0 + written) / 512;
    assert all[k] == all[size0 / 512..|bl|][k - size0 / 512];
  }

  lemma NonZeroNone(all: seq<nat>)
    ensures SetOf(NonZero(all[..0])) == {}
  {
    assert all[..0] == [];
  }

  lemma NonZeroNext(all: seq<nat>, idx: nat)
    requires idx < |all|
    ensures SetOf(NonZero(all[..idx + 1])) ==
            SetOf(NonZero(all[..idx])) + (if all[idx] == 0 then {} else {all[idx]})
  {
    assert all[..idx + 1] == all[..idx] + [all[idx]];
  }

  lemma ClearMore(used: seq<bool>, used': seq<bool>, dataStart: nat, gone: set<nat>, b: nat)
    requires Cleared(used, used', dataStart, gone) && dataStart <= b < dataStart + |used|
    ensures Cleared(used, used'[b - dataStart := false], dataStart, gone + {b})
  {
  }

  lemma BetweenBlocks(a: nat, b: nat, c: nat)
    requires a <= b <= c
    ensures a / 512 <= b / 512 <= c / 512
  {
  }
}
