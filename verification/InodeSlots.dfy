/** The inode table of fs/inode.c: 76-byte slots packed into sectors, some across a sector boundary. */
module InodeSlots {
  import opened Disk

  const INODE_SIZE: nat := 76
  const MAX_INODES: nat := 4096

  /** struct inode; the list tag is its two links. */
  datatype Inode = Inode(no: nat, size: nat, opens: nat, deny: nat, sectors: seq<nat>, prev: nat, next: nat)

  predicate Fits(v: Inode) {
    && v.no < MAX_WORD && v.size < MAX_WORD && v.opens < MAX_WORD && v.deny < MAX_WORD
    && |v.sectors| == 13 && (forall i :: 0 <= i < 13 ==> v.sectors[i] < MAX_WORD)
    && v.prev < MAX_WORD && v.next < MAX_WORD
  }

  function WordsOf(v: Inode): (ws: seq<nat>)
    requires |v.sectors| == 13
    ensures |ws| == 19
  {
    [v.no, v.size, v.opens, v.deny] + v.sectors + [v.prev, v.next]
  }

  function OfWords(ws: seq<nat>): Inode
    requires |ws| == 19
  {
    Inode(ws[0], ws[1], ws[2], ws[3], ws[4..17], ws[17], ws[18])
  }

  /** The bytes of an inode in memory. */
  function Bytes(v: Inode): (b: seq<byte>)
    requires |v.sectors| == 13
    ensures |b| == INODE_SIZE
  {
    var ws := WordsOf(v);
    seq(INODE_SIZE, i requires 0 <= i < INODE_SIZE => ByteOf(ws[i / 4], i % 4))
  }

  function OfBytes(b: seq<byte>): Inode
    requires |b| == INODE_SIZE
  {
    OfWords(seq(19, i requires 0 <= i < 19 => Word(b[4 * i], b[4 * i + 1], b[4 * i + 2], b[4 * i + 3])))
  }

  /** Little-endian words in the order of the struct: number, size, count, lock, thirteen addresses, two links. */
  lemma BytesLayout(v: Inode, b: seq<byte>)
    requires Fits(v) && b == Bytes(v)
    ensures forall k :: 0 <= k < 4 ==>
              && b[k] == ByteOf(v.no, k) && b[4 + k] == ByteOf(v.size, k)
              && b[8 + k] == ByteOf(v.opens, k) && b[12 + k] == ByteOf(v.deny, k)
              && b[68 + k] == ByteOf(v.prev, k) && b[72 + k] == ByteOf(v.next, k)
    ensures forall i, k :: 0 <= i < 13 && 0 <= k < 4 ==> b[16 + 4 * i + k] == ByteOf(v.sectors[i], k)
  {
    hide ByteOf;
    forall i, k | 0 <= i < 13 && 0 <= k < 4 ensures b[16 + 4 * i + k] == ByteOf(v.sectors[i], k) {
      QuarterIndex(4 + i, k);
    }
  }

  lemma BytesRoundTrip(v: Inode)
    requires Fits(v)
    ensures OfBytes(Bytes(v)) == v
  {
    hide ByteOf, Word;
    var ws, b := WordsOf(v), Bytes(v);
    var us := seq(19, i requires 0 <= i < 19 => Word(b[4 * i], b[4 * i + 1], b[4 * i + 2], b[4 * i + 3]));
    forall i | 0 <= i < 19 ensures us[i] == ws[i] {
      QuarterIndex(i, 0);
      QuarterIndex(i, 1);
      QuarterIndex(i, 2);
      QuarterIndex(i, 3);
      WordBytes(ws[i]);
    }
    assert us == ws;
    assert ws[4..17] == v.sectors;
  }

  // ----- the table as one sequence of bytes -----

  function Flat(disk: seq<Sector>): (f: seq<byte>)
    ensures |f| == 512 * |disk|
  {
    seq(512 * |disk|, i requires 0 <= i < 512 * |disk| => disk[i / 512][i % 512])
  }

  /** The sectors of the inode table, and the one behind, which an inode at the very end drags in. */
  predicate TableFits(disk: seq<Sector>) {
    |disk| == MAX_INODES * INODE_SIZE / 512 + 1
  }

  function SlotBytes(disk: seq<Sector>, n: nat): (b: seq<byte>)
    requires TableFits(disk) && n < MAX_INODES
    ensures |b| == INODE_SIZE
  {
    Flat(disk)[INODE_SIZE * n..INODE_SIZE * n + INODE_SIZE]
  }

  /** The inode stored in slot n. */
  function Stored(disk: seq<Sector>, n: nat): Inode
    requires TableFits(disk) && n < MAX_INODES
  {
    OfBytes(SlotBytes(disk, n))
  }

  function Patched(f: seq<byte>, off: nat, data: seq<byte>): (r: seq<byte>)
    requires off + |data| <= |f|
    ensures |r| == |f|
    ensures forall i :: 0 <= i < |f| ==> r[i] == if off <= i < off + |data| then data[i - off] else f[i]
  {
    f[..off] + data + f[off + |data|..]
  }

  /** Where inode_locate says slot n lies. */
  datatype Position = Position(twoSec: bool, sector: nat, off: nat)

  function Located(n: nat): Position {
    Position(512 - INODE_SIZE * n % 512 <= INODE_SIZE, INODE_SIZE * n / 512, INODE_SIZE * n % 512)
  }

  lemma LocatedFits(n: nat)
    requires n < MAX_INODES
    ensures 512 * Located(n).sector + Located(n).off == INODE_SIZE * n
    ensures Located(n).sector + 1 < MAX_INODES * INODE_SIZE / 512 + 1
    ensures !Located(n).twoSec ==> Located(n).off + INODE_SIZE < 512
    ensures Located(n).off < 512
  {
  }

  /** Reading one or two sectors reads a stretch of the table. */
  function Read(disk: seq<Sector>, sector: nat, count: nat): (buf: seq<byte>)
    requires 1 <= count <= 2 && sector + count <= |disk|
    ensures |buf| == 512 * count
  {
    var first: seq<byte> := disk[sector];
    if count == 1 then first else first + disk[sector + 1]
  }

  function Written(disk: seq<Sector>, sector: nat, count: nat, buf: seq<byte>): (disk': seq<Sector>)
    requires 1 <= count <= 2 && sector + count <= |disk| && |buf| == 512 * count
    ensures |disk'| == |disk|
  {
    if count == 1 then disk[sector := buf] else disk[sector := buf[..512]][sector + 1 := buf[512..]]
  }

  lemma ReadIs(disk: seq<Sector>, sector: nat, count: nat, i: nat)
    requires 1 <= count <= 2 && sector + count <= |disk| && i < 512 * count
    ensures 512 * sector + i < |Flat(disk)| && Read(disk, sector, count)[i] == Flat(disk)[512 * sector + i]
  {
    SectorIndex(sector, i);
  }

  lemma SectorIndex(sector: nat, i: nat)
    requires i < 1024
    ensures (512 * sector + i) / 512 == sector + i / 512 && (512 * sector + i) % 512 == i % 512
  {
  }

  /** Writing them back writes that stretch and nothing else. */
  lemma WrittenIs(disk: seq<Sector>, sector: nat, count: nat, buf: seq<byte>)
    requires 1 <= count <= 2 && sector + count <= |disk| && |buf| == 512 * count
    ensures Flat(Written(disk, sector, count, buf)) == Patched(Flat(disk), 512 * sector, buf)
  {
    var f, g := Flat(Written(disk, sector, count, buf)), Patched(Flat(disk), 512 * sector, buf);
    forall i | 0 <= i < |f| ensures f[i] == g[i] {
      var s := i / 512;
      assert i == 512 * s + i % 512;
      if s == sector || (count == 2 && s == sector + 1) {
        SectorIndex(sector, i - 512 * sector);
      } else {
        assert Written(disk, sector, count, buf)[s] == disk[s];
      }
    }
  }

  /** Splicing data into what was read and writing it back patches the table at the data's place. */
  lemma SpliceIs(disk: seq<Sector>, sector: nat, count: nat, off: nat, data: seq<byte>)
    requires 1 <= count <= 2 && sector + count <= |disk| && off + |data| <= 512 * count
    ensures var buf := Patched(Read(disk, sector, count), off, data);
            512 * sector + off + |data| <= |Flat(disk)|
            && Flat(Written(disk, sector, count, buf)) == Patched(Flat(disk), 512 * sector + off, data)
  {
    var buf := Patched(Read(disk, sector, count), off, data);
    WrittenIs(disk, sector, count, buf);
    hide Read, Written, Flat;
    var f, g := Patched(Flat(disk), 512 * sector, buf), Patched(Flat(disk), 512 * sector + off, data);
    forall i | 0 <= i < |Flat(disk)| ensures f[i] == g[i] {
      if 512 * sector <= i < 512 * sector + 512 * count { ReadIs(disk, sector, count, i - 512 * sector); }
    }
    assert f == g;
  }

  /** Patching slot n changes that slot's bytes and no other slot's. */
  lemma PatchSlot(disk: seq<Sector>, disk': seq<Sector>, n: nat, data: seq<byte>, m: nat)
    requires TableFits(disk) && TableFits(disk') && n < MAX_INODES && m < MAX_INODES && |data| == INODE_SIZE
    requires INODE_SIZE * n + INODE_SIZE <= |Flat(disk)|
    requires Flat(disk') == Patched(Flat(disk), INODE_SIZE * n, data)
    ensures SlotBytes(disk', m) == if m == n then data else SlotBytes(disk, m)
  {
    hide Flat;
    SlotsApart(n, m);
  }

  lemma SlotsApart(n: nat, m: nat)
    ensures n < m ==> INODE_SIZE * n + INODE_SIZE <= INODE_SIZE * m
    ensures m < n ==> INODE_SIZE * m + INODE_SIZE <= INODE_SIZE * n
  {
  }

  /** What inode_sync puts on the disk: the fields that mean something there. */
  function Pure(v: Inode): Inode {
    v.(opens := 0, deny := 0, prev := 0, next := 0)
  }

  class Table {
    var disk: seq<Sector>

    constructor (disk: seq<Sector>)
      ensures this.disk == disk
    {
      this.disk := disk;
    }

    /** inode_locate. */
    method Locate(n: nat) returns (pos: Position)
      requires n < MAX_INODES
      ensures pos == Located(n)
      ensures 512 * pos.sector + pos.off == INODE_SIZE * n && pos.off < 512
      ensures pos.twoSec <==> pos.off + INODE_SIZE >= 512
    {
      var offSize := n * INODE_SIZE;
      var left := 512 - offSize % 512;
      return Position(!(left > INODE_SIZE), offSize / 512, offSize % 512);
    }

    /** inode_sync. The number is first cut to eight bits. */
    method Sync(v: Inode)
      requires TableFits(disk) && Fits(Pure(v))
      modifies this
      ensures disk == Synced(old(disk), v)
      ensures var u := Stored(disk, v.no % 256);
              && u.no == v.no && u.size == v.size && u.sectors == v.sectors
              && u.opens == 0 && u.deny == 0 && u.prev == 0 && u.next == 0
    {
      SyncedSlots(disk, v);
      hide Synced, Stored;
      var pure := v.(opens := 0, deny := 0, prev := 0, next := 0);
      Put(v.no % 256, Bytes(pure));
    }

    /** Read the sectors of slot n, put 76 bytes into them and write them back. */
    method Put(n: nat, data: seq<byte>)
      requires TableFits(disk) && n < MAX_INODES && |data| == INODE_SIZE
      modifies this
      ensures disk == Spliced(old(disk), n, data)
    {
      LocatedFits(n);
      var pos := Locate(n);
      var count := if pos.twoSec then 2 else 1;
      var buf := Read(disk, pos.sector, count);
      buf := buf[..pos.off] + data + buf[pos.off + INODE_SIZE..];
      disk := Written(disk, pos.sector, count, buf);
    }

    /** The reading half of inode_open. */
    method Load(n: nat) returns (v: Inode)
      requires TableFits(disk) && n < MAX_INODES
      ensures v == Stored(disk, n)
    {
      var pos := Locate(n);
      LocatedFits(n);
      var count := if pos.twoSec then 2 else 1;
      var buf := Read(disk, pos.sector, count);
      SlotRead(disk, n, count);
      return OfBytes(buf[pos.off..pos.off + INODE_SIZE]);
    }

    /** inode_delete. */
    method Delete(n: nat)
      requires TableFits(disk) && n < MAX_INODES
      modifies this
      ensures disk == Spliced(old(disk), n, seq(INODE_SIZE, _ => 0))
    {
      Put(n, seq(INODE_SIZE, _ => 0));
    }

    /** Syncing an inode and loading its number gives its fields back. */
    method SyncThenLoad(v: Inode) returns (u: Inode)
      requires TableFits(disk) && Fits(Pure(v)) && v.no < 256
      modifies this
      ensures TableFits(disk) && u.no == v.no && u.size == v.size && u.sectors == v.sectors
      ensures u.opens == 0 && u.deny == 0 && u.prev == 0 && u.next == 0
      ensures forall m :: 0 <= m < MAX_INODES && m != v.no ==> SlotBytes(disk, m) == SlotBytes(old(disk), m)
    {
      hide SlotBytes, Synced, Flat, OfBytes, Located;
      SyncedSlots(disk, v);
      Sync(v);
      u := Load(v.no);
    }
  }

  /** The bytes of slot n in the sectors read for it. */
  lemma SlotRead(disk: seq<Sector>, n: nat, count: nat)
    requires TableFits(disk) && n < MAX_INODES && count == if Located(n).twoSec then 2 else 1
    ensures Located(n).sector + count <= |disk| && Located(n).off + INODE_SIZE <= 512 * count
    ensures Read(disk, Located(n).sector, count)[Located(n).off..Located(n).off + INODE_SIZE] == SlotBytes(disk, n)
  {
    LocatedFits(n);
    hide Flat;
    var pos := Located(n);
    var b, c := Read(disk, pos.sector, count)[pos.off..pos.off + INODE_SIZE], SlotBytes(disk, n);
    forall i | 0 <= i < INODE_SIZE ensures b[i] == c[i] {
      ReadIs(disk, pos.sector, count, pos.off + i);
    }
  }

  /** The table with slot n overwritten through the sectors it lies in. */
  function Spliced(disk: seq<Sector>, n: nat, data: seq<byte>): (disk': seq<Sector>)
    requires TableFits(disk) && n < MAX_INODES && |data| == INODE_SIZE
    ensures TableFits(disk')
  {
    LocatedFits(n);
    var pos := Located(n);
    var count := if pos.twoSec then 2 else 1;
    Written(disk, pos.sector, count, Patched(Read(disk, pos.sector, count), pos.off, data))
  }

  function Synced(disk: seq<Sector>, v: Inode): (disk': seq<Sector>)
    requires TableFits(disk) && Fits(Pure(v))
    ensures TableFits(disk')
  {
    Spliced(disk, v.no % 256, Bytes(Pure(v)))
  }

  /** Slot n gets the bytes; every other slot, and what lies behind the table, keeps its own. */
  lemma SplicedSlots(disk: seq<Sector>, n: nat, data: seq<byte>)
    requires TableFits(disk) && n < MAX_INODES && |data| == INODE_SIZE
    ensures SlotBytes(Spliced(disk, n, data), n) == data
    ensures forall m :: 0 <= m < MAX_INODES && m != n ==> SlotBytes(Spliced(disk, n, data), m) == SlotBytes(disk, m)
    ensures Flat(Spliced(disk, n, data))[MAX_INODES * INODE_SIZE..] == Flat(disk)[MAX_INODES * INODE_SIZE..]
  {
    hide Flat, SlotBytes;
    LocatedFits(n);
    var pos := Located(n);
    var disk' := Spliced(disk, n, data);
    SpliceIs(disk, pos.sector, if pos.twoSec then 2 else 1, pos.off, data);
    hide Spliced;
    forall m | 0 <= m < MAX_INODES ensures SlotBytes(disk', m) == if m == n then data else SlotBytes(disk, m) {
      PatchSlot(disk, disk', n, data, m);
    }
    BehindTable(disk, disk', n, data);
  }

  /** A synced inode lands in slot no % 256, and no other slot changes. */
  lemma SyncedSlots(disk: seq<Sector>, v: Inode)
    requires TableFits(disk) && Fits(Pure(v))
    ensures Stored(Synced(disk, v), v.no % 256) == Pure(v)
    ensures var u := Stored(Synced(disk, v), v.no % 256);
            && u.no == v.no && u.size == v.size && u.sectors == v.sectors
            && u.opens == 0 && u.deny == 0 && u.prev == 0 && u.next == 0
    ensures forall m :: 0 <= m < MAX_INODES && m != v.no % 256 ==>
              SlotBytes(Synced(disk, v), m) == SlotBytes(disk, m)
  {
    hide Spliced, SlotBytes, Bytes;
    SplicedSlots(disk, v.no % 256, Bytes(Pure(v)));
    BytesRoundTrip(Pure(v));
  }

  lemma BehindTable(disk: seq<Sector>, disk': seq<Sector>, n: nat, data: seq<byte>)
    requires TableFits(disk) && TableFits(disk') && n < MAX_INODES && |data| == INODE_SIZE
    requires INODE_SIZE * n + INODE_SIZE <= |Flat(disk)|
    requires Flat(disk') == Patched(Flat(disk), INODE_SIZE * n, data)
    ensures Flat(disk')[MAX_INODES * INODE_SIZE..] == Flat(disk)[MAX_INODES * INODE_SIZE..]
  {
    hide Flat;
  }

  /** An inode is found under its own number after a sync, whatever was on the disk, exactly if the number
      is below 256. */
  lemma SyncRightIff(v: Inode)
    requires Fits(Pure(v)) && v.no < MAX_INODES
    ensures (forall disk :: TableFits(disk) ==>
               var u := Stored(Synced(disk, v), v.no); u.no == v.no && u.size == v.size && u.sectors == v.sectors)
            <==> v.no < 256
  {
    hide Synced, Stored;
    if v.no < 256 {
      forall disk: seq<Sector> | TableFits(disk)
        ensures var u := Stored(Synced(disk, v), v.no); u.no == v.no && u.size == v.size && u.sectors == v.sectors
      {
        SyncedSlots(disk, v);
      }
    } else {
      var disk := BlankTable();
      BlankSlot(v.no);
      SyncedOther(disk, v);
      assert Stored(Synced(disk, v), v.no).no != v.no;
    }
  }

  /** For a larger number the slot of that number is not written, and another inode's is. */
  lemma SyncedOther(disk: seq<Sector>, v: Inode)
    requires TableFits(disk) && Fits(Pure(v)) && 256 <= v.no < MAX_INODES
    ensures Stored(Synced(disk, v), v.no) == Stored(disk, v.no)
    ensures Stored(Synced(disk, v), v.no % 256) == Pure(v)
  {
    SyncedSlots(disk, v);
    hide Synced, SlotBytes;
  }

  function BlankTable(): (disk: seq<Sector>)
    ensures TableFits(disk)
  {
    seq(MAX_INODES * INODE_SIZE / 512 + 1, _ => ZEROS)
  }

  /** What is stored is made of words. */
  lemma StoredFits(disk: seq<Sector>, n: nat)
    requires TableFits(disk) && n < MAX_INODES
    ensures Fits(Stored(disk, n))
  {
    hide Flat;
    var b := SlotBytes(disk, n);
    hide SlotBytes;
    var ws := seq(19, i requires 0 <= i < 19 => Word(b[4 * i], b[4 * i + 1], b[4 * i + 2], b[4 * i + 3]));
    assert forall i :: 0 <= i < 19 ==> ws[i] < MAX_WORD;
    assert OfBytes(b) == OfWords(ws);
    hide Word;
  }

  lemma BlankSlot(n: nat)
    requires n < MAX_INODES
    ensures Stored(BlankTable(), n).no == 0
  {
    ZeroFlat(BlankTable());
    hide Flat, Word, OfBytes;
    var b := SlotBytes(BlankTable(), n);
    assert b[0] == 0 && b[1] == 0 && b[2] == 0 && b[3] == 0;
    FirstWord(b);
  }

  lemma ZeroFlat(disk: seq<Sector>)
    requires forall k :: 0 <= k < |disk| ==> disk[k] == ZEROS
    ensures forall i :: 0 <= i < |Flat(disk)| ==> Flat(disk)[i] == 0
  {
    forall i | 0 <= i < |Flat(disk)| ensures Flat(disk)[i] == 0 {
      assert disk[i / 512] == ZEROS;
    }
  }

  lemma FirstWord(b: seq<byte>)
    requires |b| == INODE_SIZE && b[0] == 0 && b[1] == 0 && b[2] == 0 && b[3] == 0
    ensures OfBytes(b).no == 0
  {
    hide Word;
    ZeroWord();
    var ws := seq(19, i requires 0 <= i < 19 => Word(b[4 * i], b[4 * i + 1], b[4 * i + 2], b[4 * i + 3]));
    assert ws[0] == Word(b[0], b[1], b[2], b[3]);
    assert OfBytes(b) == OfWords(ws);
  }

  lemma ZeroWord()
    ensures Word(0, 0, 0, 0) == 0
  {
  }
}
