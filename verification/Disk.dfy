/** Sectors of 512 bytes, and the 128 block addresses an indirect block packs into one of them. */
module Disk {

  const BLOCK_SIZE: nat := 512

  const MAX_WORD: nat := 0x1_0000_0000

  type byte = x: int | 0 <= x < 256

  type Sector = s: seq<byte> | |s| == 512 witness seq(512, _ => 0)

  const ZEROS: Sector := seq(512, _ => 0)

  /** The little-endian byte of weight 256^k of a 32-bit word. */
  function ByteOf(w: nat, k: nat): byte
    requires k < 4
  {
    if k == 0 then w % 256
    else if k == 1 then (w / 256) % 256
    else if k == 2 then (w / 65536) % 256
    else (w / 16777216) % 256
  }

  function Word(b0: byte, b1: byte, b2: byte, b3: byte): nat {
    b0 + 256 * b1 + 65536 * b2 + 16777216 * b3
  }

  lemma WordBytes(w: nat)
    requires w < 0x1_0000_0000
    ensures var b0: nat, b1: nat, b2: nat, b3: nat := ByteOf(w, 0), ByteOf(w, 1), ByteOf(w, 2), ByteOf(w, 3);
            b0 + 256 * b1 + 65536 * b2 + 16777216 * b3 == w
    ensures Word(ByteOf(w, 0), ByteOf(w, 1), ByteOf(w, 2), ByteOf(w, 3)) == w
  {
    var q := w / 256;
    var r := q / 256;
    assert r == w / 65536;
    assert r / 256 == w / 16777216;
  }

  /** What ide_write stores when it is handed an array of 128 words. */
  function Encode(ws: seq<nat>): Sector
    requires |ws| == 128
  {
    seq(512, i requires 0 <= i < 512 => ByteOf(ws[i / 4], i % 4))
  }

  /** What ide_read leaves in an array of 128 words. */
  function Decode(s: Sector): (ws: seq<nat>)
    ensures |ws| == 128
  {
    seq(128, i requires 0 <= i < 128 => Word(s[4 * i], s[4 * i + 1], s[4 * i + 2], s[4 * i + 3]))
  }

  lemma QuarterIndex(i: nat, k: nat)
    requires k < 4
    ensures (4 * i + k) / 4 == i && (4 * i + k) % 4 == k
  {
  }

  lemma EncodeAt(ws: seq<nat>, i: nat, k: nat)
    requires |ws| == 128 && i < 128 && k < 4
    ensures Encode(ws)[4 * i + k] == ByteOf(ws[i], k)
  {
    hide ByteOf;
    QuarterIndex(i, k);
  }

  lemma DecodeEncode(ws: seq<nat>)
    requires |ws| == 128 && forall i :: 0 <= i < 128 ==> ws[i] < 0x1_0000_0000
    ensures Decode(Encode(ws)) == ws
  {
    hide ByteOf, Word, Encode;
    forall i | 0 <= i < 128 ensures Decode(Encode(ws))[i] == ws[i] {
      WordBytes(ws[i]);
      EncodeAt(ws, i, 0);
      EncodeAt(ws, i, 1);
      EncodeAt(ws, i, 2);
      EncodeAt(ws, i, 3);
    }
  }

  /** memcpy of data into a sector buffer at the given offset. */
  function Splice(s: Sector, off: nat, data: seq<byte>): (r: Sector)
    requires off + |data| <= 512
    ensures forall i :: 0 <= i < 512 ==> r[i] == if off <= i < off + |data| then data[i - off] else s[i]
  {
    s[..off] + data + s[off + |data|..]
  }
}
