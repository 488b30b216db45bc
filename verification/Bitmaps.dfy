/** lib/kernel/bitmap.c on bytes: the array refines a sequence of bits, and bitmap_scan is `Bits.Scan`. */
module Bitmaps {
  import opened Bits

  type Byte = bv8

  function Mask(k: nat): Byte
    requires k < 8
  {
    (1 as bv8) << k
  }

  predicate Bit(b: Byte, k: nat)
    requires k < 8
  {
    b & Mask(k) != 0
  }

  lemma MaskValue(k: nat)
    requires k < 8
    ensures Mask(k) == if k == 0 then 1 else if k == 1 then 2 else if k == 2 then 4 else if k == 3 then 8
                       else if k == 4 then 16 else if k == 5 then 32 else if k == 6 then 64 else 128
  {
    match k
    case 0 => case 1 => case 2 => case 3 => case 4 => case 5 => case 6 => case 7 =>
  }

  lemma MasksApart(k: nat, j: nat)
    requires k < 8 && j < 8 && j != k
    ensures Mask(k) & Mask(j) == 0 && Mask(k) != 0
  {
    MaskValue(k);
    MaskValue(j);
    hide Mask;
  }

  function WithBit(b: Byte, k: nat): Byte
    requires k < 8
  {
    b | Mask(k)
  }

  function WithoutBit(b: Byte, k: nat): Byte
    requires k < 8
  {
    b & !Mask(k)
  }

  /** Setting or clearing one bit of a byte changes that bit. */
  lemma BitUpdate(b: Byte, k: nat, j: nat)
    requires k < 8 && j < 8
    ensures Bit(WithBit(b, k), j) <==> j == k || Bit(b, j)
    ensures Bit(WithoutBit(b, k), j) <==> j != k && Bit(b, j)
  {
    hide Bit, WithBit, WithoutBit, Mask;
    if j == k { BitUpdateSame(b, k); } else { BitUpdateOther(b, k, j); }
  }

  lemma BitUpdateSame(b: Byte, k: nat)
    requires k < 8
    ensures Bit(WithBit(b, k), k) && !Bit(WithoutBit(b, k), k)
  {
    MaskNonZero(k);
    hide Mask;
    TestSame(b, Mask(k));
  }

  lemma BitUpdateOther(b: Byte, k: nat, j: nat)
    requires k < 8 && j < 8 && j != k
    ensures Bit(WithBit(b, k), j) == Bit(b, j) && Bit(WithoutBit(b, k), j) == Bit(b, j)
  {
    hide Mask;
    MasksApart(k, j);
    TestApart(b, Mask(k), Mask(j));
  }

  lemma MaskNonZero(k: nat)
    requires k < 8
    ensures Mask(k) != 0
  {
    MaskValue(k);
  }

  lemma TestSame(b: Byte, m: Byte)
    requires m != 0
    ensures (b | m) & m != 0 && (b & !m) & m == 0
  {
  }

  lemma TestApart(b: Byte, m: Byte, n: Byte)
    requires m & n == 0
    ensures (b | m) & n == b & n && (b & !m) & n == b & n
  {
  }

  /** A byte is 0xff iff all its bits are set. */
  lemma FullByte(b: Byte)
    ensures b == 0xff <==> forall k :: 0 <= k < 8 ==> Bit(b, k)
  {
    assert (forall k :: 0 <= k < 8 ==> Bit(b, k)) ==>
      Bit(b, 0) && Bit(b, 1) && Bit(b, 2) && Bit(b, 3) && Bit(b, 4) && Bit(b, 5) && Bit(b, 6) && Bit(b, 7);
    MaskValue(0); MaskValue(1); MaskValue(2); MaskValue(3); MaskValue(4); MaskValue(5); MaskValue(6); MaskValue(7);
    forall k | 0 <= k < 8 ensures b == 0xff ==> Bit(b, k) { MaskValue(k); }
    hide Mask;
  }

  /** The bits of the first n bytes. */
  function BitsOf(bytes: seq<Byte>, n: nat): (r: seq<bool>)
    requires n <= 8 * |bytes|
    ensures |r| == n && forall i :: 0 <= i < n ==> r[i] == Bit(bytes[i / 8], i % 8)
  {
    seq(n, i requires 0 <= i < n => Bit(bytes[i / 8], i % 8))
  }

  lemma SetOneBit(bytes: seq<Byte>, n: nat, i: nat, v: bool, b: Byte)
    requires i < n <= 8 * |bytes|
    requires forall j :: 0 <= j < 8 ==> (Bit(b, j) <==> if j == i % 8 then v else Bit(bytes[i / 8], j))
    ensures BitsOf(bytes[i / 8 := b], n) == BitsOf(bytes, n)[i := v]
  {
    hide Bit, Mask;
    var r, r' := BitsOf(bytes, n), BitsOf(bytes[i / 8 := b], n);
    forall j | 0 <= j < n ensures r'[j] == r[i := v][j] {
      if j / 8 == i / 8 { SameByte(i, j); }
    }
  }

  lemma SameByte(i: nat, j: nat)
    requires i / 8 == j / 8
    ensures i == j <==> i % 8 == j % 8
  {
  }

  /** Leading bytes of 0xff are leading set bits. */
  lemma FullPrefix(bytes: seq<Byte>, n: nat, k: nat)
    requires 8 * k <= n <= 8 * |bytes| && forall i :: 0 <= i < k ==> bytes[i] == 0xff
    ensures forall i :: 0 <= i < 8 * k ==> BitsOf(bytes, n)[i]
  {
    hide Bit;
    forall i | 0 <= i < 8 * k ensures BitsOf(bytes, n)[i] {
      FullByte(bytes[i / 8]);
    }
  }

  /** The least clear bit is the one that is clear with all before it set. */
  lemma {:induction false} FirstClearIs(bits: seq<bool>, i: nat)
    requires i <= |bits| && (forall j :: 0 <= j < i ==> bits[j]) && (i < |bits| ==> !bits[i])
    ensures FirstClear(bits) == i
  {
    if i > 0 { FirstClearIs(bits[1..], i - 1); }
  }

  /** State of the search for a run: `count` clear bits end before `next`, and no run of cnt ends there. */
  ghost predicate Searched(bits: seq<bool>, cnt: nat, next: nat, count: nat) {
    && count < cnt && count <= next <= |bits|
    && ClearRun(bits, next - count, count)
    && (count < next ==> bits[next - count - 1])
    && (forall j: nat :: j + cnt <= next ==> !ClearRun(bits, j, cnt))
  }

  /** The search goes on, with a clear bit or with a set one. */
  lemma SearchStep(bits: seq<bool>, cnt: nat, next: nat, count: nat)
    requires Searched(bits, cnt, next, count) && next < |bits|
    ensures bits[next] ==> Searched(bits, cnt, next + 1, 0)
    ensures !bits[next] && count + 1 < cnt ==> Searched(bits, cnt, next + 1, count + 1)
    ensures !bits[next] && count + 1 == cnt ==>
              ClearRun(bits, next + 1 - cnt, cnt) && forall j: nat :: j < next + 1 - cnt ==> !ClearRun(bits, j, cnt)
  {
    forall j: nat | j + cnt == next + 1 && (bits[next] || count + 1 < cnt) ensures !ClearRun(bits, j, cnt) {
      if bits[next] { assert j <= next < j + cnt; } else { assert j <= next - count - 1 < j + cnt; }
    }
  }

  class Bitmap {
    const bytes: array<Byte>
    const len: nat

    /** The map is the first len bytes; the byte behind it is memory of something else. */
    predicate Valid() {
      len < bytes.Length
    }

    /** The bits of the map and the first one behind it. */
    ghost function View(): (r: seq<bool>)
      requires Valid()
      reads bytes
      ensures |r| == 8 * len + 1
    {
      BitsOf(bytes[..], 8 * len + 1)
    }

    constructor (bytes: array<Byte>, len: nat)
      requires len < bytes.Length
      ensures Valid() && this.bytes == bytes && this.len == len
    {
      this.bytes, this.len := bytes, len;
    }

    /** bitmap_init clears the map and not the byte behind. */
    method Init()
      requires Valid()
      modifies bytes
      ensures View() == seq(8 * len, _ => false) + [old(View())[8 * len]]
    {
      var i := 0;
      while i < len
        invariant i <= len && (forall k :: 0 <= k < i ==> bytes[k] == 0)
        invariant forall k :: i <= k < bytes.Length ==> bytes[k] == old(bytes[k])
      {
        bytes[i] := 0;
        i := i + 1;
      }
      hide Mask;
      forall j | 0 <= j < 8 * len ensures !View()[j] { ZeroByte(j % 8); }
      assert View()[8 * len] == Bit(bytes[len], 0);
    }

    method ScanTest(i: nat) returns (r: bool)
      requires Valid() && i <= 8 * len
      ensures r == View()[i]
    {
      return bytes[i / 8] & Mask(i % 8) != 0;
    }

    /** bitmap_set, which changes one bit and no other. */
    method Set(i: nat, value: int) returns (ok: bool)
      requires Valid() && i <= 8 * len
      modifies bytes
      ensures ok <==> value == 0 || value == 1
      ensures ok ==> View() == old(View())[i := value == 1]
      ensures ok ==> forall k :: 0 <= k < bytes.Length && k != i / 8 ==> bytes[k] == old(bytes[k])
    {
      hide Mask, Bit, BitsOf, WithBit, WithoutBit;
      if !(value == 0 || value == 1) { return false; }
      ghost var was := bytes[..];
      forall j | 0 <= j < 8 ensures
        && (Bit(WithBit(was[i / 8], i % 8), j) <==> j == i % 8 || Bit(was[i / 8], j))
        && (Bit(WithoutBit(was[i / 8], i % 8), j) <==> j != i % 8 && Bit(was[i / 8], j))
      {
        BitUpdate(was[i / 8], i % 8, j);
      }
      if value == 1 {
        bytes[i / 8] := WithBit(bytes[i / 8], i % 8);
      } else {
        bytes[i / 8] := WithoutBit(bytes[i / 8], i % 8);
      }
      assert bytes[..] == was[i / 8 := bytes[i / 8]];
      SetOneBit(was, 8 * len + 1, i, value == 1, bytes[i / 8]);
      return true;
    }

    /** The first two loops of bitmap_scan. */
    method FindClear() returns (start: nat, full: bool)
      requires Valid()
      ensures full <==> FirstClear(View()[..8 * len]) == 8 * len
      ensures !full ==> start == FirstClear(View()[..8 * len])
    {
      hide Mask, Bit;
      start := 0;
      var idxByte := 0;
      while bytes[idxByte] == 0xff && idxByte < len
        invariant idxByte <= len && forall k :: 0 <= k < idxByte ==> bytes[k] == 0xff
      {
        idxByte := idxByte + 1;
      }
      FullPrefix(bytes[..], 8 * len + 1, idxByte);
      if idxByte == len {
        FirstClearIs(View()[..8 * len], 8 * len);
        return 0, true;
      }
      FullByte(bytes[idxByte]);
      var idxBit := 0;
      while idxBit < 8 && Bit(bytes[idxByte], idxBit)
        invariant idxBit <= 8 && forall k :: 0 <= k < idxBit ==> Bit(bytes[idxByte], k)
      {
        idxBit := idxBit + 1;
      }
      start := idxByte * 8 + idxBit;
      ClearAt(bytes[..], 8 * len + 1, idxByte, idxBit);
      FirstClearIs(View()[..8 * len], start);
      return start, false;
    }

    /** bitmap_scan is the search `Scan`; where that says Full the kernel halts in an ASSERT. */
    method Scan(cnt: nat) returns (r: ScanResult)
      requires Valid() && cnt > 0
      ensures r == Bits.Scan(View(), cnt)
    {
      hide FirstClear, FirstRun, ClearRun, Searched, BitsOf;
      ghost var bits := View();
      var start, full := FindClear();
      if full { return Full; }
      if cnt == 1 { return Found(start); }
      assert FirstClear(bits[..8 * len]) == start;
      StartSearch(bits, cnt, start);
      var left, next, count := 8 * len - start, start + 1, 1;
      while left > 0
        invariant next + left == 8 * len + 1 && 0 <= left && count < cnt && count <= next
                 && Searched(bits, cnt, next, count)
      {
        SearchStep(bits, cnt, next, count);
        var used := ScanTest(next);
        count := if used then 0 else count + 1;
        if count == cnt {
          FirstRunIs(bits, cnt, next + 1 - cnt);
          return Found(next - cnt + 1);
        }
        next, left := next + 1, left - 1;
      }
      assert next == |bits|;
      NoRunAtAll(bits, cnt, count);
      return NotFound;
    }
  }

  lemma ZeroByte(k: nat)
    requires k < 8
    ensures !Bit(0, k)
  {
  }

  /** Byte k is the first that is not full, and its bit b the first clear one. */
  lemma ClearAt(bytes: seq<Byte>, n: nat, k: nat, b: nat)
    requires 8 * k + 8 <= n <= 8 * |bytes| && b < 8 && !Bit(bytes[k], b)
    requires forall i :: 0 <= i < k ==> bytes[i] == 0xff
    requires forall i :: 0 <= i < b ==> Bit(bytes[k], i)
    ensures !BitsOf(bytes, n)[8 * k + b] && forall i :: 0 <= i < 8 * k + b ==> BitsOf(bytes, n)[i]
  {
    hide Bit;
    FullPrefix(bytes, n, k);
    assert (8 * k + b) / 8 == k && (8 * k + b) % 8 == b;
    forall i | 8 * k <= i < 8 * k + b ensures BitsOf(bytes, n)[i] {
      assert i / 8 == k && i % 8 == i - 8 * k;
    }
  }

  lemma StartSearch(bits: seq<bool>, cnt: nat, start: nat)
    requires cnt > 1 && |bits| > 0 && start < |bits| - 1 && FirstClear(bits[..|bits| - 1]) == start
    ensures Searched(bits, cnt, start + 1, 1)
  {
    var inner := bits[..|bits| - 1];
    assert !inner[start] && forall j :: 0 <= j < start ==> inner[j];
    assert forall j :: 0 <= j < start ==> bits[j] == inner[j];
    forall j: nat | j + cnt <= start + 1 ensures !ClearRun(bits, j, cnt) {
      assert bits[j];
    }
  }

  lemma FirstRunIs(bits: seq<bool>, cnt: nat, i: nat)
    requires cnt > 0 && ClearRun(bits, i, cnt) && forall j: nat :: j < i ==> !ClearRun(bits, j, cnt)
    ensures FirstRun(bits, cnt, 0) == i
  {
    var f := FirstRun(bits, cnt, 0);
    assert f < |bits| ==> ClearRun(bits, f, cnt);
    assert i < f ==> !ClearRun(bits, i, cnt);
  }

  lemma NoRunAtAll(bits: seq<bool>, cnt: nat, count: nat)
    requires cnt > 0 && Searched(bits, cnt, |bits|, count)
    ensures FirstRun(bits, cnt, 0) == |bits|
  {
    var f := FirstRun(bits, cnt, 0);
    assert f < |bits| ==> f + cnt <= |bits|;
  }
}
