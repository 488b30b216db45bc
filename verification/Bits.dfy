/** Bitmaps as sequences of bits, and what bitmap_scan of lib/kernel/bitmap.c finds in one. */
module Bits {
  /** The least clear bit, or the length of the bitmap. */
  function FirstClear(used: seq<bool>): (i: nat)
    ensures i <= |used|
    ensures i < |used| ==> !used[i]
    ensures forall j :: 0 <= j < i ==> used[j]
  {
    if used == [] then 0
    else if !used[0] then 0
    else
      var r := FirstClear(used[1..]);
      assert forall j :: 0 <= j < 1 + r ==> used[j] by {
        assert forall j :: 1 <= j < 1 + r ==> used[j] == used[1..][j - 1];
      }
      1 + r
  }

  function FreeCount(used: seq<bool>): nat {
    if used == [] then 0 else (if used[0] then 0 else 1) + FreeCount(used[1..])
  }

  lemma {:induction false} FreeCountSet(used: seq<bool>, i: nat)
    requires i < |used| && !used[i]
    ensures FreeCount(used) == FreeCount(used[i := true]) + 1
  {
    if i > 0 {
      FreeCountSet(used[1..], i - 1);
      assert used[i := true][1..] == used[1..][i - 1 := true];
    } else {
      assert used[i := true][1..] == used[1..];
    }
  }

  lemma {:induction false} FreeCountFull(used: seq<bool>)
    ensures FreeCount(used) == 0 <==> FirstClear(used) == |used|
  {
    if used != [] {
      FreeCountFull(used[1..]);
    }
  }

  /** n clear bits from i on. */
  predicate ClearRun(bits: seq<bool>, i: nat, n: nat) {
    i + n <= |bits| && forall k :: i <= k < i + n ==> !bits[k]
  }

  ghost predicate HasRun(bits: seq<bool>, n: nat) {
    exists j: nat :: ClearRun(bits, j, n)
  }

  /** The least place from i on where a run of n clear bits starts, or |bits|. */
  function FirstRun(bits: seq<bool>, n: nat, i: nat): (r: nat)
    requires 0 < n && i <= |bits|
    ensures i <= r <= |bits| && (r < |bits| ==> ClearRun(bits, r, n))
    ensures forall j :: i <= j < r ==> !ClearRun(bits, j, n)
    decreases |bits| - i
  {
    if i == |bits| || ClearRun(bits, i, n) then i else FirstRun(bits, n, i + 1)
  }

  datatype ScanResult = Found(index: nat) | NotFound | Full

  /** bitmap_scan. `bits` is the map and the one bit behind it, which a search for several bits reads too.
      A full map halts the kernel. */
  function Scan(bits: seq<bool>, n: nat): (r: ScanResult)
    requires 0 < n && 0 < |bits|
  {
    var size := |bits| - 1;
    var first := FirstClear(bits[..size]);
    if first == size then Full
    else if n == 1 then Found(first)
    else
      var at := FirstRun(bits, n, 0);
      if at < |bits| then Found(at) else NotFound
  }

  /** A found run is clear and no earlier one is; failure means there is none. */
  lemma ScanFinds(bits: seq<bool>, n: nat)
    requires 0 < n && 0 < |bits|
    ensures Scan(bits, n).Full? <==> forall i :: 0 <= i < |bits| - 1 ==> bits[i]
    ensures Scan(bits, n).Found? ==> ClearRun(bits, Scan(bits, n).index, n)
    ensures Scan(bits, n).Found? ==> forall j :: 0 <= j < Scan(bits, n).index ==> !ClearRun(bits, j, n)
    ensures Scan(bits, n).NotFound? ==> !HasRun(bits, n)
  {
    var first := FirstClear(bits[..|bits| - 1]);
    assert forall i :: 0 <= i < first ==> bits[i] == bits[..|bits| - 1][i];
    forall j: nat | j < first ensures !ClearRun(bits, j, n) {
      assert bits[j];
    }
    if Scan(bits, n).NotFound? {
      forall j: nat ensures !ClearRun(bits, j, n) {
        if j < |bits| { assert FirstRun(bits, n, 0) == |bits|; }
      }
    }
  }

  /** bitmap_scan for one bit and bitmap_set, as the allocators of frames and blocks do it: the least clear bit
      is set, and a full map halts the kernel. */
  method TakeBit(used: seq<bool>) returns (i: nat, full: bool, used': seq<bool>)
    ensures full <==> FreeCount(used) == 0
    ensures full ==> used' == used
    ensures !full ==> i < |used| && !used[i] && (forall j :: 0 <= j < i ==> used[j]) && used' == used[i := true]
  {
    FreeCountFull(used);
    var bits := used + [false];   // the bit behind the map is not read for a single bit
    assert bits[..|bits| - 1] == used;
    var r := Scan(bits, 1);
    if r.Full? {
      return 0, true, used;
    }
    return r.index, false, used[r.index := true];
  }

  /** The run found lies within the map exactly if some run of its length does; otherwise it is the one
      that ends in the bit behind the map. */
  lemma ScanStaysInside(bits: seq<bool>, n: nat)
    requires 0 < n && 0 < |bits| && Scan(bits, n).Found?
    ensures Scan(bits, n).index + n <= |bits| - 1 <==> HasRun(bits[..|bits| - 1], n)
    ensures Scan(bits, n).index + n == |bits| ==> n > 1 && !bits[|bits| - 1]
  {
    ScanFinds(bits, n);
    var i := Scan(bits, n).index;
    var inner := bits[..|bits| - 1];
    if i + n <= |bits| - 1 { assert ClearRun(inner, i, n); }
    if HasRun(inner, n) {
      var j: nat :| ClearRun(inner, j, n);
      assert forall k :: j <= k < j + n ==> bits[k] == inner[k];
      assert ClearRun(bits, j, n);
    }
  }

  /** A map of eight bits with its last bit clear only, and a clear bit behind: two bits are found that are
      not both in the map. */
  lemma ScanLeavesMap()
    ensures var bits := [true, true, true, true, true, true, true, false, false];
            Scan(bits, 2) == Found(7) && 7 + 2 > |bits| - 1
  {
    var bits := [true, true, true, true, true, true, true, false, false];
    ScanFinds(bits, 2);
    assert ClearRun(bits, 7, 2) && !bits[7];
    assert forall j: nat :: j < 7 ==> bits[j] && !ClearRun(bits, j, 2);
  }
}
