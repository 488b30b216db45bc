/** Directories the kernel can build in which inserting or deleting an entry goes wrong: files are created in
    the root until it is so. */
module DirCases {
  import opened Paths
  import opened DirEntries
  import opened DirTree
  import opened TreeRuns

  /** The name of the i-th file. */
  function Name(i: nat): (n: string)
    requires i < 26 * 26
    ensures |n| == 2 && n != "." && n != ".." && IsName(n)
  {
    var a, b := 'a' + (i / 26) as char, 'a' + (i % 26) as char;
    assert a != '/' && b != '/' && a != '.';
    [a, b]
  }

  lemma NamesDiffer(i: nat, j: nat)
    requires i < 26 * 26 && j < 26 * 26 && i != j
    ensures Name(i) != Name(j)
  {
    assert i == 26 * (i / 26) + i % 26 && j == 26 * (j / 26) + j % 26;
    assert i / 26 != j / 26 || i % 26 != j % 26;
    assert Name(i)[0] != Name(j)[0] || Name(i)[1] != Name(j)[1];
  }

  /** Slot p of a root directory with k files. */
  function FilledSlot(k: nat, p: nat): Slot
    requires k <= 251
  {
    if p == 0 then Slot(".", 0, Directory)
    else if p == 1 then Slot("..", 0, Directory)
    else if p < 2 + k then Slot(Name(p), p, Regular)
    else EMPTY
  }

  function Filled(k: nat): (f: seq<Slot>)
    requires k <= 251
    ensures |f| == ALL && forall p :: 0 <= p < ALL ==> f[p] == FilledSlot(k, p)
  {
    seq(ALL, p requires 0 <= p < ALL => FilledSlot(k, p))
  }

  lemma FilledNames(k: nat)
    requires k <= 250
    ensures !HasName(Filled(k), Name(2 + k))
    ensures forall p :: 0 <= p < ALL && Plain(Filled(k)[p]) ==> Filled(k)[p].ino != 2 + k
  {
    var f := Filled(k);
    forall p | 0 <= p < ALL && f[p] != EMPTY ensures f[p].name != Name(2 + k) {
      if 2 <= p { NamesDiffer(p, 2 + k); }
    }
  }

  /** The next file goes into the next slot. */
  lemma FilledNext(k: nat)
    requires k <= 250
    ensures CanInsert(Filled(k)) && Inserted(Filled(k), Slot(Name(2 + k), 2 + k, Regular)) == Filled(k + 1)
  {
    hide Name;
    var f, e := Filled(k), Slot(Name(2 + k), 2 + k, Regular);
    FreeIs(f[..DIRECT], 2 + k);
    var g := Inserted(f, e);
    if 2 + k < DIRECT {
      assert g == f[2 + k := e];
    } else {
      assert g == f[..DIRECT] + [e] + seq(ALL - DIRECT - 1, _ => EMPTY);
    }
    assert g == Filled(k + 1);
  }

  lemma {:induction false} FreeIs(f: seq<Slot>, p: nat)
    requires p <= |f| && (forall q :: 0 <= q < p ==> !f[q].ftype.Unknown?) && (p < |f| ==> f[p].ftype.Unknown?)
    ensures FirstFree(f) == p
  {
    if p > 0 { FreeIs(f[1..], p - 1); }
  }

  /** Creating k files in the root fills k slots behind "." and "..". */
  lemma {:induction false} FillRun(k: nat) returns (ts: seq<Tree>, ops: seq<Op>)
    requires k <= 251
    ensures IsRun(ts, ops) && |ops| == k && ts[k] == map[0 := Filled(k)]
  {
    hide Name;
    if k == 0 {
      assert NewDir(0, 0) == Filled(0);
      ts, ops := [map[0 := NewDir(0, 0)]], [];
    } else {
      ts, ops := FillRun(k - 1);
      var op := Creat(0, Name(1 + k), 1 + k);
      var t' := map[0 := Filled(k)];
      FillStep(k - 1, op);
      ts, ops := ts + [t'], ops + [op];
    }
  }

  lemma FillStep(k: nat, op: Op)
    requires k <= 250 && op == Creat(0, Name(2 + k), 2 + k)
    ensures TreeRuns.Step(map[0 := Filled(k)], op, map[0 := Filled(k + 1)])
  {
    FilledNames(k);
    FilledNext(k);
    hide Inserted, CanInsert, HasName, Filled;
    var t: Tree := map[0 := Filled(k)];
    assert Unused(t, op.ino);
    assert t[0 := Inserted(t[0], EntryFor(op))] == map[0 := Filled(k + 1)];
  }

  /** With 251 files the root has no room: one more file, and the last one cannot be found any longer. */
  lemma InsertCanLose() returns (ts: seq<Tree>, ops: seq<Op>)
    ensures IsRun(ts, ops) && 0 in ts[|ops|] && |ts[|ops|][0]| == ALL
    ensures !CanInsert(ts[|ops|][0])
    ensures forall e: Slot :: e.name != Name(252) ==>
              HasName(ts[|ops|][0], Name(252)) && !HasName(Inserted(ts[|ops|][0], e), Name(252))
  {
    ts, ops := FillRun(251);
    var f := Filled(251);
    FreeIs(f[..DIRECT], DIRECT);
    assert f[DIRECT] == Slot(Name(252), 252, Regular);
    assert HasName(f, Name(252));
    forall e: Slot | e.name != Name(252) ensures !HasName(Inserted(f, e), Name(252)) {
      var g := Inserted(f, e);
      forall p | 0 <= p < ALL && g[p] != EMPTY ensures g[p].name != Name(252) {
        if 2 <= p < DIRECT { NamesDiffer(p, 252); }
      }
    }
  }

  /** With 20 files the last is alone in the second block: deleting it leaves it to be found. */
  lemma DeleteCanFail() returns (ts: seq<Tree>, ops: seq<Op>)
    ensures IsRun(ts, ops) && 0 in ts[|ops|] && |ts[|ops|][0]| == ALL
    ensures Finding(ts[|ops|][0], 21) < ALL && ts[|ops|][0][Finding(ts[|ops|][0], 21)].name == Name(21)
    ensures HasName(Deleted(ts[|ops|][0], 21), Name(21))
  {
    ts, ops := FillRun(20);
    LoneFile();
    hide Name, Lone;
    var f := Filled(20);
    assert f[21] == Slot(Name(21), 21, Regular);
    assert Finding(f, 21) == 21;
    assert HasName(f, Name(21));
  }

  lemma LoneFile()
    ensures Lone(Filled(20), 1)
  {
    hide Name;
    var f := Filled(20);
    var b := BlockAt(f, 1);
    assert f[21] == Slot(Name(21), 21, Regular) && b == [f[21]] + b[1..];
    NonePlain(b[1..]);
  }
}
