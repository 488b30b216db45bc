/** The kernel's threads and locks as they are kept in memory, run against the state machine of `Locks`: each
    event, done in place, leads to what shows the state that the machine steps to. */
module KernelRuns {
  import opened Scheduler
  import opened Locks
  import LockProofs
  import opened LockRuns
  import opened KernelThreads
  import opened Lists
  import Q = ThreadQueues

  /** struct lock. */
  class KernelLock {
    var holder: Option<Tid>
    var repeat: nat
    const sema: Semaphore

    /** lock_init, on a semaphore initialised to 1. */
    constructor (sema: Semaphore)
      ensures holder == None && repeat == 0 && this.sema == sema
    {
      holder, repeat, this.sema := None, 0, sema;
    }
  }

  /** The lock's fields in memory are those of v. */
  predicate LockIs(lock: KernelLock, sema: Semaphore, v: Lock)
    reads lock, sema
  {
    lock.holder == v.holder && lock.repeat == v.repeat && sema.value == v.sema.value
  }

  // ----- statements of the lock code, done in place -----

  ghost predicate Intact(tids: set<Tid>, magic: map<Tid, nat>) {
    forall t :: t in tids ==> t in magic && magic[t] == STACK_MAGIC
  }

  /** No thread has run over its stack. */
  ghost predicate StacksOk(k: Kernel)
    reads k
  {
    Intact(k.tasks.Keys, k.magic)
  }

  /** The statements outside sema_down and sema_up. */
  method Assign(k: Kernel, lock: KernelLock, l: nat, p: Point, ghost s: Sys) returns (ok: bool, next: Pc)
    requires SysWf(s) && Cur(s).pc == In(l, p) && LockProofs.Plain(p) && DoExec(s).Next?
    requires k.cur == s.sched.cur && lock.holder == s.locks[l].holder && lock.repeat == s.locks[l].repeat
    modifies lock
    ensures ok && next == DoExec(s).s.clients[s.sched.cur].pc
    ensures |DoExec(s).s.locks| == |s.locks|
    ensures lock.holder == DoExec(s).s.locks[l].holder && lock.repeat == DoExec(s).s.locks[l].repeat
  {
    ok := true;
    match p
    case CheckHolder =>
      next := In(l, if lock.holder != Some(k.cur) then Down(false) else Reenter);
    case Reenter =>
      lock.repeat := lock.repeat + 1;
      next := Out;
    case SetHolder =>
      lock.holder := Some(k.cur);
      next := In(l, CheckRepeat);
    case CheckRepeat =>
      if lock.repeat != 0 { return false, Out; }
      next := In(l, SetRepeat);
    case SetRepeat =>
      lock.repeat := 1;
      next := Out;
    case RelCheck =>
      if lock.holder != Some(k.cur) { return false, Out; }
      next := In(l, RelTest);
    case RelTest =>
      next := In(l, if lock.repeat > 1 then RelDec else RelAssert);
    case RelDec =>
      lock.repeat := if lock.repeat > 0 then lock.repeat - 1 else 0xffff_ffff;
      next := Out;
    case RelAssert =>
      if lock.repeat != 1 { return false, Out; }
      next := In(l, ClearHolder);
    case ClearHolder =>
      lock.holder := None;
      next := In(l, ClearRepeat);
    case ClearRepeat =>
      lock.repeat := 0;
      next := In(l, Up);
  }

  /** The statement at point p on lock l, of the kernel in state s. */
  method StatementOn(k: Kernel, lock: KernelLock, sema: Semaphore, l: nat, p: Point, ghost s: Sys)
    returns (ok: bool, next: Pc)
    requires Inv(s) && Shows(k, s) && StacksOk(k) && Cur(s).pc == In(l, p) && l < |s.locks|
    requires sema.q == l + 2 && LockIs(lock, sema, s.locks[l])
    modifies k, k.mem, lock, sema
    ensures ok && DoExec(s).Next? && Inv(DoExec(s).s) && Shows(k, DoExec(s).s) && StacksOk(k)
    ensures s.sched.cur in DoExec(s).s.clients && next == DoExec(s).s.clients[s.sched.cur].pc
    ensures |DoExec(s).s.locks| == |s.locks| && LockIs(lock, sema, DoExec(s).s.locks[l])
  {
    hide Inv, DoExec, Shows, LocksMove, ClientsMove, Intact, Kernel.Valid;
    InLock(s);
    StatementMoves(s);
    KernelIs(k, s);
    SameKeys(s.clients, DoExec(s).s.clients, s.sched.cur);
    if p.Down? {
      var taken := DownStep(k, sema, s, l);
      ok, next := true, In(l, if taken then SetHolder else Down(true));
      KernelIs(k, DoExec(s).s);
    } else if p.Up? {
      UpStep(k, sema, s, l);
      ok, next := true, Out;
      KernelIs(k, DoExec(s).s);
    } else {
      ok, next := Assign(k, lock, l, p, s);
      SameShows(k, s, DoExec(s).s, l);
    }
  }

  /** The kernel with its locks; `pcs` is where in the lock code each thread stands. */
  class Threads {
    const k: Kernel
    const locks: seq<KernelLock>
    const semas: seq<Semaphore>
    var pcs: map<Tid, Pc>

    constructor (k: Kernel, locks: seq<KernelLock>, semas: seq<Semaphore>, pcs: map<Tid, Pc>)
      ensures this.k == k && this.locks == locks && this.semas == semas && this.pcs == pcs
    {
      this.k, this.locks, this.semas, this.pcs := k, locks, semas, pcs;
    }

    /** The locks and semaphores are different objects. */
    ghost predicate Apart() {
      && |semas| == |locks| && (forall i :: 0 <= i < |locks| ==> locks[i].sema == semas[i] && semas[i].q == i + 2)
      && (forall i, j :: 0 <= i < j < |locks| ==> locks[i] != locks[j] && semas[i] != semas[j])
    }

    ghost predicate LocksAre(ls: seq<Lock>)
      reads locks, semas
    {
      |locks| == |ls| && |semas| == |ls| && forall i :: 0 <= i < |ls| ==> LockIs(locks[i], semas[i], ls[i])
    }

    /** Memory shows the state s. */
    ghost predicate Shown(s: Sys)
      reads this, k, k.mem, locks, semas
    {
      Apart() && Shows(k, s) && StacksOk(k) && LocksAre(s.locks) && PcsMatch(pcs, s.clients)
    }

    /** What Shown says of one lock. */
    lemma LockParts(s: Sys, l: nat)
      requires Apart() && LocksAre(s.locks) && l < |s.locks|
      ensures l < |locks| == |semas| == |s.locks| && locks[l].sema == semas[l] && semas[l].q == l + 2
      ensures LockIs(locks[l], semas[l], s.locks[l])
      ensures forall i :: 0 <= i < |locks| && i != l ==>
                locks[i] != locks[l] && semas[i] != semas[l] && LockIs(locks[i], semas[i], s.locks[i])
    {
    }

    /** Only lock l was written. */
    lemma LocksStay(s: Sys, s': Sys, l: nat)
      requires |locks| == |semas| == |s.locks| && LocksMove(s.locks, s'.locks, l)
      requires forall i :: 0 <= i < |locks| && i != l ==> LockIs(locks[i], semas[i], s.locks[i])
      requires LockIs(locks[l], semas[l], s'.locks[l])
      ensures LocksAre(s'.locks)
    {
      hide LockIs;
    }

    /** The statement at point p of the running thread's call on lock l. */
    method OnLock(l: nat, p: Point, ghost s: Sys) returns (ok: bool, next: Pc)
      requires Inv(s) && Apart() && Shows(k, s) && StacksOk(k) && LocksAre(s.locks) && Cur(s).pc == In(l, p)
      modifies k, k.mem, locks, semas
      ensures ok && DoExec(s).Next? && Shows(k, DoExec(s).s) && StacksOk(k) && LocksAre(DoExec(s).s.locks)
      ensures s.sched.cur in DoExec(s).s.clients && next == DoExec(s).s.clients[s.sched.cur].pc
    {
      hide Inv, DoExec, Shows, LocksAre, LocksMove, ClientsMove, Apart, StacksOk, LockIs, Kernel.Valid;
      InLock(s);
      InvWf(s);
      StatementMoves(s);
      LockParts(s, l);
      ok, next := StatementOn(k, locks[l], semas[l], l, p, s);
      LocksStay(s, DoExec(s).s, l);
    }

    /** It does not halt, and memory then shows the next state. */
    method Statement(l: nat, p: Point, ghost s: Sys) returns (ok: bool)
      requires Inv(s) && Shown(s) && Cur(s).pc == In(l, p)
      modifies this, k, k.mem, locks, semas
      ensures ok && DoExec(s).Next? && Shown(DoExec(s).s)
    {
      hide Inv, DoExec, Shows, LocksAre, LocksMove, ClientsMove, PcsMatch, Apart, StacksOk, Kernel.Valid;
      StatementMoves(s);
      KernelIs(k, s);
      var me, was := k.cur, pcs;
      var next;
      ok, next := OnLock(l, p, s);
      PcsMove(was, s.clients, DoExec(s).s.clients, me, next);
      pcs := was[me := next];
    }

    method TimerTick(ghost s: Sys) returns (ok: bool)
      requires Inv(s) && Shown(s) && Step(s, Timer).Next?
      modifies k, k.mem
      ensures ok && Shown(Step(s, Timer).s)
    {
      hide Inv, Tick, LocksAre, PcsMatch, Kernel.Valid;
      Before(k, s, Timer);
      ok := k.TimerHandler();
    }

    method CallsYield(ghost s: Sys) returns (ok: bool)
      requires Inv(s) && Shown(s) && Step(s, CallYield).Next?
      modifies k, k.mem
      ensures ok && Shown(Step(s, CallYield).s)
    {
      hide Inv, Yield, LocksAre, PcsMatch, Kernel.Valid;
      Before(k, s, CallYield);
      ok := k.ThreadYield();
    }

    method CallsBlock(st: Status, ghost s: Sys) returns (ok: bool)
      requires Inv(s) && Shown(s) && Step(s, CallBlock(st)).Next?
      modifies this, k, k.mem
      ensures ok && Shown(Step(s, CallBlock(st)).s)
    {
      hide Inv, Step, Block, LocksAre, PcsMatch, ClientsMove, Apart, Intact, Kernel.Valid;
      Before(k, s, CallBlock(st));
      BlockingMoves(s, st);
      if k.cur != k.idle {
        PcsMove(pcs, s.clients, Step(s, CallBlock(st)).s.clients, k.cur, Asleep);
        pcs := pcs[k.cur := Asleep];
      }
      ok := k.ThreadBlock(st);
    }

    method CallsUnblock(t: Tid, ghost s: Sys) returns (ok: bool)
      requires Inv(s) && Shown(s) && Step(s, CallUnblock(t)).Next?
      modifies this, k, k.mem
      ensures ok && Shown(Step(s, CallUnblock(t)).s)
    {
      hide Inv, Step, Unblock, LocksAre, PcsMatch, ClientsMove, Apart, Intact, Kernel.Valid;
      Before(k, s, CallUnblock(t));
      UnblockingMoves(s, t);
      var was := pcs;
      ok := k.ThreadUnblock(t);
      PcsMove(was, s.clients, Step(s, CallUnblock(t)).s.clients, t, Out);
      pcs := was[t := Out];
    }

    method Starts(t: Tid, priority: nat, ghost s: Sys) returns (ok: bool)
      requires Inv(s) && Shown(s) && Step(s, Start(t, priority)).Next? && Q.Placed(k.heads, t)
      modifies this, k, k.mem
      ensures ok && Shown(Step(s, Start(t, priority)).s)
    {
      hide Inv, Spawn, LocksAre, Kernel.Valid;
      Before(k, s, Start(t, priority));
      pcs := pcs[t := Out];
      ok := k.ThreadStart(t, priority);
    }

    method CallsLock(e: Event, ghost s: Sys) returns (ok: bool)
      requires Inv(s) && Shown(s) && (e.CallAcquire? || e.CallRelease?) && Step(s, e).Next?
      modifies this
      ensures ok && Shown(Step(s, e).s)
    {
      hide Inv, Step, LocksAre, PcsMatch, ClientsMove, Apart, Intact, Kernel.Valid;
      Before(k, s, e);
      CallingMoves(s, e);
      var was, pc := pcs, In(e.l, if e.CallAcquire? then CheckHolder else RelCheck);
      PcsMove(was, s.clients, Step(s, e).s.clients, k.cur, pc);
      pcs := was[k.cur := pc];
      ok := true;
    }

    method Executes(ghost s: Sys) returns (ok: bool)
      requires Inv(s) && Shown(s) && Step(s, Exec).Next?
      modifies this, k, k.mem, locks, semas
      ensures ok && Shown(Step(s, Exec).s)
    {
      hide Inv, DoExec, Shows, LocksAre, Intact;
      KernelIs(k, s);
      ok := Statement(pcs[k.cur].l, pcs[k.cur].p, s);
    }

    /** Any event that can happen in state s, done in place. A new thread's page holds no list's head. */
    method Perform(e: Event, ghost s: Sys) returns (ok: bool)
      requires Inv(s) && Shown(s) && Step(s, e).Next? && (e.Start? ==> Q.Placed(k.heads, e.t))
      modifies this, k, k.mem, locks, semas
      ensures ok && Shown(Step(s, e).s)
    {
      hide Inv, Step, Shown;
      match e
      case Exec => ok := Executes(s);
      case Timer => ok := TimerTick(s);
      case CallAcquire(_) => ok := CallsLock(e, s);
      case CallRelease(_) => ok := CallsLock(e, s);
      case CallYield => ok := CallsYield(s);
      case CallBlock(st) => ok := CallsBlock(st, s);
      case CallUnblock(t) => ok := CallsUnblock(t, s);
      case Start(t, priority) => ok := Starts(t, priority, s);
    }

    /** A whole run in place: it does not halt, and ends in what shows the run's last state. */
    method Simulate(es: seq<Event>, ghost s: Sys) returns (ok: bool)
      requires Inv(s) && Shown(s) && Run(s, es).Next?
      requires forall i :: 0 <= i < |es| && es[i].Start? ==> Q.Placed(k.heads, es[i].t)
      modifies this, k, k.mem, locks, semas
      ensures ok && Shown(Run(s, es).s)
    {
      hide Step, Inv, Shown;
      ghost var st := s;
      var i := 0;
      InvWf(s);
      assert es[0..] == es;
      while i < |es|
        invariant i <= |es| && SysWf(s) && SysWf(st) && Inv(st) && Shown(st) && Run(st, es[i..]) == Run(s, es)
      {
        ghost var next := Step(st, es[i]);
        assert es[i..][0] == es[i] && es[i..][1..] == es[i + 1..];
        LockProofs.StepKeeps(st, es[i]);
        InvWf(next.s);
        ok := Perform(es[i], st);
        st := next.s;
        i := i + 1;
      }
      return true;
    }
  }

  // ----- what an event leaves alone -----

  /** Of the clients only thread t differs. */
  ghost predicate ClientsMove(cs: map<Tid, Client>, cs': map<Tid, Client>, t: Tid) {
    cs'.Keys == cs.Keys && forall u :: u in cs && u != t ==> cs'[u].pc == cs[u].pc
  }

  /** The threads stand where the clients' records say. */
  ghost predicate PcsMatch(pcs: map<Tid, Pc>, cs: map<Tid, Client>) {
    pcs.Keys == cs.Keys && forall t :: t in pcs ==> pcs[t] == cs[t].pc
  }

  lemma PcsMove(pcs: map<Tid, Pc>, cs: map<Tid, Client>, cs': map<Tid, Client>, t: Tid, pc: Pc)
    requires PcsMatch(pcs, cs) && ClientsMove(cs, cs', t) && t in cs && t in cs' && cs'[t].pc == pc
    ensures PcsMatch(pcs[t := pc], cs')
  {
  }

  lemma SameKeys(cs: map<Tid, Client>, cs': map<Tid, Client>, t: Tid)
    requires ClientsMove(cs, cs', t)
    ensures cs'.Keys == cs.Keys
  {
  }

  /** Of the locks only lock l differs. */
  ghost predicate LocksMove(ls: seq<Lock>, ls': seq<Lock>, l: nat) {
    l < |ls| && |ls'| == |ls| && forall i :: 0 <= i < |ls| && i != l ==> ls'[i] == ls[i]
  }

  lemma InvWf(s: Sys)
    requires Inv(s)
    ensures SysWf(s)
  {
  }

  lemma InLock(s: Sys)
    requires Inv(s) && Cur(s).pc.In?
    ensures s.sched.cur != s.sched.idle && Cur(s).pc.l < |s.locks|
    ensures DoExec(s).Next? && Inv(DoExec(s).s)
  {
    hide LockInv, SchedInv, DoExec;
    LockProofs.ExecKeeps(s);
  }

  /** A statement moves the running thread only and writes its own lock only. */
  lemma StatementMoves(s: Sys)
    requires Inv(s) && Cur(s).pc.In?
    ensures DoExec(s).Next?
    ensures var s', l, p := DoExec(s).s, Cur(s).pc.l, Cur(s).pc.p;
            && ClientsMove(s.clients, s'.clients, s.sched.cur) && LocksMove(s.locks, s'.locks, l)
            && s.sched.cur in s.clients && |s'.locks| == |s.locks| && l < |s.locks|
            && (if LockProofs.Plain(p) then s'.sched == s.sched && s'.locks[l].sema == s.locks[l].sema
                else s'.locks[l].holder == s.locks[l].holder && s'.locks[l].repeat == s.locks[l].repeat)
            && (p.Up? ==> s'.clients[s.sched.cur].pc == Out)
  {
    LockProofs.ExecKeeps(s);
    if LockProofs.Plain(Cur(s).pc.p) { PlainMoves(s); } else if Cur(s).pc.p.Up? { UpMoves(s); } else { DownMoves(s); }
    hide DoExec, LockInv, SchedInv, ParkingOk;
  }

  lemma DownMoves(s: Sys)
    requires Inv(s) && Cur(s).pc.In? && Cur(s).pc.p.Down? && DoExec(s).Next?
    ensures var s', l := DoExec(s).s, Cur(s).pc.l;
            && ClientsMove(s.clients, s'.clients, s.sched.cur) && LocksMove(s.locks, s'.locks, l)
            && s'.locks[l].holder == s.locks[l].holder && s'.locks[l].repeat == s.locks[l].repeat
  {
    hide LockInv, ParkingOk, SchedInv, Block;
  }

  lemma UpMoves(s: Sys)
    requires Inv(s) && Cur(s).pc.In? && Cur(s).pc.p.Up? && DoExec(s).Next?
    ensures var s', l := DoExec(s).s, Cur(s).pc.l;
            && ClientsMove(s.clients, s'.clients, s.sched.cur) && LocksMove(s.locks, s'.locks, l)
            && s'.clients[s.sched.cur].pc == Out
            && s'.locks[l].holder == s.locks[l].holder && s'.locks[l].repeat == s.locks[l].repeat
  {
    hide LockInv, ParkingOk, SchedInv, Unblock;
  }

  lemma PlainMoves(s: Sys)
    requires Inv(s) && Cur(s).pc.In? && LockProofs.Plain(Cur(s).pc.p) && DoExec(s).Next?
    ensures var s', l := DoExec(s).s, Cur(s).pc.l;
            && ClientsMove(s.clients, s'.clients, s.sched.cur) && LocksMove(s.locks, s'.locks, l)
            && s'.sched == s.sched && s'.locks[l].sema == s.locks[l].sema
  {
    hide LockInv, SchedInv;
    LockProofs.PlainMoves(s);
    hide DoExec;
  }

  lemma BlockingMoves(s: Sys, st: Status)
    requires SysWf(s) && Step(s, CallBlock(st)).Next?
    ensures var s', me := Step(s, CallBlock(st)).s, s.sched.cur;
            && s'.locks == s.locks && Block(s.sched, st) == Ok(s'.sched) && s'.clients.Keys == s.clients.Keys
            && (me == s.sched.idle ==> s'.clients == s.clients)
            && (me != s.sched.idle ==>
                  ClientsMove(s.clients, s'.clients, me) && me in s.clients && s'.clients[me].pc == Asleep)
  {
    hide Block;
  }

  lemma UnblockingMoves(s: Sys, t: Tid)
    requires SysWf(s) && Step(s, CallUnblock(t)).Next?
    ensures var s' := Step(s, CallUnblock(t)).s;
            && t in s.clients && s.clients[t].pc.Asleep? && s'.locks == s.locks && s'.clients.Keys == s.clients.Keys
            && Unblock(s.sched, t) == Ok(s'.sched) && ClientsMove(s.clients, s'.clients, t) && s'.clients[t].pc == Out
  {
    hide Unblock;
  }

  lemma CallingMoves(s: Sys, e: Event)
    requires SysWf(s) && (e.CallAcquire? || e.CallRelease?) && Step(s, e).Next?
    ensures var s' := Step(s, e).s;
            && s'.sched == s.sched && s'.locks == s.locks && ClientsMove(s.clients, s'.clients, s.sched.cur)
            && s.sched.cur in s.clients && s.sched.cur in s'.clients
            && s'.clients[s.sched.cur].pc == In(e.l, if e.CallAcquire? then CheckHolder else RelCheck)
  {
  }

  /** Shows reads the scheduler and the waiters only. */
  lemma SameShows(k: Kernel, s: Sys, s': Sys, l: nat)
    requires Shows(k, s) && s'.sched == s.sched && LocksMove(s.locks, s'.locks, l)
    requires s'.locks[l].sema == s.locks[l].sema
    ensures Shows(k, s')
  {
    hide Kernel.Valid;
  }

  lemma KernelIs(k: Kernel, s: Sys)
    requires Inv(s) && Shows(k, s)
    ensures k.cur == s.sched.cur && k.idle == s.sched.idle && k.tasks == s.sched.tasks && SysWf(s)
    ensures k.tasks.Keys == s.clients.Keys && k.Valid()
  {
    hide LockInv, ParkingOk, SchedInv, Q.Held;
  }

  /** What the methods ask for, wherever the event can happen. */
  lemma Before(k: Kernel, s: Sys, e: Event)
    requires Inv(s) && Shows(k, s)
    ensures k.cur == s.sched.cur && k.idle == s.sched.idle && k.tasks == s.sched.tasks && SysWf(s)
    ensures k.tasks.Keys == s.clients.Keys && k.Valid() && k.cur in k.tasks
    ensures k.Loose(k.cur) && k.Loose(k.idle) && (forall t :: t in s.clients && s.clients[t].pc.Asleep? ==> k.Loose(t))
    ensures Step(s, e).Next? ==> SysWf(Step(s, e).s)
  {
    hide LockInv, ParkingOk, SchedInv, Q.Held, Step;
    KernelIs(k, s);
    CallsAllowed(k, s);
    LockProofs.StepKeeps(s, e);
    if Step(s, e).Next? { InvWf(Step(s, e).s); }
  }

  // ----- the kernel that thread_init leaves -----

  /** Where the lists' heads lie: behind the pages of the first three threads. */
  function Heads(n: nat): (hs: seq<nat>)
    ensures |hs| == n && forall q :: 0 <= q < n ==> hs[q] == 0x3000 + 16 * q
  {
    seq(n, q requires 0 <= q < n => 0x3000 + 16 * q)
  }

  function NoThreads(n: nat): (lists: seq<seq<nat>>)
    ensures |lists| == n && forall q :: 0 <= q < n ==> lists[q] == []
  {
    seq(n, _ => [])
  }

  lemma FirstPlaced(n: nat, t: nat)
    requires t < 3
    ensures Q.Placed(Heads(n), t)
  {
  }

  /** list_init for every list. */
  method InitLists(n: nat) returns (mem: Memory)
    ensures fresh(mem) && Q.Held(mem.words, Heads(n), NoThreads(n))
  {
    var heads := Heads(n);
    mem := new Memory(map[]);
    var q := 0;
    while q < n
      invariant q <= n && forall r :: 0 <= r < q ==> IsList(mem.words, heads[r], heads[r] + 8, [])
    {
      ghost var w := mem.words;
      mem.ListInit(heads[q], heads[q] + 8);
      forall r | 0 <= r < q ensures IsList(mem.words, heads[r], heads[r] + 8, []) {
        EmptyStays(w, mem.words, heads[r], heads[q]);
      }
      q := q + 1;
    }
    assert forall r :: 0 <= r < n ==> Q.Elems(r, []) == [];
  }

  lemma EmptyStays(w: Words, w': Words, a: nat, b: nat)
    requires IsList(w, a, a + 8, []) && (a + 16 <= b || b + 16 <= a)
    requires Same(w, w', {b, b + 4, b + 8, b + 8 + 4})
    ensures IsList(w', a, a + 8, [])
  {
    ListFrame(w, w', a, a + 8, []);
  }

  /** The first process, main and idle join the list of all threads; the first and the last are ready. */
  method FirstThreads(n: nat) returns (mem: Memory, ghost lists: seq<seq<nat>>)
    ensures fresh(mem) && Q.Held(mem.words, Heads(n + 2), lists) && |lists| == n + 2
    ensures lists[Q.READY] == [2, 1] && lists[Q.EVERY] == [2, 0, 1] && forall q :: 2 <= q < n + 2 ==> lists[q] == []
  {
    hide Q.Held, Q.Placed, Q.Free;
    var heads := Heads(n + 2);
    mem := InitLists(n + 2);
    lists := NoThreads(n + 2);
    lists := Joins(mem, heads, lists, Q.READY, 2);
    lists := Joins(mem, heads, lists, Q.EVERY, 2);
    lists := Joins(mem, heads, lists, Q.EVERY, 0);
    lists := Joins(mem, heads, lists, Q.READY, 1);
    lists := Joins(mem, heads, lists, Q.EVERY, 1);
  }

  method Joins(mem: Memory, heads: seq<nat>, ghost lists: seq<seq<nat>>, q: nat, t: nat)
    returns (ghost lists': seq<seq<nat>>)
    requires q < |lists| && heads == Heads(|lists|) && t < 3 && Q.Held(mem.words, heads, lists)
    requires forall r :: 0 <= r < |lists| && Q.SameTag(q, r) ==> t !in lists[r]
    modifies mem
    ensures lists' == lists[q := lists[q] + [t]] && Q.Held(mem.words, heads, lists')
  {
    hide Q.Held, Q.Placed;
    FirstPlaced(|lists|, t);
    Q.Append(mem, heads, lists, q, t);
    lists' := lists[q := lists[q] + [t]];
  }

  /** thread_init. */
  method InitKernel(n: nat) returns (k: Kernel)
    ensures fresh(k) && fresh(k.mem) && k.heads == Heads(n + 2) && Shows(k, Boot(n)) && StacksOk(k)
  {
    hide Q.Held, Q.Placed;
    ghost var lists;
    var mem;
    mem, lists := FirstThreads(n);
    FirstPlaced(n + 2, 0);
    FirstPlaced(n + 2, 1);
    FirstPlaced(n + 2, 2);
    k := new Kernel(mem, Heads(n + 2), lists,
                    map[0 := Task(Running, 31, 31, 0), 1 := Task(Ready, 10, 10, 0), 2 := Task(Ready, 31, 31, 0)],
                    map[0 := STACK_MAGIC, 1 := STACK_MAGIC, 2 := STACK_MAGIC], 0, 1);
  }

  /** lock_init for n locks. */
  method InitLocks(n: nat, k: Kernel) returns (all: Threads)
    requires Shows(k, Boot(n)) && StacksOk(k)
    ensures fresh(all) && fresh(all.locks) && fresh(all.semas) && all.k == k && all.Shown(Boot(n))
  {
    hide Shows, StacksOk;
    var semas: seq<Semaphore>, locks: seq<KernelLock> := [], [];
    while |locks| < n
      invariant |locks| == |semas| <= n && fresh(locks) && fresh(semas)
      invariant forall i :: 0 <= i < |locks| ==> locks[i].sema == semas[i] && semas[i].q == i + 2
      invariant forall i :: 0 <= i < |locks| ==> LockIs(locks[i], semas[i], Lock(None, 0, Sema(1, [])))
      invariant forall i, j :: 0 <= i < j < |locks| ==> locks[i] != locks[j] && semas[i] != semas[j]
    {
      var m := new Semaphore(1, |locks| + 2);
      var l := new KernelLock(m);
      semas, locks := semas + [m], locks + [l];
    }
    all := new Threads(k, locks, semas, map[0 := Out, 1 := Out, 2 := Out]);
  }

  /** Every run from the start, in place: thread_init, n locks, and then the events one by one. */
  method BootAndRun(n: nat, es: seq<Event>) returns (all: Threads, ok: bool)
    requires SysWf(Boot(n)) && Run(Boot(n), es).Next?
    requires forall i :: 0 <= i < |es| && es[i].Start? ==> Q.Placed(Heads(n + 2), es[i].t)
    ensures ok && all.Shown(Run(Boot(n), es).s)
  {
    hide Boot, Run, Shows, Q.Placed, Inv;
    var k := InitKernel(n);
    all := InitLocks(n, k);
    BootKeeps(n);
    ok := all.Simulate(es, Boot(n));
  }
}
