/** Proof that every step of every thread keeps the invariant of `Locks`, and what follows for whole runs. */
module LockProofs {
  import opened Scheduler
  import opened Locks

  /** The invariant at the entry of schedule: as `Inv`, but the current thread may be parked or queued. */
  ghost predicate InvCore(s: Sys) {
    && SysWf(s)
    && Entering(s.sched)
    && ParkingOk(s)
    && (forall l :: 0 <= l < |s.locks| ==> LockInv(s, l))
  }

  /** Lock l and every thread's business with it are the same in both states. */
  ghost predicate SameView(s: Sys, s': Sys, l: nat) {
    && l < |s.locks| && l < |s'.locks| && s'.locks[l] == s.locks[l]
    && (forall t :: Owns(s', t, l) == Owns(s, t, l))
    && (forall t :: Owns(s, t, l) ==>
          At(s'.clients[t].pc, l) == At(s.clients[t].pc, l) && s'.clients[t].held[l] == s.clients[t].held[l])
    && (forall t :: SleepsOn(s', t, l) == SleepsOn(s, t, l))
    && (forall t :: WokenIn(s', t, l) == WokenIn(s, t, l))
  }

  lemma SameViewKeeps(s: Sys, s': Sys, l: nat)
    requires SameView(s, s', l) && LockInv(s, l)
    ensures LockInv(s', l)
  {
    assert OwnerOk(s', l);
    if s.locks[l].sema.value == 0 {
      var o :| Owns(s, o, l);
      assert Owns(s', o, l);
    }
    if s.locks[l].sema.value == 1 && s.locks[l].sema.waiters != [] {
      var w :| WokenIn(s, w, l);
      assert WokenIn(s', w, l);
    }
  }

  /** A switch leaves every lock alone. */
  lemma SwitchKeeps(s: Sys, sched: Sched)
    requires InvCore(s) && SchedInv(sched) && SameParked(s.sched, sched)
    ensures Inv(s.(sched := sched))
  {
    var s' := s.(sched := sched);
    forall l | 0 <= l < |s.locks| ensures LockInv(s', l) {
      forall t ensures SleepsOn(s', t, l) == SleepsOn(s, t, l) && WokenIn(s', t, l) == WokenIn(s, t, l) {
        if t in s.clients && t == s.sched.idle { assert s.clients[t].pc.Out?; }
      }
      SameViewKeeps(s, s', l);
    }
  }

  // ----- events outside the lock code -----

  lemma TimerKeeps(s: Sys)
    requires Inv(s)
    ensures !Step(s, Timer).Halt?
    ensures Step(s, Timer).Next? ==> Inv(Step(s, Timer).s)
  {
    TickKeepsInv(s.sched);
    SwitchKeeps(s, Tick(s.sched).value);
  }

  lemma YieldKeeps(s: Sys)
    requires Inv(s)
    ensures !Step(s, CallYield).Halt?
    ensures Step(s, CallYield).Next? ==> Inv(Step(s, CallYield).s)
  {
    YieldKeepsInv(s.sched);
    SwitchKeeps(s, Yield(s.sched).value);
  }

  function Parking(s: Sys, st: Status): Sys
    requires SysWf(s)
  {
    (if s.sched.cur == s.sched.idle then s else Goto(s, Asleep)).(sched := SetStatus(s.sched, s.sched.cur, st))
  }

  /** The running thread leaves the lock code alone and goes to sleep elsewhere. */
  ghost predicate WentToSleep(s: Sys, s': Sys) {
    && SysWf(s) && SysWf(s')
    && s'.locks == s.locks && s'.clients.Keys == s.clients.Keys
    && s'.sched.cur == s.sched.cur && s'.sched.idle == s.sched.idle
    && Cur(s).pc.Out? && Cur(s').held == Cur(s).held
    && Cur(s').pc == (if s.sched.cur == s.sched.idle then Out else Asleep)
    && Parked(s'.sched.tasks[s.sched.cur].status)
    && (forall t :: t in s.clients && t != s.sched.cur ==>
          s'.clients[t] == s.clients[t] && s'.sched.tasks[t].status == s.sched.tasks[t].status)
  }

  lemma SleepKeepsCore(s: Sys, s': Sys)
    requires Inv(s) && Entering(s'.sched) && WentToSleep(s, s')
    ensures InvCore(s')
  {
    hide LockInv, SameView, SchedInv, Entering;
    forall l | 0 <= l < |s.locks| ensures LockInv(s', l) {
      SleepSame(s, s', l);
      SameViewKeeps(s, s', l);
    }
  }

  lemma SleepSame(s: Sys, s': Sys, l: nat)
    requires WentToSleep(s, s') && l < |s.locks|
    ensures SameView(s, s', l)
  {
    assert forall t :: Owns(s', t, l) == Owns(s, t, l);
    assert forall t :: SleepsOn(s', t, l) == SleepsOn(s, t, l);
    assert forall t :: WokenIn(s', t, l) == WokenIn(s, t, l);
  }

  lemma ParkingSleeps(s: Sys, st: Status)
    requires Inv(s) && Cur(s).pc.Out? && Parked(st)
    ensures WentToSleep(s, Parking(s, st)) && Entering(Parking(s, st).sched)
  {
    hide LockInv, ParkingOk, Entering, ReadyOk, OthersOk, SlicesOk;
    var s1 := Parking(s, st);
    ParkEnters(s.sched, st);
    assert s1.sched.tasks.Keys == s.sched.tasks.Keys;
    assert s1.clients.Keys == s.clients.Keys;
    assert Wf(s1.sched) && SysWf(s1);
  }

  lemma BlockKeeps(s: Sys, st: Status)
    requires Inv(s) && Step(s, CallBlock(st)) != NotEnabled
    ensures Step(s, CallBlock(st)).Next? && Inv(Step(s, CallBlock(st)).s)
  {
    BlockKeepsInv(s.sched, st);
    ParkingSleeps(s, st);
    var s1 := Parking(s, st);
    SleepKeepsCore(s, s1);
    SwitchKeeps(s1, Block(s.sched, st).value);
    assert Step(s, CallBlock(st)) == Next(s1.(sched := Block(s.sched, st).value));
  }

  /** Changing one thread's program counter between Out and Asleep, and its status, touches no lock. */
  lemma UnblockKeeps(s: Sys, t: Tid)
    requires Inv(s) && Step(s, CallUnblock(t)) != NotEnabled
    ensures Step(s, CallUnblock(t)).Next? && Inv(Step(s, CallUnblock(t)).s)
  {
    hide LockInv, SameView, ReadyOk, SlicesOk;
    UnblockKeepsInv(s.sched, t);
    var s' := Step(s, CallUnblock(t)).s;
    forall l | 0 <= l < |s.locks| ensures LockInv(s', l) {
      UnblockSame(s, t, l);
      SameViewKeeps(s, s', l);
    }
  }

  lemma UnblockSame(s: Sys, t: Tid, l: nat)
    requires SysWf(s) && Step(s, CallUnblock(t)).Next? && l < |s.locks|
    ensures SameView(s, Step(s, CallUnblock(t)).s, l)
  {
  }

  lemma StartKeeps(s: Sys, t: Tid, priority: nat)
    requires Inv(s) && Step(s, Start(t, priority)) != NotEnabled
    ensures Step(s, Start(t, priority)).Next? && Inv(Step(s, Start(t, priority)).s)
  {
    hide LockInv, SameView, ReadyOk, OthersOk, SlicesOk;
    SpawnKeepsInv(s.sched, t, priority);
    var s' := Step(s, Start(t, priority)).s;
    forall l | 0 <= l < |s.locks| ensures LockInv(s', l) {
      StartSame(s, t, priority, l);
      SameViewKeeps(s, s', l);
    }
  }

  lemma StartSame(s: Sys, t: Tid, priority: nat, l: nat)
    requires SysWf(s) && Step(s, Start(t, priority)).Next? && l < |s.locks|
    ensures SameView(s, Step(s, Start(t, priority)).s, l)
  {
  }

  // ----- statements of the running thread inside the lock code -----

  /** From s to s' only the running thread moved, and only with respect to lock l. */
  ghost predicate Moved(s: Sys, s': Sys, l: nat) {
    && SysWf(s) && l < |s.locks| && |s'.locks| == |s.locks|
    && s.sched.cur != s.sched.idle
    && s'.sched == s.sched
    && s'.clients.Keys == s.clients.Keys
    && Cur(s).pc.In? && Cur(s).pc.l == l
    && (forall t :: t in s.clients && t != s.sched.cur ==> s'.clients[t] == s.clients[t])
    && (forall k :: 0 <= k < |s.locks| && k != l ==>
          s'.locks[k] == s.locks[k] && s'.clients[s.sched.cur].held[k] == Cur(s).held[k])
    && (s'.clients[s.sched.cur].pc == Out ||
        (s'.clients[s.sched.cur].pc.In? && s'.clients[s.sched.cur].pc.l == l))
  }

  /** Everything but lock l follows by framing. */
  lemma OnlyMine(s: Sys, s': Sys, l: nat)
    requires Inv(s) && Moved(s, s', l)
    requires s'.locks[l].sema.waiters == s.locks[l].sema.waiters
    requires LockInv(s', l)
    ensures Inv(s')
  {
    hide LockInv, SameView, ReadyOk, OthersOk, SlicesOk;
    forall k | 0 <= k < |s.locks| ensures LockInv(s', k) {
      if k != l {
        MovedSame(s, s', l, k);
        SameViewKeeps(s, s', k);
      }
    }
    assert SysWf(s') by {
      forall k, w | 0 <= k < |s'.locks| && w in s'.locks[k].sema.waiters ensures w in s'.sched.tasks {
        assert s'.locks[k].sema.waiters == s.locks[k].sema.waiters;
      }
    }
  }

  lemma MovedSame(s: Sys, s': Sys, l: nat, k: nat)
    requires Moved(s, s', l) && k < |s.locks| && k != l
    ensures SameView(s, s', k)
  {
    forall t ensures Owns(s', t, k) == Owns(s, t, k) && SleepsOn(s', t, k) == SleepsOn(s, t, k)
                     && WokenIn(s', t, k) == WokenIn(s, t, k) {
    }
  }

  /** Rebuilding the invariant of lock l: same owner, same sleepers, new fields. */
  lemma SameOwner(s: Sys, s': Sys, l: nat)
    requires Inv(s) && Moved(s, s', l)
    requires Cur(s).pc.p != Down(true)
    requires s'.clients[s.sched.cur].pc.In? ==> s'.clients[s.sched.cur].pc.p != Down(true)
    requires s'.locks[l].sema == s.locks[l].sema
    requires var me := s.sched.cur;
             && Owns(s', me, l) == Owns(s, me, l)
             && (Owns(s, me, l) ==> OwnerFields(me, s'.locks[l], At(s'.clients[me].pc, l), s'.clients[me].held[l]))
             && (!Owns(s, me, l) ==> s'.locks[l] == s.locks[l])
    ensures Inv(s')
  {
    hide SchedInv, ParkingOk;
    assert LockInv(s, l);
    assert forall t :: Owns(s', t, l) == Owns(s, t, l);
    assert forall t :: SleepsOn(s', t, l) == SleepsOn(s, t, l);
    assert forall t :: WokenIn(s', t, l) == WokenIn(s, t, l);
    if s.locks[l].sema.value == 0 {
      var o :| Owns(s, o, l);
      assert Owns(s', o, l);
    }
    if s.locks[l].sema.value == 1 && s.locks[l].sema.waiters != [] {
      var w :| WokenIn(s, w, l);
      assert WokenIn(s', w, l);
    }
    assert OwnerOk(s', l);
    OnlyMine(s, s', l);
  }

  predicate Plain(p: Point) {
    !p.Down? && !p.Up?
  }

  lemma PlainMoves(s: Sys)
    requires SysWf(s) && s.sched.cur != s.sched.idle && Cur(s).pc.In? && Plain(Cur(s).pc.p) && DoExec(s).Next?
    ensures Moved(s, DoExec(s).s, Cur(s).pc.l)
    ensures DoExec(s).s.locks[Cur(s).pc.l].sema == s.locks[Cur(s).pc.l].sema
  {
    assert DoExec(s).s.clients.Keys == s.clients.Keys;
  }

  /** The asserts hold and the next fields are those the invariant asks of the owner. */
  lemma PlainFields(s: Sys)
    requires Inv(s) && Cur(s).pc.In? && Plain(Cur(s).pc.p)
    ensures DoExec(s).Next?
    ensures var s', me, l := DoExec(s).s, s.sched.cur, Cur(s).pc.l;
            && Owns(s', me, l) == Owns(s, me, l)
            && (Owns(s, me, l) ==> OwnerFields(me, s'.locks[l], At(s'.clients[me].pc, l), s'.clients[me].held[l]))
            && (!Owns(s, me, l) ==> s'.locks[l] == s.locks[l])
  {
    var l := Cur(s).pc.l;
    assert LockInv(s, l);
    if Cur(s).pc.p == CheckHolder {
      if s.locks[l].holder == Some(s.sched.cur) { HolderOwns(s, l); }
    } else {
      assert Owns(s, s.sched.cur, l);
    }
    assert Owns(s, s.sched.cur, l) ==>
      OwnerFields(s.sched.cur, s.locks[l], Some(Cur(s).pc.p), Cur(s).held[l]);
  }

  /** `holder` names only the owner. */
  lemma HolderOwns(s: Sys, l: nat)
    requires Inv(s) && l < |s.locks| && s.locks[l].holder.Some?
    ensures Owns(s, s.locks[l].holder.value, l)
  {
    assert LockInv(s, l);
    var o :| Owns(s, o, l);
  }

  /** The statements outside sema_down and sema_up: they change holder, repeat and the program counter. */
  lemma PlainKeeps(s: Sys)
    requires Inv(s) && Cur(s).pc.In? && Plain(Cur(s).pc.p)
    ensures DoExec(s).Next? && Inv(DoExec(s).s)
  {
    PlainFields(s);
    PlainMoves(s);
    SameOwner(s, DoExec(s).s, Cur(s).pc.l);
  }

  // ----- sema_down -----

  /** The semaphore is free: the running thread becomes the one owner. */
  lemma DownTakes(s: Sys)
    requires Inv(s) && Cur(s).pc.In? && Cur(s).pc.p.Down? && s.locks[Cur(s).pc.l].sema.value != 0
    ensures DoExec(s).Next? && Inv(DoExec(s).s)
  {
    var me, l := s.sched.cur, Cur(s).pc.l;
    assert LockInv(s, l);
    var s' := DoExec(s).s;
    assert s'.clients.Keys == s.clients.Keys;
    assert Moved(s, s', l);
    if Owns(s, me, l) { assert false; }
    assert Owns(s', me, l);
    assert forall t :: Owns(s', t, l) <==> t == me;
    assert forall t :: SleepsOn(s', t, l) == SleepsOn(s, t, l);
    assert LockInv(s', l);
    OnlyMine(s, s', l);
  }

  /** The state just before schedule when the running thread has queued up on lock l. */
  function Queueing(s: Sys, l: nat): Sys
    requires SysWf(s) && l < |s.locks|
  {
    var k := s.locks[l];
    SetLock(Goto(s, In(l, Down(true))), l, k.(sema := k.sema.(waiters := k.sema.waiters + [s.sched.cur])))
    .(sched := SetStatus(s.sched, s.sched.cur, Blocked))
  }

  /** What `Queueing` does, as a relation: the running thread joins the waiters of l and falls asleep. */
  ghost predicate Queued(s: Sys, s': Sys, l: nat) {
    && SysWf(s) && SysWf(s') && l < |s.locks|
    && s'.locks == s.locks[l := s.locks[l].(sema := Sema(0, s.locks[l].sema.waiters + [s.sched.cur]))]
    && s'.sched.cur == s.sched.cur && s'.sched.idle == s.sched.idle && s.sched.cur != s.sched.idle
    && s'.clients.Keys == s.clients.Keys
    && Cur(s).pc.In? && Cur(s).pc.l == l && Cur(s).pc.p.Down?
    && Cur(s') == Cur(s).(pc := In(l, Down(true)))
    && s'.sched.tasks[s.sched.cur].status == Blocked
    && (forall t :: t in s.clients && t != s.sched.cur ==>
          s'.clients[t] == s.clients[t] && s'.sched.tasks[t].status == s.sched.tasks[t].status)
  }

  lemma QueueingQueues(s: Sys)
    requires Inv(s) && Cur(s).pc.In? && Cur(s).pc.p.Down? && s.locks[Cur(s).pc.l].sema.value == 0
    ensures Queued(s, Queueing(s, Cur(s).pc.l), Cur(s).pc.l)
    ensures Entering(Queueing(s, Cur(s).pc.l).sched)
  {
    hide LockInv, Entering, ReadyOk, OthersOk, SlicesOk;
    var l := Cur(s).pc.l;
    var s1 := Queueing(s, l);
    ParkEnters(s.sched, Blocked);
    assert s1.clients.Keys == s.clients.Keys && s1.sched.tasks.Keys == s.sched.tasks.Keys;
    assert Wf(s1.sched);
    forall k, w | 0 <= k < |s1.locks| && w in s1.locks[k].sema.waiters ensures w in s1.sched.tasks {
      assert w in s.locks[k].sema.waiters || w == s.sched.cur;
    }
  }

  lemma QueuedViews(s: Sys, s1: Sys, l: nat)
    requires Inv(s) && Queued(s, s1, l)
    ensures s.sched.cur !in s.locks[l].sema.waiters
    ensures forall t, k :: Owns(s1, t, k) == Owns(s, t, k)
    ensures forall t, k :: SleepsOn(s1, t, k) == (SleepsOn(s, t, k) || (t == s.sched.cur && k == l))
    ensures forall t, k :: WokenIn(s1, t, k) == (if t == s.sched.cur then false else WokenIn(s, t, k))
    ensures forall k :: k != l ==> !WokenIn(s, s.sched.cur, k)
  {
    assert LockInv(s, l);
    assert !SleepsOn(s, s.sched.cur, l);
  }

  lemma QueuedKeepsCore(s: Sys, s1: Sys, l: nat)
    requires Inv(s) && Queued(s, s1, l) && Entering(s1.sched) && s.locks[l].sema.value == 0
    ensures InvCore(s1)
  {
    hide LockInv, SchedInv, Entering;
    QueuedViews(s, s1, l);
    QueuedLock(s, s1, l);
    forall k | 0 <= k < |s.locks| && k != l ensures LockInv(s1, k) {
      SameViewKeeps(s, s1, k);
    }
  }

  lemma QueuedLock(s: Sys, s1: Sys, l: nat)
    requires Inv(s) && Queued(s, s1, l) && s.locks[l].sema.value == 0
    ensures LockInv(s1, l)
  {
    hide SchedInv, ParkingOk, SysWf;
    QueuedViews(s, s1, l);
    var me := s.sched.cur;
    assert LockInv(s, l);
    var o :| Owns(s, o, l);
    assert Owns(s1, o, l);
    assert forall t :: t in s1.locks[l].sema.waiters <==> t in s.locks[l].sema.waiters || t == me;
  }

  /** The semaphore is taken: the running thread queues up and the processor goes to another. */
  lemma DownBlocks(s: Sys)
    requires Inv(s) && Cur(s).pc.In? && Cur(s).pc.p.Down? && s.locks[Cur(s).pc.l].sema.value == 0
    ensures DoExec(s).Next? && Inv(DoExec(s).s)
  {
    var l := Cur(s).pc.l;
    var s1 := Queueing(s, l);
    QueueingQueues(s);
    QueuedViews(s, s1, l);
    QueuedKeepsCore(s, s1, l);
    BlockKeepsInv(s.sched, Blocked);
    SwitchKeeps(s1, Block(s.sched, Blocked).value);
    assert DoExec(s) == Next(s1.(sched := Block(s.sched, Blocked).value));
  }

  // ----- sema_up -----

  lemma UpWithoutWaiters(s: Sys)
    requires Inv(s) && Cur(s).pc.In? && Cur(s).pc.p.Up? && s.locks[Cur(s).pc.l].sema.waiters == []
    ensures DoExec(s).Next? && Inv(DoExec(s).s)
  {
    var me, l := s.sched.cur, Cur(s).pc.l;
    assert LockInv(s, l) && Owns(s, me, l);
    var s' := DoExec(s).s;
    assert s'.clients.Keys == s.clients.Keys;
    assert Moved(s, s', l);
    assert !Owns(s', me, l);
    assert forall t :: t != me ==> Owns(s', t, l) == Owns(s, t, l);
    assert forall t :: SleepsOn(s', t, l) == SleepsOn(s, t, l);
    assert LockInv(s', l);
    OnlyMine(s, s', l);
  }

  /** What sema_up does, as a relation: the first waiter w becomes ready, the running thread is done. */
  ghost predicate Woke(s: Sys, s': Sys, l: nat) {
    && SysWf(s) && SysWf(s') && l < |s.locks| && s.locks[l].sema.waiters != []
    && s'.locks == s.locks[l := s.locks[l].(sema := Sema(1, s.locks[l].sema.waiters[1..]))]
    && s'.sched.cur == s.sched.cur && s'.sched.idle == s.sched.idle && s.sched.cur != s.sched.idle
    && s'.clients.Keys == s.clients.Keys
    && Cur(s).pc == In(l, Up)
    && Cur(s') == Cur(s).(pc := Out)
    && s'.sched.tasks[s.sched.cur].status == s.sched.tasks[s.sched.cur].status
    && SleepsOn(s, s.locks[l].sema.waiters[0], l)
    && s'.sched.tasks[s.locks[l].sema.waiters[0]].status == Ready
    && (forall t :: t in s.clients && t != s.sched.cur ==> s'.clients[t] == s.clients[t])
    && (forall t :: t in s.clients && t != s.locks[l].sema.waiters[0] ==>
          s'.sched.tasks[t].status == s.sched.tasks[t].status)
  }

  /** The first waiter of a lock is asleep in it, so thread_unblock's assert holds. */
  lemma FirstWaiterSleeps(s: Sys, l: nat)
    requires Inv(s) && l < |s.locks| && s.locks[l].sema.waiters != []
    ensures SleepsOn(s, s.locks[l].sema.waiters[0], l)
  {
    assert LockInv(s, l);
    assert s.locks[l].sema.waiters[0] in s.locks[l].sema.waiters;
  }

  /** A thread about to do sema_up owns the lock and holds it no longer. */
  lemma UpHolds(s: Sys, l: nat)
    requires Inv(s) && Cur(s).pc == In(l, Up)
    ensures l < |s.locks| && s.locks[l].sema.value == 0 && Owns(s, s.sched.cur, l) && Cur(s).held[l] == 0
  {
    assert LockInv(s, l) && Owns(s, s.sched.cur, l);
  }

  lemma UpRuns(s: Sys)
    requires Inv(s) && Cur(s).pc.In? && Cur(s).pc.p.Up? && s.locks[Cur(s).pc.l].sema.waiters != []
    ensures var l := Cur(s).pc.l;
            var m := s.locks[l].sema;
            && SleepsOn(s, m.waiters[0], l)
            && Unblock(s.sched, m.waiters[0]).Ok? && SchedInv(Unblock(s.sched, m.waiters[0]).value)
            && DoExec(s) == Next(Goto(SetLock(s, l, s.locks[l].(sema := Sema(1, m.waiters[1..]))), Out)
                                 .(sched := Unblock(s.sched, m.waiters[0]).value))
  {
    hide LockInv, ParkingOk, SchedInv;
    var l := Cur(s).pc.l;
    UpHolds(s, l);
    FirstWaiterSleeps(s, l);
    UnblockKeepsInv(s.sched, s.locks[l].sema.waiters[0]);
  }

  lemma UpWakes(s: Sys)
    requires Inv(s) && Cur(s).pc.In? && Cur(s).pc.p.Up? && s.locks[Cur(s).pc.l].sema.waiters != []
    ensures DoExec(s).Next? && SchedInv(DoExec(s).s.sched)
    ensures Woke(s, DoExec(s).s, Cur(s).pc.l)
  {
    UpRuns(s);
    var s' := DoExec(s).s;
    assert s'.clients.Keys == s.clients.Keys && s'.sched.tasks.Keys == s.sched.tasks.Keys;
    forall k, u | 0 <= k < |s'.locks| && u in s'.locks[k].sema.waiters ensures u in s'.sched.tasks {
      assert u in s.locks[k].sema.waiters;
    }
  }

  lemma WokeViews(s: Sys, s': Sys, l: nat)
    requires Inv(s) && Woke(s, s', l)
    ensures var w := s.locks[l].sema.waiters[0];
            && (forall t, k :: Owns(s', t, k) == (if t == s.sched.cur && k == l then false else Owns(s, t, k)))
            && (forall t, k :: SleepsOn(s', t, k) == (if t == w then false else SleepsOn(s, t, k)))
            && (forall t, k :: WokenIn(s', t, k) == (WokenIn(s, t, k) || (t == w && k == l)))
            && (forall k :: k != l ==> !SleepsOn(s, w, k))
  {
    hide LockInv, ParkingOk, SchedInv;
    UpHolds(s, l);
  }

  lemma WokeLock(s: Sys, s': Sys, l: nat)
    requires Inv(s) && Woke(s, s', l)
    ensures LockInv(s', l)
  {
    hide ParkingOk, SchedInv;
    WokeViews(s, s', l);
    UpHolds(s, l);
    var ws := s.locks[l].sema.waiters;
    assert LockInv(s, l);
    assert forall t :: t in ws[1..] <==> t in ws && t != ws[0];
    assert WokenIn(s', ws[0], l);
  }

  lemma WokeKeeps(s: Sys, s': Sys, l: nat)
    requires Inv(s) && Woke(s, s', l) && SchedInv(s'.sched)
    ensures Inv(s')
  {
    hide LockInv, SchedInv;
    forall k | 0 <= k < |s.locks| ensures LockInv(s', k) {
      if k == l {
        WokeLock(s, s', l);
      } else {
        WokeViews(s, s', l);
        SameViewKeeps(s, s', k);
      }
    }
    assert ParkingOk(s');
  }

  lemma UpKeeps(s: Sys)
    requires Inv(s) && Cur(s).pc.In? && Cur(s).pc.p.Up?
    ensures DoExec(s).Next? && Inv(DoExec(s).s)
  {
    if s.locks[Cur(s).pc.l].sema.waiters == [] {
      UpWithoutWaiters(s);
    } else {
      UpWakes(s);
      WokeKeeps(s, DoExec(s).s, Cur(s).pc.l);
    }
  }

  // ----- all steps -----

  lemma ExecKeeps(s: Sys)
    requires Inv(s) && Cur(s).pc.In?
    ensures DoExec(s).Next? && Inv(DoExec(s).s)
  {
    if Plain(Cur(s).pc.p) {
      PlainKeeps(s);
    } else if Cur(s).pc.p.Up? {
      UpKeeps(s);
    } else if s.locks[Cur(s).pc.l].sema.value == 0 {
      DownBlocks(s);
    } else {
      DownTakes(s);
    }
  }

  /** A call of lock_acquire or lock_release on l begins: the caller's own record changes, nothing else. */
  ghost predicate Called(s: Sys, s': Sys, l: nat) {
    && SysWf(s) && l < |s.locks| && s'.locks == s.locks && s'.sched == s.sched
    && CanCall(s) && s'.clients.Keys == s.clients.Keys
    && (forall t :: t in s.clients && t != s.sched.cur ==> s'.clients[t] == s.clients[t])
    && (forall k :: k != l ==> s'.clients[s.sched.cur].held[k] == Cur(s).held[k])
    && (|| (s'.clients[s.sched.cur] == Cur(s).(pc := In(l, CheckHolder)))
        || (s'.clients[s.sched.cur].pc == In(l, RelCheck)
            && s'.clients[s.sched.cur].held[l] + 1 == Cur(s).held[l]))
  }

  lemma CalledViews(s: Sys, s': Sys, l: nat)
    requires Inv(s) && Called(s, s', l)
    ensures forall t, k :: Owns(s', t, k) == Owns(s, t, k)
    ensures forall t, k :: SleepsOn(s', t, k) == SleepsOn(s, t, k)
    ensures forall t, k :: WokenIn(s', t, k) == WokenIn(s, t, k)
  {
  }

  lemma CalledLock(s: Sys, s': Sys, l: nat)
    requires Inv(s) && Called(s, s', l)
    ensures LockInv(s', l)
  {
    CalledViews(s, s', l);
    assert LockInv(s, l);
    assert OwnerOk(s', l);
    if s.locks[l].sema.value == 0 {
      var o :| Owns(s, o, l);
      assert Owns(s', o, l);
    }
    if s.locks[l].sema.value == 1 && s.locks[l].sema.waiters != [] {
      var w :| WokenIn(s, w, l);
      assert WokenIn(s', w, l);
    }
  }

  lemma CalledKeeps(s: Sys, s': Sys, l: nat)
    requires Inv(s) && Called(s, s', l)
    ensures Inv(s')
  {
    CalledViews(s, s', l);
    forall k | 0 <= k < |s.locks| ensures LockInv(s', k) {
      if k == l {
        CalledLock(s, s', l);
      } else {
        SameViewKeeps(s, s', k);
      }
    }
  }

  lemma CallKeeps(s: Sys, e: Event)
    requires Inv(s) && (e.CallAcquire? || e.CallRelease?) && Step(s, e).Next?
    ensures Inv(Step(s, e).s)
  {
    var s' := Step(s, e).s;
    assert s'.clients.Keys == s.clients.Keys;
    assert Called(s, s', e.l);
    CalledKeeps(s, s', e.l);
  }

  /** No step fires an assert, and every step keeps the invariant. */
  lemma StepKeeps(s: Sys, e: Event)
    requires Inv(s)
    ensures !Step(s, e).Halt?
    ensures Step(s, e).Next? ==> Inv(Step(s, e).s)
  {
    if Step(s, e) != NotEnabled {
      match e
      case Timer => TimerKeeps(s);
      case Exec => ExecKeeps(s);
      case CallAcquire(_) => CallKeeps(s, e);
      case CallRelease(_) => CallKeeps(s, e);
      case CallYield => YieldKeeps(s);
      case CallBlock(st) => BlockKeeps(s, st);
      case CallUnblock(t) => UnblockKeeps(s, t);
      case Start(t, priority) => StartKeeps(s, t, priority);
    }
  }
}
