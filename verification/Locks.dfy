/** Semaphores and re-entrant locks of thread/sync.c, in every interleaving of threads.

    Each interrupts-off region is one step, and so is each C statement outside such a region, for
    the timer can strike between any two of them. A step is deterministic once the event is
    known, so a run of the kernel is a sequence of events. */
module Locks {
  import opened Seqs
  import opened Scheduler

  datatype Option<T> = None | Some(value: T)

  datatype Sema = Sema(value: nat, waiters: seq<Tid>)

  datatype Lock = Lock(holder: Option<Tid>, repeat: nat, sema: Sema)

  /** The statement of lock_acquire, lock_release, sema_down or sema_up that a thread executes next. */
  datatype Point =
    | CheckHolder | Reenter                       // lock_acquire: test, nested case
    | Down(waited: bool)                          // sema_down; `waited` once it has slept here
    | SetHolder | CheckRepeat | SetRepeat         // lock_acquire after sema_down
    | RelCheck | RelTest | RelDec | RelAssert     // lock_release: asserts and nested case
    | ClearHolder | ClearRepeat | Up              // lock_release: give up, sema_up

  datatype Pc = Out | Asleep | In(l: nat, p: Point)

  /** What a thread is doing, and `held`: how often it completed lock_acquire on each lock minus how
      often it has called lock_release. No step of the lock code reads `held`. */
  datatype Client = Client(pc: Pc, held: multiset<nat>)

  datatype Sys = Sys(sched: Sched, clients: map<Tid, Client>, locks: seq<Lock>)

  datatype Event =
    | Timer                             // timer interrupt
    | Exec                              // the running thread executes its next lock statement
    | CallAcquire(l: nat)
    | CallRelease(l: nat)
    | CallYield
    | CallBlock(st: Status)             // thread_block outside sema_down
    | CallUnblock(t: Tid)               // thread_unblock outside sema_up
    | Start(t: Tid, priority: nat)      // thread_start

  /** NotEnabled: the event cannot happen here. Halt: an ASSERT fires. */
  datatype StepResult = NotEnabled | Halt | Next(s: Sys)

  // ----- sema_down and sema_up, one interrupts-off region each -----

  datatype DownResult = DownResult(sched: Sched, sema: Sema, taken: bool)

  /** One pass of the loop in sema_down: take the semaphore or join the waiters and block. */
  function SemaDown(s: Sched, m: Sema): Outcome<DownResult>
    requires Wf(s)
  {
    if m.value == 0 then
      if s.cur in m.waiters then Panic
      else
        var s' :- Block(s, Blocked);
        Ok(DownResult(s', m.(waiters := m.waiters + [s.cur]), false))
    else if m.value - 1 != 0 then Panic
    else Ok(DownResult(s, m.(value := m.value - 1), true))
  }

  datatype UpResult = UpResult(sched: Sched, sema: Sema)

  /** sema_up: wake the longest waiter, then raise the value. */
  function SemaUp(s: Sched, m: Sema): Outcome<UpResult>
    requires forall w :: w in m.waiters ==> w in s.tasks
  {
    if m.value != 0 then Panic
    else if m.waiters == [] then Ok(UpResult(s, m.(value := 1)))
    else
      var s' :- Unblock(s, m.waiters[0]);
      Ok(UpResult(s', Sema(1, m.waiters[1..])))
  }

  // ----- steps -----

  predicate SysWf(s: Sys) {
    && Wf(s.sched)
    && s.clients.Keys == s.sched.tasks.Keys
    && (forall t :: t in s.clients && s.clients[t].pc.In? ==> s.clients[t].pc.l < |s.locks|)
    && (forall l, w :: 0 <= l < |s.locks| && w in s.locks[l].sema.waiters ==> w in s.sched.tasks)
  }

  function Cur(s: Sys): Client
    requires SysWf(s)
  {
    s.clients[s.sched.cur]
  }

  function Goto(s: Sys, pc: Pc): Sys
    requires SysWf(s)
  {
    s.(clients := s.clients[s.sched.cur := Cur(s).(pc := pc)])
  }

  function SetLock(s: Sys, l: nat, k: Lock): Sys
    requires l < |s.locks|
  {
    s.(locks := s.locks[l := k])
  }

  /** lock_acquire and lock_release return to their caller. */
  function Acquired(s: Sys, l: nat): Sys
    requires SysWf(s)
  {
    var c := Cur(s);
    s.(clients := s.clients[s.sched.cur := Client(Out, c.held[l := c.held[l] + 1])])
  }

  /** A thread resumed inside sema_down still has interrupts off. */
  predicate InterruptsOn(s: Sys)
    requires SysWf(s)
  {
    Cur(s).pc.In? ==> Cur(s).pc.p != Down(true)
  }

  predicate CanCall(s: Sys)
    requires SysWf(s)
  {
    Cur(s).pc.Out? && s.sched.cur != s.sched.idle
  }

  function Lift(s: Sys, r: Outcome<Sched>): StepResult {
    if r.Panic? then Halt else Next(s.(sched := r.value))
  }

  function DoDown(s: Sys, l: nat): StepResult
    requires SysWf(s) && l < |s.locks|
  {
    var r := SemaDown(s.sched, s.locks[l].sema);
    if r.Panic? then Halt
    else
      var s1 := SetLock(s, l, s.locks[l].(sema := r.value.sema));
      var s2 := s1.(clients := s.clients[s.sched.cur :=
                      Cur(s).(pc := In(l, if r.value.taken then SetHolder else Down(true)))]);
      Next(s2.(sched := r.value.sched))
  }

  function DoUp(s: Sys, l: nat): StepResult
    requires SysWf(s) && l < |s.locks|
  {
    var r := SemaUp(s.sched, s.locks[l].sema);
    if r.Panic? then Halt
    else Next(Goto(SetLock(s, l, s.locks[l].(sema := r.value.sema)), Out).(sched := r.value.sched))
  }

  /** The next statement of the running thread inside lock_acquire or lock_release. */
  function DoExec(s: Sys): StepResult
    requires SysWf(s) && Cur(s).pc.In?
  {
    var me := s.sched.cur;
    var l := Cur(s).pc.l;
    var k := s.locks[l];
    match Cur(s).pc.p
    case CheckHolder => Next(Goto(s, In(l, if k.holder != Some(me) then Down(false) else Reenter)))
    case Reenter => Next(Acquired(SetLock(s, l, k.(repeat := k.repeat + 1)), l))
    case Down(_) => DoDown(s, l)
    case SetHolder => Next(Goto(SetLock(s, l, k.(holder := Some(me))), In(l, CheckRepeat)))
    case CheckRepeat => if k.repeat != 0 then Halt else Next(Goto(s, In(l, SetRepeat)))
    case SetRepeat => Next(Acquired(SetLock(s, l, k.(repeat := 1)), l))
    case RelCheck => if k.holder != Some(me) then Halt else Next(Goto(s, In(l, RelTest)))
    case RelTest => Next(Goto(s, In(l, if k.repeat > 1 then RelDec else RelAssert)))
    case RelDec => Next(Goto(SetLock(s, l, k.(repeat := if k.repeat > 0 then k.repeat - 1 else 0xffff_ffff)), Out))
    case RelAssert => if k.repeat != 1 then Halt else Next(Goto(s, In(l, ClearHolder)))
    case ClearHolder => Next(Goto(SetLock(s, l, k.(holder := None)), In(l, ClearRepeat)))
    case ClearRepeat => Next(Goto(SetLock(s, l, k.(repeat := 0)), In(l, Up)))
    case Up => DoUp(s, l)
  }

  /** A thread may call lock_release only on a lock it has acquired more often than released; the
      idle thread calls nothing but thread_block. */
  function Step(s: Sys, e: Event): StepResult
    requires SysWf(s)
  {
    match e
    case Timer => if InterruptsOn(s) then Lift(s, Tick(s.sched)) else NotEnabled
    case Exec => if Cur(s).pc.In? then DoExec(s) else NotEnabled
    case CallAcquire(l) =>
      if CanCall(s) && l < |s.locks| then Next(Goto(s, In(l, CheckHolder))) else NotEnabled
    case CallRelease(l) =>
      if CanCall(s) && l < |s.locks| && Cur(s).held[l] > 0
      then Next(s.(clients := s.clients[s.sched.cur :=
                     Client(In(l, RelCheck), Cur(s).held[l := Cur(s).held[l] - 1])]))
      else NotEnabled
    case CallYield => if CanCall(s) then Lift(s, Yield(s.sched)) else NotEnabled
    case CallBlock(st) =>
      if s.sched.cur == s.sched.idle then
        if st == Blocked then Lift(s, Block(s.sched, st)) else NotEnabled
      else if CanCall(s) && Parked(st) then Lift(Goto(s, Asleep), Block(s.sched, st))
      else NotEnabled
    case CallUnblock(t) =>
      if InterruptsOn(s) && t in s.clients && s.clients[t].pc.Asleep?
      then Lift(s.(clients := s.clients[t := s.clients[t].(pc := Out)]), Unblock(s.sched, t))
      else NotEnabled
    case Start(t, priority) =>
      if CanCall(s) && t !in s.sched.tasks
      then Lift(s.(clients := s.clients[t := Client(Out, multiset{})]), Spawn(s.sched, t, priority))
      else NotEnabled
  }

  // ----- the invariant -----

  /** Where `pc` stands with respect to lock l: nowhere, if it is busy with another lock. */
  function At(pc: Pc, l: nat): Option<Point> {
    if pc.In? && pc.l == l then Some(pc.p) else None
  }

  predicate OwnerPoint(p: Point) {
    !p.CheckHolder? && !p.Down?
  }

  /** Thread t is between a successful sema_down on l and the completion of the matching sema_up.
      The definition speaks of control points and calls only, never of the lock's own fields. */
  predicate Owns(s: Sys, t: Tid, l: nat) {
    t in s.clients && (s.clients[t].held[l] > 0 ||
                       var p := At(s.clients[t].pc, l); p.Some? && OwnerPoint(p.value))
  }

  /** What the fields of lock k must be while client c, thread t, owns it: `n` is its nesting depth. */
  predicate OwnerFields(t: Tid, k: Lock, at: Option<Point>, n: nat) {
    match at
    case None => k.holder == Some(t) && k.repeat == n
    case Some(SetHolder) => k.holder == None && k.repeat == 0 && n == 0
    case Some(CheckRepeat) => k.holder == Some(t) && k.repeat == 0 && n == 0
    case Some(SetRepeat) => k.holder == Some(t) && k.repeat == 0 && n == 0
    case Some(RelCheck) => k.holder == Some(t) && k.repeat == n + 1
    case Some(RelTest) => k.holder == Some(t) && k.repeat == n + 1
    case Some(RelDec) => k.holder == Some(t) && k.repeat == n + 1 && n > 0
    case Some(RelAssert) => k.holder == Some(t) && k.repeat == 1 && n == 0
    case Some(ClearHolder) => k.holder == Some(t) && k.repeat == 1 && n == 0
    case Some(ClearRepeat) => k.holder == None && k.repeat == 1 && n == 0
    case Some(Up) => k.holder == None && k.repeat == 0 && n == 0
    case Some(CheckHolder) => k.holder == Some(t) && k.repeat == n
    case Some(Reenter) => k.holder == Some(t) && k.repeat == n && n > 0
    case Some(Down(_)) => false
  }

  ghost predicate OwnerOk(s: Sys, l: nat)
    requires l < |s.locks|
  {
    forall t :: Owns(s, t, l) ==>
      && s.locks[l].sema.value == 0
      && OwnerFields(t, s.locks[l], At(s.clients[t].pc, l), s.clients[t].held[l])
  }

  ghost predicate Exclusive(s: Sys, l: nat) {
    forall t, u :: Owns(s, t, l) && Owns(s, u, l) ==> t == u
  }

  ghost predicate FreeOk(s: Sys, l: nat)
    requires l < |s.locks|
  {
    && s.locks[l].sema.value <= 1
    && (s.locks[l].sema.value == 1 ==> s.locks[l].holder == None && s.locks[l].repeat == 0)
    && (s.locks[l].sema.value == 0 ==> exists t :: Owns(s, t, l))
  }

  predicate SleepsOn(s: Sys, t: Tid, l: nat) {
    t in s.clients && t in s.sched.tasks && s.clients[t].pc == In(l, Down(true)) && s.sched.tasks[t].status == Blocked
  }

  /** Thread t slept on lock l, has been woken and is on its way back through the loop of sema_down. */
  predicate WokenIn(s: Sys, t: Tid, l: nat) {
    t in s.clients && t in s.sched.tasks && s.clients[t].pc == In(l, Down(true)) && Active(s.sched.tasks[t].status)
  }

  ghost predicate WaitersOk(s: Sys, l: nat)
    requires l < |s.locks|
  {
    && NoDup(s.locks[l].sema.waiters)
    && (forall t :: t in s.locks[l].sema.waiters <==> SleepsOn(s, t, l))
  }

  /** No wakeup is lost: a free lock with sleepers has a woken thread coming for it. */
  ghost predicate WakeupOk(s: Sys, l: nat)
    requires l < |s.locks|
  {
    s.locks[l].sema.value == 1 && s.locks[l].sema.waiters != [] ==> exists t :: WokenIn(s, t, l)
  }

  ghost predicate LockInv(s: Sys, l: nat)
    requires l < |s.locks|
  {
    OwnerOk(s, l) && Exclusive(s, l) && FreeOk(s, l) && WaitersOk(s, l) && WakeupOk(s, l)
  }

  /** A parked thread is asleep in sema_down or in thread_block, and nowhere else. */
  predicate Settled(c: Client, st: Status) {
    if Active(st) then !c.pc.Asleep?
    else c.pc.Asleep? || (c.pc.In? && c.pc.p == Down(true) && st == Blocked)
  }

  /** Every thread is settled; the idle thread never is in a lock. */
  ghost predicate ParkingOk(s: Sys)
    requires SysWf(s)
  {
    && s.clients[s.sched.idle] == Client(Out, multiset{})
    && (forall t :: t in s.clients && t != s.sched.idle ==> Settled(s.clients[t], s.sched.tasks[t].status))
  }

  ghost predicate Inv(s: Sys) {
    && SysWf(s)
    && SchedInv(s.sched)
    && ParkingOk(s)
    && (forall l :: 0 <= l < |s.locks| ==> LockInv(s, l))
  }
}
