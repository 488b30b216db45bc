/** The round-robin scheduler of thread/thread.c and the time slice of device/timer.c.

    One `Sched` value is what the kernel sees between two interrupts-off regions: the thread
    table, `thread_ready_list` and the running thread. A failed ASSERT halts the kernel; here
    that is the outcome `Panic`. */
module Scheduler {
  import opened Seqs

  type Tid = nat

  datatype Status = Running | Ready | Blocked | Waiting | Hanging | Died

  datatype Task = Task(status: Status, priority: nat, ticks: nat, elapsed: nat)

  datatype Sched = Sched(tasks: map<Tid, Task>, ready: seq<Tid>, cur: Tid, idle: Tid)

  datatype Outcome<T> = Panic | Ok(value: T) {
    predicate IsFailure() { Panic? }
    function PropagateFailure<U>(): Outcome<U> requires Panic? { Panic }
    function Extract(): T requires Ok? { value }
  }

  /** The states thread_block puts a thread in, and the ones thread_unblock accepts. */
  predicate Parked(st: Status) {
    st == Blocked || st == Waiting || st == Hanging
  }

  predicate Active(st: Status) {
    st == Running || st == Ready
  }

  function SetStatus(s: Sched, t: Tid, st: Status): Sched
    requires t in s.tasks
  {
    s.(tasks := s.tasks[t := s.tasks[t].(status := st)])
  }

  predicate Wf(s: Sched) {
    && s.cur in s.tasks
    && s.idle in s.tasks
    && (forall t :: t in s.ready ==> t in s.tasks)
  }

  // ----- the kernel's operations as functions on the scheduler state -----

  /** thread_unblock: the woken thread goes to the FRONT of the ready list. */
  function Unblock(s: Sched, t: Tid): Outcome<Sched>
    requires t in s.tasks
  {
    if !Parked(s.tasks[t].status) || t in s.ready then Panic
    else Ok(SetStatus(s, t, Ready).(ready := [t] + s.ready))
  }

  /** The first half of schedule: a thread that is still RUNNING goes to the back with a full slice. */
  function Requeue(s: Sched): Outcome<Sched>
    requires Wf(s)
  {
    var me := s.tasks[s.cur];
    if me.status != Running then Ok(s)
    else if s.cur in s.ready then Panic
    else Ok(s.(ready := s.ready + [s.cur],
               tasks := s.tasks[s.cur := me.(status := Ready, ticks := me.priority)]))
  }

  /** The middle of schedule: with nothing ready, wake the idle thread. */
  function WakeIdle(s: Sched): Outcome<Sched>
    requires Wf(s)
  {
    if s.ready == [] then Unblock(s, s.idle) else Ok(s)
  }

  /** The end of schedule: pop the head and switch to it. */
  function Dispatch(s: Sched): Outcome<Sched>
    requires Wf(s)
  {
    if s.ready == [] then Panic
    else Ok(SetStatus(s, s.ready[0], Running).(ready := s.ready[1..], cur := s.ready[0]))
  }

  function Schedule(s: Sched): Outcome<Sched>
    requires Wf(s)
  {
    var s1 :- Requeue(s);
    var s2 :- WakeIdle(s1);
    Dispatch(s2)
  }

  function Yield(s: Sched): Outcome<Sched>
    requires Wf(s)
  {
    if s.cur in s.ready then Panic
    else Schedule(SetStatus(s, s.cur, Ready).(ready := s.ready + [s.cur]))
  }

  function Block(s: Sched, st: Status): Outcome<Sched>
    requires Wf(s)
  {
    if !Parked(st) then Panic else Schedule(SetStatus(s, s.cur, st))
  }

  /** The timer charges the tick to the thread it interrupted. */
  function Charge(s: Sched): Sched
    requires Wf(s)
  {
    s.(tasks := s.tasks[s.cur := s.tasks[s.cur].(elapsed := s.tasks[s.cur].elapsed + 1)])
  }

  function Countdown(s: Sched): Sched
    requires Wf(s) && s.tasks[s.cur].ticks > 0
  {
    s.(tasks := s.tasks[s.cur := s.tasks[s.cur].(ticks := s.tasks[s.cur].ticks - 1)])
  }

  /** intr_timer_handler: charge a tick, and reschedule when the slice is used up. */
  function Tick(s: Sched): Outcome<Sched>
    requires Wf(s)
  {
    if s.tasks[s.cur].ticks == 0 then Schedule(Charge(s)) else Ok(Countdown(Charge(s)))
  }

  /** thread_start: a fresh thread joins at the back with a full slice. */
  function Spawn(s: Sched, t: Tid, priority: nat): Outcome<Sched> {
    if t in s.ready then Panic
    else Ok(s.(tasks := s.tasks[t := Task(Ready, priority, priority, 0)], ready := s.ready + [t]))
  }

  // ----- what holds between any two interrupts-off regions -----

  ghost predicate SlicesOk(s: Sched) {
    forall t :: t in s.tasks ==> s.tasks[t].ticks <= s.tasks[t].priority
  }

  /** The ready list holds exactly the READY threads, once each. */
  ghost predicate ReadyOk(s: Sched) {
    && NoDup(s.ready)
    && (forall t :: t in s.tasks ==> (t in s.ready <==> s.tasks[t].status == Ready))
  }

  /** Nobody is dead, and no thread but the current one can be RUNNING. */
  ghost predicate OthersOk(s: Sched) {
    && (forall t :: t in s.tasks ==> s.tasks[t].status != Died)
    && (forall t :: t in s.tasks && s.tasks[t].status == Running ==> t == s.cur)
  }

  /** The scheduler invariant: exactly one RUNNING thread, the current one. */
  ghost predicate SchedInv(s: Sched) {
    && Wf(s)
    && s.tasks[s.cur].status == Running
    && ReadyOk(s) && OthersOk(s) && SlicesOk(s)
  }

  /** The same just before schedule is entered, when the current thread may already be queued or parked. */
  ghost predicate Entering(s: Sched) {
    && Wf(s) && ReadyOk(s) && OthersOk(s) && SlicesOk(s)
  }

  /** What a switch may change: nobody but idle is parked or unparked by it, and nobody's
      priority changes. */
  ghost predicate SameParked(s: Sched, s': Sched) {
    && s'.tasks.Keys == s.tasks.Keys
    && s'.idle == s.idle
    && (forall t :: t in s.tasks ==> s'.tasks[t].priority == s.tasks[t].priority)
    && (forall t :: t in s.tasks && t != s.idle ==>
          if Active(s.tasks[t].status) then Active(s'.tasks[t].status)
          else s'.tasks[t].status == s.tasks[t].status)
  }

  /** With the invariant in force none of the assertions in schedule can fire: the ready list is
      never empty at the pop, and idle is always parked when schedule has to wake it. */
  lemma ScheduleKeepsInv(s: Sched)
    requires Entering(s)
    ensures Schedule(s).Ok?
    ensures SchedInv(Schedule(s).value) && SameParked(s, Schedule(s).value)
  {
    hide Requeue, WakeIdle, Dispatch, SchedInv, ReadyOk, OthersOk, SlicesOk;
    RequeueEnters(s);
    WakeIdleEnters(Requeue(s).value);
    DispatchKeepsInv(WakeIdle(Requeue(s).value).value);
  }

  lemma RequeueEnters(s: Sched)
    requires Entering(s)
    ensures Requeue(s).Ok?
    ensures var s1 := Requeue(s).value;
            Entering(s1) && s1.tasks[s1.cur].status != Running && SameParked(s, s1)
  {
    var s1 := Requeue(s).value;
    assert forall t :: t in s1.ready <==> t in s.ready || (t == s.cur && s.tasks[t].status == Running);
  }

  lemma WakeIdleEnters(s: Sched)
    requires Entering(s) && s.tasks[s.cur].status != Running
    ensures WakeIdle(s).Ok?
    ensures var s1 := WakeIdle(s).value;
            Entering(s1) && s1.ready != [] && s1.tasks[s1.cur].status != Running && SameParked(s, s1)
  {
    if s.ready == [] {
      assert forall t :: t in s.tasks ==> s.tasks[t].status != Ready;
    }
  }

  lemma DispatchKeepsInv(s: Sched)
    requires Entering(s) && s.ready != []
    requires s.tasks[s.cur].status != Running
    ensures Dispatch(s).Ok?
    ensures SchedInv(Dispatch(s).value) && SameParked(s, Dispatch(s).value)
  {
    var next := s.ready[0];
    assert next in s.ready;
    assert forall t :: t in s.ready[1..] <==> t in s.ready && t != next;
  }

  lemma YieldKeepsInv(s: Sched)
    requires SchedInv(s)
    ensures Yield(s).Ok?
    ensures SchedInv(Yield(s).value) && SameParked(s, Yield(s).value)
  {
    ScheduleKeepsInv(SetStatus(s, s.cur, Ready).(ready := s.ready + [s.cur]));
  }

  lemma BlockKeepsInv(s: Sched, st: Status)
    requires SchedInv(s) && Parked(st)
    ensures Block(s, st).Ok?
    ensures SchedInv(Block(s, st).value) && SameParked(SetStatus(s, s.cur, st), Block(s, st).value)
  {
    ParkEnters(s, st);
    ScheduleKeepsInv(SetStatus(s, s.cur, st));
  }

  lemma ParkEnters(s: Sched, st: Status)
    requires SchedInv(s) && Parked(st)
    ensures Entering(SetStatus(s, s.cur, st))
  {
  }

  lemma UnblockKeepsInv(s: Sched, t: Tid)
    requires SchedInv(s) && t in s.tasks && Parked(s.tasks[t].status)
    ensures Unblock(s, t).Ok?
    ensures SchedInv(Unblock(s, t).value)
  {
    var s1 := Unblock(s, t).value;
    assert forall u :: u in s1.ready <==> u in s.ready || u == t;
  }

  lemma ChargeKeepsInv(s: Sched)
    requires SchedInv(s)
    ensures SchedInv(Charge(s)) && SameParked(s, Charge(s))
  {
  }

  lemma CountdownKeepsInv(s: Sched)
    requires SchedInv(s) && s.tasks[s.cur].ticks > 0
    ensures SchedInv(Countdown(s)) && SameParked(s, Countdown(s))
  {
  }

  lemma TickKeepsInv(s: Sched)
    requires SchedInv(s)
    ensures Tick(s).Ok?
    ensures SchedInv(Tick(s).value) && SameParked(s, Tick(s).value)
  {
    ChargeKeepsInv(s);
    if s.tasks[s.cur].ticks == 0 {
      ScheduleKeepsInv(Charge(s));
    } else {
      CountdownKeepsInv(Charge(s));
    }
    SameParkedTrans(s, Charge(s), Tick(s).value);
  }

  lemma SameParkedTrans(s0: Sched, s1: Sched, s2: Sched)
    requires SameParked(s0, s1) && SameParked(s1, s2)
    ensures SameParked(s0, s2)
  {
  }

  lemma SpawnKeepsInv(s: Sched, t: Tid, priority: nat)
    requires SchedInv(s) && t !in s.tasks
    ensures Spawn(s, t, priority).Ok?
    ensures SchedInv(Spawn(s, t, priority).value)
  {
    var s1 := Spawn(s, t, priority).value;
    assert forall u :: u in s1.ready <==> u in s.ready || u == t;
  }

  // ----- where a ready thread stands in the queue -----

  /** One call of schedule moves every queued thread one place forward; index 0 gets the processor. */
  lemma ScheduleMovesUp(s: Sched, k: nat)
    requires Entering(s) && k < |s.ready|
    ensures Schedule(s).Ok?
    ensures k == 0 ==> Schedule(s).value.cur == s.ready[0]
    ensures k > 0 ==> k - 1 < |Schedule(s).value.ready| && Schedule(s).value.ready[k - 1] == s.ready[k]
  {
    ScheduleKeepsInv(s);
    var s1 := Requeue(s).value;
    assert s1.ready[k] == s.ready[k] && s1.ready != [];
  }
}
