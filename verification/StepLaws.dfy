/** What every event does to the threads' counters and states and to the lists they stand on, said outright, and
    how long a thread keeps the processor. */
module StepLaws {
  import opened Scheduler
  import opened Locks
  import opened LockProofs
  import opened LockRuns

  // ----- counters and states, event by event -----

  /** schedule refills the slice of a thread that is still RUNNING, and of no other. */
  lemma ScheduleTasks(s: Sched, t: Tid)
    requires Entering(s) && t in s.tasks
    ensures Schedule(s).Ok? && t in Schedule(s).value.tasks
    ensures var k, k' := s.tasks[t], Schedule(s).value.tasks[t];
            && k'.priority == k.priority && k'.elapsed == k.elapsed
            && k'.ticks == if t == s.cur && k.status == Running then k.priority else k.ticks
  {
    ScheduleKeepsInv(s);
  }

  /** What a step does to the counters of a thread that is there: the timer charges the tick to the thread it
      interrupts and takes it off the slice, or refills the slice when it is used up; no other event touches
      them. */
  lemma CountersAfter(s: Sys, e: Event, t: Tid)
    requires Inv(s) && Step(s, e).Next? && t in s.sched.tasks
    ensures t in Step(s, e).s.sched.tasks
    ensures var k, k' := s.sched.tasks[t], Step(s, e).s.sched.tasks[t];
            var struck := e.Timer? && t == s.sched.cur;
            && k'.priority == k.priority
            && k'.elapsed == k.elapsed + (if struck then 1 else 0)
            && k'.ticks == if !struck then k.ticks else if k.ticks == 0 then k.priority else k.ticks - 1
  {
    hide LockInv, ParkingOk;
    match e
    case Timer =>
      ChargeKeepsInv(s.sched);
      ScheduleTasks(Charge(s.sched), t);
    case Exec => ExecCounters(s, t);
    case CallYield => YieldCounters(s.sched, t);
    case CallBlock(st) => BlockCounters(s.sched, st, t);
    case CallAcquire(_) =>
    case CallRelease(_) =>
    case CallUnblock(_) =>
    case Start(_, _) =>
  }

  lemma YieldCounters(s: Sched, t: Tid)
    requires SchedInv(s) && t in s.tasks && Yield(s).Ok?
    ensures t in Yield(s).value.tasks && SameCounters(s.tasks[t], Yield(s).value.tasks[t])
  {
    ScheduleTasks(SetStatus(s, s.cur, Ready).(ready := s.ready + [s.cur]), t);
  }

  lemma BlockCounters(s: Sched, st: Status, t: Tid)
    requires SchedInv(s) && Parked(st) && t in s.tasks
    ensures Block(s, st).Ok? && t in Block(s, st).value.tasks
    ensures SameCounters(s.tasks[t], Block(s, st).value.tasks[t])
  {
    ParkEnters(s, st);
    ScheduleTasks(SetStatus(s, s.cur, st), t);
  }

  predicate SameCounters(k: Task, k': Task) {
    k'.priority == k.priority && k'.elapsed == k.elapsed && k'.ticks == k.ticks
  }

  lemma ExecCounters(s: Sys, t: Tid)
    requires Inv(s) && Cur(s).pc.In? && DoExec(s).Next? && t in s.sched.tasks
    ensures t in DoExec(s).s.sched.tasks && SameCounters(s.sched.tasks[t], DoExec(s).s.sched.tasks[t])
  {
    hide LockInv;
    if Plain(Cur(s).pc.p) {
      PlainMoves(s);
    } else if Schedules(s, Exec) {
      BlockCounters(s.sched, Blocked, t);
    }
  }

  /** A thread that is started has a full slice, and no event but its start makes a thread. */
  lemma StartedFull(s: Sys, e: Event, t: Tid)
    requires Inv(s) && Step(s, e).Next? && t !in s.sched.tasks
    ensures t in Step(s, e).s.sched.tasks <==> e.Start? && e.t == t
    ensures e.Start? && e.t == t ==>
              var k := Step(s, e).s.sched.tasks[t];
              k.priority == e.priority && k.ticks == e.priority && k.elapsed == 0 && k.status == Ready
  {
    StepKeeps(s, e);
    hide LockInv, ParkingOk, SchedInv;
    match e
    case Timer => SameClients(s, e);
    case Exec => SameClients(s, e);
    case CallYield => SameClients(s, e);
    case CallBlock(_) => SameClients(s, e);
    case CallAcquire(_) =>
    case CallRelease(_) =>
    case CallUnblock(_) =>
    case Start(_, _) =>
  }

  lemma SameClients(s: Sys, e: Event)
    requires SysWf(s) && Step(s, e).Next? && (e.Timer? || e.Exec? || e.CallYield? || e.CallBlock?)
    ensures Step(s, e).s.clients.Keys == s.clients.Keys
  {
  }

  /** A thread that is parked stays in its state until it is woken, and a thread that blocks gets the state asked
      for; idle alone is woken by schedule. */
  lemma StatusAfter(s: Sys, e: Event, t: Tid)
    requires Inv(s) && Step(s, e).Next? && t in s.sched.tasks && t != s.sched.idle
    ensures t in Step(s, e).s.sched.tasks
    ensures var k, k' := s.sched.tasks[t].status, Step(s, e).s.sched.tasks[t].status;
            if t == s.sched.cur && e.CallBlock? then k' == e.st
            else if t == s.sched.cur && e.Exec? && Schedules(s, e) then k' == Blocked
            else if Wakes(s, e, t) then k' == Ready
            else if Parked(k) then k' == k
            else k' == Running || k' == Ready
  {
    hide LockInv, ParkingOk, SlicesOk, ReadyOk, Tick, Yield, Block, SameParked;
    match e
    case Timer =>
      TickKeepsInv(s.sched);
      ParkedStay(s.sched, Tick(s.sched).value, t);
    case Exec => ExecStatus(s, t);
    case CallYield =>
      YieldKeepsInv(s.sched);
      ParkedStay(s.sched, Yield(s.sched).value, t);
    case CallBlock(st) =>
      BlockKeepsInv(s.sched, st);
      ParkedStay(SetStatus(s.sched, s.sched.cur, st), Block(s.sched, st).value, t);
    case CallUnblock(_) =>
    case CallAcquire(_) =>
    case CallRelease(_) =>
    case Start(_, _) =>
  }

  lemma ParkedStay(s: Sched, s': Sched, t: Tid)
    requires SameParked(s, s') && t in s.tasks && t != s.idle && s.tasks[t].status != Died
    ensures t in s'.tasks
    ensures if Parked(s.tasks[t].status) then s'.tasks[t].status == s.tasks[t].status
            else s'.tasks[t].status == Running || s'.tasks[t].status == Ready
  {
  }

  /** The event wakes t: thread_unblock of it, or sema_up when it has waited longest. */
  predicate Wakes(s: Sys, e: Event, t: Tid)
    requires SysWf(s)
  {
    match e
    case CallUnblock(u) => u == t
    case Exec =>
      Cur(s).pc.In? && Cur(s).pc.p.Up? && var ws := s.locks[Cur(s).pc.l].sema.waiters; ws != [] && ws[0] == t
    case _ => false
  }

  lemma ExecStatus(s: Sys, t: Tid)
    requires Inv(s) && Cur(s).pc.In? && DoExec(s).Next? && t in s.sched.tasks && t != s.sched.idle
    ensures t in DoExec(s).s.sched.tasks
    ensures var k, k' := s.sched.tasks[t].status, DoExec(s).s.sched.tasks[t].status;
            if t == s.sched.cur && Schedules(s, Exec) then k' == Blocked
            else if Wakes(s, Exec, t) then k' == Ready
            else if Parked(k) then k' == k
            else k' == Running || k' == Ready
  {
    hide LockInv, SlicesOk;
    if Plain(Cur(s).pc.p) {
      PlainMoves(s);
    } else if Schedules(s, Exec) {
      BlockKeepsInv(s.sched, Blocked);
    }
  }

  // ----- the order of the lists -----

  /** q' with the processor's thread c' in front is q, but that idle runs when q is empty. */
  predicate Popped(q: seq<Tid>, c': Tid, q': seq<Tid>, idle: Tid) {
    if q == [] then c' == idle && q' == [] else [c'] + q' == q
  }

  /** The ready list: schedule takes its head, a thread that gave way or was started goes to the back, a woken one
      to the front. */
  lemma ReadyAfter(s: Sys, e: Event)
    requires Inv(s) && Step(s, e).Next?
    ensures var q, c := s.sched.ready, s.sched.cur;
            var q', c' := Step(s, e).s.sched.ready, Step(s, e).s.sched.cur;
            match e
            case Timer => if s.sched.tasks[c].ticks == 0 then [c'] + q' == q + [c] else q' == q && c' == c
            case CallYield => [c'] + q' == q + [c]
            case CallBlock(_) => Popped(q, c', q', s.sched.idle)
            case CallUnblock(t) => q' == [t] + q && c' == c
            case Start(t, _) => q' == q + [t] && c' == c
            case CallAcquire(_) => q' == q && c' == c
            case CallRelease(_) => q' == q && c' == c
            case Exec =>
              if Schedules(s, e) then Popped(q, c', q', s.sched.idle)
              else if PushesFront(s, e) then q' == [s.locks[Cur(s).pc.l].sema.waiters[0]] + q && c' == c
              else q' == q && c' == c
  {
    hide LockInv, ParkingOk, SlicesOk;
    match e
    case Timer => if Schedules(s, e) { ScheduleReady(Charge(s.sched)); }
    case CallYield => YieldReady(s.sched);
    case CallBlock(st) => BlockReady(s.sched, st);
    case Exec => if Schedules(s, e) { BlockReady(s.sched, Blocked); }
    case CallUnblock(_) =>
    case Start(_, _) =>
    case CallAcquire(_) =>
    case CallRelease(_) =>
  }

  lemma ScheduleReady(s: Sched)
    requires Wf(s) && Schedule(s).Ok?
    ensures var q, s' := if s.tasks[s.cur].status == Running then s.ready + [s.cur] else s.ready, Schedule(s).value;
            Popped(q, s'.cur, s'.ready, s.idle)
  {
  }

  lemma YieldReady(s: Sched)
    requires Wf(s) && Yield(s).Ok?
    ensures [Yield(s).value.cur] + Yield(s).value.ready == s.ready + [s.cur]
  {
    ScheduleReady(SetStatus(s, s.cur, Ready).(ready := s.ready + [s.cur]));
  }

  lemma BlockReady(s: Sched, st: Status)
    requires Wf(s) && Block(s, st).Ok?
    ensures Popped(s.ready, Block(s, st).value.cur, Block(s, st).value.ready, s.idle)
  {
    ScheduleReady(SetStatus(s, s.cur, st));
  }

  /** The waiters of a lock: who finds it taken goes to the back, sema_up takes the first. */
  lemma WaitersAfter(s: Sys, e: Event, l: nat)
    requires Inv(s) && Step(s, e).Next? && l < |s.locks|
    ensures |Step(s, e).s.locks| == |s.locks|
    ensures var ws, ws' := s.locks[l].sema.waiters, Step(s, e).s.locks[l].sema.waiters;
            if e.Exec? && Cur(s).pc.l == l && Schedules(s, e) then ws' == ws + [s.sched.cur]
            else if e.Exec? && Cur(s).pc.l == l && PushesFront(s, e) then ws' == ws[1..]
            else ws' == ws
  {
    hide LockInv, ParkingOk, SchedInv, Block, Unblock, Tick, Yield;
  }

  // ----- a full slice -----

  /** From s on thread t waits for the processor: it has it after the last event at the earliest. */
  predicate Waits(s: Sys, evs: seq<Event>, t: Tid)
    requires SysWf(s)
    decreases |evs|
  {
    evs == [] || (s.sched.cur != t && match Step(s, evs[0])
                                      case Next(s1) => SysWf(s1) && Waits(s1, evs[1..], t)
                                      case _ => false)
  }

  /** Nothing but the timer calls schedule. */
  predicate OnlyTimer(s: Sys, evs: seq<Event>)
    requires SysWf(s)
    decreases |evs|
  {
    evs == [] || ((evs[0] != Timer ==> !Schedules(s, evs[0])) && match Step(s, evs[0])
                                                                 case Next(s1) => SysWf(s1) && OnlyTimer(s1, evs[1..])
                                                                 case _ => false)
  }

  /** A waiting thread keeps what is left of its slice. */
  lemma {:induction false} WaitKeepsSlice(s: Sys, evs: seq<Event>, t: Tid)
    requires SysWf(s) && Inv(s) && t in s.sched.tasks && Waits(s, evs, t)
    ensures Run(s, evs).Next? && SysWf(Run(s, evs).s) && Inv(Run(s, evs).s) && t in Run(s, evs).s.sched.tasks
    ensures SameCounters(s.sched.tasks[t], Run(s, evs).s.sched.tasks[t])
    decreases |evs|
  {
    hide Inv, Step;
    if evs != [] {
      StepKeeps(s, evs[0]);
      CountersAfter(s, evs[0], t);
      WaitKeepsSlice(Step(s, evs[0]).s, evs[1..], t);
    }
  }

  lemma {:induction false} OnlyTimerRuns(s: Sys, evs: seq<Event>, t: Tid)
    requires SysWf(s) && OnlyTimer(s, evs)
    ensures Observe(s, evs, t).Some?
    decreases |evs|
  {
    hide Step, SysWf;
    if evs != [] { OnlyTimerRuns(Step(s, evs[0]).s, evs[1..], t); }
  }

  /** The running thread keeps the processor if and only if no more timer interrupts come than its slice has
      left. */
  lemma {:induction false} SliceExact(s: Sys, evs: seq<Event>, t: Tid)
    requires Inv(s) && SysWf(s) && OnlyTimer(s, evs) && s.sched.cur == t
    ensures Observe(s, evs, t).Some?
    ensures Observe(s, evs, t).value.calls == 0 <==> TimerTicks(evs) <= s.sched.tasks[t].ticks
    decreases |evs|
  {
    hide Inv, Step, Schedules;
    if evs != [] {
      var s1 := Step(s, evs[0]).s;
      OnlyTimerRuns(s1, evs[1..], t);
      StepKeeps(s, evs[0]);
      TimerSchedules(s, evs[0]);
      if !Schedules(s, evs[0]) {
        QuietStep(s, evs[0]);
        SliceExact(s1, evs[1..], t);
      }
    }
  }

  lemma TimerSchedules(s: Sys, e: Event)
    requires SysWf(s)
    ensures e == Timer ==> (Schedules(s, e) <==> s.sched.tasks[s.sched.cur].ticks == 0)
  {
  }

  /** A thread that the timer took the processor from has it, when its turn comes again, for exactly priority + 1
      timer interrupts, if nothing but the timer calls schedule meanwhile: that many and no fewer make the timer
      call schedule. */
  lemma FullSlice(s: Sys, away: seq<Event>, back: seq<Event>)
    requires Inv(s) && SysWf(s) && Step(s, Timer).Next? && s.sched.tasks[s.sched.cur].ticks == 0
    requires SysWf(Step(s, Timer).s) && Waits(Step(s, Timer).s, away, s.sched.cur)
    requires Run(Step(s, Timer).s, away).Next? && SysWf(Run(Step(s, Timer).s, away).s)
    requires Run(Step(s, Timer).s, away).s.sched.cur == s.sched.cur && OnlyTimer(Run(Step(s, Timer).s, away).s, back)
    ensures var me := s.sched.cur;
            var w := Observe(Run(Step(s, Timer).s, away).s, back, me);
            w.Some? && (w.value.calls == 0 <==> TimerTicks(back) <= s.sched.tasks[me].priority)
  {
    hide Inv, Step, Waits, OnlyTimer;
    StepKeeps(s, Timer);
    CountersAfter(s, Timer, s.sched.cur);
    WaitKeepsSlice(Step(s, Timer).s, away, s.sched.cur);
    SliceExact(Run(Step(s, Timer).s, away).s, back, s.sched.cur);
  }

  /** The same for the first slice of a thread that is started. */
  lemma FirstSlice(s: Sys, t: Tid, priority: nat, away: seq<Event>, back: seq<Event>)
    requires Inv(s) && SysWf(s) && Step(s, Start(t, priority)).Next?
    requires SysWf(Step(s, Start(t, priority)).s) && Waits(Step(s, Start(t, priority)).s, away, t)
    requires Run(Step(s, Start(t, priority)).s, away).Next? && SysWf(Run(Step(s, Start(t, priority)).s, away).s)
    requires Run(Step(s, Start(t, priority)).s, away).s.sched.cur == t
    requires OnlyTimer(Run(Step(s, Start(t, priority)).s, away).s, back)
    ensures var w := Observe(Run(Step(s, Start(t, priority)).s, away).s, back, t);
            w.Some? && (w.value.calls == 0 <==> TimerTicks(back) <= priority)
  {
    FreshThread(s, t, priority);
    hide Inv, Step, Waits, OnlyTimer;
    StepKeeps(s, Start(t, priority));
    StartedFull(s, Start(t, priority), t);
    WaitKeepsSlice(Step(s, Start(t, priority)).s, away, t);
    SliceExact(Run(Step(s, Start(t, priority)).s, away).s, back, t);
  }

  lemma FreshThread(s: Sys, t: Tid, priority: nat)
    requires SysWf(s) && Step(s, Start(t, priority)).Next?
    ensures t !in s.sched.tasks
  {
  }
}
