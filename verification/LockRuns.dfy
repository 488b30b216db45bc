/** What holds over whole runs of the kernel, whatever the interleaving. */
module LockRuns {
  import opened Seqs
  import opened Scheduler
  import opened Locks
  import opened LockProofs

  /** The state thread_init leaves: main running, the first user process and idle ready, n free locks. */
  function Boot(n: nat): Sys {
    Sys(Sched(map[0 := Task(Running, 31, 31, 0), 1 := Task(Ready, 10, 10, 0), 2 := Task(Ready, 31, 31, 0)],
              [2, 1], 0, 1),
        map[0 := Client(Out, multiset{}), 1 := Client(Out, multiset{}), 2 := Client(Out, multiset{})],
        seq(n, _ => Lock(None, 0, Sema(1, []))))
  }

  /** The run of a sequence of events; dangling thread numbers would count as a crash. */
  function Run(s: Sys, evs: seq<Event>): StepResult
    requires SysWf(s)
    decreases |evs|
  {
    if evs == [] then Next(s)
    else
      match Step(s, evs[0])
      case NotEnabled => NotEnabled
      case Halt => Halt
      case Next(s1) => if SysWf(s1) then Run(s1, evs[1..]) else Halt
  }

  lemma BootKeeps(n: nat)
    ensures Inv(Boot(n))
  {
    hide LockInv;
    var s := Boot(n);
    assert forall t :: t in s.sched.ready <==> t == 1 || t == 2;
    forall l | 0 <= l < |s.locks| ensures LockInv(s, l) {
      BootLock(n, l);
    }
  }

  lemma BootLock(n: nat, l: nat)
    requires l < |Boot(n).locks|
    ensures LockInv(Boot(n), l)
  {
    var s := Boot(n);
    assert s.locks[l] == Lock(None, 0, Sema(1, []));
    assert forall t :: t in s.clients ==> s.clients[t] == Client(Out, multiset{});
  }

  lemma {:induction false} RunKeeps(s: Sys, evs: seq<Event>)
    requires Inv(s)
    ensures !Run(s, evs).Halt?
    ensures Run(s, evs).Next? ==> Inv(Run(s, evs).s)
    decreases |evs|
  {
    if evs != [] {
      StepKeeps(s, evs[0]);
      if Step(s, evs[0]).Next? {
        RunKeeps(Step(s, evs[0]).s, evs[1..]);
      }
    }
  }

  ghost predicate Reachable(s: Sys) {
    exists n: nat, evs :: SysWf(Boot(n)) && Run(Boot(n), evs) == Next(s)
  }

  lemma ReachableInv(s: Sys)
    requires Reachable(s)
    ensures Inv(s)
  {
    var n: nat, evs :| SysWf(Boot(n)) && Run(Boot(n), evs) == Next(s);
    BootKeeps(n);
    RunKeeps(Boot(n), evs);
  }

  // ----- locks -----

  /** No interleaving fires an assert of sema_down, sema_up, lock_acquire, lock_release, schedule,
      thread_yield, thread_block, thread_unblock or thread_start. */
  lemma NoAssertFires(n: nat, evs: seq<Event>)
    ensures SysWf(Boot(n)) && !Run(Boot(n), evs).Halt?
  {
    BootKeeps(n);
    RunKeeps(Boot(n), evs);
  }

  /** Mutual exclusion, and what the fields of a lock mean to those who look at them. */
  lemma MutualExclusion(s: Sys, l: nat)
    requires Reachable(s) && l < |s.locks|
    ensures forall t, u :: Owns(s, t, l) && Owns(s, u, l) ==> t == u
    ensures s.locks[l].sema.value <= 1
    ensures s.locks[l].sema.value == 0 <==> exists t :: Owns(s, t, l)
    ensures forall t :: s.locks[l].holder == Some(t) ==> Owns(s, t, l)
    ensures forall t :: Owns(s, t, l) && At(s.clients[t].pc, l) == None ==>
              s.locks[l].holder == Some(t) && s.locks[l].repeat == s.clients[t].held[l]
  {
    ReachableInv(s);
    assert LockInv(s, l);
    if s.locks[l].holder.Some? { HolderOwns(s, l); }
  }

  /** A free lock with sleepers always has a woken thread on its way to take it. */
  lemma NoLostWakeup(s: Sys, l: nat)
    requires Reachable(s) && l < |s.locks|
    requires s.locks[l].sema.value == 1 && s.locks[l].sema.waiters != []
    ensures exists t :: WokenIn(s, t, l) && (t == s.sched.cur || t in s.sched.ready)
  {
    ReachableInv(s);
    assert LockInv(s, l);
    var t :| WokenIn(s, t, l);
    assert t == s.sched.cur || t in s.sched.ready;
  }

  /** +1 when this step completes thread t's lock_acquire of l, -1 when t calls lock_release on l. */
  function Nesting(s: Sys, e: Event, t: Tid, l: nat): int
    requires SysWf(s)
  {
    if s.sched.cur != t then 0
    else if e == Exec && (Cur(s).pc == In(l, Reenter) || Cur(s).pc == In(l, SetRepeat)) then 1
    else if e == CallRelease(l) then -1
    else 0
  }

  function NestingOver(s: Sys, evs: seq<Event>, t: Tid, l: nat): int
    requires SysWf(s) && Run(s, evs).Next?
    decreases |evs|
  {
    if evs == [] then 0
    else Nesting(s, evs[0], t, l) + NestingOver(Step(s, evs[0]).s, evs[1..], t, l)
  }

  /** Thread t's record of lock l; a thread not yet started has acquired nothing. */
  function Held(s: Sys, t: Tid, l: nat): nat {
    if t in s.clients then s.clients[t].held[l] else 0
  }

  lemma ExecNesting(s: Sys, t: Tid, l: nat)
    requires SysWf(s) && Cur(s).pc.In? && DoExec(s).Next?
    ensures |DoExec(s).s.locks| == |s.locks|
    ensures Held(DoExec(s).s, t, l) == Held(s, t, l) + Nesting(s, Exec, t, l)
  {
  }

  lemma StepNesting(s: Sys, e: Event, t: Tid, l: nat)
    requires SysWf(s) && Step(s, e).Next?
    ensures |Step(s, e).s.locks| == |s.locks|
    ensures Held(Step(s, e).s, t, l) == Held(s, t, l) + Nesting(s, e, t, l)
  {
    match e
    case Exec => ExecNesting(s, t, l);
    case Timer =>
    case CallAcquire(_) =>
    case CallRelease(_) =>
    case CallYield =>
    case CallBlock(_) =>
    case CallUnblock(_) =>
    case Start(_, _) =>
  }

  lemma {:induction false} RunNesting(s: Sys, evs: seq<Event>, t: Tid, l: nat)
    requires Inv(s) && Run(s, evs).Next?
    ensures |Run(s, evs).s.locks| == |s.locks|
    ensures Held(Run(s, evs).s, t, l) == Held(s, t, l) + NestingOver(s, evs, t, l)
    decreases |evs|
  {
    if evs != [] {
      StepKeeps(s, evs[0]);
      StepNesting(s, evs[0], t, l);
      RunNesting(Step(s, evs[0]).s, evs[1..], t, l);
    }
  }

  /** holder_repeat_nr is the nesting depth: completed acquires minus releases of the whole run. */
  lemma RepeatIsNestingDepth(n: nat, evs: seq<Event>, t: Tid, l: nat)
    requires l < n && SysWf(Boot(n)) && Run(Boot(n), evs).Next?
    ensures var s, depth := Run(Boot(n), evs).s, NestingOver(Boot(n), evs, t, l);
            && SysWf(s) && l < |s.locks| && depth >= 0
            && (depth > 0 ==> Owns(s, t, l))
            && (depth > 0 && At(s.clients[t].pc, l) == None ==>
                  s.locks[l].holder == Some(t) && s.locks[l].repeat == depth)
  {
    BootKeeps(n);
    RunKeeps(Boot(n), evs);
    RunNesting(Boot(n), evs, t, l);
    var s := Run(Boot(n), evs).s;
    assert LockInv(s, l);
  }

  // ----- scheduler -----

  /** Exactly one RUNNING thread; the ready list is the set of READY threads without repetition; no
      thread's general_tag is on two lists or twice on one. */
  lemma SchedulerState(s: Sys)
    requires Reachable(s)
    ensures SysWf(s)
    ensures forall t :: t in s.sched.tasks ==> (s.sched.tasks[t].status == Running <==> t == s.sched.cur)
    ensures forall t :: t in s.sched.tasks ==> (s.sched.tasks[t].status == Ready <==> t in s.sched.ready)
    ensures NoDup(s.sched.ready)
    ensures forall l :: 0 <= l < |s.locks| ==> NoDup(s.locks[l].sema.waiters)
    ensures forall l, t :: 0 <= l < |s.locks| && t in s.locks[l].sema.waiters ==> t !in s.sched.ready
    ensures forall k, l, t :: 0 <= k < l < |s.locks| && t in s.locks[k].sema.waiters ==> t !in s.locks[l].sema.waiters
  {
    ReachableInv(s);
    forall l | 0 <= l < |s.locks| ensures WaitersOk(s, l) && NoDup(s.locks[l].sema.waiters) {
      assert LockInv(s, l);
    }
    forall l, t | 0 <= l < |s.locks| && t in s.locks[l].sema.waiters ensures SleepsOn(s, t, l) {
      assert WaitersOk(s, l);
    }
  }

  /** Does this step call schedule? */
  predicate Schedules(s: Sys, e: Event)
    requires SysWf(s)
  {
    match e
    case Timer => s.sched.tasks[s.sched.cur].ticks == 0
    case Exec => Cur(s).pc.In? && Cur(s).pc.p.Down? && s.locks[Cur(s).pc.l].sema.value == 0
    case CallYield => true
    case CallBlock(_) => true
    case _ => false
  }

  /** Does this step push a woken thread to the front of the ready list? */
  predicate PushesFront(s: Sys, e: Event)
    requires SysWf(s)
  {
    match e
    case Exec => Cur(s).pc.In? && Cur(s).pc.p.Up? && s.locks[Cur(s).pc.l].sema.waiters != []
    case CallUnblock(_) => true
    case _ => false
  }

  function B2N(b: bool): nat { if b then 1 else 0 }

  /** A run as an observer waiting for thread t sees it: the last state, how often schedule was called
      and the front of the ready list pushed to, and whether t got the processor. */
  datatype Watch = Watch(s: Sys, calls: nat, pushes: nat, got: bool)

  function Observe(s: Sys, evs: seq<Event>, t: Tid): Option<Watch>
    requires SysWf(s)
    decreases |evs|
  {
    if evs == [] then Some(Watch(s, 0, 0, false))
    else
      match Step(s, evs[0])
      case NotEnabled => None
      case Halt => None
      case Next(s1) =>
        if !SysWf(s1) then None
        else Count(B2N(Schedules(s, evs[0])), B2N(PushesFront(s, evs[0])), s1.sched.cur == t, Observe(s1, evs[1..], t))
  }

  function Count(calls: nat, pushes: nat, got: bool, w: Option<Watch>): Option<Watch> {
    if w.None? then None
    else Some(Watch(w.value.s, calls + w.value.calls, pushes + w.value.pushes, got || w.value.got))
  }

  lemma {:induction false} ObserveRuns(s: Sys, evs: seq<Event>, t: Tid)
    requires SysWf(s)
    ensures Observe(s, evs, t).Some? == Run(s, evs).Next?
    ensures Observe(s, evs, t).Some? ==> Observe(s, evs, t).value.s == Run(s, evs).s
    decreases |evs|
  {
    if evs != [] && Step(s, evs[0]).Next? && SysWf(Step(s, evs[0]).s) {
      ObserveRuns(Step(s, evs[0]).s, evs[1..], t);
    }
  }

  /** How schedule, a front push and anything else move the thread at index k of the ready list. */
  ghost predicate MovesTo(q: seq<Tid>, k: nat, s': Sched, k': int)
    requires k < |q|
  {
    if k' < 0 then s'.cur == q[k] else k' < |s'.ready| && s'.ready[k'] == q[k]
  }

  lemma TimerMoves(s: Sys, k: nat)
    requires Inv(s) && Step(s, Timer).Next? && k < |s.sched.ready|
    ensures MovesTo(s.sched.ready, k, Step(s, Timer).s.sched, k - B2N(Schedules(s, Timer)))
  {
    if Schedules(s, Timer) {
      ChargeKeepsInv(s.sched);
      ScheduleMovesUp(Charge(s.sched), k);
    }
  }

  lemma BlockMoves(s: Sched, st: Status, k: nat)
    requires SchedInv(s) && Parked(st) && k < |s.ready|
    ensures Block(s, st).Ok? && MovesTo(s.ready, k, Block(s, st).value, k - 1)
  {
    assert Entering(SetStatus(s, s.cur, st));
    ScheduleMovesUp(SetStatus(s, s.cur, st), k);
  }

  lemma ExecMoves(s: Sys, k: nat)
    requires Inv(s) && Cur(s).pc.In? && DoExec(s).Next? && k < |s.sched.ready|
    ensures MovesTo(s.sched.ready, k, DoExec(s).s.sched, k + B2N(PushesFront(s, Exec)) - B2N(Schedules(s, Exec)))
  {
    var l := Cur(s).pc.l;
    if Plain(Cur(s).pc.p) {
      PlainMoves(s);
    } else if Schedules(s, Exec) {
      BlockMoves(s.sched, Blocked, k);
    }
  }

  lemma QuietMoves(s: Sys, e: Event, k: nat)
    requires SysWf(s) && Step(s, e).Next? && k < |s.sched.ready|
    requires e.CallAcquire? || e.CallRelease? || e.CallUnblock? || e.Start?
    ensures MovesTo(s.sched.ready, k, Step(s, e).s.sched, k + B2N(PushesFront(s, e)))
  {
  }

  /** schedule moves a queued thread one place up, a front push one place down, nothing else moves it. */
  lemma StepMoves(s: Sys, e: Event, k: nat)
    requires Inv(s) && Step(s, e).Next? && k < |s.sched.ready|
    ensures MovesTo(s.sched.ready, k, Step(s, e).s.sched, k + B2N(PushesFront(s, e)) - B2N(Schedules(s, e)))
  {
    if e.Timer? {
      TimerMoves(s, k);
    } else if e.Exec? {
      ExecMoves(s, k);
    } else if e.CallBlock? {
      BlockMoves(s.sched, e.st, k);
    } else if e.CallYield? {
      YieldMovesUp(s.sched, k);
    } else {
      QuietMoves(s, e, k);
    }
  }

  lemma YieldMovesUp(s: Sched, k: nat)
    requires SchedInv(s) && k < |s.ready|
    ensures Yield(s).Ok?
    ensures MovesTo(s.ready, k, Yield(s).value, k - 1)
  {
    var s1 := SetStatus(s, s.cur, Ready).(ready := s.ready + [s.cur]);
    assert Entering(s1);
    ScheduleMovesUp(s1, k);
  }

  predicate Stands(s: Sys, t: Tid, i: int) {
    0 <= i < |s.sched.ready| && s.sched.ready[i] == t
  }

  /** Bounded waiting: until it gets the processor, a thread found at index k of the ready list stands
      at index k + u - c after c schedule calls and u front pushes. */
  lemma {:induction false} WaitingPosition(s: Sys, evs: seq<Event>, t: Tid, k: int)
    requires Inv(s) && Stands(s, t, k)
    requires Observe(s, evs, t).Some?
    ensures var w := Observe(s, evs, t).value; w.got || Stands(w.s, t, k + w.pushes - w.calls)
    decreases |evs|
  {
    hide Step, Inv, SysWf;
    if evs != [] {
      var s1, c, p := StepOn(s, evs, t, k);
      if s1.sched.cur != t {
        WaitingPosition(s1, evs[1..], t, k + p - c);
      }
    }
  }

  lemma InvIsWf(s: Sys)
    requires Inv(s)
    ensures SysWf(s)
  {
  }

  /** Taking the first event off a run. */
  lemma StepOn(s: Sys, evs: seq<Event>, t: Tid, k: int) returns (s1: Sys, calls: nat, pushes: nat)
    requires Inv(s) && Stands(s, t, k) && evs != [] && Observe(s, evs, t).Some?
    ensures Inv(s1) && Observe(s, evs, t) == Count(calls, pushes, s1.sched.cur == t, Observe(s1, evs[1..], t))
    ensures s1.sched.cur == t || Stands(s1, t, k + pushes - calls)
  {
    InvIsWf(s);
    hide Inv, Step;
    StepMoves(s, evs[0], k);
    StepKeeps(s, evs[0]);
    s1, calls, pushes := Step(s, evs[0]).s, B2N(Schedules(s, evs[0])), B2N(PushesFront(s, evs[0]));
  }

  /** Hence the (k+1+u)-th schedule call at the latest gives it the processor. */
  lemma BoundedWaiting(s: Sys, evs: seq<Event>, t: Tid, k: int)
    requires Inv(s) && Stands(s, t, k)
    requires Observe(s, evs, t).Some?
    requires Observe(s, evs, t).value.calls >= k + 1 + Observe(s, evs, t).value.pushes
    ensures Observe(s, evs, t).value.got
  {
    hide Inv, Observe, Step;
    WaitingPosition(s, evs, t, k);
  }

  function TimerTicks(evs: seq<Event>): nat {
    if evs == [] then 0 else B2N(evs[0] == Timer) + TimerTicks(evs[1..])
  }

  lemma QuietExec(s: Sys)
    requires SysWf(s) && Cur(s).pc.In? && DoExec(s).Next? && !Schedules(s, Exec)
    ensures DoExec(s).s.sched.cur == s.sched.cur && s.sched.cur in DoExec(s).s.sched.tasks
    ensures DoExec(s).s.sched.tasks[s.sched.cur].ticks == s.sched.tasks[s.sched.cur].ticks
  {
  }

  /** A step that does not call schedule keeps the thread and, but for the timer, its slice. */
  lemma QuietStep(s: Sys, e: Event)
    requires SysWf(s) && Step(s, e).Next? && !Schedules(s, e)
    ensures Step(s, e).s.sched.cur == s.sched.cur && s.sched.cur in Step(s, e).s.sched.tasks
    ensures Step(s, e).s.sched.tasks[s.sched.cur].ticks == s.sched.tasks[s.sched.cur].ticks - B2N(e == Timer)
  {
    match e
    case Exec => QuietExec(s);
    case Timer =>
    case CallAcquire(_) =>
    case CallRelease(_) =>
    case CallUnblock(_) =>
    case Start(_, _) =>
  }

  /** While schedule is not called the running thread stays and its slice shrinks by one a tick. */
  lemma {:induction false} SliceBound(s: Sys, evs: seq<Event>, t: Tid)
    requires Inv(s) && Observe(s, evs, t).Some? && Observe(s, evs, t).value.calls == 0
    ensures var s', me := Observe(s, evs, t).value.s, s.sched.cur;
            && SysWf(s') && s'.sched.cur == me
            && s'.sched.tasks[me].ticks == s.sched.tasks[me].ticks - TimerTicks(evs)
    ensures TimerTicks(evs) <= s.sched.tasks[s.sched.cur].ticks <= s.sched.tasks[s.sched.cur].priority
    decreases |evs|
  {
    if evs != [] {
      StepKeeps(s, evs[0]);
      QuietStep(s, evs[0]);
      SliceBound(Step(s, evs[0]).s, evs[1..], t);
    }
  }
}
