/** thread/thread.c, device/timer.c and the interrupts-off regions of thread/sync.c as they change the kernel's
    global state in place, on the linked lists of `ThreadQueues`, proved against the functions of `Scheduler`
    and `Locks`.

    A method returns false where the C code would halt in an ASSERT. */
module KernelThreads {
  import opened Seqs
  import opened Scheduler
  import opened Locks
  import LockProofs
  import L = Lists
  import Q = ThreadQueues

  const STACK_MAGIC: nat := 0x1234_5678

  /** Tasks are numbered by the page of their task_struct. `magic` is the field stack_magic of each. */
  class Kernel {
    const mem: L.Memory
    const heads: seq<nat>
    ghost var lists: seq<seq<Tid>>
    var tasks: map<Tid, Task>
    var magic: map<Tid, nat>
    var cur: Tid
    var idle: Tid
    var ticks: nat

    ghost function View(): Sched
      reads this
    {
      Sched(tasks, if lists == [] then [] else lists[Q.READY], cur, idle)
    }

    /** The lists are linked in memory, and the list of all threads holds exactly the tasks. */
    ghost predicate Valid()
      reads this, mem
    {
      && |lists| > Q.EVERY && Wf(View())
      && Q.Held(mem.words, heads, lists)
      && (forall t :: t in tasks ==> Q.Placed(heads, t) && t in magic)
      && (forall t :: t in tasks <==> t in lists[Q.EVERY])
      && (forall q, t :: 0 <= q < |lists| && t in lists[q] ==> t in tasks)
    }

    /** Thread t waits for no semaphore. */
    ghost predicate Loose(t: Tid)
      reads this
    {
      forall q :: Q.EVERY < q < |lists| ==> t !in lists[q]
    }

    /** Nothing but the ready list, the tasks and the running thread differs. */
    twostate predicate OnlyScheduling()
      reads this
    {
      && |lists| == old(|lists|) && (forall q :: 0 < q < |lists| ==> lists[q] == old(lists[q]))
      && ticks == old(ticks) && magic == old(magic)
    }

    constructor (mem: L.Memory, heads: seq<nat>, ghost lists: seq<seq<Tid>>, tasks: map<Tid, Task>,
                 magic: map<Tid, nat>, cur: Tid, idle: Tid)
      requires |lists| > Q.EVERY && Wf(Sched(tasks, lists[Q.READY], cur, idle))
      requires Q.Held(mem.words, heads, lists)
      requires forall t :: t in tasks ==> Q.Placed(heads, t) && t in magic
      requires forall t :: t in tasks <==> t in lists[Q.EVERY]
      requires forall q, t :: 0 <= q < |lists| && t in lists[q] ==> t in tasks
      ensures Valid() && View() == Sched(tasks, lists[Q.READY], cur, idle)
      ensures this.mem == mem && this.heads == heads && this.lists == lists && this.tasks == tasks
      ensures this.magic == magic && ticks == 0
    {
      this.mem, this.heads, this.lists := mem, heads, lists;
      this.tasks, this.magic, this.cur, this.idle, ticks := tasks, magic, cur, idle, 0;
    }

    /** The ASSERT that list q does not hold thread t yet, and the list_append behind it. */
    method Enqueue(q: nat, t: Tid) returns (ok: bool)
      requires Q.Held(mem.words, heads, lists) && q < |lists| && Q.Placed(heads, t)
      requires forall r :: 0 <= r < |lists| && r != q && Q.SameTag(q, r) ==> t !in lists[r]
      modifies this`lists, mem
      ensures ok == (t !in old(lists)[q])
      ensures ok ==> Q.Held(mem.words, heads, lists) && lists == old(lists)[q := old(lists)[q] + [t]]
    {
      hide Q.Held, Q.Placed;
      var found := Q.Find(mem, heads, lists, q, t);
      if found { return false; }
      Q.Append(mem, heads, lists, q, t);
      lists := lists[q := lists[q] + [t]];
      return true;
    }

    method ThreadUnblock(t: Tid) returns (ok: bool)
      requires Valid() && t in tasks && Loose(t)
      modifies this, mem
      ensures ok == Unblock(old(View()), t).Ok?
      ensures ok ==> Valid() && View() == Unblock(old(View()), t).value && OnlyScheduling()
    {
      hide Q.Held, Q.Placed;
      if !(tasks[t].status == Blocked || tasks[t].status == Waiting || tasks[t].status == Hanging) {
        return false;
      }
      if tasks[t].status != Ready {
        var found := Q.Find(mem, heads, lists, Q.READY, t);
        if found { return false; }
        Q.Push(mem, heads, lists, Q.READY, t);
        lists := lists[Q.READY := [t] + lists[Q.READY]];
        tasks := tasks[t := tasks[t].(status := Ready)];
      }
      return true;
    }

    /** The first part of schedule: a thread that is still RUNNING goes to the back with a full slice. */
    method PutBack() returns (ok: bool)
      requires Valid() && (tasks[cur].status == Running ==> Loose(cur))
      modifies this, mem
      ensures ok == Requeue(old(View())).Ok?
      ensures ok ==> Valid() && View() == Requeue(old(View())).value && OnlyScheduling()
    {
      hide Q.Held, Q.Placed;
      if tasks[cur].status == Running {
        ok := Enqueue(Q.READY, cur);
        if !ok { return; }
        tasks := tasks[cur := tasks[cur].(ticks := tasks[cur].priority)];
        tasks := tasks[cur := tasks[cur].(status := Ready)];
        assert tasks == Requeue(old(View())).value.tasks;
      }
      return true;
    }

    /** Its last part: the head of the ready list gets the processor. */
    method SwitchToNext() returns (ok: bool)
      requires Valid()
      modifies this, mem
      ensures ok == Dispatch(old(View())).Ok?
      ensures ok ==> Valid() && View() == Dispatch(old(View())).value && OnlyScheduling()
    {
      hide Q.Held, Q.Placed;
      var empty := Q.IsEmpty(mem, heads, lists, Q.READY);
      if empty { return false; }
      var next := Q.Pop(mem, heads, lists, Q.READY);
      assert next in lists[Q.READY];
      lists := lists[Q.READY := lists[Q.READY][1..]];
      tasks := tasks[next := tasks[next].(status := Running)];
      cur := next;
      return true;
    }

    method DoSchedule() returns (ok: bool)
      requires Valid() && Loose(idle) && (tasks[cur].status == Running ==> Loose(cur))
      modifies this, mem
      ensures ok == Schedule(old(View())).Ok?
      ensures ok ==> Valid() && View() == Schedule(old(View())).value && OnlyScheduling()
    {
      hide Q.Held, Q.Placed, Dispatch;
      ok := PutBack();
      if !ok { return; }
      var empty := Q.IsEmpty(mem, heads, lists, Q.READY);
      if empty {
        ok := ThreadUnblock(idle);
        if !ok { return; }
      }
      ok := SwitchToNext();
    }

    method ThreadYield() returns (ok: bool)
      requires Valid() && Loose(idle) && Loose(cur)
      modifies this, mem
      ensures ok == Yield(old(View())).Ok?
      ensures ok ==> Valid() && View() == Yield(old(View())).value && OnlyScheduling()
    {
      hide Q.Held, Q.Placed, Schedule;
      ok := Enqueue(Q.READY, cur);
      if !ok { return; }
      tasks := tasks[cur := tasks[cur].(status := Ready)];
      ok := DoSchedule();
    }

    method ThreadBlock(stat: Status) returns (ok: bool)
      requires Valid() && Loose(idle)
      modifies this, mem
      ensures ok == Block(old(View()), stat).Ok?
      ensures ok ==> Valid() && View() == Block(old(View()), stat).value && OnlyScheduling()
    {
      hide Q.Held, Q.Placed;
      if !(stat == Blocked || stat == Waiting || stat == Hanging) { return false; }
      tasks := tasks[cur := tasks[cur].(status := stat)];
      ok := DoSchedule();
    }

    /** The handler counts the interrupt and charges it to the running thread, whose stack must be intact. */
    method TimerHandler() returns (ok: bool)
      requires Valid() && Loose(idle) && Loose(cur)
      modifies this, mem
      ensures ok == (old(magic)[old(cur)] == STACK_MAGIC && Tick(old(View())).Ok?)
      ensures ok ==> Valid() && View() == Tick(old(View())).value
      ensures ok ==> ticks == (old(ticks) + 1) % 0x1_0000_0000 && magic == old(magic)
      ensures ok ==> |lists| == |old(lists)| && forall q :: 0 < q < |lists| ==> lists[q] == old(lists)[q]
    {
      hide Q.Held, Q.Placed, Schedule;
      if magic[cur] != STACK_MAGIC { return false; }
      tasks := tasks[cur := tasks[cur].(elapsed := tasks[cur].elapsed + 1)];
      ticks := (ticks + 1) % 0x1_0000_0000;
      if tasks[cur].ticks == 0 {
        ok := DoSchedule();
      } else {
        tasks := tasks[cur := tasks[cur].(ticks := tasks[cur].ticks - 1)];
        ok := true;
      }
    }

    /** The new thread's task_struct is in page t, which holds no list's head. */
    method ThreadStart(t: Tid, priority: nat) returns (ok: bool)
      requires Valid() && t !in tasks && Q.Placed(heads, t)
      modifies this, mem
      ensures ok == Spawn(old(View()), t, priority).Ok?
      ensures ok ==> Valid() && View() == Spawn(old(View()), t, priority).value
      ensures ok ==> lists == old(lists)[Q.READY := View().ready][Q.EVERY := old(lists)[Q.EVERY] + [t]]
      ensures ok ==> ticks == old(ticks) && magic == old(magic)[t := STACK_MAGIC]
    {
      hide Q.Held, Q.Placed;
      tasks := tasks[t := Task(Ready, priority, priority, 0)];
      magic := magic[t := STACK_MAGIC];
      ok := Enqueue(Q.READY, t);
      if !ok { return; }
      ok := Enqueue(Q.EVERY, t);
    }
  }

  /** A semaphore whose waiters are list q of the kernel. */
  class Semaphore {
    var value: nat
    const q: nat

    ghost function View(k: Kernel): Sema
      requires q < |k.lists|
      reads this, k
    {
      Sema(value, k.lists[q])
    }

    constructor (value: nat, q: nat)
      ensures this.value == value && this.q == q
    {
      this.value, this.q := value, q;
    }

    /** sema_down from intr_disable to the switch away or to intr_set_status: the loop test, then either
        the body of the loop or the statements after it. */
    method DownPass(k: Kernel) returns (ok: bool, taken: bool)
      requires k.Valid() && Q.EVERY < q < |k.lists| && k.Loose(k.idle)
      requires value == 0 ==> k.cur != k.idle && k.cur !in k.lists[Q.READY]
      requires value == 0 ==> forall r :: Q.EVERY < r < |k.lists| && r != q ==> k.cur !in k.lists[r]
      modifies this, k, k.mem
      ensures ok == SemaDown(old(k.View()), old(View(k))).Ok?
      ensures ok ==> k.Valid() && |k.lists| == |old(k.lists)|
      ensures ok ==> DownResult(k.View(), View(k), taken) == SemaDown(old(k.View()), old(View(k))).value
      ensures ok ==> forall r :: 0 < r < |k.lists| && r != q ==> k.lists[r] == old(k.lists)[r]
      ensures ok ==> k.magic == old(k.magic)
    {
      hide Q.Held, Q.Placed;
      taken := false;
      if value == 0 {
        ok := k.Enqueue(q, k.cur);
        if !ok { return; }
        ok := k.ThreadBlock(Blocked);
      } else {
        value := value - 1;
        ok, taken := value == 0, true;
      }
    }

    method Up(k: Kernel) returns (ok: bool)
      requires k.Valid() && Q.EVERY < q < |k.lists|
      modifies this, k, k.mem
      ensures ok == SemaUp(old(k.View()), old(View(k))).Ok?
      ensures ok ==> k.Valid() && |k.lists| == |old(k.lists)|
      ensures ok ==> UpResult(k.View(), View(k)) == SemaUp(old(k.View()), old(View(k))).value
      ensures ok ==> forall r :: 0 < r < |k.lists| && r != q ==> k.lists[r] == old(k.lists)[r]
      ensures ok ==> k.magic == old(k.magic)
    {
      hide Q.Held, Q.Placed;
      if value != 0 { return false; }
      var empty := Q.IsEmpty(k.mem, k.heads, k.lists, q);
      if !empty {
        Q.PoppedIsFree(k.mem.words, k.heads, k.lists, q);
        var blocked := Q.Pop(k.mem, k.heads, k.lists, q);
        k.lists := k.lists[q := k.lists[q][1..]];
        assert k.Loose(blocked);
        ok := k.ThreadUnblock(blocked);
        if !ok { return; }
      }
      value := value + 1;
      ok := value == 1;
    }
  }

  /** The kernel is in state s; the waiters of lock l are its list l + 2. */
  ghost predicate Shows(k: Kernel, s: Sys)
    reads k, k.mem
  {
    && k.Valid() && k.View() == s.sched && |k.lists| == |s.locks| + 2
    && forall l :: 0 <= l < |s.locks| ==> k.lists[l + 2] == s.locks[l].sema.waiters
  }

  /** Wherever the invariant of the locks holds, the methods may be called: neither the running thread nor idle
      is on a waiters list, the running thread is not on the ready list, and a thread blocked outside sema_down
      is on no list. */
  lemma CallsAllowed(k: Kernel, s: Sys)
    requires Inv(s) && Shows(k, s)
    ensures k.Loose(k.cur) && k.Loose(k.idle) && k.cur !in k.lists[Q.READY]
    ensures forall t :: t in s.clients && s.clients[t].pc.Asleep? ==> k.Loose(t) && t !in k.lists[Q.READY]
    ensures Cur(s).pc.In? ==> k.cur != k.idle && Cur(s).pc.l < |s.locks|
  {
    hide Q.Held, Q.Placed;
    forall l, t | 0 <= l < |s.locks| && t in s.locks[l].sema.waiters ensures SleepsOn(s, t, l) {
      assert LockInv(s, l);
    }
    forall t, q | Q.EVERY < q < |k.lists| && (t == k.cur || t == k.idle || (t in s.clients && s.clients[t].pc.Asleep?))
      ensures t !in k.lists[q]
    {
      assert k.lists[q - 2 + 2] == s.locks[q - 2].sema.waiters;
    }
  }

  /** In a state that satisfies the invariant the pass of sema_down on the linked lists does not halt, and the
      kernel then shows the state that `Locks` steps to. */
  method DownStep(k: Kernel, m: Semaphore, ghost s: Sys, ghost l: nat) returns (taken: bool)
    requires Inv(s) && Shows(k, s) && Cur(s).pc.In? && Cur(s).pc.l == l && Cur(s).pc.p.Down?
    requires m.q == l + 2 && m.value == s.locks[l].sema.value
    modifies m, k, k.mem
    ensures DoExec(s).Next? && Shows(k, DoExec(s).s) && m.value == DoExec(s).s.locks[l].sema.value
    ensures s.sched.cur in DoExec(s).s.clients
            && DoExec(s).s.clients[s.sched.cur].pc == In(l, if taken then SetHolder else Down(true))
    ensures k.magic == old(k.magic)
  {
    hide Inv, Q.Held, Q.Placed, SemaDown;
    CallsAllowed(k, s);
    LockProofs.ExecKeeps(s);
    var ok;
    ok, taken := m.DownPass(k);
  }

  /** The same for sema_up. */
  method UpStep(k: Kernel, m: Semaphore, ghost s: Sys, ghost l: nat)
    requires Inv(s) && Shows(k, s) && Cur(s).pc == In(l, Up)
    requires m.q == l + 2 && m.value == s.locks[l].sema.value
    modifies m, k, k.mem
    ensures DoExec(s).Next? && Shows(k, DoExec(s).s) && m.value == DoExec(s).s.locks[l].sema.value
    ensures k.magic == old(k.magic)
  {
    hide Inv, Q.Held, Q.Placed, SemaUp;
    CallsAllowed(k, s);
    LockProofs.ExecKeeps(s);
    var ok := m.Up(k);
  }
}
