/** The scheduler and the mutex as a transition system: one step for each critical section under
    the scheduler lock (src/kernel/sched/sched.c) or under a mutex's own lock
    (src/kernel/sync/sync.h). Going to sleep is one step together with the schedule() it ends in.

    Every thread has a place. That a thread is in one place only is built into this map; what has
    to be proved is that the queues, the wait lists, the current-thread variable and the state
    fields all agree with it. */
module Sched {
  import opened Machine
  import L = DList

  datatype Place =
    | Running
    | Idle                    // the idle thread while another thread runs
    | Ready
    | Sleeping(until: nat)
    | Waiting(mutex: nat)     // blocked, in the wait list of the mutex
    | HandOff(mutex: nat)     // blocked, already owner, not yet back in the ready queue
    | Zombie

  datatype Mutex = Mutex(owner: nat, waiters: seq<nat>)

  datatype Sys = Sys(
    place: map<nat, Place>,
    current: nat,
    idle: nat,
    ready: seq<nat>,
    sleep: seq<nat>,
    mutexes: map<nat, Mutex>,
    ticks: nat)

  datatype Step =
    | Create(t: nat)                // schedCreateThread
    | Schedule                      // schedule() by the running thread, preemption enabled
    | Sleep(n: nat)                 // schedSleep
    | Exit                          // schedThreadExit
    | Tick                          // schedTick
    | Lock(m: nat)                  // mutex_lock
    | Unlock(m: nat)                // mutex_unlock up to the release of the mutex's lock
    | Requeue(t: nat)               // the schedEnqueueReady at the end of mutex_unlock

  ghost predicate Is(s: Sys, t: nat, p: Place) { t in s.place && s.place[t] == p }

  ghost predicate Asleep(s: Sys, t: nat) { t in s.place && s.place[t].Sleeping? }

  /** The queues hold exactly the threads whose place says so, each once. */
  ghost predicate QueuesOk(s: Sys) {
    && L.Distinct(s.ready) && (forall t :: t in s.ready <==> (t in s.place && s.place[t] == Ready))
    && L.Distinct(s.sleep) && (forall t :: t in s.sleep <==> (t in s.place && s.place[t].Sleeping?))
  }

  ghost predicate MutexOk(s: Sys, m: nat) {
    && m in s.mutexes && L.Distinct(s.mutexes[m].waiters)
    && (forall t :: t in s.mutexes[m].waiters <==> (t in s.place && s.place[t] == Waiting(m)))
    && (s.mutexes[m].owner == 0 ==> s.mutexes[m].waiters == [])
  }

  ghost predicate MutexesOk(s: Sys) {
    && (forall m :: m in s.mutexes ==> MutexOk(s, m))
    && (forall t :: t in s.place && s.place[t].Waiting? ==> s.place[t].mutex in s.mutexes)
    && (forall t :: t in s.place && s.place[t].HandOff? ==>
          s.place[t].mutex in s.mutexes && s.mutexes[s.place[t].mutex].owner == t)
  }

  /** Exactly the current thread runs; the idle thread runs or is put aside. */
  ghost predicate CpuOk(s: Sys) {
    && 0 !in s.place
    && (forall t :: (t in s.place && s.place[t] == Running) <==> t == s.current)
    && (Is(s, s.idle, Running) || Is(s, s.idle, Idle))
    && (forall t :: (t in s.place && s.place[t] == Idle) ==> t == s.idle)
  }

  ghost predicate Inv(s: Sys) { QueuesOk(s) && MutexesOk(s) && CpuOk(s) }

  // ---- the steps

  /** The current thread has left the CPU: the longest-waiting ready thread runs next, or idle. */
  ghost function Dispatch(s: Sys): Sys {
    if s.ready == [] then s.(place := s.place[s.idle := Running], current := s.idle)
    else s.(place := s.place[s.ready[0] := Running], current := s.ready[0], ready := s.ready[1..])
  }

  ghost function Leave(s: Sys, p: Place): Sys { s.(place := s.place[s.current := p]) }

  ghost predicate Due(s: Sys, now: nat, t: nat) { Asleep(s, t) && now >= s.place[t].until }

  /** The first k sleepers that stay asleep at time now, and those that wake, in list order. */
  ghost function Kept(s: Sys, now: nat, k: nat): seq<nat>
    requires k <= |s.sleep|
  {
    if k == 0 then [] else Kept(s, now, k - 1) + if Due(s, now, s.sleep[k - 1]) then [] else [s.sleep[k - 1]]
  }

  ghost function Woken(s: Sys, now: nat, k: nat): seq<nat>
    requires k <= |s.sleep|
  {
    if k == 0 then [] else Woken(s, now, k - 1) + if Due(s, now, s.sleep[k - 1]) then [s.sleep[k - 1]] else []
  }

  ghost function WakeAll(s: Sys, now: nat): Sys {
    s.(place := map t | t in s.place :: if Due(s, now, t) then Ready else s.place[t],
       sleep := Kept(s, now, |s.sleep|),
       ready := s.ready + Woken(s, now, |s.sleep|),
       ticks := now)
  }

  /** The idle thread neither sleeps, exits, nor locks; only the owner unlocks. */
  ghost predicate Enabled(s: Sys, step: Step) {
    if step.Create? then step.t != 0 && step.t !in s.place
    else if step.Sleep? then s.current != s.idle && step.n > 0
    else if step.Exit? then s.current != s.idle
    else if step.Lock? then s.current != s.idle && step.m in s.mutexes
    else if step.Unlock? then step.m in s.mutexes && s.mutexes[step.m].owner == s.current
    else if step.Requeue? then step.t in s.place && s.place[step.t].HandOff?
    else true
  }

  ghost function Take(s: Sys, m: nat): Sys
    requires m in s.mutexes
  {
    var x := s.mutexes[m];
    if x.owner == 0 then s.(mutexes := s.mutexes[m := x.(owner := s.current)])
    else Dispatch(Leave(s, Waiting(m)).(mutexes := s.mutexes[m := x.(waiters := x.waiters + [s.current])]))
  }

  ghost function Release(s: Sys, m: nat): Sys
    requires m in s.mutexes
  {
    var x := s.mutexes[m];
    if x.waiters == [] then s.(mutexes := s.mutexes[m := x.(owner := 0)])
    else s.(place := s.place[x.waiters[0] := HandOff(m)],
      mutexes := s.mutexes[m := Mutex(x.waiters[0], x.waiters[1..])])
  }

  /** The current thread is in the sleep list, nobody runs. */
  ghost function Lain(s: Sys, until: nat): Sys { Leave(s, Sleeping(until)).(sleep := [s.current] + s.sleep) }

  ghost function Doze(s: Sys, until: nat): Sys { Dispatch(Lain(s, until)) }

  ghost function Next(s: Sys, step: Step): Sys
    requires Enabled(s, step)
  {
    match step
    case Create(t) => s.(place := s.place[t := Ready], ready := s.ready + [t])
    case Schedule =>
      if s.ready == [] then s
      else Dispatch(if s.current == s.idle then Leave(s, Idle) else Leave(s, Ready).(ready := s.ready + [s.current]))
    case Sleep(n) => Doze(s, Wrap64(s.ticks + n))
    case Exit => Dispatch(Leave(s, Zombie))
    case Tick => WakeAll(s, Wrap64(s.ticks + 1))
    case Lock(m) => Take(s, m)
    case Unlock(m) => Release(s, m)
    case Requeue(t) => s.(place := s.place[t := Ready], ready := s.ready + [t])
  }

  // ---- every step keeps the invariant

  /** Between two threads: the queues are right and nobody runs. */
  ghost predicate CpuFree(s: Sys) {
    && 0 !in s.place && Is(s, s.idle, Idle) && (forall t :: !(t in s.place && s.place[t] == Running))
    && (forall t :: (t in s.place && s.place[t] == Idle) ==> t == s.idle)
  }

  lemma Appended(q: seq<nat>, t: nat)
    requires L.Distinct(q) && t !in q
    ensures L.Distinct(q + [t]) && forall x :: x in q + [t] <==> x in q || x == t
  {
  }

  lemma Joined(q: seq<nat>, r: seq<nat>)
    requires L.Distinct(q) && L.Distinct(r) && forall t :: t in q ==> t !in r
    ensures L.Distinct(q + r) && forall x :: x in q + r <==> x in q || x in r
  {
    var w := q + r;
    forall i, j | 0 <= i < j < |w| ensures w[i] != w[j] {
      if i < |q| <= j { assert q[i] in q && r[j - |q|] in r; }
    }
  }

  lemma Popped(q: seq<nat>)
    requires L.Distinct(q) && q != []
    ensures L.Distinct(q[1..]) && forall x :: x in q[1..] <==> x in q && x != q[0]
  {
    assert q == [q[0]] + q[1..];
  }

  /** Mutexes do not notice a thread that moves between places that have no mutex. */
  lemma MutexFrame(s: Sys, s': Sys)
    requires MutexesOk(s) && s'.mutexes == s.mutexes
    requires forall t, m :: (t in s'.place && s'.place[t] == Waiting(m)) <==> (t in s.place && s.place[t] == Waiting(m))
    requires forall t, m :: (t in s'.place && s'.place[t] == HandOff(m)) <==> (t in s.place && s.place[t] == HandOff(m))
    ensures MutexesOk(s')
  {
    forall m | m in s'.mutexes ensures MutexOk(s', m) { assert MutexOk(s, m); }
    forall t | t in s'.place && s'.place[t].Waiting? ensures s'.place[t].mutex in s'.mutexes {
      assert Is(s', t, Waiting(s'.place[t].mutex));
    }
    forall t | t in s'.place && s'.place[t].HandOff?
      ensures s'.place[t].mutex in s'.mutexes && s'.mutexes[s'.place[t].mutex].owner == t {
      assert Is(s', t, HandOff(s'.place[t].mutex));
      assert Is(s, t, HandOff(s'.place[t].mutex));
    }
  }

  lemma DispatchQueues(s: Sys)
    requires QueuesOk(s) && CpuFree(s)
    ensures QueuesOk(Dispatch(s)) && CpuOk(Dispatch(s))
  {
    if s.ready != [] {
      Popped(s.ready);
      assert s.ready[0] in s.ready;
    }
    hide L.Distinct;
  }

  lemma DispatchMutexes(s: Sys)
    requires QueuesOk(s) && MutexesOk(s) && CpuFree(s)
    ensures MutexesOk(Dispatch(s))
  {
    if s.ready != [] { assert s.ready[0] in s.ready; }
    hide MutexesOk, L.Distinct;
    MutexFrame(s, Dispatch(s));
  }

  lemma DispatchInv(s: Sys)
    requires QueuesOk(s) && MutexesOk(s) && CpuFree(s)
    ensures Inv(Dispatch(s))
  {
    DispatchQueues(s);
    DispatchMutexes(s);
    hide QueuesOk, MutexesOk;
  }

  lemma ScheduleInv(s: Sys)
    requires Inv(s) && s.ready != []
    ensures Inv(Next(s, Schedule))
  {
    var s1 := if s.current == s.idle then Leave(s, Idle) else Leave(s, Ready).(ready := s.ready + [s.current]);
    YieldQueues(s);
    hide MutexesOk, QueuesOk, CpuFree, Dispatch;
    assert Is(s, s.current, Running);
    MutexFrame(s, s1);
    hide Inv;
    DispatchInv(s1);
  }

  lemma YieldQueues(s: Sys)
    requires QueuesOk(s) && CpuOk(s)
    ensures var s1 := if s.current == s.idle then Leave(s, Idle) else Leave(s, Ready).(ready := s.ready + [s.current]);
      QueuesOk(s1) && CpuFree(s1)
  {
    assert Is(s, s.current, Running);
    Appended(s.ready, s.current);
    hide L.Distinct;
  }

  lemma DozeInv(s: Sys, until: nat)
    requires Inv(s) && s.current != s.idle
    ensures Inv(Doze(s, until))
  {
    var c := s.current;
    assert Is(s, c, Running);
    var s1 := Lain(s, until);
    MutexFrame(s, s1);
    Joined([c], s.sleep);
    hide MutexesOk, L.Distinct;
    assert QueuesOk(s1) && CpuFree(s1);
    hide Inv, QueuesOk, CpuFree, Dispatch;
    DispatchInv(s1);
  }

  lemma ExitInv(s: Sys)
    requires Inv(s) && s.current != s.idle
    ensures Inv(Next(s, Exit))
  {
    assert Is(s, s.current, Running);
    MutexFrame(s, Leave(s, Zombie));
    hide MutexesOk, Dispatch;
    DispatchInv(Leave(s, Zombie));
  }

  lemma EnqueueInv(s: Sys, t: nat)
    requires Inv(s) && t != 0 && (t !in s.place || s.place[t].HandOff?)
    ensures Inv(s.(place := s.place[t := Ready], ready := s.ready + [t]))
  {
    var s' := s.(place := s.place[t := Ready], ready := s.ready + [t]);
    Appended(s.ready, t);
    assert QueuesOk(s');
    hide QueuesOk;
    forall m | m in s'.mutexes ensures MutexOk(s', m) { assert MutexOk(s, m); }
  }

  lemma LockInv(s: Sys, m: nat)
    requires Inv(s) && Enabled(s, Lock(m))
    ensures Inv(Next(s, Lock(m)))
  {
    if s.mutexes[m].owner == 0 { LockFree(s, m); } else { LockWait(s, m); }
    hide Inv, Take;
  }

  lemma LockFree(s: Sys, m: nat)
    requires Inv(s) && m in s.mutexes && s.mutexes[m].owner == 0
    ensures Inv(Take(s, m))
  {
    var s' := Take(s, m);
    assert MutexOk(s, m);
    assert QueuesOk(s') && CpuOk(s');
    hide L.Distinct, QueuesOk, CpuOk;
    forall k | k in s'.mutexes ensures MutexOk(s', k) { assert MutexOk(s, k); }
  }

  lemma LockWait(s: Sys, m: nat)
    requires Inv(s) && m in s.mutexes && s.mutexes[m].owner != 0 && s.current != s.idle
    ensures Inv(Take(s, m))
  {
    var x := s.mutexes[m];
    var s1 := Leave(s, Waiting(m)).(mutexes := s.mutexes[m := x.(waiters := x.waiters + [s.current])]);
    WaitMutexes(s, m);
    WaitQueues(s, m);
    hide Inv, QueuesOk, MutexesOk, CpuFree, Dispatch;
    DispatchInv(s1);
  }

  lemma WaitQueues(s: Sys, m: nat)
    requires QueuesOk(s) && CpuOk(s) && s.current != s.idle
    ensures QueuesOk(Leave(s, Waiting(m))) && CpuFree(Leave(s, Waiting(m)))
  {
    assert Is(s, s.current, Running);
    hide L.Distinct;
  }

  lemma WaitMutexes(s: Sys, m: nat)
    requires MutexesOk(s) && CpuOk(s) && m in s.mutexes && s.mutexes[m].owner != 0
    ensures var x := s.mutexes[m];
      MutexesOk(Leave(s, Waiting(m)).(mutexes := s.mutexes[m := x.(waiters := x.waiters + [s.current])]))
  {
    var c, x := s.current, s.mutexes[m];
    assert Is(s, c, Running) && MutexOk(s, m);
    var s1 := Leave(s, Waiting(m)).(mutexes := s.mutexes[m := x.(waiters := x.waiters + [c])]);
    Appended(x.waiters, c);
    hide L.Distinct;
    forall k | k in s1.mutexes ensures MutexOk(s1, k) { assert MutexOk(s, k); }
  }

  lemma UnlockInv(s: Sys, m: nat)
    requires Inv(s) && Enabled(s, Unlock(m))
    ensures Inv(Next(s, Unlock(m)))
  {
    ReleaseQueues(s, m);
    ReleaseMutexes(s, m);
    hide QueuesOk, CpuOk, MutexesOk, Release;
  }

  lemma ReleaseQueues(s: Sys, m: nat)
    requires QueuesOk(s) && CpuOk(s) && m in s.mutexes && MutexOk(s, m)
    ensures QueuesOk(Release(s, m)) && CpuOk(Release(s, m))
  {
    var x := s.mutexes[m];
    if x.waiters != [] { assert x.waiters[0] in x.waiters; }
    hide L.Distinct;
  }

  lemma ReleaseMutexes(s: Sys, m: nat)
    requires MutexesOk(s) && m in s.mutexes && s.mutexes[m].owner == s.current && CpuOk(s)
    ensures MutexesOk(Release(s, m))
  {
    var x, s' := s.mutexes[m], Release(s, m);
    assert MutexOk(s, m) && Is(s, s.current, Running);
    if x.waiters != [] {
      Popped(x.waiters);
      assert x.waiters[0] in x.waiters;
    }
    hide L.Distinct;
    forall k | k in s'.mutexes ensures MutexOk(s', k) { assert MutexOk(s, k); }
  }

  lemma {:induction false} Sifted(s: Sys, now: nat, k: nat)
    requires k <= |s.sleep| && L.Distinct(s.sleep)
    ensures forall t :: t in Kept(s, now, k) <==> t in s.sleep[..k] && !Due(s, now, t)
    ensures forall t :: t in Woken(s, now, k) <==> t in s.sleep[..k] && Due(s, now, t)
    ensures L.Distinct(Kept(s, now, k)) && L.Distinct(Woken(s, now, k))
  {
    if k > 0 {
      Sifted(s, now, k - 1);
      assert s.sleep[..k] == s.sleep[..k - 1] + [s.sleep[k - 1]];
      assert s.sleep[k - 1] !in s.sleep[..k - 1];
    }
  }

  lemma TickInv(s: Sys, now: nat)
    requires Inv(s)
    ensures Inv(WakeAll(s, now))
  {
    TickQueues(s, now);
    TickMutexes(s, now);
    hide QueuesOk, MutexesOk, Kept, Woken;
  }

  lemma TickQueues(s: Sys, now: nat)
    requires QueuesOk(s)
    ensures QueuesOk(WakeAll(s, now))
  {
    var n := |s.sleep|;
    hide Kept, Woken;
    Sifted(s, now, n);
    assert s.sleep[..n] == s.sleep;
    Joined(s.ready, Woken(s, now, n));
    hide L.Distinct;
  }

  lemma TickMutexes(s: Sys, now: nat)
    requires MutexesOk(s)
    ensures MutexesOk(WakeAll(s, now))
  {
    hide MutexesOk, Kept, Woken;
    MutexFrame(s, WakeAll(s, now));
  }

  lemma StepInv(s: Sys, step: Step)
    requires Inv(s) && Enabled(s, step)
    ensures Inv(Next(s, step))
  {
    hide Inv;
    match step
    case Create(t) => EnqueueInv(s, t);
    case Schedule => if s.ready != [] { ScheduleInv(s); }
    case Sleep(n) => DozeInv(s, Wrap64(s.ticks + n));
    case Exit => ExitInv(s);
    case Tick => TickInv(s, Wrap64(s.ticks + 1));
    case Lock(m) => LockInv(s, m);
    case Unlock(m) => UnlockInv(s, m);
    case Requeue(t) => HandedNotZero(s, t); EnqueueInv(s, t);
  }

  lemma HandedNotZero(s: Sys, t: nat)
    requires Inv(s) && t in s.place
    ensures t != 0
  {
  }

  // ---- whole runs

  ghost predicate Runs(s: Sys, steps: seq<Step>)
    decreases |steps|
  {
    steps == [] || (Enabled(s, steps[0]) && Runs(Next(s, steps[0]), steps[1..]))
  }

  ghost function After(s: Sys, steps: seq<Step>): Sys
    requires Runs(s, steps)
    decreases |steps|
  {
    if steps == [] then s else After(Next(s, steps[0]), steps[1..])
  }

  lemma {:induction false} RunInv(s: Sys, steps: seq<Step>)
    requires Inv(s) && Runs(s, steps)
    ensures Inv(After(s, steps))
    decreases |steps|
  {
    if steps != [] {
      StepInv(s, steps[0]);
      RunInv(Next(s, steps[0]), steps[1..]);
    }
  }

  /** In every state of every run a thread is in exactly one of the seven places. */
  lemma OnePlace(s: Sys, steps: seq<Step>, t: nat)
    requires Inv(s) && Runs(s, steps) && t in After(s, steps).place
    ensures var e := After(s, steps);
      && (t == e.current <==> e.place[t] == Running)
      && (t in e.ready <==> e.place[t] == Ready)
      && (t in e.sleep <==> e.place[t].Sleeping?)
      && (forall m :: m in e.mutexes ==> (t in e.mutexes[m].waiters <==> e.place[t] == Waiting(m)))
      && (e.place[t].HandOff? ==> e.place[t].mutex in e.mutexes && e.mutexes[e.place[t].mutex].owner == t)
      && (e.place[t] == Idle <==> t == e.idle && t != e.current)
      && e.idle !in e.ready && e.idle !in e.sleep
  {
    RunInv(s, steps);
    var e := After(s, steps);
    forall m | m in e.mutexes ensures t in e.mutexes[m].waiters <==> e.place[t] == Waiting(m) { assert MutexOk(e, m); }
  }

  // ---- what a step does, place by place

  /** The running thread gives up the CPU. */
  ghost predicate Yields(s: Sys, step: Step) {
    || (step == Schedule && s.ready != []) || step.Sleep? || step.Exit?
    || (step.Lock? && Owner(s, step.m) != 0)
  }

  /** Who runs: the same thread, or the first of the ready queue, or idle when nobody is ready. */
  lemma Runner(s: Sys, step: Step)
    requires Inv(s) && Enabled(s, step)
    ensures Next(s, step).current ==
      if !Yields(s, step) then s.current else if s.ready == [] then s.idle else s.ready[0]
    ensures Is(Next(s, step), Next(s, step).current, Running) && Next(s, step).idle == s.idle
  {
    StepInv(s, step);
    assert Is(s, s.current, Running);
    hide Kept, Woken, Wrap64, QueuesOk, MutexesOk;
  }

  /** Where thread t goes, by what happens to it. */
  ghost function PlaceAfter(s: Sys, step: Step, t: nat): Place
    requires Enabled(s, step) && t in s.place
  {
    if t == Next(s, step).current then Running
    else if t == s.current then
      match step
      case Sleep(n) => Sleeping(TickAt(s.ticks, n))
      case Exit => Zombie
      case Lock(m) => Waiting(m)
      case _ => if t == s.idle then Idle else Ready
    else if step == Requeue(t) || (step == Tick && Due(s, TickAt(s.ticks, 1), t)) then Ready
    else if step.Unlock? && Waiters(s, step.m) != [] && t == Waiters(s, step.m)[0] then HandOff(step.m)
    else s.place[t]
  }

  lemma Places(s: Sys, step: Step, t: nat)
    requires Inv(s) && Enabled(s, step)
    ensures t in Next(s, step).place <==> t in s.place || step == Create(t)
    ensures step == Create(t) ==> Is(Next(s, step), t, Ready)
    ensures t in s.place ==> Next(s, step).place[t] == PlaceAfter(s, step, t)
  {
    if step.Schedule? || step.Sleep? || step.Exit? || step.Lock? {
      YieldPlaces(s, step, t);
    } else {
      OtherPlaces(s, step, t);
    }
  }

  lemma YieldPlaces(s: Sys, step: Step, t: nat)
    requires Inv(s) && Enabled(s, step) && (step.Schedule? || step.Sleep? || step.Exit? || step.Lock?)
    ensures t in Next(s, step).place <==> t in s.place
    ensures t in s.place ==> Next(s, step).place[t] == PlaceAfter(s, step, t)
  {
    assert Is(s, s.current, Running);
    hide Wrap64, Inv, Dispatch;
    if step.Schedule? {
      DispatchPlace(if s.current == s.idle then Leave(s, Idle) else Leave(s, Ready).(ready := s.ready + [s.current]),
        t);
    } else if step.Sleep? {
      DispatchPlace(Lain(s, Wrap64(s.ticks + step.n)), t);
    } else if step.Exit? {
      DispatchPlace(Leave(s, Zombie), t);
    } else {
      var x := s.mutexes[step.m];
      DispatchPlace(
        Leave(s, Waiting(step.m)).(mutexes := s.mutexes[step.m := x.(waiters := x.waiters + [s.current])]), t);
    }
  }

  lemma DispatchPlace(s: Sys, t: nat)
    requires s.idle in s.place && (s.ready != [] ==> s.ready[0] in s.place)
    ensures t in Dispatch(s).place <==> t in s.place
    ensures t in s.place ==> Dispatch(s).place[t] == if t == Dispatch(s).current then Running else s.place[t]
  {
  }

  lemma OtherPlaces(s: Sys, step: Step, t: nat)
    requires Inv(s) && Enabled(s, step) && (step.Create? || step.Tick? || step.Unlock? || step.Requeue?)
    ensures t in Next(s, step).place <==> t in s.place || step == Create(t)
    ensures step == Create(t) ==> Is(Next(s, step), t, Ready)
    ensures t in s.place ==> Next(s, step).place[t] == PlaceAfter(s, step, t)
  {
    HeadPlaces(s, step);
    assert Is(s, s.current, Running);
    hide Kept, Woken, Wrap64, Inv, Due;
  }

  /** A thread becomes a zombie exactly by its own exit, and stays one. */
  lemma Zombies(s: Sys, step: Step, t: nat)
    requires Inv(s) && Enabled(s, step)
    ensures Is(Next(s, step), t, Zombie) <==> Is(s, t, Zombie) || (step == Exit && t == s.current)
  {
    Changes(s, step, t);
    hide Inv, Next, Enabled, TickAt;
  }

  /** A thread sleeps exactly from its own sleep to the first tick that reaches its target. */
  lemma Sleepers(s: Sys, step: Step, t: nat, until: nat)
    requires Inv(s) && Enabled(s, step)
    ensures Is(Next(s, step), t, Sleeping(until)) <==>
      || (Is(s, t, Sleeping(until)) && !(step == Tick && TickAt(s.ticks, 1) >= until))
      || (step.Sleep? && t == s.current && until == TickAt(s.ticks, step.n))
  {
    Changes(s, step, t);
    hide Inv, Next, Enabled, TickAt;
  }

  /** A thread waits for m exactly from its own lock of an owned m to the unlock that finds it first. */
  lemma Blocks(s: Sys, step: Step, t: nat, m: nat)
    requires Inv(s) && Enabled(s, step)
    ensures Is(Next(s, step), t, Waiting(m)) <==>
      || (Is(s, t, Waiting(m)) && !(step == Unlock(m) && Waiters(s, m) != [] && t == Waiters(s, m)[0]))
      || (step == Lock(m) && t == s.current && Owner(s, m) != 0)
  {
    Changes(s, step, t);
    hide Inv, Next, Enabled, TickAt;
  }

  /** A thread is on its way with m exactly from the unlock that finds it first to its re-queueing. */
  lemma Hands(s: Sys, step: Step, t: nat, m: nat)
    requires Inv(s) && Enabled(s, step)
    ensures Is(Next(s, step), t, HandOff(m)) <==>
      || (Is(s, t, HandOff(m)) && step != Requeue(t))
      || (step == Unlock(m) && Waiters(s, m) != [] && t == Waiters(s, m)[0])
  {
    Changes(s, step, t);
    hide Inv, Next, Enabled, TickAt;
  }

  /** A thread is made ready exactly by its creation, by the end of its sleep, by being put back after
      it was handed a mutex, or by being preempted; it stays ready until it runs. */
  lemma Readied(s: Sys, step: Step, t: nat)
    requires Inv(s) && Enabled(s, step)
    ensures Is(Next(s, step), t, Ready) <==>
      || (Is(s, t, Ready) && t != Next(s, step).current)
      || step == Create(t) || step == Requeue(t)
      || (step == Tick && Asleep(s, t) && TickAt(s.ticks, 1) >= s.place[t].until)
      || (step == Schedule && s.ready != [] && t == s.current && t != s.idle)
  {
    Changes(s, step, t);
    hide Inv, Next, Enabled, TickAt;
  }

  /** What the lemmas above need of the step and of the state. */
  lemma Changes(s: Sys, step: Step, t: nat)
    requires Inv(s) && Enabled(s, step)
    ensures t in Next(s, step).place <==> t in s.place || step == Create(t)
    ensures step == Create(t) ==> Is(Next(s, step), t, Ready)
    ensures t in s.place ==> Next(s, step).place[t] == PlaceAfter(s, step, t)
    ensures Next(s, step).current ==
      if !Yields(s, step) then s.current else if s.ready == [] then s.idle else s.ready[0]
    ensures Is(s, t, Running) <==> t == s.current
    ensures s.ready != [] ==> Is(s, s.ready[0], Ready) && s.ready[0] != s.idle
    ensures Is(s, s.idle, Running) || Is(s, s.idle, Idle)
    ensures step.Unlock? && Waiters(s, step.m) != [] ==> Is(s, Waiters(s, step.m)[0], Waiting(step.m))
    ensures step.Sleep? || step.Exit? || step.Lock? ==> s.current != s.idle
    ensures (step == Create(t) ==> t !in s.place) && (step == Requeue(t) ==> t in s.place && s.place[t].HandOff?)
  {
    Places(s, step, t);
    Runner(s, step);
    HeadPlaces(s, step);
    hide QueuesOk, MutexesOk, Next, PlaceAfter, Yields;
  }

  /** The threads at the heads of the queues are where the queues say. */
  lemma HeadPlaces(s: Sys, step: Step)
    requires Inv(s) && Enabled(s, step)
    ensures s.ready != [] ==> Is(s, s.ready[0], Ready)
    ensures step.Unlock? && Waiters(s, step.m) != [] ==> Is(s, Waiters(s, step.m)[0], Waiting(step.m))
  {
    if s.ready != [] { assert s.ready[0] in s.ready; }
    if step.Unlock? {
      assert MutexOk(s, step.m);
      if Waiters(s, step.m) != [] { assert Waiters(s, step.m)[0] in Waiters(s, step.m); }
    }
  }

  /** Thread t exits in the run. */
  ghost predicate Exits(s: Sys, steps: seq<Step>, t: nat)
    requires Runs(s, steps)
    decreases |steps|
  {
    steps != [] && ((steps[0] == Exit && s.current == t) || Exits(Next(s, steps[0]), steps[1..], t))
  }

  lemma {:induction false} ZombieRun(s: Sys, steps: seq<Step>, t: nat)
    requires Inv(s) && Runs(s, steps)
    ensures Is(After(s, steps), t, Zombie) <==> Is(s, t, Zombie) || Exits(s, steps, t)
    decreases |steps|
  {
    if steps != [] {
      Zombies(s, steps[0], t);
      StepInv(s, steps[0]);
      hide Inv, Next, Enabled;
      ZombieRun(Next(s, steps[0]), steps[1..], t);
    }
  }

  // ---- the ready queue is first in, first out

  /** The threads that a step appends to the ready queue, and the one it takes from it to run. */
  ghost function Entered(s: Sys, step: Step): seq<nat> {
    match step
    case Create(t) => [t]
    case Requeue(t) => [t]
    case Schedule => if s.ready != [] && s.current != s.idle then [s.current] else []
    case Tick => Woken(s, TickAt(s.ticks, 1), |s.sleep|)
    case _ => []
  }

  ghost function Dispatched(s: Sys, step: Step): seq<nat>
    requires Enabled(s, step)
  {
    var c := Next(s, step).current;
    if c != s.current && c != s.idle then [c] else []
  }

  lemma StepReady(s: Sys, step: Step)
    requires Inv(s) && Enabled(s, step)
    ensures s.ready + Entered(s, step) == Dispatched(s, step) + Next(s, step).ready
  {
    Changes(s, step, s.current);
    QueueAfter(s, step);
    hide Inv, Next, PlaceAfter, Woken, TickAt;
    if s.ready != [] { assert s.ready == [s.ready[0]] + s.ready[1..]; }
    var e := Entered(s, step);
    if Yields(s, step) && s.ready != [] { assert s.ready + e == [s.ready[0]] + (s.ready[1..] + e); }
  }

  lemma QueueAfter(s: Sys, step: Step)
    requires Enabled(s, step)
    ensures Next(s, step).ready ==
      (if Yields(s, step) && s.ready != [] then s.ready[1..] else s.ready) + Entered(s, step)
  {
    hide Kept, Woken, Wrap64;
    if s.ready != [] { assert (s.ready + [s.current])[1..] == s.ready[1..] + [s.current]; }
    assert s.ready + [] == s.ready && s.ready[|s.ready|..] == [];
  }

  ghost function Entries(s: Sys, steps: seq<Step>): seq<nat>
    requires Runs(s, steps)
    decreases |steps|
  {
    if steps == [] then [] else Entered(s, steps[0]) + Entries(Next(s, steps[0]), steps[1..])
  }

  ghost function Dispatches(s: Sys, steps: seq<Step>): seq<nat>
    requires Runs(s, steps)
    decreases |steps|
  {
    if steps == [] then [] else Dispatched(s, steps[0]) + Dispatches(Next(s, steps[0]), steps[1..])
  }

  /** Over any run, those ready at the start and then those made ready run in that order. */
  lemma {:induction false} ReadyFifo(s: Sys, steps: seq<Step>)
    requires Inv(s) && Runs(s, steps)
    ensures s.ready + Entries(s, steps) == Dispatches(s, steps) + After(s, steps).ready
    decreases |steps|
  {
    if steps == [] {
      assert s.ready + [] == [] + s.ready;
    } else {
      var s1 := Next(s, steps[0]);
      StepReady(s, steps[0]);
      StepInv(s, steps[0]);
      hide Inv, Next, Enabled, Entered, Dispatched;
      ReadyFifo(s1, steps[1..]);
      Regroup(s.ready, Entered(s, steps[0]), Dispatched(s, steps[0]), s1.ready,
              Entries(s1, steps[1..]), Dispatches(s1, steps[1..]), After(s1, steps[1..]).ready);
    }
  }

  /** The thread at position k of the ready queue moves up by one with every dispatch and nothing else,
      and is the one that runs with dispatch number k + 1. */
  lemma ReadyTurn(s: Sys, steps: seq<Step>, k: nat)
    requires Inv(s) && Runs(s, steps) && k < |s.ready|
    ensures var e, d := After(s, steps), Dispatches(s, steps);
      if |d| <= k then k - |d| < |e.ready| && e.ready[k - |d|] == s.ready[k] else d[k] == s.ready[k]
  {
    hide *;
    ReadyFifo(s, steps);
    Position(s.ready, Entries(s, steps), Dispatches(s, steps), After(s, steps).ready, k);
  }

  lemma Position(q: seq<nat>, e: seq<nat>, d: seq<nat>, r: seq<nat>, k: nat)
    requires q + e == d + r && k < |q|
    ensures if |d| <= k then k - |d| < |r| && r[k - |d|] == q[k] else d[k] == q[k]
  {
    assert (q + e)[k] == q[k] && |q + e| == |d| + |r|;
    assert (d + r)[k] == q[k];
  }

  /** Sleepers that are due wake in the order of the sleep list, in which the last to fall asleep is
      first; the others keep their order. */
  lemma SleepList(s: Sys, step: Step)
    requires Enabled(s, step)
    ensures Next(s, step).ticks == if step == Tick then TickAt(s.ticks, 1) else s.ticks
    ensures Next(s, step).sleep ==
      if step.Sleep? then [s.current] + s.sleep
      else if step == Tick then Kept(s, TickAt(s.ticks, 1), |s.sleep|) else s.sleep
  {
    hide Kept, Woken, Wrap64;
  }

  lemma {:induction false} WakeOrder(s: Sys, now: nat, k: nat, i: nat, j: nat) returns (a: nat, b: nat)
    requires i < j < k <= |s.sleep| && (Due(s, now, s.sleep[i]) <==> Due(s, now, s.sleep[j]))
    ensures var q := if Due(s, now, s.sleep[i]) then Woken(s, now, k) else Kept(s, now, k);
      a < b < |q| && q[a] == s.sleep[i] && q[b] == s.sleep[j]
    decreases k
  {
    if j == k - 1 {
      a := Found(s, now, k - 1, i);
      b := |if Due(s, now, s.sleep[i]) then Woken(s, now, k - 1) else Kept(s, now, k - 1)|;
    } else {
      a, b := WakeOrder(s, now, k - 1, i, j);
    }
  }

  lemma {:induction false} Found(s: Sys, now: nat, k: nat, i: nat) returns (a: nat)
    requires i < k <= |s.sleep|
    ensures var q := if Due(s, now, s.sleep[i]) then Woken(s, now, k) else Kept(s, now, k);
      a < |q| && q[a] == s.sleep[i]
    decreases k
  {
    if i == k - 1 {
      a := |if Due(s, now, s.sleep[i]) then Woken(s, now, k - 1) else Kept(s, now, k - 1)|;
    } else {
      a := Found(s, now, k - 1, i);
    }
  }

  // ---- the mutex is first in, first out

  ghost function Waiters(s: Sys, m: nat): seq<nat> { if m in s.mutexes then s.mutexes[m].waiters else [] }

  ghost function Owner(s: Sys, m: nat): nat { if m in s.mutexes then s.mutexes[m].owner else 0 }

  /** The thread that the step puts into the wait list of m, and the thread it hands m to. */
  ghost function Arrival(s: Sys, step: Step, m: nat): seq<nat> {
    if step == Lock(m) && Owner(s, m) != 0 then [s.current] else []
  }

  ghost function Served(s: Sys, step: Step, m: nat): seq<nat> {
    if step == Unlock(m) && Waiters(s, m) != [] then [Waiters(s, m)[0]] else []
  }

  lemma StepFifo(s: Sys, step: Step, m: nat)
    requires Enabled(s, step) && m in s.mutexes
    ensures m in Next(s, step).mutexes
    ensures Waiters(s, m) + Arrival(s, step, m) == Served(s, step, m) + Waiters(Next(s, step), m)
  {
    hide Kept, Woken, Wrap64;
    var w := Waiters(s, m);
    if step == Unlock(m) && w != [] { assert w == [w[0]] + w[1..]; }
  }

  ghost function Arrivals(s: Sys, steps: seq<Step>, m: nat): seq<nat>
    requires Runs(s, steps)
    decreases |steps|
  {
    if steps == [] then [] else Arrival(s, steps[0], m) + Arrivals(Next(s, steps[0]), steps[1..], m)
  }

  ghost function AllServed(s: Sys, steps: seq<Step>, m: nat): seq<nat>
    requires Runs(s, steps)
    decreases |steps|
  {
    if steps == [] then [] else Served(s, steps[0], m) + AllServed(Next(s, steps[0]), steps[1..], m)
  }

  /** Over any run, those waiting at the start and then those arriving are served in that order:
      what has been served is a prefix, and what is left is the wait list. */
  lemma {:induction false} Fifo(s: Sys, steps: seq<Step>, m: nat)
    requires Runs(s, steps) && m in s.mutexes
    ensures Waiters(s, m) + Arrivals(s, steps, m) == AllServed(s, steps, m) + Waiters(After(s, steps), m)
    decreases |steps|
  {
    if steps == [] {
      assert Waiters(s, m) + [] == [] + Waiters(s, m);
    } else {
      var s1 := Next(s, steps[0]);
      StepFifo(s, steps[0], m);
      Fifo(s1, steps[1..], m);
      Regroup(Waiters(s, m), Arrival(s, steps[0], m), Served(s, steps[0], m), Waiters(s1, m),
              Arrivals(s1, steps[1..], m), AllServed(s1, steps[1..], m), Waiters(After(s1, steps[1..]), m));
    }
  }

  lemma Regroup(w: seq<nat>, a: seq<nat>, v: seq<nat>, w': seq<nat>, a': seq<nat>, v': seq<nat>, e: seq<nat>)
    requires w + a == v + w' && w' + a' == v' + e
    ensures w + (a + a') == (v + v') + e
  {
    assert w + (a + a') == (w + a) + a' == v + (w' + a');
  }

  ghost function Unlocks(steps: seq<Step>, m: nat): nat {
    if steps == [] then 0 else (if steps[0] == Unlock(m) then 1 else 0) + Unlocks(steps[1..], m)
  }

  lemma StepTurn(s: Sys, step: Step, m: nat, k: nat)
    requires Enabled(s, step) && m in s.mutexes && k < |Waiters(s, m)|
    ensures var s', t := Next(s, step), Waiters(s, m)[k];
      && (step != Unlock(m) ==> k < |Waiters(s', m)| && Waiters(s', m)[k] == t)
      && (step == Unlock(m) && k > 0 ==> k - 1 < |Waiters(s', m)| && Waiters(s', m)[k - 1] == t)
      && (step == Unlock(m) && k == 0 ==> Owner(s', m) == t && Is(s', t, HandOff(m)))
  {
    hide Kept, Woken, Wrap64;
  }

  /** The thread at position k of the wait list moves up by one with every unlock and nothing else,
      and becomes the owner with unlock number k + 1. */
  lemma {:induction false} Turn(s: Sys, steps: seq<Step>, m: nat, k: nat)
    requires Runs(s, steps) && m in s.mutexes && k < |Waiters(s, m)|
    ensures var e, t, u := After(s, steps), Waiters(s, m)[k], Unlocks(steps, m);
      && (u <= k ==> k - u < |Waiters(e, m)| && Waiters(e, m)[k - u] == t)
      && (u == k + 1 && steps[|steps| - 1] == Unlock(m) ==> Owner(e, m) == t && Is(e, t, HandOff(m)))
    decreases |steps|
  {
    if steps != [] {
      var step, rest := steps[0], steps[1..];
      var s1 := Next(s, step);
      StepTurn(s, step, m, k);
      StepFifo(s, step, m);
      if step != Unlock(m) {
        Turn(s1, rest, m, k);
      } else if k > 0 {
        Turn(s1, rest, m, k - 1);
      } else if rest != [] && rest[|rest| - 1] == Unlock(m) {
        SomeUnlock(rest, m);
      }
    }
  }

  lemma {:induction false} SomeUnlock(steps: seq<Step>, m: nat)
    requires steps != [] && steps[|steps| - 1] == Unlock(m)
    ensures Unlocks(steps, m) > 0
  {
    if |steps| > 1 { SomeUnlock(steps[1..], m); }
  }

  /** The owner of a mutex changes only when a free mutex is locked by the running thread, or the
      owner itself unlocks it. */
  lemma OwnerChanges(s: Sys, step: Step, m: nat)
    requires Inv(s) && Enabled(s, step) && m in s.mutexes
    ensures var s' := Next(s, step);
      && (Owner(s', m) != Owner(s, m) && Owner(s, m) == 0 ==> step == Lock(m) && Owner(s', m) == s.current)
      && (Owner(s', m) != Owner(s, m) && Owner(s, m) != 0 ==> step == Unlock(m) && Owner(s, m) == s.current)
  {
    assert Is(s, s.current, Running);
    hide Inv, Kept, Woken, Wrap64;
  }

  /** Who owns a mutex after a step: unlocking hands it to the first waiter or frees it, locking a free
      one takes it, and nothing else has an effect. */
  lemma OwnerAfter(s: Sys, step: Step, m: nat)
    requires Enabled(s, step) && m in s.mutexes
    ensures Owner(Next(s, step), m) ==
      if step == Unlock(m) then (if Waiters(s, m) == [] then 0 else Waiters(s, m)[0])
      else if step == Lock(m) && Owner(s, m) == 0 then s.current
      else Owner(s, m)
  {
    hide Kept, Woken, Wrap64;
  }

  lemma {:induction false} StaysFree(s: Sys, steps: seq<Step>, m: nat)
    requires Runs(s, steps) && m in s.mutexes && Owner(s, m) == 0 && Waiters(s, m) == []
    requires Lock(m) !in steps && Inv(s)
    ensures m in After(s, steps).mutexes && Owner(After(s, steps), m) == 0 && Inv(After(s, steps))
    decreases |steps|
  {
    if steps != [] {
      assert steps[0] in steps;
      assert Is(s, s.current, Running);
      OwnerAfter(s, steps[0], m);
      StepFifo(s, steps[0], m);
      StepInv(s, steps[0]);
      hide Next;
      StaysFree(Next(s, steps[0]), steps[1..], m);
    }
  }

  /** The next thread that locks a mutex which was unlocked without waiters, however much later, gets it
      without blocking. */
  lemma NeverBlocks(s: Sys, m: nat, steps: seq<Step>)
    requires Inv(s) && Enabled(s, Unlock(m)) && Waiters(s, m) == []
    requires Runs(Next(s, Unlock(m)), steps) && Lock(m) !in steps
    requires Enabled(After(Next(s, Unlock(m)), steps), Lock(m))
    ensures var e := After(Next(s, Unlock(m)), steps); var e' := Next(e, Lock(m));
      Owner(e', m) == e.current == e'.current && Is(e', e.current, Running) && e'.ready == e.ready
  {
    var s1 := Next(s, Unlock(m));
    OwnerAfter(s, Unlock(m), m);
    StepFifo(s, Unlock(m), m);
    StepInv(s, Unlock(m));
    StaysFree(s1, steps, m);
    var e := After(s1, steps);
    hide After, Runs;
    OwnerAfter(e, Lock(m), m);
    Runner(e, Lock(m));
    StepReady(e, Lock(m));
    hide Inv, Next;
    assert e.ready + [] == e.ready && [] + Next(e, Lock(m)).ready == Next(e, Lock(m)).ready;
  }

  /** A waiter leaves the wait list only as the owner, and a new owner waits for nothing but to be
      put back into the ready queue. */
  lemma WaitersLeave(s: Sys, step: Step, t: nat, m: nat)
    requires Inv(s) && Enabled(s, step) && m in s.mutexes
    ensures var s' := Next(s, step);
      && (Is(s, t, Waiting(m)) && !Is(s', t, Waiting(m)) ==>
            step == Unlock(m) && Is(s', t, HandOff(m)) && Owner(s', m) == t)
      && (Is(s, t, HandOff(m)) && !Is(s', t, HandOff(m)) ==>
            step == Requeue(t) && Is(s', t, Ready) && Owner(s', m) == t)
  {
    assert MutexOk(s, m);
    if s.ready != [] { assert s.ready[0] in s.ready; }
    if step.Unlock? { assert MutexOk(s, step.m); }
    hide Kept, Woken, Wrap64, L.Distinct;
  }

  // ---- sleeping

  ghost function Ticks(steps: seq<Step>): nat {
    if steps == [] then 0 else (if steps[0] == Tick then 1 else 0) + Ticks(steps[1..])
  }

  /** The tick counter j ticks after it was now. */
  function TickAt(now: nat, j: nat): nat { Wrap64(now + j) }

  /** A sleeper moves only by a tick at which it is due, and then into the ready queue. */
  lemma StepAsleep(s: Sys, step: Step, t: nat, until: nat)
    requires Inv(s) && Enabled(s, step) && Is(s, t, Sleeping(until))
    ensures var s' := Next(s, step);
      && s'.ticks == (if step == Tick then TickAt(s.ticks, 1) else s.ticks)
      && (if step == Tick && s'.ticks >= until then Is(s', t, Ready) else Is(s', t, Sleeping(until)))
  {
    assert t != s.current && t != s.idle && t !in s.ready;
    if step.Unlock? { assert MutexOk(s, step.m); }
    hide Inv, Kept, Woken, Wrap64, Dispatch;
    if step.Schedule? { ScheduleAsleep(s, t, until); }
    else if step.Sleep? { DispatchAsleep(Lain(s, Wrap64(s.ticks + step.n)), t, until); }
    else if step.Exit? { DispatchAsleep(Leave(s, Zombie), t, until); }
    else if step.Lock? { LockAsleep(s, step.m, t, until); }
  }

  lemma ScheduleAsleep(s: Sys, t: nat, until: nat)
    requires Is(s, t, Sleeping(until)) && t != s.current && t != s.idle && t !in s.ready
    ensures Is(Next(s, Schedule), t, Sleeping(until)) && Next(s, Schedule).ticks == s.ticks
  {
    hide Dispatch;
    DispatchAsleep(if s.current == s.idle then Leave(s, Idle) else Leave(s, Ready).(ready := s.ready + [s.current]), t,
      until);
  }

  lemma LockAsleep(s: Sys, m: nat, t: nat, until: nat)
    requires Is(s, t, Sleeping(until)) && t != s.current && t != s.idle && t !in s.ready && m in s.mutexes
    ensures Is(Take(s, m), t, Sleeping(until)) && Take(s, m).ticks == s.ticks
  {
    hide Dispatch;
    var x := s.mutexes[m];
    DispatchAsleep(Leave(s, Waiting(m)).(mutexes := s.mutexes[m := x.(waiters := x.waiters + [s.current])]), t, until);
  }

  /** Dispatching a thread that is ready or idle leaves a sleeper alone. */
  lemma DispatchAsleep(s: Sys, t: nat, until: nat)
    requires Is(s, t, Sleeping(until)) && t != s.idle && t !in s.ready
    ensures Is(Dispatch(s), t, Sleeping(until)) && Dispatch(s).ticks == s.ticks
  {
    if s.ready != [] { assert s.ready[0] in s.ready; }
  }

  lemma {:induction false} StaysAsleep(s: Sys, steps: seq<Step>, t: nat, until: nat)
    requires Inv(s) && Runs(s, steps) && s.ticks < U64 && Is(s, t, Sleeping(until))
    requires forall j: nat :: 0 < j <= Ticks(steps) ==> TickAt(s.ticks, j) < until
    ensures var e := After(s, steps); Is(e, t, Sleeping(until)) && e.ticks == TickAt(s.ticks, Ticks(steps))
    decreases |steps|
  {
    hide Inv, Next, Enabled;
    if steps != [] {
      var s1, rest := Next(s, steps[0]), steps[1..];
      StepAsleep(s, steps[0], t, until);
      StepInv(s, steps[0]);
      if steps[0] == Tick {
        assert TickAt(s.ticks, 1) < until;
        forall j: nat | 0 < j <= Ticks(rest) ensures TickAt(s1.ticks, j) < until {
          TickSum(s.ticks, 1, j);
          assert TickAt(s.ticks, 1 + j) < until;
        }
        TickSum(s.ticks, 1, Ticks(rest));
      }
      hide TickAt;
      StaysAsleep(s1, rest, t, until);
    }
  }

  lemma TickSum(now: nat, j: nat, k: nat)
    ensures TickAt(TickAt(now, j), k) == TickAt(now, j + k)
  {
    var x := now + j;
    var y := x % U64 + k;
    DivUnique(x + k, U64, x / U64 + y / U64, y % U64);
  }

  /** The 64-bit tick counter does not get in the way of sleeping n ticks from tick number now. */
  predicate OnTime(now: nat, n: nat) { now + n < U64 || n == 1 || now == U64 - 1 }

  /** The n-th tick from now is the first one at which the sleeper is due exactly if OnTime. */
  lemma FirstDue(now: nat, n: nat)
    requires now < U64 && 0 < n < U64
    ensures OnTime(now, n) <==> forall j: nat :: 0 < j < n ==> TickAt(now, j) < TickAt(now, n)
    ensures !OnTime(now, n) ==> TickAt(now, 1) >= TickAt(now, n) && n > 1
  {
    if OnTime(now, n) {
      forall j: nat | 0 < j < n ensures TickAt(now, j) < TickAt(now, n) { }
    } else {
      assert 0 < 1 < n && TickAt(now, 1) >= TickAt(now, n);
    }
  }

  /** A thread that sleeps n ticks is ready again at the n-th following tick and not before. */
  lemma SleepExact(s: Sys, n: nat, steps: seq<Step>)
    requires Inv(s) && s.ticks < U64 && 0 < n < U64 && s.current != s.idle && OnTime(s.ticks, n)
    requires Runs(Next(s, Sleep(n)), steps)
    ensures var e, t := After(Next(s, Sleep(n)), steps), s.current;
      && (Ticks(steps) < n ==> Asleep(e, t))
      && (Ticks(steps) == n - 1 ==> Is(Next(e, Tick), t, Ready))
  {
    hide Inv, Next, TickAt, OnTime;
    var s1, t, until := Next(s, Sleep(n)), s.current, TickAt(s.ticks, n);
    StepInv(s, Sleep(n));
    FirstDue(s.ticks, n);
    FellAsleep(s, n);
    if Ticks(steps) < n {
      StaysAsleep(s1, steps, t, until);
      RunInv(s1, steps);
      StepAsleep(After(s1, steps), Tick, t, until);
      if Ticks(steps) == n - 1 { TickSum(s.ticks, Ticks(steps), 1); }
    }
  }

  lemma FellAsleep(s: Sys, n: nat)
    requires Inv(s) && Enabled(s, Sleep(n))
    ensures Next(s, Sleep(n)).ticks == s.ticks && Is(Next(s, Sleep(n)), s.current, Sleeping(TickAt(s.ticks, n)))
  {
    assert Is(s, s.current, Running);
    if s.ready != [] { assert s.ready[0] in s.ready; }
  }

  /** When the counter does get in the way, the sleeper wakes at the very next tick. */
  lemma SleepCutShort(s: Sys, n: nat)
    requires Inv(s) && s.ticks < U64 && 0 < n < U64 && s.current != s.idle && !OnTime(s.ticks, n)
    ensures n > 1 && Is(Next(Next(s, Sleep(n)), Tick), s.current, Ready)
  {
    StepInv(s, Sleep(n));
    FellAsleep(s, n);
    FirstDue(s.ticks, n);
    hide TickAt;
    StepAsleep(Next(s, Sleep(n)), Tick, s.current, TickAt(s.ticks, n));
  }
}
