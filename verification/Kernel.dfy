/** The scheduler's memory: thread fields, one next/prev pair per thread shared by the ready queue
    and the sleep list, and the waitNext chains of the mutexes, updated in place as
    src/kernel/sched/sched.c and src/kernel/sync/sync.h do. Every method is proved to take the
    step of the transition system in Sched that it stands for. */
module Kernel {
  import opened Machine
  import opened Sched
  import L = DList

  datatype State = StReady | StRunning | StBlocked | StSleeping | StZombie

  datatype Thread = Thread(
    state: State,
    timeSlice: nat,
    defaultSlice: nat,
    needResched: bool,
    preemptCount: nat,
    sleepTarget: nat)

  datatype LockRec = LockRec(locked: bool, owner: nat, head: nat, tail: nat)

  datatype Mem = Mem(
    threads: map<nat, Thread>,
    links: map<nat, L.Link>,
    readyHead: nat,
    readyTail: nat,
    sleepHead: nat,
    current: nat,
    idle: nat,
    ticks: nat,
    waitNext: map<nat, nat>,
    locks: map<nat, LockRec>)

  const QUANTUM: nat := 10  // SCHED_DEFAULT_QUANTUM

  // ---- what the memory represents

  ghost predicate Fits(x: Thread, p: Place) {
    && (x.state == StRunning <==> p == Running)
    && (x.state == StReady <==> p == Ready || p == Idle)
    && (x.state == StSleeping <==> p.Sleeping?)
    && (x.state == StBlocked <==> p.Waiting? || p.HandOff?)
    && (x.state == StZombie <==> p == Zombie)
    && (p.Sleeping? ==> x.sleepTarget == p.until)
  }

  ghost predicate ThreadsRep(threads: map<nat, Thread>, place: map<nat, Place>) {
    threads.Keys == place.Keys && forall t :: t in place ==> Fits(threads[t], place[t])
  }

  /** The ready queue and the sleep list use the same link fields, so no thread is in both. */
  ghost predicate QueuesRep(m: Mem, s: Sys) {
    && L.Listed(L.List(m.links, m.readyHead), s.ready) && m.readyTail == L.At(s.ready, |s.ready| - 1)
    && L.Listed(L.List(m.links, m.sleepHead), s.sleep)
    && (forall t :: t in s.ready ==> t !in s.sleep)
  }

  function NextWaiter(waitNext: map<nat, nat>, t: nat): nat { if t in waitNext then waitNext[t] else 0 }

  /** The wait list of one mutex. */
  ghost predicate Chain(waitNext: map<nat, nat>, x: LockRec, w: seq<nat>) {
    && 0 !in w && L.Distinct(w) && x.head == L.At(w, 0) && x.tail == L.At(w, |w| - 1)
    && (forall i {:trigger NextWaiter(waitNext, w[i])} :: 0 <= i < |w| ==> NextWaiter(waitNext, w[i]) == L.At(w, i + 1))
  }

  ghost predicate LockRep(waitNext: map<nat, nat>, x: LockRec, y: Mutex) {
    x.owner == y.owner && (x.locked <==> y.owner != 0) && Chain(waitNext, x, y.waiters)
  }

  ghost predicate LocksRep(waitNext: map<nat, nat>, locks: map<nat, LockRec>, mutexes: map<nat, Mutex>) {
    locks.Keys == mutexes.Keys && forall k :: k in mutexes ==> LockRep(waitNext, locks[k], mutexes[k])
  }

  ghost predicate Rep(m: Mem, s: Sys) {
    && m.current == s.current && m.idle == s.idle && m.ticks == s.ticks
    && ThreadsRep(m.threads, s.place) && QueuesRep(m, s) && LocksRep(m.waitNext, m.locks, s.mutexes)
  }

  // ---- the pieces that the steps are made of

  function SetState(threads: map<nat, Thread>, t: nat, st: State): map<nat, Thread> {
    if t in threads then threads[t := threads[t].(state := st)] else threads
  }

  /** enqueueReady */
  ghost function Enqueue(m: Mem, t: nat): Mem {
    var l := L.PushBack(L.List(m.links, m.readyHead), m.readyTail, t);
    m.(threads := SetState(m.threads, t, StReady), links := l.links, readyHead := l.head, readyTail := t)
  }

  ghost function Enqueued(s: Sys, t: nat): Sys { s.(place := s.place[t := Ready], ready := s.ready + [t]) }

  lemma EnqueueRep(m: Mem, s: Sys, t: nat)
    requires Rep(m, s) && t != 0 && t in m.threads && t !in s.ready && t !in s.sleep
    ensures Rep(Enqueue(m, t), Enqueued(s, t))
  {
    var l, m', s' := L.List(m.links, m.readyHead), Enqueue(m, t), Enqueued(s, t);
    L.PushBackLists(l, s.ready, t);
    forall x | x in s.sleep ensures L.Get(m'.links, x) == L.Get(m.links, x) { L.PushBackFrame(l, s.ready, t, x); }
    L.Frame(m.links, m'.links, m.sleepHead, s.sleep);
    hide L.Listed, L.PushBack, LocksRep;
    assert ThreadsRep(m'.threads, s'.place);
  }

  /** Take thread t out of the ready queue. */
  ghost function Unqueue(m: Mem, t: nat): Mem {
    var l := L.Remove(L.List(m.links, m.readyHead), t);
    var x := L.Get(m.links, t);
    m.(links := l.links, readyHead := l.head, readyTail := if x.next == 0 then x.prev else m.readyTail)
  }

  lemma UnqueueRep(m: Mem, s: Sys, i: nat)
    requires Rep(m, s) && i < |s.ready|
    ensures Rep(Unqueue(m, s.ready[i]), s.(ready := L.Without(s.ready, i)))
  {
    var l, m', t := L.List(m.links, m.readyHead), Unqueue(m, s.ready[i]), s.ready[i];
    L.RemoveLists(l, s.ready, i);
    L.WithoutElems(s.ready, i);
    L.AtWithout(s.ready, i);
    assert L.Get(m.links, t) == L.Link(L.At(s.ready, i + 1), L.At(s.ready, i - 1));
    assert i + 1 < |s.ready| ==> s.ready[i + 1] in s.ready;
    forall x | x in s.sleep ensures L.Get(m'.links, x) == L.Get(m.links, x) { L.RemoveFrame(l, s.ready, i, x); }
    L.Frame(m.links, m'.links, m.sleepHead, s.sleep);
    hide L.Listed, L.Remove, L.Without, ThreadsRep, LocksRep;
  }

  /** The part of schedule() that makes next the running thread. */
  ghost function SwitchTo(m: Mem, next: nat): Mem {
    if next !in m.threads then m.(current := next)
    else
      var x := m.threads[next];
      m.(current := next,
         threads := m.threads[next := x.(state := StRunning, needResched := false, timeSlice := x.defaultSlice)])
  }

  lemma SwitchRep(m: Mem, s: Sys, next: nat)
    requires Rep(m, s) && next in m.threads
    ensures Rep(SwitchTo(m, next), s.(place := s.place[next := Running], current := next))
  {
    hide QueuesRep, LocksRep;
    var s' := s.(place := s.place[next := Running], current := next);
    assert QueuesRep(SwitchTo(m, next), s') by { SameQueues(m, s, SwitchTo(m, next), s'); }
  }

  lemma SameQueues(m: Mem, s: Sys, m': Mem, s': Sys)
    requires QueuesRep(m, s) && s'.ready == s.ready && s'.sleep == s.sleep
    requires m'.links == m.links && m'.readyHead == m.readyHead && m'.readyTail == m.readyTail
    requires m'.sleepHead == m.sleepHead
    ensures QueuesRep(m', s')
  {
  }

  /** The current thread leaves the CPU for the given place. */
  lemma LeaveRep(m: Mem, s: Sys, st: State, p: Place)
    requires Rep(m, s) && m.current in m.threads && Fits(m.threads[m.current].(state := st), p)
    ensures Rep(m.(threads := SetState(m.threads, m.current, st)), Leave(s, p))
  {
    var m', s' := m.(threads := SetState(m.threads, m.current, st)), Leave(s, p);
    hide QueuesRep, LocksRep;
    assert QueuesRep(m', s') by { SameQueues(m, s, m', s'); }
  }

  /** schedSleep up to schedule(). */
  ghost function LieDown(m: Mem, until: nat): Mem {
    var c, l := m.current, L.PushFront(L.List(m.links, m.sleepHead), m.current);
    m.(threads := if c in m.threads then m.threads[c := m.threads[c].(sleepTarget := until, state := StSleeping)]
      else m.threads,
       links := l.links, sleepHead := l.head)
  }

  lemma LieDownRep(m: Mem, s: Sys, until: nat)
    requires Rep(m, s) && s.current in m.threads && s.current != 0 && s.current !in s.ready && s.current !in s.sleep
    ensures Rep(LieDown(m, until), Lain(s, until))
  {
    var l, m', s' := L.List(m.links, m.sleepHead), LieDown(m, until), Lain(s, until);
    L.PushFrontLists(l, s.sleep, s.current);
    forall x | x in s.ready
      ensures L.Get(m'.links, x) == L.Get(m.links, x)
    {
      L.PushFrontFrame(l, s.sleep, s.current, x);
    }
    L.Frame(m.links, m'.links, m.readyHead, s.ready);
    hide L.Listed, L.PushFront, LocksRep;
    assert ThreadsRep(m'.threads, s'.place);
  }

  /** The running thread has a full time slice and no request to give up the CPU. */
  ghost predicate Rested(m: Mem) {
    && m.current in m.threads && !m.threads[m.current].needResched
    && m.threads[m.current].timeSlice == m.threads[m.current].defaultSlice
  }

  /** Changing fields that do not show in the place of a thread. */
  lemma FieldRep(m: Mem, s: Sys, t: nat, x: Thread)
    requires Rep(m, s) && t in m.threads && x.state == m.threads[t].state && x.sleepTarget == m.threads[t].sleepTarget
    ensures Rep(m.(threads := m.threads[t := x]), s)
  {
    hide QueuesRep, LocksRep;
    assert QueuesRep(m.(threads := m.threads[t := x]), s) by { SameQueues(m, s, m.(threads := m.threads[t := x]), s); }
  }

  lemma SameKeys(m: Mem, s: Sys)
    requires Rep(m, s)
    ensures m.threads.Keys == s.place.Keys && m.idle == s.idle && m.current == s.current && m.ticks == s.ticks
    ensures forall t :: t in m.threads ==> Fits(m.threads[t], s.place[t])
  {
  }

  /** The current thread has just gone to sleep or exited. */
  ghost predicate Departed(s: Sys) {
    && QueuesOk(s) && MutexesOk(s) && CpuFree(s)
    && s.current in s.place && s.place[s.current] != Ready && s.current != s.idle
  }

  lemma OnCpu(m: Mem, s: Sys)
    requires Rep(m, s) && (Inv(s) || Departed(s))
    ensures s.current in m.threads && s.idle in m.threads && m.current == s.current && m.idle == s.idle
    ensures s.current != 0
    ensures s.current !in s.ready && s.idle !in s.ready && forall t :: t in s.ready ==> t in m.threads
    ensures Inv(s) ==> s.current !in s.sleep && s.place[s.current] == Running
    ensures Departed(s) ==> s.place[s.current] != Running
  {
  }

  lemma DozeDeparted(s: Sys, until: nat)
    requires Inv(s) && s.current != s.idle
    ensures Departed(Lain(s, until)) && !Inv(Lain(s, until))
  {
    var s1 := Lain(s, until);
    assert Is(s, s.current, Running);
    MutexFrame(s, s1);
    Joined([s.current], s.sleep);
    hide MutexesOk, L.Distinct;
    assert QueuesOk(s1) && CpuFree(s1);
  }

  lemma ExitDeparted(s: Sys)
    requires Inv(s) && s.current != s.idle
    ensures Departed(Leave(s, Zombie)) && !Inv(Leave(s, Zombie))
  {
    assert Is(s, s.current, Running);
    MutexFrame(s, Leave(s, Zombie));
    hide MutexesOk;
  }

  lemma NewRep(m: Mem, s: Sys, t: nat)
    requires Rep(m, s) && t !in m.threads
    ensures Rep(m.(threads := m.threads[t := Thread(StReady, QUANTUM, QUANTUM, false, 0, 0)]),
                s.(place := s.place[t := Ready]))
  {
    var m', s' := m.(threads := m.threads[t := Thread(StReady, QUANTUM, QUANTUM, false, 0, 0)]),
      s.(place := s.place[t := Ready]);
    hide QueuesRep, LocksRep;
    assert QueuesRep(m', s') by { SameQueues(m, s, m', s'); }
  }

  lemma NotQueued(m: Mem, s: Sys, t: nat)
    requires Rep(m, s) && Inv(s) && t !in m.threads
    ensures t !in s.place && t !in s.ready && t !in s.sleep
  {
  }

  lemma AriseRep(m: Mem, s: Sys, i: nat)
    requires Rep(m, s) && i < |s.sleep| && s.sleep[i] in m.threads
    ensures var l := L.Remove(L.List(m.links, m.sleepHead), s.sleep[i]);
      Rep(m.(links := l.links, sleepHead := l.head), s.(sleep := L.Without(s.sleep, i)))
    ensures s.sleep[i] != 0 && s.sleep[i] !in s.ready && s.sleep[i] !in L.Without(s.sleep, i)
  {
    var l := L.List(m.links, m.sleepHead);
    L.RemoveLists(l, s.sleep, i);
    L.WithoutElems(s.sleep, i);
    var links := L.Remove(l, s.sleep[i]).links;
    forall x | x in s.ready ensures L.Get(links, x) == L.Get(m.links, x) { L.RemoveFrame(l, s.sleep, i, x); }
    L.Frame(m.links, links, m.readyHead, s.ready);
    assert s.sleep[i] in s.sleep;
    hide L.Listed, L.Remove, L.Without, ThreadsRep, LocksRep;
  }

  /** schedTick has looked at the first k sleepers. */
  ghost predicate WakingAt(s0: Sys, s: Sys, now: nat, k: nat) {
    && k <= |s0.sleep|
    && s == s0.(place := s.place, ticks := now, sleep := Kept(s0, now, k) + s0.sleep[k..],
                ready := s0.ready + Woken(s0, now, k))
    && WakingPlaces(s0, s.place, now, k)
  }

  ghost predicate WakingPlaces(s0: Sys, place: map<nat, Place>, now: nat, k: nat)
    requires k <= |s0.sleep|
  {
    && place.Keys == s0.place.Keys
    && forall t :: t in s0.place ==> place[t] == if t in s0.sleep[..k] && Due(s0, now, t) then Ready else s0.place[t]
  }

  lemma PlacesNext(s0: Sys, place: map<nat, Place>, now: nat, k: nat)
    requires k < |s0.sleep| && WakingPlaces(s0, place, now, k)
    ensures var t := s0.sleep[k]; WakingPlaces(s0, if Due(s0, now, t) then place[t := Ready] else place, now, k + 1)
  {
    assert s0.sleep[..k + 1] == s0.sleep[..k] + [s0.sleep[k]];
  }

  ghost predicate Walking(m: Mem, s: Sys, s0: Sys, th0: map<nat, Thread>, now: nat, k: nat) {
    && Rep(m, s) && WakingAt(s0, s, now, k) && m.ticks == now && m.current == s0.current && m.current in m.threads
    && Steady(th0, m.threads, m.current) && m.current in th0
    && (m.threads[m.current].needResched <==> th0[m.current].needResched || Woken(s0, now, k) != [])
  }

  lemma WakingStart(m: Mem, s: Sys, s0: Sys)
    requires Inv(s0) && Rep(m, s) && s == s0.(ticks := s.ticks)
    ensures WakingAt(s0, s, s.ticks, 0) && m.sleepHead == L.At(s0.sleep, 0) && m.ticks == s.ticks
    ensures m.current == s0.current && m.current in m.threads
  {
    assert Is(s0, s0.current, Running);
    assert s0.sleep[..0] == [];
    assert [] + s0.sleep[0..] == s0.sleep && s0.ready + [] == s0.ready;
  }

  /** The k-th sleeper is still where it was; it stands behind those that were kept. */
  lemma WakingNow(m: Mem, s0: Sys, s: Sys, now: nat, k: nat)
    requires Inv(s0) && Rep(m, s) && WakingAt(s0, s, now, k) && k < |s0.sleep|
    ensures var t, i := s0.sleep[k], |Kept(s0, now, k)|;
      && t in m.threads && i < |s.sleep| && s.sleep[i] == t && Asleep(s0, t) && s.place[t] == s0.place[t]
      && m.threads[t].sleepTarget == s0.place[t].until && L.Get(m.links, t).next == L.At(s0.sleep, k + 1)
  {
    var t, i := s0.sleep[k], |Kept(s0, now, k)|;
    assert t in s0.sleep && t !in s0.sleep[..k];
    assert s.sleep[i] == t && L.At(s.sleep, i + 1) == L.At(s0.sleep, k + 1);
    assert L.Get(m.links, s.sleep[i]) == L.Link(L.At(s.sleep, i + 1), L.At(s.sleep, i - 1));
    hide Inv;
  }

  lemma WakingNext(s0: Sys, s1: Sys, s: Sys, now: nat, k: nat)
    requires WakingAt(s0, s1, now, k) && k < |s0.sleep| && Due(s0, now, s0.sleep[k])
    requires |Kept(s0, now, k)| < |s1.sleep|
    requires s == Enqueued(s1.(sleep := L.Without(s1.sleep, |Kept(s0, now, k)|)), s0.sleep[k])
    ensures WakingAt(s0, s, now, k + 1) && Woken(s0, now, k + 1) != []
  {
    var t, kept, woken := s0.sleep[k], Kept(s0, now, k), Woken(s0, now, k);
    PlacesNext(s0, s1.place, now, k);
    hide WakingPlaces;
    assert Woken(s0, now, k + 1) == woken + [t];
    assert Kept(s0, now, k + 1) == kept;
    WithoutNext(kept, s0.sleep, k);
    assert s0.ready + woken + [t] == s0.ready + (woken + [t]);
  }

  lemma WithoutNext(kept: seq<nat>, q: seq<nat>, k: nat)
    requires k < |q|
    ensures L.Without(kept + q[k..], |kept|) == kept + q[k + 1..]
  {
  }

  lemma WakingSkip(s0: Sys, s: Sys, now: nat, k: nat)
    requires WakingAt(s0, s, now, k) && k < |s0.sleep| && !Due(s0, now, s0.sleep[k])
    ensures WakingAt(s0, s, now, k + 1) && Woken(s0, now, k + 1) == Woken(s0, now, k)
  {
    var t := s0.sleep[k];
    PlacesNext(s0, s.place, now, k);
    hide WakingPlaces;
    assert s0.sleep[k..] == [t] + s0.sleep[k + 1..];
    assert Kept(s0, now, k) + ([t] + s0.sleep[k + 1..]) == Kept(s0, now, k) + [t] + s0.sleep[k + 1..];
    assert Woken(s0, now, k) + [] == Woken(s0, now, k);
  }

  lemma WakingDone(s0: Sys, s: Sys, now: nat, k: nat)
    requires Inv(s0) && WakingAt(s0, s, now, k) && L.At(s0.sleep, k) == 0
    ensures s == WakeAll(s0, now) && k == |s0.sleep|
  {
    assert 0 !in s0.sleep;
    assert s0.sleep[..k] == s0.sleep && s0.sleep[k..] == [];
    assert Kept(s0, now, k) + [] == Kept(s0, now, k);
    assert s.place == WakeAll(s0, now).place;
  }

  /** At most, c has been asked to give up the CPU. */
  ghost predicate Steady(th: map<nat, Thread>, th': map<nat, Thread>, c: nat) {
    OnlyFor(th, th', {c}) && (c in th ==> th'[c].timeSlice == th[c].timeSlice)
  }

  /** No thread outside ts has a new time slice or request to give up the CPU, and none has new settings. */
  ghost predicate OnlyFor(th: map<nat, Thread>, th': map<nat, Thread>, ts: set<nat>) {
    th'.Keys == th.Keys && forall u :: u in th ==>
      && th'[u].defaultSlice == th[u].defaultSlice && th'[u].preemptCount == th[u].preemptCount
      && (u !in ts ==> th'[u].timeSlice == th[u].timeSlice && th'[u].needResched == th[u].needResched)
  }

  /** Every thread has a full slice of ten ticks. */
  ghost predicate AllFull(th: map<nat, Thread>) {
    forall t :: t in th ==> th[t].timeSlice == th[t].defaultSlice == 10 && th[t].preemptCount == 0
  }

  lemma FullOnly(th: map<nat, Thread>, th': map<nat, Thread>)
    requires AllFull(th) && OnlyFor(th, th', {})
    ensures AllFull(th')
  {
  }

  lemma OnlyTrans(th: map<nat, Thread>, th': map<nat, Thread>, th'': map<nat, Thread>, ts: set<nat>)
    requires OnlyFor(th, th', {}) && OnlyFor(th', th'', ts)
    ensures OnlyFor(th, th'', ts)
  {
  }

  lemma OnlyNone(th: map<nat, Thread>)
    ensures forall ts :: OnlyFor(th, th, ts)
  {
  }

  lemma StateOnly(th: map<nat, Thread>, t: nat, st: State)
    ensures OnlyFor(th, SetState(th, t, st), {})
  {
  }

  lemma SteadyTrans(th: map<nat, Thread>, th': map<nat, Thread>, th'': map<nat, Thread>, c: nat)
    requires Steady(th, th', c) && Steady(th', th'', c)
    ensures Steady(th, th'', c)
  {
  }

  lemma SteadyOnly(th: map<nat, Thread>, th': map<nat, Thread>, th'': map<nat, Thread>, c: nat)
    requires Steady(th, th', c) && OnlyFor(th', th'', {c})
    ensures OnlyFor(th, th'', {c})
  {
  }

  lemma SameSlice(th: map<nat, Thread>, th': map<nat, Thread>, t: nat)
    requires Steady(th, th', t) && t in th
    ensures t in th' && th'[t].timeSlice == th[t].timeSlice
  {
  }

  /** One tick of a time slice: it goes down to 0 and stays there. */
  ghost predicate SliceDown(before: nat, after: nat) { after == if before > 0 then before - 1 else 0 }

  lemma ClockRep(m: Mem, s: Sys, now: nat)
    requires Rep(m, s)
    ensures Rep(m.(ticks := now), s.(ticks := now))
  {
    hide ThreadsRep, LocksRep;
  }

  lemma HeadRep(m: Mem, s: Sys)
    requires Rep(m, s)
    ensures m.readyHead != 0 <==> s.ready != []
  {
  }

  ghost function Queued(s: Sys, k: nat): Sys
    requires k in s.mutexes
  {
    s.(mutexes := s.mutexes[k := s.mutexes[k].(waiters := s.mutexes[k].waiters + [s.current])])
  }

  lemma ChainFrame(w: map<nat, nat>, w': map<nat, nat>, x: LockRec, q: seq<nat>)
    requires Chain(w, x, q) && forall t :: t in q ==> NextWaiter(w', t) == NextWaiter(w, t)
    ensures Chain(w', x, q)
  {
    forall i | 0 <= i < |q|
      ensures NextWaiter(w', q[i]) == L.At(q, i + 1)
    {
      assert NextWaiter(w, q[i]) == L.At(q, i + 1);
    }
  }

  lemma ChainAppend(w: map<nat, nat>, x: LockRec, q: seq<nat>, c: nat)
    requires Chain(w, x, q) && c !in q && c != 0
    ensures var w1 := w[c := 0];
      var w', x' := if x.tail != 0 then w1[x.tail := c] else w1, (if x.tail != 0 then x else x.(head := c)).(tail := c);
      Chain(w', x', q + [c])
  {
    var w1, r := w[c := 0], q + [c];
    var w' := if x.tail != 0 then w1[x.tail := c] else w1;
    Appended(q, c);
    forall i | 0 <= i < |r| ensures NextWaiter(w', r[i]) == L.At(r, i + 1) {
      if i < |q| { assert NextWaiter(w, q[i]) == L.At(q, i + 1); }
    }
  }

  lemma ChainPop(w: map<nat, nat>, x: LockRec, q: seq<nat>)
    requires Chain(w, x, q) && q != []
    ensures var n := NextWaiter(w, q[0]);
      Chain(w[q[0] := 0], x.(head := n, tail := if n == 0 then 0 else x.tail), q[1..])
  {
    var r := q[1..];
    Popped(q);
    assert NextWaiter(w, q[0]) == L.At(q, 1);
    forall i | 0 <= i < |r| ensures NextWaiter(w[q[0] := 0], r[i]) == L.At(r, i + 1) {
      assert NextWaiter(w, q[i + 1]) == L.At(q, i + 2);
    }
  }

  /** Only the wait list of mutex k and the links of its threads change. */
  lemma LockFrame(m: Mem, s: Sys, k: nat, w': map<nat, nat>, x: LockRec, y: Mutex, c: nat)
    requires LocksRep(m.waitNext, m.locks, s.mutexes) && MutexesOk(s) && k in s.mutexes
    requires LockRep(w', x, y) && (forall j :: j in s.mutexes && j != k ==> c !in s.mutexes[j].waiters)
    requires forall t :: t != c && t !in s.mutexes[k].waiters ==> NextWaiter(w', t) == NextWaiter(m.waitNext, t)
    ensures LocksRep(w', m.locks[k := x], s.mutexes[k := y])
  {
    assert MutexOk(s, k);
    forall j | j in s.mutexes && j != k ensures LockRep(w', m.locks[j], s.mutexes[j]) {
      assert MutexOk(s, j) && LockRep(m.waitNext, m.locks[j], s.mutexes[j]);
      ChainFrame(m.waitNext, w', m.locks[j], s.mutexes[j].waiters);
    }
    hide Chain, MutexOk;
  }

  lemma TakeIsBlock(s: Sys, k: nat)
    requires k in s.mutexes && s.mutexes[k].owner != 0
    ensures Take(s, k) == Dispatch(Leave(Queued(s, k), Waiting(k)))
  {
    hide Dispatch;
  }

  /** What mutex_lock needs to know, and what its writes amount to. */
  lemma LockReady(m: Mem, s: Sys, k: nat)
    requires Rep(m, s) && Inv(s) && Enabled(s, Step.Lock(k))
    ensures k in m.locks && m.current in m.threads && m.idle in m.threads && s.current !in s.ready
    ensures forall t :: t in s.ready ==> t in m.threads
    ensures m.locks[k].locked <==> s.mutexes[k].owner != 0
    ensures s.mutexes[k].owner == 0 ==>
      Rep(m.(locks := m.locks[k := m.locks[k].(locked := true, owner := m.current)]), Take(s, k))
    ensures s.mutexes[k].owner != 0 ==> Rep(Joins(m, k), Queued(s, k))
  {
    var x, y, c := m.locks[k], s.mutexes[k], s.current;
    OnCpu(m, s);
    assert LockRep(m.waitNext, x, y) && MutexOk(s, k);
    forall j | j in s.mutexes ensures c !in s.mutexes[j].waiters { assert MutexOk(s, j); }
    if y.owner == 0 {
      LockFrame(m, s, k, m.waitNext, x.(locked := true, owner := c), y.(owner := c), c);
      hide Inv, ThreadsRep, QueuesRep, LocksRep;
      LockedRep(m, s, m.waitNext, m.locks[k := x.(locked := true, owner := c)], Take(s, k));
    } else {
      var m' := Joins(m, k);
      ChainAppend(m.waitNext, x, y.waiters, c);
      LockFrame(m, s, k, m'.waitNext, m'.locks[k], y.(waiters := y.waiters + [c]), c);
      hide Inv, ThreadsRep, QueuesRep, LocksRep;
      LockedRep(m, s, m'.waitNext, m'.locks, Queued(s, k));
    }
  }

  ghost function Joins(m: Mem, k: nat): Mem
    requires k in m.locks
  {
    var x, c := m.locks[k], m.current;
    var w := m.waitNext[c := 0];
    m.(waitNext := if x.tail != 0 then w[x.tail := c] else w,
       locks := m.locks[k := (if x.tail != 0 then x else x.(head := c)).(tail := c)])
  }

  lemma LockedRep(m: Mem, s: Sys, w: map<nat, nat>, locks: map<nat, LockRec>, s': Sys)
    requires Rep(m, s) && s' == s.(mutexes := s'.mutexes) && LocksRep(w, locks, s'.mutexes)
    ensures Rep(m.(waitNext := w, locks := locks), s')
  {
    SameQueues(m, s, m.(waitNext := w, locks := locks), s');
    hide QueuesRep, ThreadsRep, LocksRep;
  }

  lemma UnlockReady(m: Mem, s: Sys, k: nat)
    requires Rep(m, s) && Inv(s) && Enabled(s, Step.Unlock(k))
    ensures k in m.locks && m.locks[k].head == L.At(Waiters(s, k), 0)
    ensures m.locks[k].head != 0 <==> Waiters(s, k) != []
    ensures Rep(Hands(m, k), Release(s, k))
  {
    var x, y := m.locks[k], s.mutexes[k];
    assert LockRep(m.waitNext, x, y) && MutexOk(s, k);
    if y.waiters == [] {
      LockFrame(m, s, k, m.waitNext, x.(locked := false, owner := 0), y.(owner := 0), 0);
      hide Inv, ThreadsRep, QueuesRep, LocksRep;
      LockedRep(m, s, m.waitNext, Hands(m, k).locks, Release(s, k));
    } else {
      var t, m', s1 := y.waiters[0], Hands(m, k), s.(mutexes := Release(s, k).mutexes);
      assert t in y.waiters && s.place[t] == Waiting(k);
      ChainPop(m.waitNext, x, y.waiters);
      LockFrame(m, s, k, m'.waitNext, m'.locks[k], Mutex(t, y.waiters[1..]), 0);
      hide Inv, ThreadsRep, QueuesRep, LocksRep, MutexOk, LockRep;
      LockedRep(m, s, m'.waitNext, m'.locks, s1);
      HandRep(m', s1, t, k);
    }
  }

  lemma HandRep(m: Mem, s: Sys, t: nat, k: nat)
    requires Rep(m, s) && t in s.place && s.place[t].Waiting?
    ensures Rep(m, s.(place := s.place[t := HandOff(k)]))
  {
    SameQueues(m, s, m, s.(place := s.place[t := HandOff(k)]));
    hide QueuesRep, LocksRep;
  }

  ghost function Hands(m: Mem, k: nat): Mem
    requires k in m.locks
  {
    var x := m.locks[k];
    var n := NextWaiter(m.waitNext, x.head);
    if x.head == 0 then m.(locks := m.locks[k := x.(locked := false, owner := 0)])
    else m.(waitNext := m.waitNext[x.head := 0],
            locks := m.locks[k := x.(head := n, tail := if n == 0 then 0 else x.tail, owner := x.head)])
  }

  lemma HandedRep(m: Mem, s: Sys, t: nat)
    requires Rep(m, s) && Inv(s) && Enabled(s, Requeue(t))
    ensures t in m.threads && t != 0 && t !in s.ready && t !in s.sleep
  {
  }

  ghost function Booted(k: nat, idle: nat, mutexes: set<nat>): Sys {
    Sys(map[k := Running, idle := Idle], k, idle, [], [], map x | x in mutexes :: Mutex(0, []), 0)
  }

  lemma BootInv(k: nat, idle: nat, mutexes: set<nat>)
    requires k != 0 && idle != 0 && k != idle
    ensures Inv(Booted(k, idle, mutexes))
  {
    var s := Booted(k, idle, mutexes);
    forall x | x in s.mutexes ensures MutexOk(s, x) { }
  }

  lemma BootRep(m: Mem, s: Sys, k: nat, idle: nat, mutexes: set<nat>)
    requires k != 0 && idle != 0 && k != idle && Rep(m, s)
    requires s == Sys(map[k := Running, idle := Ready], k, 0, L.Without([idle], 0), [],
                      map x | x in mutexes :: Mutex(0, []), 0)
    ensures Rep(m.(idle := idle), Booted(k, idle, mutexes)) && Inv(Booted(k, idle, mutexes))
  {
    var s' := Booted(k, idle, mutexes);
    BootInv(k, idle, mutexes);
    hide Inv;
    assert s.ready == [];
    SameQueues(m, s, m.(idle := idle), s');
    hide QueuesRep, LocksRep;
  }

  /** The state field of a thread tells where it is. */
  lemma StateField(m: Mem, s: Sys, t: nat)
    requires Rep(m, s) && Inv(s) && t in m.threads
    ensures m.threads[t].state == StRunning <==> t == m.current
    ensures m.threads[t].state == StReady <==> t in s.ready || (t == m.idle && t != m.current)
    ensures m.threads[t].state == StSleeping <==> t in s.sleep
    ensures m.threads[t].state == StZombie <==> Is(s, t, Zombie)
    ensures m.threads[t].state == StBlocked <==>
      (exists k :: t in Waiters(s, k)) || (exists k :: Is(s, t, HandOff(k)) && Owner(s, k) == t)
  {
    if s.place[t].Waiting? {
      assert MutexOk(s, s.place[t].mutex) && t in Waiters(s, s.place[t].mutex);
    } else if s.place[t].HandOff? {
      assert Is(s, t, HandOff(s.place[t].mutex)) && Owner(s, s.place[t].mutex) == t;
    }
    forall k | t in Waiters(s, k) ensures s.place[t] == Waiting(k) { assert MutexOk(s, k); }
    hide QueuesRep, LocksRep;
  }

  ghost function Switched(s: Sys, next: nat): Sys {
    var s1 := if !Is(s, s.current, Running) then s else if s.current != s.idle then Enqueued(s, s.current)
      else Leave(s, Idle);
    s1.(place := s1.place[next := Running], current := next)
  }

  lemma ScheduleIs(s: Sys, next: nat)
    requires (Inv(s) || Departed(s)) && next == (if s.ready == [] then s.idle else s.ready[0]) && next != s.current
    requires s.ready == [] ==> !Is(s, s.current, Running)
    ensures Switched(if s.ready == [] then s else s.(ready := s.ready[1..]), next) ==
      if Inv(s) then Next(s, Step.Schedule) else Dispatch(s)
  {
  }

  class Scheduler {
    var m: Mem
    ghost var s: Sys

    ghost predicate Valid()
      reads this
    {
      Rep(m, s) && Inv(s)
    }

    /** schedInit: the boot thread k runs, the idle thread is created, queued and taken out again.
        All mutexes are free. */
    constructor (k: nat, idle: nat, mutexes: set<nat>)
      requires k != 0 && idle != 0 && k != idle
      ensures Valid() && s == Booted(k, idle, mutexes)
      ensures AllFull(m.threads)
    {
      m := Mem(map[k := Thread(StRunning, QUANTUM, QUANTUM, false, 0, 0)], map[], 0, 0, 0, k, 0, 0, map[],
               map x | x in mutexes :: LockRec(false, 0, 0, 0));
      s := Sys(map[k := Running], k, 0, [], [], map x | x in mutexes :: Mutex(0, []), 0);
      new;
      AddIdle(k, idle, mutexes);
    }

    /** The idle thread is created like any other and then taken out of the ready queue. */
    method AddIdle(k: nat, idle: nat, ghost mutexes: set<nat>)
      requires k != 0 && idle != 0 && k != idle && Rep(m, s) && AllFull(m.threads)
      requires s == Sys(map[k := Running], k, 0, [], [], map x | x in mutexes :: Mutex(0, []), 0)
      modifies this
      ensures Rep(m, s) && Inv(s) && s == Booted(k, idle, mutexes) && AllFull(m.threads)
    {
      hide *;
      ghost var s0 := s;
      QueueIdle(idle);
      UnqueueRep(m, s, 0);
      RemoveReady(idle);
      s := s.(ready := L.Without(s.ready, 0));
      assert s == s0.(place := s0.place[idle := Ready], ready := L.Without([idle], 0));
      BootRep(m, s, k, idle, mutexes);
      m := m.(idle := idle);
      s := Booted(k, idle, mutexes);
    }

    method QueueIdle(idle: nat)
      requires Rep(m, s) && AllFull(m.threads) && idle != 0 && idle !in s.place && s.ready == [] == s.sleep
      modifies this
      ensures Rep(m, s) && s == old(s).(place := old(s).place[idle := Ready], ready := [idle]) && AllFull(m.threads)
    {
      SameKeys(m, s);
      NewRep(m, s, idle);
      ghost var th := m.threads[idle := Thread(StReady, QUANTUM, QUANTUM, false, 0, 0)];
      assert AllFull(th);
      hide Rep, AllFull, OnlyFor;
      m := m.(threads := m.threads[idle := Thread(StReady, QUANTUM, QUANTUM, false, 0, 0)]);
      s := s.(place := s.place[idle := Ready]);
      ghost var place := s.place;
      EnqueueReady(idle);
      assert place[idle := Ready] == place && [] + [idle] == [idle];
      FullOnly(th, m.threads);
    }

    method EnqueueReady(t: nat)
      requires Rep(m, s) && t != 0 && t in m.threads && t !in s.ready && t !in s.sleep
      modifies this
      ensures Rep(m, s) && s == Enqueued(old(s), t)
      ensures OnlyFor(old(m).threads, m.threads, {}) && m.current == old(m).current
    {
      hide Rep, L.PushBack;
      EnqueueRep(m, s, t);
      m := m.(threads := SetState(m.threads, t, StReady));
      var l := L.PushBack(L.List(m.links, m.readyHead), m.readyTail, t);
      m := m.(links := l.links, readyHead := l.head, readyTail := t);
      s := Enqueued(s, t);
    }

    method DequeueReady() returns (t: nat)
      requires Rep(m, s)
      modifies this
      ensures Rep(m, s) && (t == 0 <==> old(s).ready == [])
      ensures s == if t == 0 then old(s) else old(s).(ready := old(s).ready[1..])
      ensures t != 0 ==> t == old(s).ready[0]
      ensures m.threads == old(m).threads
    {
      t := m.readyHead;
      if t == 0 { return; }
      UnqueueRep(m, s, 0);
      assert L.Without(s.ready, 0) == s.ready[1..];
      hide Rep, L.Remove;
      RemoveReady(t);
      s := s.(ready := s.ready[1..]);
    }

    /** The running thread is gone from the CPU: run the head of the ready queue, or idle. */
    method RunNext()
      requires Rep(m, s) && m.idle in m.threads && (forall t :: t in s.ready ==> t in m.threads)
      modifies this
      ensures Rep(m, s) && s == Dispatch(old(s)) && Rested(m) && OnlyFor(old(m).threads, m.threads, {m.current})
    {
      var next := DequeueReady();
      if next == 0 { next := m.idle; }
      Switch(next);
    }

    method RemoveReady(t: nat)
      modifies this
      ensures m == Unqueue(old(m), t) && s == old(s) && m.threads == old(m).threads
    {
      hide L.Remove;
      var x, l := L.Get(m.links, t), L.Remove(L.List(m.links, m.readyHead), t);
      if x.next == 0 { m := m.(readyTail := x.prev); }
      m := m.(links := l.links, readyHead := l.head);
    }

    method Switch(next: nat)
      requires Rep(m, s) && next in m.threads
      modifies this
      ensures Rep(m, s) && s == old(s).(place := old(s).place[next := Running], current := next)
      ensures m.current == next && Rested(m) && OnlyFor(old(m).threads, m.threads, {next})
    {
      hide Rep;
      SwitchRep(m, s, next);
      var x := m.threads[next].(state := StRunning, needResched := false, timeSlice := m.threads[next].defaultSlice);
      m := m.(threads := m.threads[next := x], current := next);
      s := s.(place := s.place[next := Running], current := next);
    }

    /** schedule(), also as the end of schedSleep and schedThreadExit, where the current thread has
        already left the running state. */
    method Schedule()
      requires Rep(m, s) && (Inv(s) || Departed(s))
      modifies this
      ensures Rep(m, s)
      ensures s == if old(m.threads[m.current].preemptCount) > 0 then old(s)
                   else if Inv(old(s)) then Next(old(s), Step.Schedule) else Dispatch(old(s))
      ensures old(m.threads[m.current].preemptCount) == 0 && Inv(old(s)) && old(s).ready != [] ==>
        && s.current == old(s).ready[0]
        && s.ready == old(s).ready[1..] + if old(s).current == old(s).idle then [] else [old(s).current]
      ensures m.current != old(m).current ==> Rested(m)
      ensures OnlyFor(old(m).threads, m.threads, {m.current})
      ensures old(m.threads[m.current].preemptCount) == 0 ==>
        m.current in m.threads && !m.threads[m.current].needResched
    {
      ghost var s0 := s;
      OnCpu(m, s);
      if Inv(s) {
        QueueAfter(s, Step.Schedule);
        Runner(s, Step.Schedule);
      }
      OnlyNone(m.threads);
      hide Rep, Inv, Departed, OnlyFor;
      var prev := m.current;
      if m.threads[prev].preemptCount > 0 { return; }
      var next := DequeueReady();
      SameKeys(m, s);
      if next == 0 { next := if m.threads[prev].state == StRunning then prev else m.idle; }
      if next == prev {
        Refresh(prev);
        return;
      }
      SwitchFrom(prev, next);
      ScheduleIs(s0, next);
    }

    /** The second half of schedule(): a thread that still runs is queued, then the next one runs. */
    method SwitchFrom(prev: nat, next: nat)
      requires Rep(m, s) && prev == m.current && prev != 0 && prev in m.threads && next in m.threads && prev !in s.ready
      requires m.threads[prev].state == StRunning && prev != m.idle ==> prev !in s.sleep
      modifies this
      ensures Rep(m, s) && s == Switched(old(s), next) && m.current == next && Rested(m)
      ensures OnlyFor(old(m).threads, m.threads, {next})
    {
      ghost var th := m.threads;
      SameKeys(m, s);
      OnlyNone(th);
      hide Rep, OnlyFor;
      if m.threads[prev].state == StRunning {
        if prev != m.idle { EnqueueReady(prev); } else { PutIdleAside(); }
      }
      SameKeys(m, s);
      ghost var th' := m.threads;
      Switch(next);
      OnlyTrans(th, th', m.threads, {next});
    }

    /** The first critical section of schedSleep. */
    method LieDownFor(n: nat)
      requires Valid() && s.current != s.idle
      modifies this
      ensures Rep(m, s) && s == Lain(old(s), Wrap64(old(s).ticks + n))
      ensures m.current == old(m).current && m.current in m.threads && m.current in old(m).threads
      ensures m.threads[m.current].preemptCount == old(m).threads[m.current].preemptCount
      ensures OnlyFor(old(m).threads, m.threads, {})
    {
      hide Rep, Inv, Wrap64, L.PushFront, Lain;
      OnCpu(m, s);
      SameKeys(m, s);
      var target := Wrap64(m.ticks + n);
      LieDownRep(m, s, target);
      var x := m.threads[m.current].(sleepTarget := target, state := StSleeping);
      var l := L.PushFront(L.List(m.links, m.sleepHead), m.current);
      m := m.(threads := m.threads[m.current := x], links := l.links, sleepHead := l.head);
      s := Lain(s, target);
    }

    method SleepFor(n: nat)
      requires Valid() && s.current != s.idle && m.threads[m.current].preemptCount == 0
      modifies this
      ensures Valid() && s == if n == 0 then old(s) else Next(old(s), Sleep(n))
      ensures OnlyFor(old(m).threads, m.threads, {m.current})
    {
      ghost var th := m.threads;
      OnlyNone(th);
      hide Rep, Inv, Wrap64, Departed, Lain, Dispatch, OnlyFor;
      if n == 0 { return; }
      StepInv(s, Sleep(n));
      DozeDeparted(s, Wrap64(s.ticks + n));
      LieDownFor(n);
      ghost var th' := m.threads;
      Schedule();
      OnlyTrans(th, th', m.threads, {m.current});
    }

    method ThreadExit()
      requires Valid() && s.current != s.idle && m.threads[m.current].preemptCount == 0
      modifies this
      ensures Valid() && s == Next(old(s), Exit) && OnlyFor(old(m).threads, m.threads, {m.current})
    {
      ghost var th := m.threads;
      OnCpu(m, s);
      LeaveRep(m, s, StZombie, Zombie);
      StepInv(s, Exit);
      ExitDeparted(s);
      StateOnly(th, m.current, StZombie);
      hide Rep, Inv, Departed, OnlyFor;
      m := m.(threads := SetState(m.threads, m.current, StZombie));
      s := Leave(s, Zombie);
      ghost var th' := m.threads;
      Schedule();
      OnlyTrans(th, th', m.threads, {m.current});
    }

    /** schedCreateThread, for the thread record t just allocated. */
    method Create(t: nat)
      requires Valid() && t != 0 && t !in m.threads
      modifies this
      ensures Valid() && s == Next(old(s), Step.Create(t))
      ensures t in m.threads && m.threads[t].timeSlice == m.threads[t].defaultSlice == 10
      ensures m.threads[t].preemptCount == 0 && OnlyFor(old(m).threads, m.threads - {t}, {})
    {
      hide Rep, Inv;
      NotQueued(m, s, t);
      NewRep(m, s, t);
      StepInv(s, Step.Create(t));
      m := m.(threads := m.threads[t := Thread(StReady, QUANTUM, QUANTUM, false, 0, 0)]);
      ghost var s0 := s;
      s := s.(place := s.place[t := Ready]);
      EnqueueReady(t);
      assert s == Next(s0, Step.Create(t));
    }

    /** schedTick takes a due thread out of the sleep list and queues it. */
    method WakeOne(t: nat, ghost i: nat)
      requires Rep(m, s) && t in m.threads && i < |s.sleep| && s.sleep[i] == t && m.current in m.threads
      modifies this
      ensures Rep(m, s) && s == Enqueued(old(s).(sleep := L.Without(old(s).sleep, i)), t)
      ensures m.current in m.threads && m.threads[m.current].needResched && m.ticks == old(m).ticks
      ensures Steady(old(m).threads, m.threads, m.current) && m.current == old(m).current
    {
      hide Rep, L.Remove, L.Without;
      SameKeys(m, s);
      AriseRep(m, s, i);
      var l := L.Remove(L.List(m.links, m.sleepHead), t);
      m := m.(links := l.links, sleepHead := l.head);
      s := s.(sleep := L.Without(s.sleep, i));
      EnqueueReady(t);
      SameKeys(m, s);
      var c := m.current;
      FieldRep(m, s, c, m.threads[c].(needResched := true));
      m := m.(threads := m.threads[c := m.threads[c].(needResched := true)]);
    }

    /** One step of the walk of schedTick along the sleep list. */
    method WakeStep(ghost s0: Sys, ghost th0: map<nat, Thread>, ghost now: nat, ghost k: nat, t: nat)
      returns (next: nat)
      requires Inv(s0) && Walking(m, s, s0, th0, now, k) && k < |s0.sleep| && t == s0.sleep[k]
      modifies this
      ensures Walking(m, s, s0, th0, now, k + 1) && next == L.At(s0.sleep, k + 1)
    {
      hide Rep, Inv, WakingAt, Steady, Woken, Kept;
      WakingNow(m, s0, s, now, k);
      SameKeys(m, s);
      next := L.Get(m.links, t).next;
      ghost var s1, th1 := s, m.threads;
      if m.ticks >= m.threads[t].sleepTarget {
        WakeOne(t, |Kept(s0, now, k)|);
        SameKeys(m, s);
        SteadyTrans(th0, th1, m.threads, m.current);
        WakingNext(s0, s1, s, now, k);
      } else {
        WakingSkip(s0, s, now, k);
      }
    }

    method WakeDue(ghost s0: Sys)
      requires Inv(s0) && Rep(m, s) && s == s0.(ticks := s.ticks)
      modifies this
      ensures Rep(m, s) && s == WakeAll(s0, old(s).ticks)
      ensures m.current == old(m).current && m.current in m.threads && m.current in old(m).threads
      ensures Steady(old(m).threads, m.threads, m.current)
      ensures m.threads[m.current].needResched <==>
        old(m).threads[m.current].needResched || Woken(s0, old(s).ticks, |s0.sleep|) != []
    {
      ghost var now, k, th0 := s.ticks, 0, m.threads;
      WakingStart(m, s, s0);
      hide Rep, Inv, WakingAt, Kept;
      var t := m.sleepHead;
      while t != 0
        invariant k <= |s0.sleep| && t == L.At(s0.sleep, k) && Walking(m, s, s0, th0, now, k)
        decreases |s0.sleep| - k
      {
        t := WakeStep(s0, th0, now, k, t);
        k := k + 1;
      }
      WakingDone(s0, s, now, k);
    }

    /** schedTick: time passes, due sleepers wake, and the running thread's slice runs down. */
    method Tick()
      requires Valid()
      modifies this
      ensures Valid() && s == Next(old(s), Step.Tick)
      ensures m.current == old(m).current && m.current in m.threads && m.current in old(m).threads
      ensures m.threads[m.current].needResched <==>
        || old(m).threads[m.current].needResched || Woken(old(s), Wrap64(old(s).ticks + 1), |old(s).sleep|) != []
        || (if m.current == m.idle then s.ready != [] else old(m).threads[m.current].timeSlice == 1)
      ensures m.current != m.idle ==>
        m.threads[m.current].timeSlice ==
        if old(m).threads[m.current].timeSlice > 0 then old(m).threads[m.current].timeSlice - 1 else 0
      ensures OnlyFor(old(m).threads, m.threads, {m.current})
    {
      ghost var s0, th0 := s, m.threads;
      hide Rep, Inv, Wrap64, Woken, WakeAll, Steady, OnlyFor;
      StepInv(s, Step.Tick);
      SameKeys(m, s);
      OnCpu(m, s);
      ClockRep(m, s, Wrap64(m.ticks + 1));
      m := m.(ticks := Wrap64(m.ticks + 1));
      s := s.(ticks := Wrap64(s.ticks + 1));
      WakeDue(s0);
      SameSlice(th0, m.threads, m.current);
      ghost var th := m.threads;
      RunDown();
      SteadyOnly(th0, th, m.threads, m.current);
    }

    /** The end of schedTick. */
    method RunDown()
      requires Rep(m, s) && m.current in m.threads
      modifies this
      ensures Rep(m, s) && s == old(s) && m.current == old(m).current && m.idle == old(m).idle && m.current in m.threads
      ensures m.threads[m.current].needResched <==>
        || old(m).threads[m.current].needResched
        || if m.current == m.idle then s.ready != [] else old(m).threads[m.current].timeSlice == 1
      ensures m.current != m.idle ==> SliceDown(old(m).threads[m.current].timeSlice, m.threads[m.current].timeSlice)
      ensures OnlyFor(old(m).threads, m.threads, {m.current})
    {
      hide Rep;
      HeadRep(m, s);
      var c := m.current;
      var x := m.threads[c];
      if c == m.idle {
        if m.readyHead != 0 { x := x.(needResched := true); }
      } else if x.timeSlice > 0 {
        x := x.(timeSlice := x.timeSlice - 1);
        if x.timeSlice == 0 { x := x.(needResched := true); }
      }
      FieldRep(m, s, c, x);
      m := m.(threads := m.threads[c := x]);
    }

    /** mutex_lock: take a free mutex, or join the end of the wait list and block. */
    method MutexLock(k: nat)
      requires Valid() && Enabled(s, Step.Lock(k))
      modifies this
      ensures Valid() && s == Next(old(s), Step.Lock(k))
      ensures Owner(old(s), k) == 0 ==> s.current == old(s).current == Owner(s, k)
      ensures Owner(old(s), k) != 0 ==> Owner(s, k) == Owner(old(s), k) && Is(s, old(s).current, Waiting(k))
      ensures OnlyFor(old(m).threads, m.threads, {m.current}) && (Owner(old(s), k) == 0 ==> m.threads == old(m).threads)
    {
      OwnerAfter(s, Step.Lock(k), k);
      Runner(s, Step.Lock(k));
      Blocks(s, Step.Lock(k), s.current, k);
      hide Rep, Inv, Take, Dispatch;
      LockReady(m, s, k);
      StepInv(s, Step.Lock(k));
      if !m.locks[k].locked {
        m := m.(locks := m.locks[k := m.locks[k].(locked := true, owner := m.current)]);
        s := Take(s, k);
        return;
      }
      TakeIsBlock(s, k);
      JoinWaiters(k);
      BlockCurrent(k);
    }

    method JoinWaiters(k: nat)
      requires k in m.locks && k in s.mutexes && Rep(Joins(m, k), Queued(s, k))
      modifies this
      ensures Rep(m, s) && s == Queued(old(s), k) && m == Joins(old(m), k)
    {
      hide Rep;
      var c, x := m.current, m.locks[k];
      m := m.(waitNext := m.waitNext[c := 0]);
      if x.tail != 0 { m := m.(waitNext := m.waitNext[x.tail := c]); } else { x := x.(head := c); }
      m := m.(locks := m.locks[k := x.(tail := c)]);
      s := Queued(s, k);
    }

    /** schedBlockCurrent, for a thread that has joined the wait list of mutex k. */
    method BlockCurrent(ghost k: nat)
      requires Rep(m, s) && m.current in m.threads && m.idle in m.threads && s.current !in s.ready
      requires forall t :: t in s.ready ==> t in m.threads
      modifies this
      ensures Rep(m, s) && s == Dispatch(Leave(old(s), Waiting(k))) && OnlyFor(old(m).threads, m.threads, {m.current})
    {
      ghost var th := m.threads;
      StateOnly(th, m.current, StBlocked);
      hide Rep, OnlyFor;
      SameKeys(m, s);
      LeaveRep(m, s, StBlocked, Waiting(k));
      m := m.(threads := SetState(m.threads, m.current, StBlocked));
      s := Leave(s, Waiting(k));
      ghost var th' := m.threads;
      RunNext();
      OnlyTrans(th, th', m.threads, {m.current});
    }

    /** mutex_unlock up to the release of the mutex's own lock: hand over to the first waiter. */
    method MutexUnlock(k: nat) returns (wake: nat)
      requires Valid() && Enabled(s, Step.Unlock(k))
      modifies this
      ensures Valid() && s == Next(old(s), Step.Unlock(k)) && wake == L.At(Waiters(old(s), k), 0)
      ensures Owner(s, k) == wake && s.current == old(s).current && m.threads == old(m).threads
    {
      OwnerAfter(s, Step.Unlock(k), k);
      Runner(s, Step.Unlock(k));
      hide Rep, Inv, Release;
      UnlockReady(m, s, k);
      StepInv(s, Step.Unlock(k));
      var x := m.locks[k];
      wake := x.head;
      if wake != 0 {
        x := x.(head := NextWaiter(m.waitNext, wake));
        if x.head == 0 { x := x.(tail := 0); }
        m := m.(waitNext := m.waitNext[wake := 0], locks := m.locks[k := x.(owner := wake)]);
      } else {
        m := m.(locks := m.locks[k := x.(locked := false, owner := 0)]);
      }
      s := Release(s, k);
    }

    /** The end of mutex_unlock: schedEnqueueReady on the new owner. */
    method EnqueueWoken(t: nat)
      requires Valid() && Enabled(s, Requeue(t))
      modifies this
      ensures Valid() && s == Next(old(s), Requeue(t)) && OnlyFor(old(m).threads, m.threads, {})
    {
      hide Rep, Inv;
      HandedRep(m, s, t);
      StepInv(s, Requeue(t));
      EnqueueReady(t);
    }

    method Refresh(t: nat)
      requires Rep(m, s) && t in m.threads
      modifies this
      ensures Rep(m, s) && s == old(s) && m.current == old(m).current && t in m.threads && !m.threads[t].needResched
      ensures OnlyFor(old(m).threads, m.threads, {t})
    {
      hide Rep;
      FieldRep(m, s, t, m.threads[t].(needResched := false));
      m := m.(threads := m.threads[t := m.threads[t].(needResched := false)]);
    }

    method PutIdleAside()
      requires Rep(m, s) && m.current in m.threads
      modifies this
      ensures Rep(m, s) && s == Leave(old(s), Idle) && OnlyFor(old(m).threads, m.threads, {})
    {
      LeaveRep(m, s, StReady, Idle);
      hide Rep;
      m := m.(threads := SetState(m.threads, m.current, StReady));
      s := Leave(s, Idle);
    }
  }
}
