/** An NVMe completion queue (src/kernel/krdrivers/nvme/nvme.c): the device posts entries with a
    phase tag that flips with every lap around the ring, section 4.6 of the NVM Express 1.4 base
    specification, and the driver takes entries as long as the tag at its head has its own phase. */
module Completion {
  /** The phase tag, the command identifier and the status without the tag. */
  datatype Cqe = Cqe(phase: bool, cid: nat, status: nat)

  datatype Context = Context(done: bool, status: nat, cid: nat)

  /** What the interrupt handler leaves in the command contexts for a run of completions. */
  ghost function Apply(contexts: seq<Context>, done: seq<Cqe>): (r: seq<Context>)
    ensures |r| == |contexts|
  {
    if done == [] then contexts
    else
      var before, e := Apply(contexts, done[..|done| - 1]), done[|done| - 1];
      if e.cid < |contexts| then before[e.cid := Context(true, e.status, e.cid)] else before
  }

  /** A command without a completion among them keeps its context. */
  lemma {:induction false} ApplyOther(contexts: seq<Context>, done: seq<Cqe>, cid: nat)
    requires cid < |contexts| && forall i :: 0 <= i < |done| ==> done[i].cid != cid
    ensures Apply(contexts, done)[cid] == contexts[cid]
  {
    if done != [] { ApplyOther(contexts, done[..|done| - 1], cid); }
  }

  /** A command is done with the status of its last completion. */
  lemma {:induction false} ApplyDone(contexts: seq<Context>, done: seq<Cqe>, i: nat)
    requires i < |done| && done[i].cid < |contexts| && forall j :: i < j < |done| ==> done[j].cid != done[i].cid
    ensures Apply(contexts, done)[done[i].cid] == Context(true, done[i].status, done[i].cid)
  {
    if i + 1 < |done| {
      assert done[..|done| - 1][i] == done[i];
      ApplyDone(contexts, done[..|done| - 1], i);
    }
  }

  ghost function Handled(contexts: seq<Context>, posted: seq<Cqe>, i: nat, j: nat): seq<Context>
    requires i <= j <= |posted|
  {
    Apply(contexts, posted[i..j])
  }

  lemma HandleStep(contexts: seq<Context>, posted: seq<Cqe>, i: nat, j: nat)
    requires i <= j < |posted|
    ensures var e, before := posted[j], Handled(contexts, posted, i, j);
      && |before| == |contexts|
      && Handled(contexts, posted, i, j + 1) ==
         if e.cid < |before| then before[e.cid := Context(true, e.status, e.cid)] else before
  {
    assert posted[i..j + 1][..j - i] == posted[i..j];
  }

  function NextSlot(i: nat, n: nat): (r: nat)
    requires i < n
    ensures r == if i + 1 == n then 0 else i + 1
  {
    (i + 1) % n
  }

  class CompletionQueue {
    const cq: array<Cqe>
    // the driver
    var head: nat
    var phase: bool
    var contexts: seq<Context>
    var doorbell: nat
    // the device
    var tail: nat
    var devPhase: bool
    // history
    ghost var posted: seq<Cqe>
    ghost var taken: nat       // completions the driver has taken
    ghost var told: nat        // of these, the ones the device has been told of
    ghost var devLap: nat      // the number of completions posted before the device's current lap
    ghost var lap: nat         // the number of completions taken before the driver's current lap

    ghost predicate Valid()
      reads this, cq
    {
      && head < cq.Length && tail < cq.Length && told <= taken <= |posted|
      && |posted| == devLap + tail && taken == lap + head
      && (devLap == 0 ==> devPhase) && (devLap == 0 || devLap >= cq.Length)
      && (if phase == devPhase then lap == devLap && head <= tail else lap + cq.Length == devLap && head >= tail)
      && (forall i :: 0 <= i < cq.Length ==> cq[i].phase == if i < tail then devPhase else !devPhase)
      && (forall i :: 0 <= i < tail ==> cq[i] == posted[devLap + i])
      && (forall i :: tail <= i < cq.Length && devLap > 0 ==> cq[i] == posted[devLap - cq.Length + i])
      && doorbell < cq.Length
    }

    constructor (size: nat)
      requires size > 0
      ensures Valid() && cq.Length == size && posted == [] && taken == 0 && told == 0 && fresh(cq)
      ensures contexts == seq(size, i => Context(false, 0, 0))
    {
      cq := new Cqe[size](i => Cqe(false, 0, 0));
      head, phase, doorbell, tail, devPhase := 0, true, 0, 0, true;
      contexts := seq(size, i => Context(false, 0, 0));
      posted, taken, told, devLap, lap := [], 0, 0, 0, 0;
    }

    /** The phase test is true exactly if there is a completion that the driver has not taken, and the
        entry at the head is then the oldest such. */
    lemma PhaseTest()
      requires Valid()
      ensures cq[head].phase == phase <==> taken < |posted|
      ensures taken < |posted| ==> cq[head] == posted[taken]
    {
    }

    /** The device posts a completion; it never overruns what it has been told. */
    method Post(cid: nat, status: nat)
      requires Valid() && |posted| < told + cq.Length
      modifies this`tail, this`devPhase, this`posted, this`devLap, cq
      ensures Valid() && posted == old(posted) + [Cqe(old(devPhase), cid, status)]
    {
      hide NextSlot;
      cq[tail] := Cqe(devPhase, cid, status);
      posted := posted + [Cqe(devPhase, cid, status)];
      tail := NextSlot(tail, cq.Length);
      if tail == 0 {
        devPhase := !devPhase;
        devLap := devLap + cq.Length;
      }
    }

    /** Take the entry at the head. */
    method Take() returns (e: Cqe)
      requires Valid() && cq[head].phase == phase
      modifies this`head, this`phase, this`taken, this`lap
      ensures Valid() && old(taken) < |posted| && e == posted[old(taken)] && taken == old(taken) + 1 && head < cq.Length
    {
      hide NextSlot;
      PhaseTest();
      e := cq[head];
      head := NextSlot(head, cq.Length);
      taken := taken + 1;
      if head == 0 {
        phase := !phase;
        lap := lap + cq.Length;
      }
    }

    /** nvme_irq_handler: everything posted is taken, in order, once; the doorbell is written if
        there was anything. */
    method Interrupt()
      requires Valid()
      modifies this`head, this`phase, this`taken, this`lap, this`contexts, this`doorbell, this`told
      ensures Valid() && taken == |posted| && told == (if old(taken) < |posted| then taken else old(told))
      ensures contexts == Apply(old(contexts), posted[old(taken)..])
      ensures doorbell == if old(taken) < |posted| then head else old(doorbell)
    {
      var processed := Drain();
      PhaseTest();
      assert posted[old(taken)..taken] == posted[old(taken)..];
      if processed > 0 {
        doorbell := head;
        told := taken;
      }
    }

    /** The loop of the handler. */
    method Drain() returns (processed: nat)
      requires Valid()
      modifies this`head, this`phase, this`taken, this`lap, this`contexts
      ensures Valid() && head < cq.Length && cq[head].phase != phase
      ensures old(taken) <= taken <= |posted| && processed == taken - old(taken)
      ensures contexts == Handled(old(contexts), posted, old(taken), taken)
    {
      assert head < cq.Length && taken <= |posted| && posted[taken..taken] == [];
      processed := 0;
      while cq[head].phase == phase
        invariant Valid() && head < cq.Length && old(taken) <= taken <= |posted| && processed == taken - old(taken)
        invariant contexts == Handled(old(contexts), posted, old(taken), taken)
        decreases |posted| - taken
      {
        ghost var before := taken;
        HandleOne();
        HandleStep(old(contexts), posted, old(taken), before);
        hide *;
        processed := processed + 1;
      }
    }

    method HandleOne()
      requires Valid() && cq[head].phase == phase
      modifies this`head, this`phase, this`taken, this`lap, this`contexts
      ensures Valid() && head < cq.Length && old(taken) < |posted| && taken == old(taken) + 1
      ensures var e := posted[old(taken)];
        contexts ==
          if e.cid < |old(contexts)| then old(contexts)[e.cid := Context(true, e.status, e.cid)] else old(contexts)
    {
      var e := Take();
      if e.cid < |contexts| { contexts := contexts[e.cid := Context(true, e.status, e.cid)]; }
    }

    /** The polling form at the end of nvme_submit_io_cmd and nvme_submit_admin_cmd, once the phase
        test has succeeded: take one completion and tell the device. */
    method Poll() returns (e: Cqe)
      requires Valid() && cq[head].phase == phase
      modifies this`head, this`phase, this`taken, this`lap, this`doorbell, this`told
      ensures Valid() && old(taken) < |posted| && e == posted[old(taken)] && taken == told == old(taken) + 1
      ensures doorbell == head
    {
      e := Take();
      doorbell := head;
      told := taken;
    }
  }
}
