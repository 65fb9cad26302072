/** The split virtqueue driver of src/drivers/virtiogpu/virtqueue.c together with the device's
    side of the protocol (section 2.6 of the Virtio 1.1 specification). The free list and the
    chains in flight share the `next` fields of the descriptor table, and both rings are indexed
    by counters that wrap at 16 bits.

    `Proto` is the protocol as a value: who owns which descriptor and what was said over all
    time, with unbounded counts and no links. The class holds what the source holds, and its
    invariant says that table, rings and wrapping indices represent a `Proto`. */
module Virtqueue {
  import opened Machine
  import L = DList

  const F_NEXT: nat := 1
  const F_WRITE: nat := 2
  const NO_DESC: nat := 0xFFFF

  datatype Buf = Buf(physAddr: nat, len: nat, write: bool)
  datatype Desc = Desc(addr: nat, len: nat, flags: nat, next: nat)

  /** A submitted buffer list and the descriptors that hold it. */
  datatype Chain = Chain(ids: seq<nat>, bufs: seq<Buf>)

  datatype Proto = Proto(
    free: seq<nat>,
    chains: map<nat, Chain>,  // by head descriptor
    submitted: seq<nat>,      // heads, in submission order
    taken: nat,               // how many of them the device has read
    held: set<nat>,           // heads the device has read and not completed
    completed: seq<nat>,      // heads, in completion order
    reclaimed: nat)           // how many of them the driver has polled

  ghost predicate Below(s: seq<nat>, n: nat) {
    forall i :: 0 <= i < |s| ==> s[i] < n
  }

  ghost predicate ChainOk(c: Chain, h: nat, size: nat) {
    0 < |c.ids| == |c.bufs| && c.ids[0] == h && L.Distinct(c.ids) && Below(c.ids, size)
  }

  ghost predicate ChainsOk(chains: map<nat, Chain>, size: nat) {
    forall h :: h in chains ==> ChainOk(chains[h], h, size)
  }

  /** Descriptor x is in the chain of head h. */
  ghost predicate InChain(chains: map<nat, Chain>, h: nat, x: nat) {
    h in chains && x in chains[h].ids
  }

  /** Every descriptor is on the free list or in exactly one chain. */
  ghost predicate Partitioned(size: nat, free: seq<nat>, chains: map<nat, Chain>) {
    && (forall h, x :: InChain(chains, h, x) ==> x !in free)
    && (forall g, h, x :: InChain(chains, g, x) && InChain(chains, h, x) ==> g == h)
    && (forall d: nat :: d < size ==> d in free || exists h :: InChain(chains, h, d))
  }

  /** Every chain in flight is in exactly one stage: offered, held by the device, or reported. */
  ghost predicate Staged(offered: seq<nat>, held: set<nat>, reported: seq<nat>, heads: set<nat>) {
    multiset(offered) + multiset(held) + multiset(reported) == multiset(heads)
  }

  /** Over all time, the device has answered or still holds exactly what it has read. */
  ghost predicate Delivered(read: seq<nat>, held: set<nat>, completed: seq<nat>) {
    multiset(read) == multiset(held) + multiset(completed)
  }

  ghost predicate Counted(p: Proto) {
    && p.taken <= |p.submitted| && p.reclaimed <= |p.completed|
    && Staged(p.submitted[p.taken..], p.held, p.completed[p.reclaimed..], p.chains.Keys)
    && Delivered(p.submitted[..p.taken], p.held, p.completed)
  }

  ghost predicate Inv(p: Proto, size: nat) {
    && L.Distinct(p.free) && Below(p.free, size)
    && ChainsOk(p.chains, size)
    && Partitioned(size, p.free, p.chains)
    && Counted(p)
  }

  // ---- the steps of the protocol

  ghost predicate CanOffer(p: Proto, bufs: seq<Buf>) {
    0 < |bufs| <= |p.free|
  }

  /** The first free descriptors become a chain that holds bufs, and its head is announced. */
  ghost function Offer(p: Proto, bufs: seq<Buf>): Proto
    requires CanOffer(p, bufs)
  {
    p.(free := p.free[|bufs|..],
       chains := p.chains[p.free[0] := Chain(p.free[..|bufs|], bufs)],
       submitted := p.submitted + [p.free[0]])
  }

  /** The device reads the next announced head. */
  ghost function Take(p: Proto): Proto
    requires p.taken < |p.submitted|
  {
    p.(taken := p.taken + 1, held := p.held + {p.submitted[p.taken]})
  }

  /** The device reports a chain it holds. */
  ghost function Complete(p: Proto, h: nat): Proto
    requires h in p.held
  {
    p.(held := p.held - {h}, completed := p.completed + [h])
  }

  ghost predicate CanReclaim(p: Proto) {
    p.reclaimed < |p.completed| && p.completed[p.reclaimed] in p.chains
  }

  /** The oldest reported chain goes back to the front of the free list. */
  ghost function Reclaim(p: Proto): Proto
    requires CanReclaim(p)
  {
    var h := p.completed[p.reclaimed];
    p.(free := p.chains[h].ids + p.free, chains := p.chains - {h}, reclaimed := p.reclaimed + 1)
  }

  ghost predicate Step(p: Proto, q: Proto) {
    || (exists bufs :: CanOffer(p, bufs) && q == Offer(p, bufs))
    || (p.taken < |p.submitted| && q == Take(p))
    || (exists h :: h in p.held && q == Complete(p, h))
    || (CanReclaim(p) && q == Reclaim(p))
  }

  /** What the device may do while the driver polls. */
  datatype Act = TakeAct | CompleteAct(head: nat)

  ghost predicate CanAct(p: Proto, a: Act) {
    if a.TakeAct? then p.taken < |p.submitted| else a.head in p.held
  }

  /** What the driver has stays; the device only adds reports. */
  ghost predicate Goes(p: Proto, q: Proto) {
    q.(held := p.held, taken := p.taken, completed := p.completed) == p && p.completed <= q.completed
  }

  ghost function Acted(p: Proto, a: Act): (q: Proto)
    requires CanAct(p, a)
    ensures Goes(p, q)
  {
    if a.TakeAct? then Take(p) else Complete(p, a.head)
  }

  ghost predicate CanActs(p: Proto, acts: seq<Act>)
    decreases |acts|
  {
    acts == [] || (CanAct(p, acts[0]) && CanActs(Acted(p, acts[0]), acts[1..]))
  }

  ghost function ActedAll(p: Proto, acts: seq<Act>): (q: Proto)
    requires CanActs(p, acts)
    ensures Goes(p, q)
    decreases |acts|
  {
    if acts == [] then p else ActedAll(Acted(p, acts[0]), acts[1..])
  }

  ghost function Batch(rounds: seq<seq<Act>>, i: nat): seq<Act> { if i < |rounds| then rounds[i] else [] }

  /** The device only does what it can, in each round of a poll from round i on. */
  ghost predicate CanPoll(p: Proto, rounds: seq<seq<Act>>, i: nat)
    decreases |p.chains.Keys|
  {
    CanReclaim(p) ==>
      var q := Reclaim(p);
      CanActs(q, Batch(rounds, i)) && (Smaller(p); CanPoll(ActedAll(q, Batch(rounds, i)), rounds, i + 1))
  }

  /** A whole poll, from round i on: as long as a report is there, reclaim the oldest; in each round the
      device goes on before the used index is read again. */
  ghost function Polled(p: Proto, rounds: seq<seq<Act>>, i: nat): Proto
    requires CanPoll(p, rounds, i)
    decreases |p.chains.Keys|
  {
    if !CanReclaim(p) then p else (Smaller(p); Polled(ActedAll(Reclaim(p), Batch(rounds, i)), rounds, i + 1))
  }

  lemma Smaller(p: Proto)
    requires CanReclaim(p)
    ensures |Reclaim(p).chains.Keys| < |p.chains.Keys|
  {
    var h := p.completed[p.reclaimed];
    assert Reclaim(p).chains.Keys == p.chains.Keys - {h};
  }

  ghost function Fresh(size: nat): Proto {
    Proto(seq(size, i requires 0 <= i < size => i), map[], [], 0, {}, [], 0)
  }

  ghost predicate Run(ps: seq<Proto>, size: nat) {
    |ps| > 0 && ps[0] == Fresh(size) && forall i :: 0 <= i < |ps| - 1 ==> Step(ps[i], ps[i + 1])
  }

  // ---- counting

  lemma {:induction false} SetToSeq(a: set<nat>) returns (s: seq<nat>)
    ensures L.Distinct(s) && (forall x :: x in s <==> x in a) && |s| == |a|
  {
    if a == {} {
      s := [];
    } else {
      var x :| x in a;
      var t := SetToSeq(a - {x});
      s := t + [x];
    }
  }

  lemma SetBound(a: set<nat>, n: nat)
    requires forall x :: x in a ==> x < n
    ensures |a| <= n
  {
    var s := SetToSeq(a);
    forall i | 0 <= i < |s| ensures s[i] < n { assert s[i] in a; }
    L.Pigeonhole(s, 0, n);
  }

  lemma HeadsNotFree(p: Proto, size: nat)
    requires ChainsOk(p.chains, size) && Partitioned(size, p.free, p.chains)
    ensures forall h :: h in p.chains ==> h < size && h !in p.free
  {
    forall h | h in p.chains ensures h < size && h !in p.free {
      assert ChainOk(p.chains[h], h, size);
      assert InChain(p.chains, h, p.chains[h].ids[0]);
    }
  }

  /** Free descriptors are never heads, so fewer than `size` chains are in flight while one is free. */
  lemma Bounds(p: Proto, size: nat)
    requires Inv(p, size)
    ensures |p.submitted| - p.taken + |p.held| + |p.completed| - p.reclaimed == |p.chains| <= size
    ensures |p.free| <= size
    ensures p.free != [] ==> |p.chains| < size && p.free[0] !in p.chains && p.free[0] < size
  {
    L.Pigeonhole(p.free, 0, size);
    StagedCard(p.submitted[p.taken..], p.held, p.completed[p.reclaimed..], p.chains.Keys);
    HeadsNotFree(p, size);
    HeadsFew(p.chains.Keys, p.free, size);
  }

  lemma HeadsFew(heads: set<nat>, free: seq<nat>, size: nat)
    requires Below(free, size) && forall h :: h in heads ==> h < size && h !in free
    ensures |heads| <= size
    ensures free != [] ==> |heads| < size && free[0] !in heads && free[0] < size
  {
    SetBound(heads, size);
    if free != [] {
      assert free[0] in free;
      SetBound(heads + {free[0]}, size);
    }
  }

  lemma StagedCard(offered: seq<nat>, held: set<nat>, reported: seq<nat>, heads: set<nat>)
    requires Staged(offered, held, reported, heads)
    ensures |offered| + |held| + |reported| == |heads|
  {
    assert |multiset(offered) + multiset(held) + multiset(reported)| == |multiset(heads)|;
  }

  // ---- every step keeps the invariant

  lemma OfferPartition(size: nat, p: Proto, bufs: seq<Buf>)
    requires L.Distinct(p.free) && Partitioned(size, p.free, p.chains) && CanOffer(p, bufs) && p.free[0] !in p.chains
    ensures Partitioned(size, Offer(p, bufs).free, Offer(p, bufs).chains)
  {
    var q := Offer(p, bufs);
    var ids := p.free[..|bufs|];
    assert p.free == ids + q.free;
    forall h, x | InChain(q.chains, h, x)
      ensures x !in q.free && (InChain(p.chains, h, x) || (h == p.free[0] && x in ids)) {
      assert h != p.free[0] ==> InChain(p.chains, h, x);
    }
    forall d: nat | d < size ensures d in q.free || exists h :: InChain(q.chains, h, d) {
      if d in p.free {
        if d !in q.free { assert InChain(q.chains, p.free[0], d); }
      } else {
        var h :| InChain(p.chains, h, d);
        assert InChain(q.chains, h, d);
      }
    }
  }

  lemma OfferCounted(p: Proto, bufs: seq<Buf>)
    requires Counted(p) && CanOffer(p, bufs) && p.free[0] !in p.chains
    ensures Counted(Offer(p, bufs))
  {
    var q, h := Offer(p, bufs), p.free[0];
    assert q.submitted[q.taken..] == p.submitted[p.taken..] + [h];
    assert q.submitted[..q.taken] == p.submitted[..p.taken];
    assert q.chains.Keys == p.chains.Keys + {h};
    assert multiset(q.chains.Keys) == multiset(p.chains.Keys) + multiset{h};
  }

  lemma OfferInv(p: Proto, bufs: seq<Buf>, size: nat)
    requires Inv(p, size) && CanOffer(p, bufs)
    ensures Inv(Offer(p, bufs), size) && p.free[0] !in p.chains
  {
    Bounds(p, size);
    hide Staged, Delivered;
    OfferPartition(size, p, bufs);
    OfferCounted(p, bufs);
    hide Partitioned, Counted;
  }

  lemma TakeInv(p: Proto, size: nat)
    requires Inv(p, size) && p.taken < |p.submitted|
    ensures Inv(Take(p), size) && p.submitted[p.taken] !in p.held
  {
    hide Partitioned, ChainsOk;
    var h, heads := p.submitted[p.taken], p.chains.Keys;
    assert p.submitted[p.taken..] == [h] + p.submitted[p.taken + 1..];
    assert p.submitted[..p.taken + 1] == p.submitted[..p.taken] + [h];
    assert multiset(heads)[h] <= 1;
    assert multiset(p.submitted[p.taken..])[h] >= 1;
    assert multiset(p.held)[h] == 0;
    assert multiset(p.held + {h}) == multiset(p.held) + multiset{h};
  }

  lemma CompleteInv(p: Proto, h: nat, size: nat)
    requires Inv(p, size) && h in p.held
    ensures Inv(Complete(p, h), size) && h in p.chains
  {
    hide Partitioned, ChainsOk;
    assert multiset(p.held)[h] >= 1;
    assert multiset(p.chains.Keys)[h] >= 1;
    assert multiset(p.held) == multiset(p.held - {h}) + multiset{h};
    assert (p.completed + [h])[p.reclaimed..] == p.completed[p.reclaimed..] + [h];
  }

  lemma Cancel(a: multiset<nat>, b: multiset<nat>, x: nat)
    requires a + multiset{x} == b + multiset{x}
    ensures a == b
  {
    forall y ensures a[y] == b[y] { assert (a + multiset{x})[y] == (b + multiset{x})[y]; }
  }

  lemma ReclaimCounted(p: Proto)
    requires Counted(p) && p.reclaimed < |p.completed|
    ensures CanReclaim(p) && Counted(Reclaim(p))
  {
    var h, heads := p.completed[p.reclaimed], p.chains.Keys;
    assert p.completed[p.reclaimed..] == [h] + p.completed[p.reclaimed + 1..];
    var a, r := multiset(p.submitted[p.taken..]) + multiset(p.held), multiset(p.completed[p.reclaimed + 1..]);
    assert multiset(p.completed[p.reclaimed..]) == r + multiset{h};
    assert multiset(heads)[h] >= 1;
    assert multiset(heads) == multiset(heads - {h}) + multiset{h};
    Cancel(a + r, multiset(heads - {h}), h);
    assert (p.chains - {h}).Keys == heads - {h};
  }

  lemma ReclaimPartition(size: nat, p: Proto)
    requires ChainsOk(p.chains, size) && L.Distinct(p.free) && Below(p.free, size)
    requires Partitioned(size, p.free, p.chains) && CanReclaim(p)
    ensures var q := Reclaim(p);
      Partitioned(size, q.free, q.chains) && L.Distinct(q.free) && Below(q.free, size)
  {
    var q, g := Reclaim(p), p.completed[p.reclaimed];
    var ids := p.chains[g].ids;
    assert ChainOk(p.chains[g], g, size);
    forall i | 0 <= i < |ids| ensures ids[i] !in p.free { assert InChain(p.chains, g, ids[i]); }
    forall h, x | InChain(q.chains, h, x) ensures InChain(p.chains, h, x) && h != g && !InChain(p.chains, g, x) {
      assert InChain(p.chains, h, x);
    }
    forall d: nat | d < size ensures d in q.free || exists h :: InChain(q.chains, h, d) {
      if d !in p.free {
        var h :| InChain(p.chains, h, d);
        if h != g { assert InChain(q.chains, h, d); }
      }
    }
  }

  lemma ReclaimInv(p: Proto, size: nat)
    requires Inv(p, size) && p.reclaimed < |p.completed|
    ensures CanReclaim(p) && Inv(Reclaim(p), size)
  {
    ReclaimCounted(p);
    hide Counted;
    ReclaimPartition(size, p);
    hide Partitioned, L.Distinct, Below;
  }

  lemma FreshInv(size: nat)
    ensures Inv(Fresh(size), size)
  {
    var f := Fresh(size).free;
    forall d: nat | d < size ensures d in f { assert f[d] == d; }
  }

  lemma StepInv(p: Proto, q: Proto, size: nat)
    requires Inv(p, size) && Step(p, q)
    ensures Inv(q, size)
    ensures forall h :: h in p.chains && !Reclaims(p, q, h) ==> h in q.chains && q.chains[h] == p.chains[h]
  {
    if bufs :| CanOffer(p, bufs) && q == Offer(p, bufs) {
      OfferInv(p, bufs, size);
    } else if p.taken < |p.submitted| && q == Take(p) {
      TakeInv(p, size);
    } else if h :| h in p.held && q == Complete(p, h) {
      CompleteInv(p, h, size);
    } else {
      ReclaimInv(p, size);
    }
  }

  /** The step takes the chain of h back. */
  ghost predicate Reclaims(p: Proto, q: Proto, h: nat) {
    CanReclaim(p) && q == Reclaim(p) && p.completed[p.reclaimed] == h
  }

  /** In every run of submit, device and poll steps in any order, the descriptors split exactly
      into the free list and disjoint chains, every chain is in one stage, and each report
      answers one submission. */
  lemma {:induction false} RunInv(ps: seq<Proto>, size: nat)
    requires Run(ps, size)
    ensures forall i :: 0 <= i < |ps| ==> Inv(ps[i], size)
    decreases |ps|
  {
    if |ps| == 1 {
      FreshInv(size);
    } else {
      var k := |ps| - 1;
      RunInv(ps[..k], size);
      assert Inv(ps[..k][k - 1], size);
      StepInv(ps[k - 1], ps[k], size);
      forall i | 0 <= i < k ensures Inv(ps[i], size) { assert ps[..k][i] == ps[i]; }
    }
  }

  /** A chain keeps its descriptors and buffers from submission until the driver takes it back, also
      between its report and that. */
  lemma {:induction false} ChainsStable(ps: seq<Proto>, size: nat, i: nat, j: nat, h: nat)
    requires Run(ps, size) && i <= j < |ps| && h in ps[i].chains
    requires forall k :: i <= k < j ==> !Reclaims(ps[k], ps[k + 1], h)
    ensures h in ps[j].chains && ps[j].chains[h] == ps[i].chains[h]
    decreases j
  {
    hide Inv, Step, Reclaims;
    if i < j {
      ChainsStable(ps, size, i, j - 1, h);
      RunInv(ps, size);
      StepInv(ps[j - 1], ps[j], size);
    }
  }

  /** Steps that lead from p to q. */
  ghost predicate Path(ps: seq<Proto>, p: Proto, q: Proto) {
    ps != [] && ps[0] == p && ps[|ps| - 1] == q && forall k :: 0 <= k < |ps| - 1 ==> Step(ps[k], ps[k + 1])
  }

  lemma OneStep(p: Proto, q: Proto)
    requires Step(p, q)
    ensures Path([p, q], p, q)
  {
    hide Step;
  }

  lemma Joined(ps: seq<Proto>, p: Proto, q: Proto, rs: seq<Proto>, r: Proto)
    requires Path(ps, p, q) && Path(rs, q, r)
    ensures Path(ps + rs[1..], p, r)
  {
    hide Step;
    var ts, n := ps + rs[1..], |ps| - 1;
    forall k | 0 <= k < |ts| - 1 ensures Step(ts[k], ts[k + 1]) {
      if k >= n { assert ts[k] == rs[k - n] && ts[k + 1] == rs[k - n + 1]; }
    }
  }

  /** A poll is a run of steps, at the end of which nothing reported is left. */
  lemma {:induction false} PollSteps(p: Proto, size: nat, rounds: seq<seq<Act>>, i: nat) returns (ps: seq<Proto>)
    requires Inv(p, size) && CanPoll(p, rounds, i)
    ensures Path(ps, p, Polled(p, rounds, i))
    ensures Inv(Polled(p, rounds, i), size) && Polled(p, rounds, i).reclaimed == |Polled(p, rounds, i).completed|
    decreases |p.chains.Keys|
  {
    assert Counted(p);
    if p.reclaimed < |p.completed| {
      ReclaimInv(p, size);
      Smaller(p);
      var q, acts := Reclaim(p), Batch(rounds, i);
      var qs := ActSteps(q, size, acts);
      var rs := PollSteps(ActedAll(q, acts), size, rounds, i + 1);
      hide Inv, Reclaim, ActedAll, CanPoll, Path;
      OneStep(p, q);
      Joined([p, q], p, q, qs, ActedAll(q, acts));
      ps := [p, q] + qs[1..];
      Joined(ps, p, ActedAll(q, acts), rs, Polled(p, rounds, i));
      ps := ps + rs[1..];
    } else {
      ps := [p];
    }
  }

  /** After a poll that found p and left q, exactly the chains that the device reported by its last
      reading are gone, in the order of the reports; the others are untouched. */
  ghost predicate Settled(p: Proto, q: Proto) {
    && p.reclaimed <= |p.completed| && p.completed <= q.completed && q.submitted == p.submitted
    && q.chains.Keys <= p.chains.Keys
    && (forall h :: h in p.chains ==> (h in q.chains <==> h !in q.completed[p.reclaimed..]))
    && (forall h :: h in q.chains ==> q.chains[h] == p.chains[h])
  }

  lemma SettleFirst(p: Proto, a: Proto, f: Proto)
    requires CanReclaim(p) && Goes(Reclaim(p), a) && Settled(a, f)
    ensures Settled(p, f)
  {
    var h := p.completed[p.reclaimed];
    assert a.completed[p.reclaimed] == h && f.completed[p.reclaimed] == h;
    assert f.completed[p.reclaimed..] == [h] + f.completed[a.reclaimed..];
    assert a.chains == p.chains - {h};
  }

  lemma {:induction false} PollSettles(p: Proto, size: nat, rounds: seq<seq<Act>>, i: nat)
    requires Inv(p, size) && CanPoll(p, rounds, i)
    ensures Settled(p, Polled(p, rounds, i))
    decreases |p.chains.Keys|
  {
    assert Counted(p);
    if p.reclaimed < |p.completed| {
      ReclaimInv(p, size);
      Smaller(p);
      var q, acts := Reclaim(p), Batch(rounds, i);
      var a := ActedAll(q, acts);
      var qs := ActSteps(q, size, acts);
      PollSettles(a, size, rounds, i + 1);
      hide Inv, ActedAll, Settled, Goes, Reclaim;
      SettleFirst(p, a, Polled(a, rounds, i + 1));
      assert Polled(p, rounds, i) == Polled(a, rounds, i + 1);
    } else {
      assert p.completed[p.reclaimed..] == [];
    }
  }

  lemma ActInv(p: Proto, size: nat, a: Act)
    requires Inv(p, size) && CanAct(p, a)
    ensures Inv(Acted(p, a), size) && Step(p, Acted(p, a))
  {
    if a.TakeAct? { TakeInv(p, size); } else { CompleteInv(p, a.head, size); }
    hide Inv;
  }

  lemma {:induction false} ActSteps(p: Proto, size: nat, acts: seq<Act>) returns (ps: seq<Proto>)
    requires Inv(p, size) && CanActs(p, acts)
    ensures Path(ps, p, ActedAll(p, acts)) && Inv(ActedAll(p, acts), size)
    decreases |acts|
  {
    if acts == [] {
      ps := [p];
    } else {
      var a := acts[0];
      ActInv(p, size, a);
      hide Inv, Step, Acted, CanAct, Path;
      var q := Acted(p, a);
      var qs := ActSteps(q, size, acts[1..]);
      OneStep(p, q);
      Joined([p, q], p, q, qs, ActedAll(p, acts));
      ps := [p, q] + qs[1..];
    }
  }

  // ---- descriptor table

  function FlagsOf(b: Buf, more: bool): nat {
    (if b.write then F_WRITE else 0) + (if more then F_NEXT else 0)
  }

  predicate HasNext(flags: nat) {
    flags % 2 == F_NEXT
  }

  /** What a descriptor of a chain holds. */
  function Written(b: Buf, more: bool, next: nat): Desc {
    Desc(b.physAddr, b.len, FlagsOf(b, more), next)
  }

  lemma SlotIs(k: nat, size: nat)
    requires size > 0
    ensures Slot(k, size) == k % size
  {
  }

  lemma NewHead(p: Proto, size: nat)
    requires Inv(p, size)
    ensures p.free != [] ==> p.free[0] !in p.chains
  {
    forall h | h in p.chains ensures h !in p.free {
      assert ChainOk(p.chains[h], h, size) && InChain(p.chains, h, h);
    }
  }

  /** The element at position i of a linked sequence, as the preceding `next` field shows it. */
  function LinkAt(s: seq<nat>, i: nat): nat {
    if i < |s| then s[i] else NO_DESC
  }

  /** The free list threaded from head is the sequence free. */
  ghost predicate FreeLinked(d: seq<Desc>, free: seq<nat>, head: nat) {
    && head == LinkAt(free, 0) && Below(free, |d|)
    && (forall i {:trigger d[free[i]]} :: 0 <= i < |free| ==> d[free[i]].next == LinkAt(free, i + 1))
  }

  /** The descriptors of c hold its buffers, linked and flagged as the device reads them. */
  ghost predicate ChainWritten(d: seq<Desc>, c: Chain) {
    && |c.ids| == |c.bufs| && Below(c.ids, |d|)
    && (forall i {:trigger d[c.ids[i]]} :: 0 <= i < |c.ids| ==>
          d[c.ids[i]] == Written(c.bufs[i], i + 1 < |c.ids|, LinkAt(c.ids, i + 1)))
  }

  ghost predicate TableOk(d: seq<Desc>, p: Proto, freeHead: nat) {
    && FreeLinked(d, p.free, freeHead)
    && (forall h :: h in p.chains ==> ChainWritten(d, p.chains[h]))
  }

  /** The first |bufs| free descriptors hold bufs as a chain; no other descriptor changed. */
  ghost predicate Filled(d: seq<Desc>, d': seq<Desc>, free: seq<nat>, bufs: seq<Buf>) {
    && 0 < |bufs| <= |free| && |d'| == |d|
    && ChainWritten(d', Chain(free[..|bufs|], bufs))
    && (forall x :: 0 <= x < |d| && x !in free[..|bufs|] ==> d'[x] == d[x])
  }

  /** The first i of bufs are written, and all links of the free list are still there. */
  ghost predicate Filling(d0: seq<Desc>, d: seq<Desc>, free: seq<nat>, bufs: seq<Buf>, i: nat) {
    && i <= |bufs| <= |free| && |d| == |d0| && FreeLinked(d, free, LinkAt(free, 0))
    && (forall j {:trigger d[free[j]]} :: 0 <= j < i ==>
          d[free[j]] == Written(bufs[j], j + 1 < |bufs|, LinkAt(free, j + 1)))
    && (forall x :: 0 <= x < |d| && x !in free[..|bufs|] ==> d[x] == d0[x])
  }

  lemma FillStart(d: seq<Desc>, free: seq<nat>, bufs: seq<Buf>, head: nat)
    requires FreeLinked(d, free, head) && |bufs| <= |free|
    ensures Filling(d, d, free, bufs, 0)
  {
  }

  lemma FillStep(d0: seq<Desc>, d: seq<Desc>, free: seq<nat>, bufs: seq<Buf>, i: nat)
    requires Filling(d0, d, free, bufs, i) && i < |bufs| && L.Distinct(free)
    ensures i < |free| && free[i] < |d| && d[free[i]].next == LinkAt(free, i + 1)
    ensures Filling(d0, d[free[i] := Written(bufs[i], i + 1 < |bufs|, d[free[i]].next)], free, bufs, i + 1)
  {
    assert d[free[i]].next == LinkAt(free, i + 1);
    assert free[..|bufs|][i] == free[i];
    hide LinkAt;
  }

  lemma FillEnd(d0: seq<Desc>, d: seq<Desc>, free: seq<nat>, bufs: seq<Buf>)
    requires Filling(d0, d, free, bufs, |bufs|) && 0 < |bufs| && L.Distinct(free)
    ensures free[|bufs| - 1] < |d|
    ensures Filled(d0, d[free[|bufs| - 1] := d[free[|bufs| - 1]].(next := NO_DESC)], free, bufs)
  {
    var ids, last := free[..|bufs|], free[|bufs| - 1];
    var d' := d[last := d[last].(next := NO_DESC)];
    assert ids[|bufs| - 1] == last;
    forall j | 0 <= j < |ids| ensures d'[ids[j]] == Written(bufs[j], j + 1 < |ids|, LinkAt(ids, j + 1)) {
      assert d[free[j]] == Written(bufs[j], j + 1 < |bufs|, LinkAt(free, j + 1));
    }
  }

  lemma OfferTable(size: nat, d: seq<Desc>, d': seq<Desc>, p: Proto, head: nat, bufs: seq<Buf>)
    requires Inv(p, size) && |d| == size && TableOk(d, p, head) && CanOffer(p, bufs) && Filled(d, d', p.free, bufs)
    ensures TableOk(d', Offer(p, bufs), LinkAt(p.free, |bufs|))
  {
    hide Counted;
    var ids := p.free[..|bufs|];
    forall i | |bufs| <= i < |p.free| ensures p.free[i] !in ids { }
    forall h | h in p.chains ensures ChainWritten(d', p.chains[h]) {
      assert ChainWritten(d, p.chains[h]);
      forall i | 0 <= i < |p.chains[h].ids| ensures p.chains[h].ids[i] !in ids {
        assert InChain(p.chains, h, p.chains[h].ids[i]);
      }
    }
  }

  /** Redirecting the tail of a reported chain to the old head joins it in front of the free list. */
  lemma ReclaimTable(size: nat, d: seq<Desc>, p: Proto, freeHead: nat, tail: nat)
    requires Inv(p, size) && |d| == size && TableOk(d, p, freeHead) && CanReclaim(p)
    requires var ids := p.chains[p.completed[p.reclaimed]].ids;
      0 < |ids| && tail == ids[|ids| - 1] && tail < |d|
    ensures TableOk(d[tail := d[tail].(next := freeHead)], Reclaim(p), p.completed[p.reclaimed])
  {
    hide Counted;
    var g := p.completed[p.reclaimed];
    var ids, d' := p.chains[g].ids, d[tail := d[tail].(next := freeHead)];
    assert ChainOk(p.chains[g], g, size) && ChainWritten(d, p.chains[g]);
    assert InChain(p.chains, g, tail);
    var all := ids + p.free;
    forall i | 0 <= i < |all| ensures d'[all[i]].next == LinkAt(all, i + 1) {
      if i >= |ids| { assert d[p.free[i - |ids|]].next == LinkAt(p.free, i - |ids| + 1); }
      else { assert d[ids[i]].next == LinkAt(ids, i + 1); }
    }
    forall h | h in p.chains && h != g ensures ChainWritten(d', p.chains[h]) {
      assert ChainWritten(d, p.chains[h]);
      forall i | 0 <= i < |p.chains[h].ids|
        ensures p.chains[h].ids[i] != tail
      {
        assert InChain(p.chains, h, p.chains[h].ids[i]);
      }
    }
  }

  // ---- rings and their 16-bit indices

  /** A power of two up to 32768, the sizes that keep 16-bit ring indices unambiguous. */
  ghost predicate QueueSize(n: nat) {
    0 < n <= 32768 && U16 % n == 0
  }

  /** A free-running count as a 16-bit field shows it. */
  function Idx16(n: nat): nat { n % U16 }

  lemma NextIdx(n: nat)
    ensures (Idx16(n) + 1) % U16 == Idx16(n + 1)
  {
  }

  function Slot(k: nat, size: nat): (s: nat)
    requires size > 0
    ensures s < size
  {
    k % size
  }

  /** A ring holds every message from number `from` on. */
  ghost predicate RingHolds(ring: seq<nat>, msgs: seq<nat>, from: nat) {
    && 0 < |ring| && from <= |msgs|
    && (forall k :: from <= k < |msgs| ==> ring[Slot(k, |ring|)] == msgs[k])
  }

  /** A 16-bit counter reduced modulo a queue size that divides 2^16 is the true count reduced. */
  lemma SlotOf16(n: nat, size: nat)
    requires size > 0 && QueueSize(size)
    ensures Slot(Idx16(n), size) == Slot(n, size)
  {
    var q := U16 / size;
    assert U16 == q * size;
    var a, b := n / U16, n % U16;
    var c, d := b / size, b % size;
    assert n == (a * q + c) * size + d by {
      assert a * U16 == a * q * size;
      assert (a * q + c) * size == a * q * size + c * size;
    }
    DivUnique(n, size, a * q + c, d);
  }

  /** Two different counts less than m apart differ modulo m. */
  lemma SlotsDiffer(k: nat, n: nat, m: nat)
    requires m > 0 && k < n < k + m
    ensures Slot(k, m) != Slot(n, m)
  {
    var d := n / m - k / m;
    assert d * m == n / m * m - k / m * m;
    assert d * m == -((-d) * m);
    if d >= 1 { MulMono(d, m); } else if d < 0 { MulMono(-d, m); }
  }

  /** Writing the next message keeps every unread one, as long as fewer than `size` are unread. */
  lemma RingWrite(ring: seq<nat>, msgs: seq<nat>, from: nat, x: nat)
    requires RingHolds(ring, msgs, from) && |msgs| - from < |ring|
    ensures RingHolds(ring[Slot(|msgs|, |ring|) := x], msgs + [x], from)
  {
    forall k | from <= k < |msgs| ensures Slot(k, |ring|) != Slot(|msgs|, |ring|) {
      SlotsDiffer(k, |msgs|, |ring|);
    }
  }

  /** Reading the oldest unread message leaves the rest of the ring in place. */
  lemma RingRead(ring: seq<nat>, msgs: seq<nat>, from: nat)
    requires RingHolds(ring, msgs, from) && from < |msgs|
    ensures ring[Slot(from, |ring|)] == msgs[from] && RingHolds(ring, msgs, from + 1)
  {
  }

  ghost predicate IndicesOk(p: Proto, availIdx: nat, deviceIdx: nat, usedIdx: nat, lastUsedIdx: nat) {
    && availIdx == Idx16(|p.submitted|) && deviceIdx == Idx16(p.taken)
    && usedIdx == Idx16(|p.completed|) && lastUsedIdx == Idx16(p.reclaimed)
  }

  class Virtqueue {
    const size: nat
    const desc: array<Desc>
    const avail: array<nat>
    const used: array<nat>
    var availIdx: nat
    var usedIdx: nat
    var numFree: nat
    var freeHead: nat
    var lastUsedIdx: nat
    var deviceIdx: nat  // the device's own position in the available ring
    ghost var p: Proto

    ghost predicate Valid()
      reads this, desc, avail, used
    {
      && QueueSize(size) && size > 0
      && desc.Length == avail.Length == used.Length == size && avail != used
      && Inv(p, size)
      && numFree == |p.free|
      && TableOk(desc[..], p, freeHead)
      && IndicesOk(p, availIdx, deviceIdx, usedIdx, lastUsedIdx)
      && RingHolds(avail[..], p.submitted, p.taken)
      && RingHolds(used[..], p.completed, p.reclaimed)
    }

    /** virtqueueCreate after the rings are zeroed. */
    constructor (queueSize: nat)
      requires QueueSize(queueSize)
      ensures Valid() && fresh(desc) && fresh(avail) && fresh(used)
      ensures size == queueSize && p == Fresh(queueSize)
      ensures |p.free| == queueSize && (forall i :: 0 <= i < queueSize ==> p.free[i] == i)
      ensures p.chains == map[] && p.submitted == [] == p.completed
    {
      size := queueSize;
      desc := new Desc[queueSize](_ => Desc(0, 0, 0, 0));
      avail := new nat[queueSize](_ => 0);
      used := new nat[queueSize](_ => 0);
      availIdx, usedIdx, lastUsedIdx, deviceIdx := 0, 0, 0, 0;
      numFree, freeHead := queueSize, 0;
      p := Fresh(queueSize);
      new;
      FreshInv(queueSize);
      hide Inv;
      LinkInitial();
    }

    /** The loop that threads the initial free list. */
    method LinkInitial()
      requires size > 0 && desc.Length == size
      modifies desc
      ensures TableOk(desc[..], Fresh(size), 0)
    {
      var i := 0;
      while i < size - 1
        invariant 0 <= i <= size - 1
        invariant forall j :: 0 <= j < i ==> desc[j].next == j + 1
      {
        desc[i] := desc[i].(next := i + 1);
        i := i + 1;
      }
      desc[size - 1] := desc[size - 1].(next := NO_DESC);
    }

    /** virtqueueSubmitSg: fails exactly when the list is empty or longer than the free list;
        otherwise it is the protocol's offer, and no head the device has not read is overwritten. */
    method Submit(bufs: seq<Buf>) returns (ok: bool)
      requires Valid()
      modifies this, desc, avail
      ensures Valid()
      ensures ok <==> 0 < |bufs| <= |old(p).free|
      ensures !ok ==> p == old(p)
      ensures ok ==>
        var head, n := old(p).free[0], |bufs|;
        && head !in old(p).chains
        && p == old(p).(free := old(p).free[n..], submitted := old(p).submitted + [head],
                        chains := old(p).chains[head := Chain(old(p).free[..n], bufs)])
    {
      NewHead(p, size);
      Bounds(p, size);
      hide Inv, TableOk, IndicesOk, RingHolds, QueueSize, Slot, Idx16;
      if |bufs| == 0 || |bufs| > size || numFree < |bufs| {
        return false;
      }
      ghost var d := desc[..];
      var head := freeHead;
      Fill(bufs);
      OfferTable(size, d, desc[..], p, head, bufs);
      OfferInv(p, bufs, size);
      Publish(head, Offer(p, bufs));
      numFree := numFree - |bufs|;
      p := Offer(p, bufs);
      ok := true;
    }

    /** Writing the head into the next slot of the available ring and advancing the 16-bit index. */
    method Publish(head: nat, ghost q: Proto)
      requires QueueSize(size) && avail.Length == size > 0
      requires IndicesOk(p, availIdx, deviceIdx, usedIdx, lastUsedIdx) && RingHolds(avail[..], p.submitted, p.taken)
      requires |p.submitted| - p.taken < size
      requires q == p.(free := q.free, chains := q.chains, submitted := p.submitted + [head])
      modifies avail, this`availIdx
      ensures RingHolds(avail[..], q.submitted, q.taken)
      ensures IndicesOk(q, availIdx, deviceIdx, usedIdx, lastUsedIdx)
    {
      hide RingHolds, Slot, Idx16, QueueSize;
      ghost var ring := avail[..];
      RingWrite(ring, p.submitted, p.taken, head);
      SlotOf16(|p.submitted|, size);
      avail[Slot(availIdx, size)] := head;
      assert avail[..] == ring[Slot(|p.submitted|, |ring|) := head];
      NextIdx(|p.submitted|);
      availIdx := (availIdx + 1) % U16;
    }

    /** The loop of virtqueueSubmitSg, with the two writes that cut the chain off the free list. */
    method Fill(bufs: seq<Buf>)
      requires desc.Length == size && FreeLinked(desc[..], p.free, freeHead) && L.Distinct(p.free)
      requires 0 < |bufs| <= |p.free|
      modifies desc, this`freeHead
      ensures freeHead == LinkAt(p.free, |bufs|)
      ensures Filled(old(desc[..]), desc[..], p.free, bufs)
    {
      ghost var free, d0 := p.free, desc[..];
      FillStart(d0, free, bufs, freeHead);
      hide Filling, Filled, FreeLinked, Written, L.Distinct;
      var curr := freeHead;
      var prev := NO_DESC;
      var i := 0;
      while i < |bufs|
        invariant 0 <= i <= |bufs| && curr == LinkAt(free, i) && (i > 0 ==> prev == free[i - 1])
        invariant Filling(d0, desc[..], free, bufs, i)
      {
        FillStep(d0, desc[..], free, bufs, i);
        ghost var d := desc[..];
        var next := desc[curr].next;
        desc[curr] := Written(bufs[i], i + 1 < |bufs|, next);
        assert desc[..] == d[curr := Written(bufs[i], i + 1 < |bufs|, next)];
        prev := curr;
        curr := next;
        i := i + 1;
      }
      freeHead := curr;
      FillEnd(d0, desc[..], free, bufs);
      ghost var d := desc[..];
      desc[prev] := desc[prev].(next := NO_DESC);
      assert desc[..] == d[prev := d[prev].(next := NO_DESC)];
    }

    /** The device reads the next available head. The driver cannot have overwritten it. */
    method DeviceTake() returns (head: nat)
      requires Valid() && p.taken < |p.submitted|
      modifies this`deviceIdx, this`p
      ensures Valid() && head == old(p).submitted[old(p).taken]
      ensures p == old(p).(taken := old(p).taken + 1, held := old(p).held + {head})
    {
      TakeInv(p, size);
      hide Inv, TableOk, Slot, RingHolds, QueueSize, Idx16;
      SlotOf16(p.taken, size);
      RingRead(avail[..], p.submitted, p.taken);
      SlotIs(deviceIdx, size);
      head := avail[deviceIdx % size];
      NextIdx(p.taken);
      deviceIdx := (deviceIdx + 1) % U16;
      p := Take(p);
    }

    /** The device's walk of a chain it holds: exactly the buffers that were submitted. */
    method DeviceReadChain(head: nat) returns (bufs: seq<Buf>)
      requires Valid() && head in p.held
      ensures head in p.chains && bufs == p.chains[head].bufs
    {
      CompleteInv(p, head, size);
      ghost var c := p.chains[head];
      assert ChainOk(c, head, size) && ChainWritten(desc[..], c);
      hide Inv, TableOk, RingHolds, IndicesOk, QueueSize;
      var d := desc[head];
      bufs := [Buf(d.addr, d.len, d.flags / 2 % 2 == 1)];
      while d.flags % 2 == 1
        invariant 0 < |bufs| <= |c.bufs| && bufs == c.bufs[..|bufs|]
        invariant d == desc[c.ids[|bufs| - 1]]
        decreases |c.bufs| - |bufs|
      {
        d := desc[d.next];
        bufs := bufs + [Buf(d.addr, d.len, d.flags / 2 % 2 == 1)];
      }
    }

    /** The device reports a chain it holds, each one once and in any order. */
    method DeviceComplete(head: nat)
      requires Valid() && head in p.held
      modifies this`p, this`usedIdx, used
      ensures Valid() && p == old(p).(held := old(p).held - {head}, completed := old(p).completed + [head])
    {
      Bounds(p, size);
      CompleteInv(p, head, size);
      hide Inv, TableOk, RingHolds, Slot, QueueSize, Idx16;
      assert |p.held| > 0;
      ghost var ring := used[..];
      RingWrite(ring, p.completed, p.reclaimed, head);
      SlotOf16(|p.completed|, size);
      SlotIs(usedIdx, size);
      used[usedIdx % size] := head;
      assert used[..] == ring[Slot(|p.completed|, |ring|) := head];
      NextIdx(|p.completed|);
      usedIdx := (usedIdx + 1) % U16;
      p := Complete(p, head);
    }

    /** virtqueuePoll, one pass; rounds is what the device does before the used index is read again.
        Every chain reported by the last reading returns to the free list, and nothing else. */
    method Poll(rounds: seq<seq<Act>>) returns (any: bool)
      requires Valid() && CanPoll(p, rounds, 0)
      modifies this`p, this`lastUsedIdx, this`freeHead, this`numFree, this`deviceIdx, this`usedIdx, desc, used
      ensures Valid()
      ensures any <==> old(p).reclaimed < |old(p).completed|
      ensures p == Polled(old(p), rounds, 0) && p.reclaimed == |p.completed| && Settled(old(p), p)
    {
      PollSettles(p, desc.Length, rounds, 0);
      CountersDiffer();
      any := lastUsedIdx != usedIdx;
      var i := 0;
      while lastUsedIdx != usedIdx
        invariant Valid() && CanPoll(p, rounds, i) && Polled(p, rounds, i) == Polled(old(p), rounds, 0)
        invariant lastUsedIdx != usedIdx <==> CanReclaim(p)
        invariant lastUsedIdx != usedIdx <==> p.reclaimed < |p.completed|
        decreases |p.chains.Keys|
      {
        Smaller(p);
        hide Valid;
        ReclaimOne();
        DeviceActs(if i < |rounds| then rounds[i] else []);
        CountersDiffer();
        i := i + 1;
      }
      Counts();
    }

    lemma Counts()
      requires Valid()
      ensures p.reclaimed <= |p.completed|
    {
    }

    method DeviceActs(acts: seq<Act>)
      requires Valid() && CanActs(p, acts)
      modifies this`p, this`deviceIdx, this`usedIdx, used
      ensures Valid() && p == ActedAll(old(p), acts)
    {
      hide Valid;
      var k := 0;
      assert acts[0..] == acts;
      while k < |acts|
        invariant k <= |acts| && Valid() && CanActs(p, acts[k..]) && ActedAll(p, acts[k..]) == ActedAll(old(p), acts)
      {
        assert acts[k..][0] == acts[k] && acts[k..][1..] == acts[k + 1..];
        if acts[k].TakeAct? {
          var head := DeviceTake();
        } else {
          DeviceComplete(acts[k].head);
        }
        k := k + 1;
      }
    }

    lemma CountersDiffer()
      requires Valid()
      ensures lastUsedIdx != usedIdx <==> p.reclaimed < |p.completed|
      ensures lastUsedIdx != usedIdx <==> CanReclaim(p)
    {
      Bounds(p, size);
      if p.reclaimed < |p.completed| {
        ReclaimInv(p, size);
        hide Inv, TableOk, RingHolds;
        SlotsDiffer(p.reclaimed, |p.completed|, U16);
      }
    }

    /** The body of virtqueuePoll's inner loop: walk one reported chain and splice it in front. */
    method ReclaimOne()
      requires Valid() && CanReclaim(p)
      modifies this`p, this`lastUsedIdx, this`freeHead, this`numFree, desc
      ensures Valid() && p == Reclaim(old(p))
    {
      ReclaimInv(p, size);
      ghost var q := Reclaim(p);
      var curr := NextUsed();
      var tail, count := WalkToTail(curr);
      hide Inv, TableOk, RingHolds, QueueSize, Idx16, Slot;
      ghost var d := desc[..];
      ReclaimTable(size, d, p, freeHead, tail);
      desc[tail] := desc[tail].(next := freeHead);
      assert desc[..] == d[tail := d[tail].(next := freeHead)];
      freeHead := curr;
      numFree := numFree + count;
      NextIdx(p.reclaimed);
      lastUsedIdx := (lastUsedIdx + 1) % U16;
      p := q;
    }

    method NextUsed() returns (head: nat)
      requires Valid() && CanReclaim(p)
      ensures head == p.completed[p.reclaimed]
      ensures RingHolds(used[..], p.completed, p.reclaimed + 1)
    {
      hide Inv, TableOk, RingHolds, QueueSize, Idx16, Slot;
      SlotOf16(p.reclaimed, size);
      RingRead(used[..], p.completed, p.reclaimed);
      head := used[Slot(lastUsedIdx, size)];
    }

    /** Following NEXT flags from a head ends at the last descriptor of its chain. */
    method WalkToTail(head: nat) returns (tail: nat, count: nat)
      requires Valid() && head in p.chains
      ensures 0 < count == |p.chains[head].ids| && tail == p.chains[head].ids[count - 1] && tail < size
    {
      ghost var c := p.chains[head];
      assert ChainOk(c, head, size) && ChainWritten(desc[..], c);
      hide Inv, TableOk, RingHolds, QueueSize, Idx16, Slot;
      tail, count := head, 1;
      while HasNext(desc[tail].flags)
        invariant 0 < count <= |c.ids| && tail == c.ids[count - 1]
        invariant tail < size
        decreases |c.ids| - count
      {
        tail := desc[tail].next;
        count := count + 1;
      }
    }
  }
}
