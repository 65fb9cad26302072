/** Whole lives of address spaces: creation, any run of page operations, destruction
    (src/kernel/mem/vmm.c), with the frames that come and go on the way. Besides mapping a frame of
    the caller's and unmapping a page, the operations are the two pairs that the kernel uses:
    allocate a frame and map it (src/kernel/sched/sched.c), and unmap a page and free its frame. */
module SpaceLife {
  import opened Machine
  import opened PageTables
  import P = Pmm

  datatype Op =
    | MapOp(virt: nat, phys: nat, flags: Flags)
    | FillOp(virt: nat, flags: Flags)   // pmm_alloc_frame, then vmmMapPage; the frame is freed if that fails
    | UnmapOp(virt: nat)
    | DropOp(virt: nat)                 // if the page is mapped, vmmUnmapPage, then pmm_free_frame

  /** What became of an operation: whether it succeeded, and the frame that a FillOp got. */
  datatype Out = Out(ok: bool, frame: nat)

  /** The page map of the space, all frames in use other than its tables, and the tables it can have:
      the root and those above the pages that were to be mapped. */
  datatype Account = Account(pages: map<nat, Entry>, held: set<nat>, walked: set<Node>)

  ghost function Page(op: Op): nat { op.virt / PAGE }

  ghost function Above(v: nat): set<Node> { {Anc(v, 1), Anc(v, 2), Anc(v, 3)} }

  ghost function Applied(a: Account, op: Op, out: Out): Account {
    var v := Page(op);
    if op.UnmapOp? then a.(pages := a.pages - {v})
    else if op.DropOp? then
      if v !in a.pages || a.pages[v].frame == 0 then a
      else a.(pages := a.pages - {v}, held := a.held - {a.pages[v].frame})
    else if !out.ok then a.(walked := a.walked + Above(v))
    else if op.MapOp? then a.(pages := a.pages[v := LeafOf(op.phys, op.flags)], walked := a.walked + Above(v))
    else Account(a.pages[v := LeafOf(out.frame * PAGE, op.flags)], a.held + {out.frame}, a.walked + Above(v))
  }

  /** The account after the operations, from a new space and the frames in use before it. */
  ghost function Replay(used: set<nat>, ops: seq<Op>, outs: seq<Out>): Account
    requires |ops| == |outs|
  {
    if ops == [] then Account(map[], used, {ROOT}) else
    var k := |ops| - 1;
    Applied(Replay(used, ops[..k], outs[..k]), ops[k], outs[k])
  }

  /** There may be no free frame left for a map: those held, a table for each node, and the frame of a
      FillOp are at least as many as there are frames. */
  ghost predicate Crowded(total: nat, a: Account, op: Op) {
    total <= |a.held| + |a.walked + Above(Page(op))| + if op.FillOp? then 1 else 0
  }

  /** How the machine may answer an operation: a new frame is one that nobody holds, and a map fails
      only when frames are that scarce. */
  ghost predicate Answer(total: nat, a: Account, op: Op, out: Out) {
    && (op.FillOp? && out.ok ==> 0 < out.frame < total && out.frame !in a.held)
    && (!out.ok ==> (op.MapOp? || op.FillOp?) && Crowded(total, a, op))
  }

  ghost predicate Honest(used: set<nat>, total: nat, ops: seq<Op>, outs: seq<Out>) {
    && |ops| == |outs|
    && (ops == [] ||
        var k := |ops| - 1;
        Honest(used, total, ops[..k], outs[..k]) && Answer(total, Replay(used, ops[..k], outs[..k]), ops[k], outs[k]))
  }

  // ---- what the caller answers for

  /** Frame f is in use and may be freed: it is not frame 0, the kernel's PML4 or a table of another space. */
  ghost predicate Mine(st: St, kernel: nat, held: set<nat>, f: nat) {
    f in held && f != 0 && f != kernel && forall q :: q in st.spaces ==> f !in Tables(st.spaces[q])
  }

  /** Each leaf frame is owned by one mapping. */
  ghost predicate Owned(st: St, kernel: nat, a: Account) {
    && (forall v :: v in a.pages ==> Mine(st, kernel, a.held, a.pages[v].frame))
    && (forall v, w :: v in a.pages && w in a.pages && a.pages[v].frame == a.pages[w].frame ==> v == w)
  }

  /** The frame that a DropOp frees may be freed. */
  ghost predicate DropOk(st: St, kernel: nat, a: Account, op: Op) {
    var v := Page(op);
    op.DropOp? && v in a.pages && a.pages[v].frame != 0 ==> Mine(st, kernel, a.held, a.pages[v].frame)
  }

  ghost function First(ops: seq<Op>, i: nat): seq<Op>
    requires i <= |ops|
  {
    ops[..i]
  }

  /** Whatever the machine answers, the run drops only frames that may be freed, and at its end each
      leaf frame is owned by one mapping. In between, frames may be mapped again, moved or shared. */
  ghost predicate CallerOwns(st: St, kernel: nat, total: nat, ops: seq<Op>) {
    && (forall i :: 0 <= i < |ops| ==> ops[i].virt < USER_PAGES * PAGE)
    && (forall outs: seq<Out> :: |outs| < |ops| && Honest(st.used, total, First(ops, |outs|), outs) ==>
          DropOk(st, kernel, Replay(st.used, First(ops, |outs|), outs), ops[|outs|]))
    && (forall outs: seq<Out> :: Honest(st.used, total, ops, outs) ==> Owned(st, kernel, Replay(st.used, ops, outs)))
  }

  lemma ReplayOne(used: set<nat>, total: nat, ops: seq<Op>, outs: seq<Out>, op: Op, out: Out)
    requires |ops| == |outs|
    ensures Replay(used, ops + [op], outs + [out]) == Applied(Replay(used, ops, outs), op, out)
    ensures Honest(used, total, ops, outs) && Answer(total, Replay(used, ops, outs), op, out) ==>
      Honest(used, total, ops + [op], outs + [out])
  {
    assert (ops + [op])[..|ops|] == ops && (outs + [out])[..|outs|] == outs;
  }

  lemma FirstEnds(ops: seq<Op>)
    ensures First(ops, 0) == [] && First(ops, |ops|) == ops
  { }

  lemma FirstStep(ops: seq<Op>, i: nat)
    requires i < |ops|
    ensures First(ops, i + 1) == First(ops, i) + [ops[i]]
  {
  }

  // ---- the state of a run

  /** Since st0, the operations have run on the new space r: its page map and the frames held are the
      account, its tables are frames that nobody holds, and the other spaces are as they were. */
  ghost predicate Running(st0: St, st: St, r: nat, total: nat, ops: seq<Op>, outs: seq<Out>) {
    && Honest(st0.used, total, ops, outs) && r !in st0.spaces && r in st.spaces && st.spaces - {r} == st0.spaces
    && var a := Replay(st0.used, ops, outs);
    && st.spaces[r].pages == a.pages && Tables(st.spaces[r]) !! a.held && st.used == a.held + Tables(st.spaces[r])
    && st.spaces[r].tabs.Keys <= a.walked
  }

  lemma {:induction false} Range(total: nat, x: set<nat>)
    requires forall g: nat :: g < total ==> g in x
    ensures total <= |x|
  {
    if total > 0 { Range(total - 1, x - {total - 1}); }
  }

  lemma {:induction false} ImageCard(tabs: map<Node, nat>, ns: set<Node>)
    requires ns <= tabs.Keys
    ensures |FramesOf(tabs, ns)| <= |ns|
  {
    if ns != {} {
      var n :| n in ns;
      ImageCard(tabs, ns - {n});
      assert FramesOf(tabs, ns) == FramesOf(tabs, ns - {n}) + {tabs[n]};
    }
  }

  lemma {:induction false} SubCard(x: set<Node>, y: set<Node>)
    requires x <= y
    ensures |x| <= |y|
  {
    if x != {} {
      var n :| n in x;
      SubCard(x - {n}, y - {n});
    }
  }

  /** If every frame is held, a table or extra, frames are scarce. */
  lemma Scarce(total: nat, held: set<nat>, s: Space, walked: set<Node>, extra: set<nat>)
    requires (forall g: nat :: g < total ==> g in held || g in Tables(s) || g in extra) && s.tabs.Keys <= walked
    ensures total <= |held| + |walked| + |extra|
  {
    Range(total, held + Tables(s) + extra);
    assert Tables(s) == FramesOf(s.tabs, s.tabs.Keys);
    ImageCard(s.tabs, s.tabs.Keys);
    SubCard(s.tabs.Keys, walked);
    hide Tables;
    assert |held + Tables(s) + extra| <= |held| + |Tables(s)| + |extra|;
  }

  lemma RunStart(st0: St, st: St, r: nat, total: nat)
    requires r !in st0.spaces && r !in st0.used && st.spaces == st0.spaces[r := NewSpace(r)]
    requires st.used == st0.used + {r}
    ensures Running(st0, st, r, total, [], [])
  {
    assert NewSpace(r).tabs[ROOT] == r;
    assert Tables(NewSpace(r)) == {r};
    assert st.spaces - {r} == st0.spaces;
  }

  lemma MoreWalked(tabs: map<Node, nat>, tabs': map<Node, nat>, walked: set<Node>, v: nat)
    requires OnlyAbove(tabs, tabs', v) && tabs.Keys <= walked
    ensures tabs'.Keys <= walked + Above(v)
  {
  }

  /** vmmMapPage on the way; extra is the frame that a FillOp has just allocated. */
  lemma RunMap(st0: St, st: St, st': St, r: nat, total: nat, ops: seq<Op>, outs: seq<Out>, op: Op, out: Out,
               extra: set<nat>)
    requires Running(st0, st, r, total, ops, outs) && (op.MapOp? || op.FillOp?)
    requires Answer(total, Replay(st0.used, ops, outs), op, out)
    requires extra == (if op.FillOp? then {out.frame} else {}) && extra !! st.used && out.ok
    requires Grown(st.(used := st.used + extra), st', r, Page(op))
    requires var phys := if op.MapOp? then op.phys else out.frame * PAGE;
      st'.spaces[r].pages == st.spaces[r].pages[Page(op) := LeafOf(phys, op.flags)]
    ensures Running(st0, st', r, total, ops + [op], outs + [out])
  {
    ReplayOne(st0.used, total, ops, outs, op, out);
    MoreWalked(st.spaces[r].tabs, st'.spaces[r].tabs, Replay(st0.used, ops, outs).walked, Page(op));
    hide Tables, Replay, Honest, Answer, LeafOf, Above, OnlyAbove;
    OtherSpaces(st, st', r);
  }

  lemma GrowSets(held: set<nat>, t: set<nat>, t': set<nat>, used: set<nat>, used': set<nat>, extra: set<nat>)
    requires used == held + t && t !! held && t <= t' && t' - t !! used + extra && extra !! used
    requires used' + extra == used + extra + t' && extra !! used'
    ensures used' == held + t' && t' !! held
  {
    forall x ensures x in used' <==> x in held || x in t' {
      assert x in used' + extra <==> x in used + extra + t';
    }
  }

  lemma FailAnswer(total: nat, a: Account, s: Space, used: set<nat>, op: Op, out: Out, extra: set<nat>)
    requires used == a.held + Tables(s) && s.tabs.Keys <= a.walked + Above(Page(op)) && (op.MapOp? || op.FillOp?)
    requires !out.ok && (extra == {} || (op.FillOp? && extra == {out.frame}))
    requires forall g: nat :: g < total ==> g in used || g in extra
    ensures Answer(total, a, op, out)
  {
    hide Tables, Above;
    Scarce(total, a.held, s, a.walked + Above(Page(op)), extra);
  }

  /** A map that failed: the page map is as it was, and the frame of a FillOp is free again. */
  lemma RunFail(st0: St, st: St, st': St, r: nat, total: nat, ops: seq<Op>, outs: seq<Out>, op: Op, out: Out,
                extra: set<nat>)
    requires Running(st0, st, r, total, ops, outs) && (op.MapOp? || op.FillOp?) && !out.ok && extra !! st.used
    requires Grown(st.(used := st.used + extra), st'.(used := st'.used + extra), r, Page(op)) && extra !! st'.used
    requires st'.spaces[r].pages == st.spaces[r].pages
    requires extra == {} || (op.FillOp? && extra == {out.frame})
    requires forall g: nat :: g < total ==> g in st'.used || g in extra
    ensures Running(st0, st', r, total, ops + [op], outs + [out])
  {
    var a := Replay(st0.used, ops, outs);
    ReplayOne(st0.used, total, ops, outs, op, out);
    MoreWalked(st.spaces[r].tabs, st'.spaces[r].tabs, a.walked, Page(op));
    hide Tables, Replay, Honest, Answer, Above, OnlyAbove;
    GrowSets(a.held, Tables(st.spaces[r]), Tables(st'.spaces[r]), st.used, st'.used, extra);
    FailAnswer(total, a, st'.spaces[r], st'.used, op, out, extra);
    OtherSpaces(st, st', r);
  }

  lemma LessTables(st: St, st': St, r: nat, v: nat)
    requires Unmapped(st, st', r, v) && r in st'.spaces
    ensures st'.spaces[r].tabs.Keys <= st.spaces[r].tabs.Keys
  {
    if Anc(v, 1) in st.spaces[r].tabs {
      var l :| Unmapping(st, st', r, v, l) && (l <= 3 ==> NonEmpty(st'.spaces[r], Anc(v, l)));
    }
  }

  lemma DropBack(held: set<nat>, t: set<nat>, t': set<nat>, f: nat, used: set<nat>, used': set<nat>)
    requires f in held && held !! t && t' <= t && used == held + t && used' == used - (t - t')
    ensures used' - {f} == (held - {f}) + t' && t' !! held - {f}
  {
  }

  lemma OtherSpaces(st: St, st': St, r: nat)
    requires r in st'.spaces && st'.spaces == st.spaces[r := st'.spaces[r]]
    ensures st'.spaces - {r} == st.spaces - {r}
  {
  }

  lemma RunUnmap(st0: St, st: St, st': St, kernel: nat, r: nat, total: nat, ops: seq<Op>, outs: seq<Out>, op: Op,
                 out: Out)
    requires World(st, kernel) && Running(st0, st, r, total, ops, outs) && op.UnmapOp? && out.ok
    requires Unmapped(st, st', r, Page(op))
    ensures Running(st0, st', r, total, ops + [op], outs + [out])
  {
    UnmappedMeans(st, st', kernel, r, Page(op));
    LessTables(st, st', r, Page(op));
    ReplayOne(st0.used, total, ops, outs, op, out);
    GiveBack(Replay(st0.used, ops, outs).held, Tables(st.spaces[r]), Tables(st'.spaces[r]));
    hide Tables, Unmapped, World, Replay, Honest;
    OtherSpaces(st, st', r);
  }

  lemma RunDrop(st0: St, st: St, st1: St, st': St, kernel: nat, r: nat, total: nat, ops: seq<Op>, outs: seq<Out>,
                op: Op, out: Out)
    requires World(st, kernel) && Running(st0, st, r, total, ops, outs) && op.DropOp? && out.ok
    requires Unmapped(st, st1, r, Page(op))
    requires Page(op) in st.spaces[r].pages
    requires var f := st.spaces[r].pages[Page(op)].frame;
      f != 0 && f in Replay(st0.used, ops, outs).held && st' == st1.(used := st1.used - {f})
    ensures Running(st0, st', r, total, ops + [op], outs + [out])
  {
    var a, f := Replay(st0.used, ops, outs), st.spaces[r].pages[Page(op)].frame;
    hide Tables, Unmapped, World, Replay, Honest;
    UnmappedMeans(st, st1, kernel, r, Page(op));
    LessTables(st, st1, r, Page(op));
    ReplayOne(st0.used, total, ops, outs, op, out);
    DropBack(a.held, Tables(st.spaces[r]), Tables(st1.spaces[r]), f, st.used, st1.used);
    OtherSpaces(st, st', r);
  }

  lemma RunDropNothing(st0: St, st: St, r: nat, total: nat, ops: seq<Op>, outs: seq<Out>, op: Op, out: Out)
    requires Running(st0, st, r, total, ops, outs) && op.DropOp? && out.ok
    requires Page(op) in st.spaces[r].pages ==> st.spaces[r].pages[Page(op)].frame == 0
    ensures Running(st0, st, r, total, ops + [op], outs + [out])
  {
    ReplayOne(st0.used, total, ops, outs, op, out);
    hide Replay, Honest;
  }

  /** Taking a free frame disturbs no space. */
  lemma TakeWorld(st: St, kernel: nat, f: nat)
    requires World(st, kernel)
    ensures World(st.(used := st.used + {f}), kernel)
  {
    var st' := st.(used := st.used + {f});
    hide SpaceOk, Tables;
    forall q | q in st.spaces ensures Rooted(st', st.spaces[q], q) { assert Rooted(st, st.spaces[q], q); }
  }

  /** Nor does freeing a frame that is no table. */
  lemma FreeWorld(st: St, kernel: nat, f: nat)
    requires World(st, kernel) && f != kernel && forall q :: q in st.spaces ==> f !in Tables(st.spaces[q])
    ensures World(st.(used := st.used - {f}), kernel)
  {
    var st' := st.(used := st.used - {f});
    hide SpaceOk, Tables;
    forall q | q in st.spaces ensures Rooted(st', st.spaces[q], q) { assert Rooted(st, st.spaces[q], q); }
  }

  /** Frame f is in use and no table of any space. */
  ghost predicate Loose(st: St, kernel: nat, f: nat) {
    f in st.used && f != kernel && forall q :: q in st.spaces ==> f !in Tables(st.spaces[q])
  }

  /** The frame that vmmVirtToPhys finds for page v; 0 if there is none. */
  ghost function Found(st: St, r: nat, v: nat): nat
    requires r in st.spaces
  {
    if v in st.spaces[r].pages then st.spaces[r].pages[v].frame else 0
  }

  lemma PhysOf(st: St, kernel: nat, r: nat, v: nat)
    requires World(st, kernel) && r in st.spaces && v < USER_PAGES
    ensures VirtToPhys(st.mem, r, v * PAGE) == Found(st, r, v) * PAGE && v * PAGE / PAGE == v
    ensures v * PAGE < USER_PAGES * PAGE
  {
    assert Rooted(st, st.spaces[r], r);
    WalkReadsMap(st.mem, st.spaces[r], v * PAGE);
  }

  lemma DropReady(st0: St, st: St, kernel: nat, r: nat, total: nat, ops: seq<Op>, outs: seq<Out>, op: Op)
    requires World(st, kernel) && Running(st0, st, r, total, ops, outs) && op.DropOp?
    requires DropOk(st0, kernel, Replay(st0.used, ops, outs), op)
    ensures Found(st, r, Page(op)) != 0 ==>
      Loose(st, kernel, Found(st, r, Page(op))) && Found(st, r, Page(op)) in Replay(st0.used, ops, outs).held
  {
    hide Tables, Replay, Honest, World;
    forall q | q in st.spaces && q != r ensures q in st0.spaces && st0.spaces[q] == st.spaces[q] {
      assert (st.spaces - {r})[q] == st.spaces[q];
    }
  }

  lemma DropFree(st: St, st': St, kernel: nat, r: nat, v: nat, f: nat)
    requires World(st, kernel) && World(st', kernel) && Unmapped(st, st', r, v)
    requires Loose(st, kernel, f)
    ensures f in st'.used && World(st'.(used := st'.used - {f}), kernel)
  {
    UnmappedMeans(st, st', kernel, r, v);
    hide Tables, Unmapped, World;
    forall q | q in st'.spaces ensures f !in Tables(st'.spaces[q]) { }
    FreeWorld(st', kernel, f);
  }

  /** The operations have run on the space of r since st0. */
  ghost predicate AtRun(vmm: Vmm, st0: St, r: nat, ops: seq<Op>, outs: seq<Out>)
    reads vmm, vmm.pmm, vmm.pmm.bits
  {
    vmm.Valid() && Running(st0, vmm.Now(), r, vmm.pmm.totalFrames, ops, outs)
  }

  lemma NothingExtra(st: St)
    ensures st.(used := st.used + {}) == st
  {
  }

  lemma FullWhen(pmm: P.Pmm)
    requires pmm.Valid() && pmm.Exhausted()
    ensures forall f: nat :: f < pmm.totalFrames ==> f in pmm.Used()
  {
  }

  method RunMapOp(vmm: Vmm, ghost st0: St, root: nat, op: Op, ghost ops: seq<Op>, ghost outs: seq<Out>)
    returns (ghost out: Out)
    requires AtRun(vmm, st0, root, ops, outs) && op.virt < USER_PAGES * PAGE && op.MapOp?
    modifies vmm, vmm.pmm, vmm.pmm.bits
    ensures AtRun(vmm, st0, root, ops + [op], outs + [out])
  {
    ghost var st, total := vmm.Now(), vmm.pmm.totalFrames;
    assert root in vmm.spaces;
    hide P.Pmm.Valid, P.Pmm.Used, P.Pmm.Exhausted, World, Running, Grown, LeafOf;
    var ok := vmm.MapPage(root, op.virt, op.phys, op.flags);
    out := Out(ok, 0);
    NothingExtra(st);
    NothingExtra(vmm.Now());
    if ok {
      RunMap(st0, st, vmm.Now(), root, total, ops, outs, op, out, {});
    } else {
      FullWhen(vmm.pmm);
      RunFail(st0, st, vmm.Now(), root, total, ops, outs, op, out, {});
    }
  }

  /** What allocating a frame f and mapping it at page v does. Without a frame nothing changes; if the
      map fails, f is free again and the page map as it was. In both cases every frame but f is in use. */
  ghost predicate Filled(st: St, st': St, r: nat, total: nat, v: nat, flags: Flags, f: nat, ok: bool) {
    && r in st.spaces && r in st'.spaces
    && (f == 0 ==> !ok && st' == st)
    && (f != 0 ==> f < total && f !in st.used)
    && (ok ==>
          && Grown(st.(used := st.used + {f}), st', r, v)
          && st'.spaces[r].pages == st.spaces[r].pages[v := LeafOf(f * PAGE, flags)])
    && (!ok ==> forall g: nat :: g < total ==> g in st'.used || g == f)
    && (f != 0 && !ok ==>
          && f !in st'.used && Grown(st.(used := st.used + {f}), st'.(used := st'.used + {f}), r, v)
          && st'.spaces[r].pages == st.spaces[r].pages)
  }

  /** Allocate a frame and map it, as the loader and the page-fault handler do: the process finds its
      page in that frame, with the rights asked for. */
  method FillPage(vmm: Vmm, root: nat, virt: nat, flags: Flags) returns (f: nat, ok: bool)
    requires vmm.Valid() && root in vmm.spaces && virt < USER_PAGES * PAGE
    modifies vmm, vmm.pmm, vmm.pmm.bits
    ensures vmm.Valid() && Filled(old(vmm.Now()), vmm.Now(), root, vmm.pmm.totalFrames, virt / PAGE, flags, f, ok)
    ensures Seen(old(vmm.Now()), vmm.Now(), root, virt / PAGE, flags, f, ok)
  {
    ghost var st := vmm.Now();
    hide P.Pmm.Valid, P.Pmm.Used, P.Pmm.Exhausted, World, Grown, LeafOf, Filled, Seen;
    f := vmm.pmm.Alloc();
    if f == 0 {
      FullWhen(vmm.pmm);
      NotFilled(st, root, vmm.pmm.totalFrames, virt / PAGE, flags);
      SeenNothing(st, root, virt / PAGE, flags);
      return 0, false;
    }
    TakeWorld(st, vmm.kernelRoot, f);
    ok := MapFrame(vmm, root, virt, flags, st, f);
    if !ok { GiveUp(vmm, root, virt, flags, st, f); }
  }

  /** What the processor sees afterwards: on success page v in frame f with exactly the rights of the
      flags, and everything else where it was. */
  ghost predicate Seen(st: St, st': St, r: nat, v: nat, flags: Flags, f: nat, ok: bool) {
    (ok ==> Grants(st', r, v, f % FRAMES, flags)) && WalksSame(st, st', r, if ok then {v} else {})
  }

  lemma SeenNothing(st: St, r: nat, v: nat, flags: Flags)
    ensures Seen(st, st, r, v, flags, 0, false)
  {
  }

  /** The walks do not depend on which frames are in use. */
  lemma SeenUsed(st: St, st': St, t: St, t': St, r: nat, v: nat, flags: Flags, f: nat, ok: bool)
    requires Seen(st, st', r, v, flags, f, ok) && t == st.(used := t.used) && t' == st'.(used := t'.used)
    ensures Seen(t, t', r, v, flags, f, ok)
  {
    hide MmuWalk;
  }

  lemma NotFilled(st: St, r: nat, total: nat, v: nat, flags: Flags)
    requires r in st.spaces && forall g: nat :: g < total ==> g in st.used
    ensures Filled(st, st, r, total, v, flags, 0, false)
  {
  }

  /** The frame of a map that failed is freed. */
  method GiveUp(vmm: Vmm, root: nat, ghost virt: nat, ghost flags: Flags, ghost st: St, f: nat)
    requires vmm.Valid() && root in vmm.spaces && root in st.spaces && World(st, vmm.kernelRoot) && vmm.pmm.Exhausted()
    requires f != 0 && f !in st.used && f < vmm.pmm.totalFrames
    requires Grown(st.(used := st.used + {f}), vmm.Now(), root, virt / PAGE)
    requires vmm.spaces[root].pages == st.spaces[root].pages && Seen(st, vmm.Now(), root, virt / PAGE, flags, f, false)
    modifies vmm.pmm, vmm.pmm.bits
    ensures vmm.Valid() && Seen(st, vmm.Now(), root, virt / PAGE, flags, f, false)
    ensures Filled(st, vmm.Now(), root, vmm.pmm.totalFrames, virt / PAGE, flags, f, false)
  {
    ghost var st2 := vmm.Now();
    hide P.Pmm.Valid, P.Pmm.Used, P.Pmm.Exhausted, World, Grown, LeafOf, Filled, Seen;
    FullWhen(vmm.pmm);
    GaveUp(st, st2, vmm.kernelRoot, root, vmm.pmm.totalFrames, virt / PAGE, flags, f);
    vmm.pmm.Release(f);
    SeenUsed(st, st2, st, vmm.Now(), root, virt / PAGE, flags, f, false);
  }

  lemma GaveUp(st: St, st2: St, kernel: nat, r: nat, total: nat, v: nat, flags: Flags, f: nat)
    requires World(st, kernel) && World(st2, kernel) && r in st.spaces && r in st2.spaces
    requires f != 0 && f !in st.used && f < total && Grown(st.(used := st.used + {f}), st2, r, v)
    requires st2.spaces[r].pages == st.spaces[r].pages && forall g: nat :: g < total ==> g in st2.used
    ensures f in st2.used && World(st2.(used := st2.used - {f}), kernel)
    ensures Filled(st, st2.(used := st2.used - {f}), r, total, v, flags, f, false)
  {
    hide World, Grown, LeafOf;
    FillFree(st, st2, kernel, r, v, f);
  }

  method MapFrame(vmm: Vmm, root: nat, virt: nat, flags: Flags, ghost st: St, f: nat) returns (ok: bool)
    requires vmm.Valid() && root in vmm.spaces && virt < USER_PAGES * PAGE && vmm.Now() == st.(used := st.used + {f})
    requires f != 0 && f !in st.used && f < vmm.pmm.totalFrames
    modifies vmm, vmm.pmm, vmm.pmm.bits
    ensures vmm.Valid() && root in vmm.spaces
    ensures ok ==> Filled(st, vmm.Now(), root, vmm.pmm.totalFrames, virt / PAGE, flags, f, true)
    ensures !ok ==> Grown(st.(used := st.used + {f}), vmm.Now(), root, virt / PAGE)
    ensures !ok ==> vmm.spaces[root].pages == st.spaces[root].pages && vmm.pmm.Exhausted()
    ensures Seen(st, vmm.Now(), root, virt / PAGE, flags, f, ok)
  {
    hide P.Pmm.Valid, P.Pmm.Used, P.Pmm.Exhausted, World, LeafOf, Grants, WalksSame;
    ok := vmm.MapPage(root, virt, f * PAGE, flags);
    assert f * PAGE / PAGE == f;
    SeenUsed(st.(used := st.used + {f}), vmm.Now(), st, vmm.Now(), root, virt / PAGE, flags, f, ok);
  }

  lemma RunFill(st0: St, st: St, st': St, r: nat, total: nat, ops: seq<Op>, outs: seq<Out>, op: Op, f: nat, ok: bool)
    requires Running(st0, st, r, total, ops, outs) && op.FillOp?
    requires Filled(st, st', r, total, Page(op), op.flags, f, ok)
    ensures Running(st0, st', r, total, ops + [op], outs + [Out(ok, f)])
  {
    var out := Out(ok, f);
    hide Running, Grown, LeafOf;
    if f == 0 {
      FillNone(st0, st, r, total, ops, outs, op, out);
    } else if ok {
      NewFrame(st0, st, r, total, ops, outs, f);
      RunMap(st0, st, st', r, total, ops, outs, op, out, {f});
    } else {
      RunFail(st0, st, st', r, total, ops, outs, op, out, {f});
    }
  }

  method RunFillOp(vmm: Vmm, ghost st0: St, root: nat, op: Op, ghost ops: seq<Op>, ghost outs: seq<Out>)
    returns (ghost out: Out)
    requires AtRun(vmm, st0, root, ops, outs) && op.virt < USER_PAGES * PAGE && op.FillOp?
    modifies vmm, vmm.pmm, vmm.pmm.bits
    ensures AtRun(vmm, st0, root, ops + [op], outs + [out])
  {
    ghost var st, total := vmm.Now(), vmm.pmm.totalFrames;
    assert root in vmm.spaces;
    hide P.Pmm.Valid, P.Pmm.Used, World, Running, Filled;
    var f, ok := FillPage(vmm, root, op.virt, op.flags);
    out := Out(ok, f);
    RunFill(st0, st, vmm.Now(), root, total, ops, outs, op, f, ok);
  }

  /** Unmap page v and free its frame, as the loop of vmaDestroy does; a page that vmmVirtToPhys does
      not find is left alone. */
  method DropPage(vmm: Vmm, root: nat, v: nat) returns (ghost st1: St)
    requires vmm.Valid() && root in vmm.spaces && v < USER_PAGES
    requires Found(vmm.Now(), root, v) != 0 ==> Loose(vmm.Now(), vmm.kernelRoot, Found(vmm.Now(), root, v))
    modifies vmm, vmm.pmm, vmm.pmm.bits
    ensures vmm.Valid()
    ensures old(Found(vmm.Now(), root, v)) == 0 ==> vmm.Now() == old(vmm.Now())
    ensures old(Found(vmm.Now(), root, v)) != 0 ==>
      Unmapped(old(vmm.Now()), st1, root, v) && vmm.Now() == st1.(used := st1.used - {old(Found(vmm.Now(), root, v))})
  {
    hide P.Pmm.Valid, P.Pmm.Used, World, Unmapped, VirtToPhys, Tables;
    ghost var st := vmm.Now();
    st1 := st;
    PhysOf(st, vmm.kernelRoot, root, v);
    var phys := VirtToPhys(vmm.mem, root, v * PAGE);
    if phys == 0 { return; }
    vmm.UnmapPage(root, v * PAGE);
    st1 := vmm.Now();
    DropFree(st, st1, vmm.kernelRoot, root, v, phys / PAGE);
    vmm.pmm.Release(phys / PAGE);
  }

  method RunDropOp(vmm: Vmm, ghost st0: St, root: nat, op: Op, ghost ops: seq<Op>, ghost outs: seq<Out>)
    returns (ghost out: Out)
    requires AtRun(vmm, st0, root, ops, outs) && op.virt < USER_PAGES * PAGE && op.DropOp?
    requires DropOk(st0, vmm.kernelRoot, Replay(st0.used, ops, outs), op)
    modifies vmm, vmm.pmm, vmm.pmm.bits
    ensures AtRun(vmm, st0, root, ops + [op], outs + [out])
  {
    ghost var st, total := vmm.Now(), vmm.pmm.totalFrames;
    out := Out(true, 0);
    assert root in vmm.spaces;
    hide P.Pmm.Valid, P.Pmm.Used, World, Running, Unmapped, Replay, DropOk, Tables, Loose;
    DropReady(st0, st, vmm.kernelRoot, root, total, ops, outs, op);
    ghost var f := Found(st, root, Page(op));
    ghost var st1 := DropPage(vmm, root, op.virt / PAGE);
    if f == 0 {
      RunDropNothing(st0, st, root, total, ops, outs, op, out);
    } else {
      RunDrop(st0, st, st1, vmm.Now(), vmm.kernelRoot, root, total, ops, outs, op, out);
    }
  }

  lemma FillNone(st0: St, st: St, r: nat, total: nat, ops: seq<Op>, outs: seq<Out>, op: Op, out: Out)
    requires Running(st0, st, r, total, ops, outs) && op.FillOp? && !out.ok && out.frame == 0
    requires forall g: nat :: g < total ==> g in st.used || g == 0
    ensures Running(st0, st, r, total, ops + [op], outs + [out])
  {
    var a := Replay(st0.used, ops, outs);
    hide Tables, Replay, Honest;
    Scarce(total, a.held, st.spaces[r], a.walked + Above(Page(op)), {0});
    assert Answer(total, a, op, out);
    ReplayOne(st0.used, total, ops, outs, op, out);
    hide Answer, Above;
  }

  lemma NewFrame(st0: St, st: St, r: nat, total: nat, ops: seq<Op>, outs: seq<Out>, f: nat)
    requires Running(st0, st, r, total, ops, outs) && f !in st.used
    ensures f !in Replay(st0.used, ops, outs).held
  {
  }

  lemma FillFree(st: St, st2: St, kernel: nat, r: nat, v: nat, f: nat)
    requires World(st, kernel) && World(st2, kernel) && f !in st.used && Grown(st.(used := st.used + {f}), st2, r, v)
    ensures f in st2.used && World(st2.(used := st2.used - {f}), kernel) && st2.(used := st2.used - {f} + {f}) == st2
  {
    hide SpaceOk, Tables;
    assert forall q :: q in st.spaces ==> Rooted(st, st.spaces[q], q);
    forall q | q in st2.spaces ensures f !in Tables(st2.spaces[q]) { }
    hide World;
    FreeWorld(st2, kernel, f);
  }

  method RunOp(vmm: Vmm, ghost st0: St, root: nat, op: Op, ghost ops: seq<Op>, ghost outs: seq<Out>)
    returns (ghost out: Out)
    requires AtRun(vmm, st0, root, ops, outs) && op.virt < USER_PAGES * PAGE
    requires DropOk(st0, vmm.kernelRoot, Replay(st0.used, ops, outs), op)
    modifies vmm, vmm.pmm, vmm.pmm.bits
    ensures AtRun(vmm, st0, root, ops + [op], outs + [out])
  {
    if op.MapOp? {
      out := RunMapOp(vmm, st0, root, op, ops, outs);
    } else if op.FillOp? {
      out := RunFillOp(vmm, st0, root, op, ops, outs);
    } else if op.UnmapOp? {
      ghost var st := vmm.Now();
      out := Out(true, 0);
      assert root in vmm.spaces;
      hide *;
      vmm.UnmapPage(root, op.virt);
      RunUnmap(st0, st, vmm.Now(), vmm.kernelRoot, root, vmm.pmm.totalFrames, ops, outs, op, out);
    } else {
      out := RunDropOp(vmm, st0, root, op, ops, outs);
    }
  }

  lemma RunOwns(st0: St, st: St, kernel: nat, r: nat, total: nat, ops: seq<Op>, outs: seq<Out>)
    requires World(st, kernel) && Running(st0, st, r, total, ops, outs)
    requires Owned(st0, kernel, Replay(st0.used, ops, outs))
    ensures OwnsFrames(st.spaces[r], st.used) && LeavesApart(st, kernel, r)
  {
    var s, a := st.spaces[r], Replay(st0.used, ops, outs);
    assert Rooted(st, s, r);
    hide LinksOk, LeavesOk, PermsOk, Replay, Honest, Tables;
    TablesApart(s, a.held, st.used);
    forall q | q in st.spaces && q != r ensures q in st0.spaces && st0.spaces[q] == st.spaces[q] {
      assert (st.spaces - {r})[q] == st.spaces[q];
    }
    forall f | f in LeafFrames(s) ensures f != kernel && forall q :: q in st0.spaces ==> f !in Tables(st0.spaces[q]) {
      var v :| v in s.pages && s.pages[v].frame == f;
      assert Mine(st0, kernel, a.held, a.pages[v].frame);
    }
  }

  lemma RunEnd(st0: St, st: St, r: nat, total: nat, ops: seq<Op>, outs: seq<Out>)
    requires Running(st0, st, r, total, ops, outs)
    ensures Honest(st0.used, total, ops, outs) && r in st.spaces && st.spaces - {r} == st0.spaces
    ensures var a := Replay(st0.used, ops, outs);
      st.used - (Tables(st.spaces[r]) + LeafFrames(st.spaces[r])) == a.held - Mapped(a.pages)
  {
    hide Tables, Mapped, Replay, Honest;
  }

  lemma MayDrop(vmm: Vmm, st0: St, r: nat, ops: seq<Op>, outs: seq<Out>, i: nat)
    requires CallerOwns(st0, vmm.kernelRoot, vmm.pmm.totalFrames, ops) && i < |ops|
    requires AtRun(vmm, st0, r, First(ops, i), outs)
    ensures |First(ops, i)| == |outs| && DropOk(st0, vmm.kernelRoot, Replay(st0.used, First(ops, i), outs), ops[i])
    ensures ops[i].virt < USER_PAGES * PAGE && First(ops, i + 1) == First(ops, i) + [ops[i]]
  {
    FirstStep(ops, i);
    assert |outs| == i;
  }

  method RunFrom(vmm: Vmm, ghost st0: St, root: nat, ops: seq<Op>, i: nat, ghost outs: seq<Out>)
    returns (ghost all: seq<Out>)
    requires i <= |ops| && AtRun(vmm, st0, root, First(ops, i), outs)
    requires CallerOwns(st0, vmm.kernelRoot, vmm.pmm.totalFrames, ops)
    modifies vmm, vmm.pmm, vmm.pmm.bits
    ensures AtRun(vmm, st0, root, First(ops, |ops|), all)
    decreases |ops| - i
  {
    hide *;
    all := outs;
    if i < |ops| {
      MayDrop(vmm, st0, root, ops, outs, i);
      ghost var out := RunOp(vmm, st0, root, ops[i], First(ops, i), outs);
      all := RunFrom(vmm, st0, root, ops, i + 1, outs + [out]);
    }
  }

  method RunAll(vmm: Vmm, ghost st0: St, root: nat, ops: seq<Op>) returns (ghost outs: seq<Out>)
    requires AtRun(vmm, st0, root, [], [])
    requires CallerOwns(st0, vmm.kernelRoot, vmm.pmm.totalFrames, ops)
    modifies vmm, vmm.pmm, vmm.pmm.bits
    ensures AtRun(vmm, st0, root, ops, outs)
  {
    hide *;
    FirstEnds(ops);
    outs := RunFrom(vmm, st0, root, ops, 0, []);
  }

  method FinishRun(vmm: Vmm, ghost st0: St, root: nat, ghost ops: seq<Op>, ghost outs: seq<Out>)
    requires AtRun(vmm, st0, root, ops, outs)
    requires CallerOwns(st0, vmm.kernelRoot, vmm.pmm.totalFrames, ops)
    modifies vmm, vmm.pmm, vmm.pmm.bits
    ensures vmm.Valid() && vmm.spaces == st0.spaces && Honest(st0.used, vmm.pmm.totalFrames, ops, outs)
    ensures var a := Replay(st0.used, ops, outs); vmm.pmm.Used() == a.held - Mapped(a.pages)
  {
    ghost var st := vmm.Now();
    RunEnd(st0, st, root, vmm.pmm.totalFrames, ops, outs);
    assert Owned(st0, vmm.kernelRoot, Replay(st0.used, ops, outs));
    hide P.Pmm.Valid, P.Pmm.Used, World, Running, Tables, LeafFrames, OwnsFrames, LeavesApart, CallerOwns, Replay,
      Owned, Honest;
    RunOwns(st0, st, vmm.kernelRoot, root, vmm.pmm.totalFrames, ops, outs);
    vmm.DestroyAddressSpace(root);
  }

  /** An operation adds at most one frame held and three tables. */
  lemma {:induction false} AccountSize(used: set<nat>, total: nat, ops: seq<Op>, outs: seq<Out>)
    requires Honest(used, total, ops, outs)
    ensures var a := Replay(used, ops, outs); |a.held| <= |used| + |ops| && |a.walked| <= 1 + 3 * |ops|
  {
    if ops != [] {
      var k := |ops| - 1;
      AccountSize(used, total, ops[..k], outs[..k]);
      AppliedSize(Replay(used, ops[..k], outs[..k]), ops[k], outs[k]);
    }
  }

  lemma AppliedSize(a: Account, op: Op, out: Out)
    ensures var b := Applied(a, op, out); |b.held| <= |a.held| + 1 && |b.walked| <= |a.walked| + 3
    ensures |a.walked + Above(Page(op))| <= |a.walked| + 3
  {
    hide Anc;
    var w := Above(Page(op));
    assert |w| <= 3;
    assert |a.walked + w| <= |a.walked| + |w|;
    assert |a.held + {out.frame}| <= |a.held| + 1;
    hide Above;
  }

  /** With four frames to spare for each operation, and two for the space, no map fails. */
  lemma {:induction false} EnoughFrames(used: set<nat>, total: nat, ops: seq<Op>, outs: seq<Out>)
    requires Honest(used, total, ops, outs) && total > |used| + 4 * |ops| + 1
    ensures forall i :: 0 <= i < |outs| ==> outs[i].ok
  {
    if ops != [] {
      var k := |ops| - 1;
      EnoughFrames(used, total, ops[..k], outs[..k]);
      AccountSize(used, total, ops[..k], outs[..k]);
      AppliedSize(Replay(used, ops[..k], outs[..k]), ops[k], outs[k]);
      hide Above, Replay;
      forall i | 0 <= i < |outs| ensures outs[i].ok { if i < k { assert outs[i] == outs[..k][i]; } }
    }
  }

  /** Create an address space, run any operations on it, destroy it. Afterwards the frames in use are
      those the run left in use without its tables and without the frames still mapped: every table
      frame taken on the way is back, each frame still mapped is freed once, and no other space
      noticed. A map fails only when frames are scarce; with four to spare for each operation none does. */
  method Lifecycle(vmm: Vmm, ops: seq<Op>) returns (created: bool, ghost outs: seq<Out>)
    requires vmm.Valid() && CallerOwns(vmm.Now(), vmm.kernelRoot, vmm.pmm.totalFrames, ops)
    modifies vmm, vmm.pmm, vmm.pmm.bits
    ensures vmm.Valid() && vmm.spaces == old(vmm.spaces)
    ensures !created ==> vmm.pmm.Used() == old(vmm.pmm.Used()) && vmm.pmm.Exhausted()
    ensures created ==> Honest(old(vmm.pmm.Used()), vmm.pmm.totalFrames, ops, outs)
    ensures vmm.pmm.totalFrames > |old(vmm.pmm.Used())| + 4 * |ops| + 1 ==>
      created && forall i :: 0 <= i < |outs| ==> outs[i].ok
    ensures created ==> var a := Replay(old(vmm.pmm.Used()), ops, outs); vmm.pmm.Used() == a.held - Mapped(a.pages)
  {
    ghost var st0 := vmm.Now();
    outs := [];
    var root := vmm.CreateAddressSpace();
    created := root != 0;
    if created {
      RunStart(st0, vmm.Now(), root, vmm.pmm.totalFrames);
      hide *;
      outs := RunAll(vmm, st0, root, ops);
      FinishRun(vmm, st0, root, ops, outs);
      if vmm.pmm.totalFrames > |st0.used| + 4 * |ops| + 1 { EnoughFrames(st0.used, vmm.pmm.totalFrames, ops, outs); }
    } else {
      FullWhen(vmm.pmm);
      Range(vmm.pmm.totalFrames, vmm.pmm.Used());
    }
  }

  // ---- runs that need no hypothesis, and an easy one for those that map the caller's frames

  /** A MapOp takes a frame that may be freed and that no other page has at that time. */
  ghost predicate Tidy(st: St, kernel: nat, a: Account, op: Op) {
    op.MapOp? ==>
      var f := LeafOf(op.phys, op.flags).frame;
      Mine(st, kernel, a.held, f) && forall w :: w in a.pages && w != Page(op) ==> a.pages[w].frame != f
  }

  /** The kernel's PML4 and the tables of the other spaces stay in use. */
  ghost predicate Anchored(st: St, kernel: nat, held: set<nat>) {
    kernel in held && forall q :: q in st.spaces ==> Tables(st.spaces[q]) <= held
  }

  lemma TidyStep(st: St, kernel: nat, total: nat, a: Account, op: Op, out: Out)
    requires Owned(st, kernel, a) && Anchored(st, kernel, a.held) && Tidy(st, kernel, a, op)
    requires Answer(total, a, op, out) && total <= FRAMES
    ensures Owned(st, kernel, Applied(a, op, out)) && Anchored(st, kernel, Applied(a, op, out).held)
    ensures DropOk(st, kernel, a, op)
  {
    hide Tables;
    if op.FillOp? && out.ok {
      assert out.frame * PAGE / PAGE == out.frame && out.frame % FRAMES == out.frame;
      assert LeafOf(out.frame * PAGE, op.flags).frame == out.frame;
      assert Mine(st, kernel, a.held + {out.frame}, out.frame);
    }
  }

  lemma {:induction false} TidyRun(st: St, kernel: nat, total: nat, ops: seq<Op>, outs: seq<Out>, all: seq<Op>)
    requires World(st, kernel) && total <= FRAMES && ops <= all && Honest(st.used, total, ops, outs)
    requires AlwaysTidy(st, kernel, total, all)
    ensures Owned(st, kernel, Replay(st.used, ops, outs)) && Anchored(st, kernel, Replay(st.used, ops, outs).held)
    decreases |ops|
  {
    if ops == [] {
      hide SpaceOk, Tables;
      assert forall q :: q in st.spaces ==> Rooted(st, st.spaces[q], q);
    } else {
      var k := |ops| - 1;
      TidyRun(st, kernel, total, ops[..k], outs[..k], all);
      assert First(all, k) == ops[..k];
      hide World;
      TidyStep(st, kernel, total, Replay(st.used, ops[..k], outs[..k]), ops[k], outs[k]);
    }
  }

  ghost predicate AlwaysTidy(st: St, kernel: nat, total: nat, ops: seq<Op>) {
    forall outs: seq<Out> :: |outs| < |ops| && Honest(st.used, total, First(ops, |outs|), outs) ==>
      Tidy(st, kernel, Replay(st.used, First(ops, |outs|), outs), ops[|outs|])
  }

  /** So the hypothesis of Lifecycle holds if each map is tidy at its time. Mapping a frame again after
      a failure, at another page after an unmap, or at the same page with other rights is tidy. */
  lemma TidyOwns(st: St, kernel: nat, total: nat, ops: seq<Op>)
    requires World(st, kernel) && total <= FRAMES && AlwaysTidy(st, kernel, total, ops)
    requires forall i :: 0 <= i < |ops| ==> ops[i].virt < USER_PAGES * PAGE
    ensures CallerOwns(st, kernel, total, ops)
  {
    assert First(ops, |ops|) == ops;
    forall outs: seq<Out> | Honest(st.used, total, ops, outs) ensures Owned(st, kernel, Replay(st.used, ops, outs)) {
      TidyRun(st, kernel, total, ops, outs, ops);
    }
    forall outs: seq<Out> | |outs| < |ops| && Honest(st.used, total, First(ops, |outs|), outs)
      ensures DropOk(st, kernel, Replay(st.used, First(ops, |outs|), outs), ops[|outs|]) {
      TidyRun(st, kernel, total, First(ops, |outs|), outs, ops);
    }
  }

  /** Runs that only fill, unmap and drop need no hypothesis at all. */
  lemma FillsOwn(st: St, kernel: nat, total: nat, ops: seq<Op>)
    requires World(st, kernel) && total <= FRAMES
    requires forall i :: 0 <= i < |ops| ==> !ops[i].MapOp? && ops[i].virt < USER_PAGES * PAGE
    ensures CallerOwns(st, kernel, total, ops)
  {
    TidyOwns(st, kernel, total, ops);
  }

  /** For instance: mapping a frame, mapping it again at its page (after a failure, or with other
      rights), unmapping it and mapping it elsewhere, whichever of the maps fail. */
  lemma SameFrameAgain(st: St, kernel: nat, total: nat, phys: nat, v: nat, w: nat, x: Flags, y: Flags, z: Flags)
    requires World(st, kernel) && total <= FRAMES && v < USER_PAGES * PAGE && w < USER_PAGES * PAGE
    requires Mine(st, kernel, st.used, phys / PAGE % FRAMES)
    ensures CallerOwns(st, kernel, total, [MapOp(v, phys, x), MapOp(v, phys, y), UnmapOp(v), MapOp(w, phys, z)])
  {
    var ops := [MapOp(v, phys, x), MapOp(v, phys, y), UnmapOp(v), MapOp(w, phys, z)];
    forall outs: seq<Out> | |outs| < |ops| && Honest(st.used, total, First(ops, |outs|), outs)
      ensures Tidy(st, kernel, Replay(st.used, First(ops, |outs|), outs), ops[|outs|]) {
      var k := |outs|;
      assert k >= 1 ==> First(ops, k)[..1] == [ops[0]] && outs[..1] == [outs[0]];
      OnlyPage(st.used, First(ops, k), outs, v / PAGE);
    }
    TidyOwns(st, kernel, total, ops);
  }

  /** Operations on one page touch no other page, and maps and unmaps take and free no frame. */
  lemma {:induction false} OnlyPage(used: set<nat>, ops: seq<Op>, outs: seq<Out>, v: nat)
    requires |ops| == |outs| && forall i :: 0 <= i < |ops| ==> (ops[i].MapOp? || ops[i].UnmapOp?) && Page(ops[i]) == v
    ensures var a := Replay(used, ops, outs);
      && a.held == used && a.pages.Keys <= {v} && (ops != [] && ops[|ops| - 1].UnmapOp? ==> a.pages == map[])
    decreases |ops|
  {
    if ops != [] {
      var k := |ops| - 1;
      OnlyPage(used, ops[..k], outs[..k], v);
    }
  }

  // ---- the range that vmaDestroy clears

  ghost function Outside(pages: map<nat, Entry>, lo: nat, hi: nat): map<nat, Entry> {
    map v | v in pages && !(lo <= v < hi) :: pages[v]
  }

  ghost function FramesIn(pages: map<nat, Entry>, lo: nat, hi: nat): set<nat> {
    set v | v in pages && lo <= v < hi :: pages[v].frame
  }

  /** Since st0, the pages from lo to hi are gone from the space of r; their frames and the tables that
      became empty are free, and nothing else changed. */
  ghost predicate Swept(st0: St, st: St, r: nat, lo: nat, hi: nat) {
    && r in st0.spaces && r in st.spaces && st.spaces == st0.spaces[r := st.spaces[r]]
    && st.spaces[r].pages == Outside(st0.spaces[r].pages, lo, hi)
    && Less(st0.used, st.used, FramesIn(st0.spaces[r].pages, lo, hi), Tables(st0.spaces[r]), Tables(st.spaces[r]))
  }

  /** The frames and the tables of t0 that are not in t are no longer in use. */
  ghost predicate Less(used0: set<nat>, used: set<nat>, frames: set<nat>, t0: set<nat>, t: set<nat>) {
    t <= t0 && used == used0 - frames - (t0 - t)
  }

  /** The leaf frames are owned by the space. */
  ghost predicate Owns(st: St, kernel: nat, r: nat) {
    r in st.spaces && OwnsFrames(st.spaces[r], st.used) && LeavesApart(st, kernel, r)
  }

  lemma SweepStart(st: St, kernel: nat, r: nat, lo: nat)
    requires r in st.spaces
    ensures Swept(st, st, r, lo, lo)
  {
    var pages := st.spaces[r].pages;
    assert Outside(pages, lo, lo) == pages && FramesIn(pages, lo, lo) == {};
    hide Outside, FramesIn, Tables;
    assert st.spaces == st.spaces[r := st.spaces[r]];
  }

  lemma OwnsLoose(st: St, kernel: nat, r: nat, v: nat)
    requires World(st, kernel) && Owns(st, kernel, r)
    ensures v in st.spaces[r].pages ==> Found(st, r, v) != 0 && Loose(st, kernel, Found(st, r, v))
  {
    if v in st.spaces[r].pages {
      var s, f := st.spaces[r], st.spaces[r].pages[v].frame;
      assert Node(0, v) in Nodes(s) && Frame(s, Node(0, v)) == f;
      assert f in LeafFrames(s);
      assert Rooted(st, s, r);
      forall n | n in s.tabs ensures s.tabs[n] != f { LeafNoTable(st, s, r, n, v); }
    }
  }

  lemma LeafNoTable(st: St, s: Space, r: nat, n: Node, v: nat)
    requires OwnsFrames(s, st.used) && n in s.tabs && v in s.pages && Shape(s.tabs)
    ensures s.tabs[n] != s.pages[v].frame
  {
    assert n in Nodes(s) && Node(0, v) in Nodes(s) && Frame(s, n) == s.tabs[n]
      && Frame(s, Node(0, v)) == s.pages[v].frame;
  }

  lemma SweepSkip(st0: St, st: St, r: nat, lo: nat, v: nat)
    requires Swept(st0, st, r, lo, v) && lo <= v && v !in st.spaces[r].pages
    ensures Swept(st0, st, r, lo, v + 1)
  {
    var pages := st0.spaces[r].pages;
    assert v !in pages by { assert v in Outside(pages, lo, v) <==> v in pages; }
    assert Outside(pages, lo, v + 1) == Outside(pages, lo, v);
    assert FramesIn(pages, lo, v + 1) == FramesIn(pages, lo, v);
    hide Tables, Less;
  }

  lemma SweepOne(st0: St, st: St, st1: St, st': St, kernel: nat, r: nat, lo: nat, v: nat)
    requires Swept(st0, st, r, lo, v) && lo <= v && World(st, kernel) && v in st.spaces[r].pages
    requires Unmapped(st, st1, r, v)
    requires st' == st1.(used := st1.used - {st.spaces[r].pages[v].frame})
    ensures Swept(st0, st', r, lo, v + 1)
  {
    hide Outside, FramesIn, Tables, Unmapped, World, Less;
    UnmappedMeans(st, st1, kernel, r, v);
    PagesMore(st0.spaces[r].pages, lo, v);
    FramesMore(st0.spaces[r].pages, lo, v);
    MoreLess(st0.used, st.used, FramesIn(st0.spaces[r].pages, lo, v), st.spaces[r].pages[v].frame,
             Tables(st0.spaces[r]), Tables(st.spaces[r]), Tables(st1.spaces[r]));
    Overwrite(st0.spaces, r, st.spaces[r], st1.spaces[r]);
  }

  lemma Overwrite(spaces: map<nat, Space>, r: nat, s: Space, s': Space)
    ensures spaces[r := s][r := s'] == spaces[r := s']
  {
  }

  lemma PagesMore(pages: map<nat, Entry>, lo: nat, v: nat)
    requires lo <= v && v in Outside(pages, lo, v)
    ensures v in pages && Outside(pages, lo, v)[v] == pages[v]
    ensures Outside(pages, lo, v + 1) == Outside(pages, lo, v) - {v}
  {
  }

  lemma MoreLess(used0: set<nat>, used: set<nat>, frames: set<nat>, f: nat, t0: set<nat>, t: set<nat>, t1: set<nat>)
    requires Less(used0, used, frames, t0, t) && t1 <= t
    ensures Less(used0, used - (t - t1) - {f}, frames + {f}, t0, t1)
  {
  }

  lemma FramesMore(pages: map<nat, Entry>, lo: nat, v: nat)
    requires lo <= v && v in pages
    ensures FramesIn(pages, lo, v + 1) == FramesIn(pages, lo, v) + {pages[v].frame}
  {
    forall f | f in FramesIn(pages, lo, v + 1) ensures f in FramesIn(pages, lo, v) + {pages[v].frame} {
      var w :| w in pages && lo <= w < v + 1 && pages[w].frame == f;
    }
    forall f | f in FramesIn(pages, lo, v) ensures f in FramesIn(pages, lo, v + 1) {
      var w :| w in pages && lo <= w < v && pages[w].frame == f;
    }
  }

  lemma SweepOwns(st: St, st1: St, st': St, kernel: nat, r: nat, v: nat)
    requires World(st, kernel) && Owns(st, kernel, r) && v in st.spaces[r].pages && Unmapped(st, st1, r, v)
    requires st' == st1.(used := st1.used - {st.spaces[r].pages[v].frame})
    ensures Owns(st', kernel, r)
  {
    UnmappedMeans(st, st1, kernel, r, v);
    assert Rooted(st, st.spaces[r], r);
    FewerNodes(st, st1, r, v);
    hide Unmapped, World, LinksOk, LeavesOk, PermsOk, Shape, OwnsFrames, LeavesApart, Tables;
    StillOwns(st.spaces[r], st'.spaces[r], st.used, st'.used, v);
    StillApart(st, st', kernel, r);
  }

  /** The nodes of s2 are among those of s without page v, with the same frames. */
  ghost predicate Fewer(s: Space, s2: Space, v: nat) {
    && (forall n :: n in s2.tabs ==> n in s.tabs && s2.tabs[n] == s.tabs[n])
    && s2.pages == s.pages - {v}
  }

  lemma FewerNodes(st: St, st': St, r: nat, v: nat)
    requires Unmapped(st, st', r, v) && r in st'.spaces && st'.spaces[r].pages == st.spaces[r].pages - {v}
    ensures Fewer(st.spaces[r], st'.spaces[r], v)
  {
    var s, s' := st.spaces[r], st'.spaces[r];
    if Anc(v, 1) in s.tabs {
      var l :| Unmapping(st, st', r, v, l) && (l <= 3 ==> NonEmpty(s', Anc(v, l)));
    }
  }

  lemma StillOwns(s: Space, s': Space, used: set<nat>, used': set<nat>, v: nat)
    requires OwnsFrames(s, used) && Fewer(s, s', v) && Shape(s.tabs) && v in s.pages
    requires used' == used - (Tables(s) - Tables(s')) - {s.pages[v].frame}
    ensures OwnsFrames(s', used')
  {
    forall c | c in Nodes(s') ensures c in Nodes(s) && Frame(s', c) == Frame(s, c) { NodeLeft(s, s', used, c, v); }
    hide Tables, Nodes, Frame;
    forall c | c in Nodes(s') ensures Frame(s', c) != 0 && Frame(s', c) in used' {
      NodeLeft(s, s', used, c, v);
      NotGivenBack(s, s', used, c, v);
    }
  }

  /** A node that is left was there before, and its frame is not the dropped one. */
  lemma NodeLeft(s: Space, s': Space, used: set<nat>, c: Node, v: nat)
    requires OwnsFrames(s, used) && Fewer(s, s', v) && Shape(s.tabs) && v in s.pages && c in Nodes(s')
    ensures c in Nodes(s) && Frame(s', c) == Frame(s, c) && Frame(s', c) != s.pages[v].frame
  {
    assert Node(0, v) in Nodes(s) && Frame(s, Node(0, v)) == s.pages[v].frame;
    assert c in Nodes(s) && c != Node(0, v);
  }

  /** A node that is left is not one of the tables given back. */
  lemma NotGivenBack(s: Space, s': Space, used: set<nat>, c: Node, v: nat)
    requires OwnsFrames(s, used) && c in Nodes(s') && Fewer(s, s', v) && Shape(s.tabs)
    ensures Frame(s, c) !in Tables(s) - Tables(s')
  {
    var f := Frame(s, c);
    assert c in Nodes(s);
    if f in Tables(s) {
      var n :| n in s.tabs && s.tabs[n] == f;
      assert n in Nodes(s) && Frame(s, n) == f;
      assert n == c && s'.tabs[n] == f;
    }
  }

  lemma StillApart(st: St, st': St, kernel: nat, r: nat)
    requires LeavesApart(st, kernel, r) && r in st'.spaces && st'.spaces == st.spaces[r := st'.spaces[r]]
    requires forall v :: v in st'.spaces[r].pages ==>
      v in st.spaces[r].pages && st'.spaces[r].pages[v] == st.spaces[r].pages[v]
    ensures LeavesApart(st', kernel, r)
  {
    hide Tables;
    forall f | f in LeafFrames(st'.spaces[r]) ensures f in LeafFrames(st.spaces[r]) {
      var w :| w in st'.spaces[r].pages && st'.spaces[r].pages[w].frame == f;
      assert st.spaces[r].pages[w].frame == f;
    }
    forall q | q in st'.spaces && q != r
      ensures Tables(st'.spaces[q]) !! LeafFrames(st'.spaces[r])
    {
      assert st'.spaces[q] == st.spaces[q];
    }
  }

  /** The pages from lo to v have been dropped since st0, and the space still owns its frames. */
  ghost predicate AtSweep(vmm: Vmm, st0: St, r: nat, lo: nat, v: nat)
    reads vmm, vmm.pmm, vmm.pmm.bits
  {
    vmm.Valid() && Owns(vmm.Now(), vmm.kernelRoot, r) && Swept(st0, vmm.Now(), r, lo, v)
  }

  /** The loop of vmaDestroy over pages lo to hi of an area: no page of the range stays mapped, and
      exactly the frames of the range, and the tables that became empty, are freed. */
  method DropRange(vmm: Vmm, root: nat, lo: nat, hi: nat)
    requires vmm.Valid() && Owns(vmm.Now(), vmm.kernelRoot, root) && lo <= hi <= USER_PAGES
    modifies vmm, vmm.pmm, vmm.pmm.bits
    ensures vmm.Valid() && Owns(vmm.Now(), vmm.kernelRoot, root) && Swept(old(vmm.Now()), vmm.Now(), root, lo, hi)
  {
    ghost var st0 := vmm.Now();
    SweepStart(st0, vmm.kernelRoot, root, lo);
    DropPages(vmm, root, lo, hi, st0);
  }

  method DropPages(vmm: Vmm, root: nat, lo: nat, hi: nat, ghost st0: St)
    requires AtSweep(vmm, st0, root, lo, lo) && lo <= hi <= USER_PAGES
    modifies vmm, vmm.pmm, vmm.pmm.bits
    ensures AtSweep(vmm, st0, root, lo, hi)
  {
    hide *;
    var v := lo;
    while v < hi
      invariant lo <= v <= hi && AtSweep(vmm, st0, root, lo, v)
    {
      SweepPage(vmm, root, v, st0, lo);
      v := v + 1;
    }
  }

  method SweepPage(vmm: Vmm, root: nat, v: nat, ghost st0: St, ghost lo: nat)
    requires AtSweep(vmm, st0, root, lo, v) && lo <= v < USER_PAGES
    modifies vmm, vmm.pmm, vmm.pmm.bits
    ensures AtSweep(vmm, st0, root, lo, v + 1)
  {
    ghost var st := vmm.Now();
    assert root in vmm.spaces;
    hide P.Pmm.Valid, P.Pmm.Used, World, Owns, Swept, Unmapped, Loose;
    OwnsLoose(st, vmm.kernelRoot, root, v);
    ghost var st1 := DropPage(vmm, root, v);
    if v in st.spaces[root].pages {
      SweepOne(st0, st, st1, vmm.Now(), vmm.kernelRoot, root, lo, v);
      SweepOwns(st, st1, vmm.Now(), vmm.kernelRoot, root, v);
    } else {
      SweepSkip(st0, st, root, lo, v);
    }
  }
}
