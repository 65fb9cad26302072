/** The data pointers of an NVMe read command (src/kernel/krdrivers/nvme/nvme.c): PRP1, PRP2 and,
    for longer transfers, a chain of PRP lists. The device's own walk, section 4.3 of the NVM
    Express 1.4 base specification, is the specification. */
module Prp {
  import opened Machine
  import L = DList

  const ENTRIES: nat := 512
  const MAX_FRAMES: nat := 130   // the length of prp_frames
  const MOST: nat := (512 + 511 * 129) * PAGE   // what that many lists describe
  const MAX_BLOCKS: nat := 0x1_0000

  type Lists = map<nat, seq<nat>>

  /** The pages behind the first one that a transfer of len bytes touches. */
  function MorePages(len: nat, first: nat): nat { if len <= first then 0 else (len - first + 4095) / PAGE }

  /** The list frames that the driver takes for n pages. */
  function ListFrames(n: nat): nat { if n > ENTRIES then 1 + (n - 512 + 510) / 511 else 1 }

  /** What the device reads from entry e of the list at address l on, with n pages still to come:
      the last entry of a list is a pointer to the next list exactly if more than one page is left. */
  ghost function Walk(mem: Lists, l: nat, e: nat, n: nat): seq<nat>
    requires e < ENTRIES
    decreases n, e
  {
    if n == 0 then []
    else if e == 511 && n > 1 then Walk(mem, Entry(mem, l, 511), 0, n)
    else [Entry(mem, l, e)] + if n == 1 then [] else Walk(mem, l, e + 1, n - 1)
  }

  ghost function Entry(mem: Lists, l: nat, e: nat): nat { if l in mem && e < |mem[l]| then mem[l][e] else 0 }

  /** The pages the device transfers for a command. */
  ghost function DevicePages(mem: Lists, prp1: nat, prp2: nat, more: nat): seq<nat> {
    [prp1] + if more == 0 then [] else if more == 1 then [prp2] else Walk(mem, prp2, 0, more)
  }

  /** The physical address of page k of the buffer at v; 0 if it is not mapped. */
  function PageAt(phys: nat -> nat, v: nat, k: nat): nat { phys(v + k * PAGE) }

  /** The n pages from v on are all mapped. */
  ghost predicate Mapped(phys: nat -> nat, v: nat, n: nat) { forall k: nat :: k < n ==> PageAt(phys, v, k) != 0 }

  /** The physical pages of n pages of the buffer, from virtual address v on. */
  ghost function PagesOf(phys: nat -> nat, v: nat, n: nat): seq<nat>
    decreases n
  {
    if n == 0 then [] else [phys(v)] + PagesOf(phys, v + PAGE, n - 1)
  }

  function Bytes(blocks: nat, blockSize: nat): nat { blocks * blockSize }

  lemma BytesSum(a: nat, b: nat, blockSize: nat)
    ensures Bytes(a + b, blockSize) == Bytes(a, blockSize) + Bytes(b, blockSize)
  {
  }

  lemma FramesExact(n: nat)
    requires n >= 2
    ensures 511 * (ListFrames(n) - 1) < n - 1 <= 511 * ListFrames(n)
  {
  }

  /** The lists fit into the driver's array exactly if the transfer has at most MOST bytes behind the
      first page. */
  lemma FramesFit(len: nat, first: nat)
    requires 0 < first <= PAGE
    ensures ListFrames(MorePages(len, first)) <= MAX_FRAMES <==> len <= first + MOST
  {
  }

  /** Without a limit of the device, a block size of two pages is too much. */
  lemma FramesOverrun()
    ensures ListFrames(MorePages(Bytes(MAX_BLOCKS, 2 * PAGE), PAGE)) > MAX_FRAMES
  {
    FramesFit(Bytes(MAX_BLOCKS, 2 * PAGE), PAGE);
  }

  /** Page number 511 p + e of the transfer goes to entry e of list p; the last entry of a list holds
      a page only in the last list. */
  ghost predicate Seat(frames: seq<nat>, p: nat, e: nat) {
    p < |frames| && (e < 511 || (e == 511 && p + 1 == |frames|))
  }

  ghost predicate Filled(mem: Lists, frames: seq<nat>, phys: nat -> nat, v: nat, n: nat) {
    forall p: nat, e: nat {:trigger Entry(mem, frames[p], e)} :: Seat(frames, p, e) && 511 * p + e < n ==>
      Entry(mem, frames[p], e) == PageAt(phys, v, 511 * p + e)
  }

  ghost predicate Linked(mem: Lists, frames: seq<nat>, n: nat) {
    forall p: nat {:trigger Entry(mem, frames[p], 511)} :: p < n && p + 1 < |frames| ==>
      Entry(mem, frames[p], 511) == frames[p + 1]
  }

  /** Where the page after the one at entry e of list p goes. */
  lemma NextSeat(frames: seq<nat>, n: nat, p: nat, e: nat)
    requires n >= 2 && |frames| == ListFrames(n) && Seat(frames, p, e) && 511 * p + e + 1 < n
    ensures e < 511
    ensures if e + 1 == 511 && p + 1 < |frames| then Seat(frames, p + 1, 0) && 511 * p + e + 2 < n
      else Seat(frames, p, e + 1)
  {
    FramesExact(n);
    hide ListFrames;
  }

  lemma WalkStep(mem: Lists, l: nat, e: nat, n: nat)
    requires e < 511 && n > 1
    ensures Walk(mem, l, e, n) == [Entry(mem, l, e)] + Walk(mem, l, e + 1, n - 1)
  {
  }

  lemma WalkTurn(mem: Lists, l: nat, n: nat)
    requires n > 1
    ensures Walk(mem, l, 511, n) == Walk(mem, Entry(mem, l, 511), 0, n)
  {
  }

  lemma WalkLast(mem: Lists, phys: nat -> nat, l: nat, e: nat, v: nat)
    requires e < ENTRIES
    ensures Walk(mem, l, e, 1) == [Entry(mem, l, e)] && PagesOf(phys, v + PAGE, 0) == []
  {
  }

  lemma PagesStep(phys: nat -> nat, v: nat, k: nat, n: nat)
    requires n > 0
    ensures PagesOf(phys, v + k * PAGE, n) == [PageAt(phys, v, k)] + PagesOf(phys, v + (k + 1) * PAGE, n - 1)
  {
    assert (k + 1) * PAGE == k * PAGE + PAGE;
  }

  lemma FilledAt(mem: Lists, frames: seq<nat>, phys: nat -> nat, v: nat, n: nat, p: nat, e: nat)
    requires Filled(mem, frames, phys, v, n) && Linked(mem, frames, |frames|) && Seat(frames, p, e) && 511 * p + e < n
    ensures Entry(mem, frames[p], e) == PageAt(phys, v, 511 * p + e)
    ensures p + 1 < |frames| ==> Entry(mem, frames[p], 511) == frames[p + 1]
  {
    assert p + 1 < |frames| ==> Entry(mem, frames[p], 511) == frames[p + 1];
  }

  /** The device's walk through lists filled in this way yields the pages in order. */
  lemma {:induction false} WalkFilled(mem: Lists, frames: seq<nat>, phys: nat -> nat, v: nat, n: nat, p: nat, e: nat)
    requires n >= 2 && |frames| == ListFrames(n) && Filled(mem, frames, phys, v, n) && Linked(mem, frames, |frames|)
    requires Seat(frames, p, e) && 511 * p + e < n
    ensures Walk(mem, frames[p], e, n - (511 * p + e)) == PagesOf(phys, v + (511 * p + e) * PAGE, n - (511 * p + e))
    decreases n - (511 * p + e)
  {
    hide ListFrames, Walk, PagesOf, Filled, Linked, Entry, PageAt;
    var k := 511 * p + e;
    FilledAt(mem, frames, phys, v, n, p, e);
    PagesStep(phys, v, k, n - k);
    if n - k == 1 {
      WalkLast(mem, phys, frames[p], e, v + k * PAGE);
    } else {
      NextSeat(frames, n, p, e);
      WalkStep(mem, frames[p], e, n - k);
      if e + 1 == 511 && p + 1 < |frames| {
        WalkTurn(mem, frames[p], n - k - 1);
        WalkFilled(mem, frames, phys, v, n, p + 1, 0);
      } else {
        WalkFilled(mem, frames, phys, v, n, p, e + 1);
      }
    }
  }

  /** Write x to entry e of the list at l. */
  function Put(mem: Lists, l: nat, e: nat, x: nat): Lists
    requires l in mem && e < |mem[l]|
  {
    var row: seq<nat> := mem[l][e := x];
    mem[l := row]
  }

  function Blank(): seq<nat> { seq(512, i => 0) }

  /** The loop that fills the lists. */
  method FillLists(phys: nat -> nat, v: nat, bytes: nat, frames: seq<nat>) returns (ok: bool, mem: Lists)
    requires bytes > PAGE && |frames| == ListFrames(MorePages(bytes, 0)) && L.Distinct(frames)
    ensures ok <==> Mapped(phys, v, MorePages(bytes, 0))
    ensures ok ==> Walk(mem, frames[0], 0, MorePages(bytes, 0)) == PagesOf(phys, v, MorePages(bytes, 0))
  {
    hide ListFrames, MorePages, Filled, Linked, Walk, PagesOf, Put, Mapped, PageAt;
    ghost var n := MorePages(bytes, 0);
    PageCount(bytes);
    FramesExact(n);
    var page, entry, left, next := 0, 0, bytes, v;
    mem := map[frames[0] := Blank()];
    ghost var k := 0;
    StartLists(mem, frames, phys, v);
    Zeroes(phys, v);
    while left > 0
      invariant page < |frames| && entry <= 512 && k == 511 * page + entry && (entry == 512 ==> page + 1 == |frames|)
      invariant k <= n && left >= 0 && (left > 0 ==> left == bytes - k * PAGE && next == v + k * PAGE && k < n)
      invariant left == 0 ==> k == n
      invariant frames[page] in mem && |mem[frames[page]]| == 512
      invariant Filled(mem, frames, phys, v, k) && Linked(mem, frames, page)
      invariant Mapped(phys, v, k)
    {
      if entry == 511 && page + 1 < |frames| {
        LinkStep(mem, frames, phys, v, k, page);
        mem := Put(mem, frames[page], 511, frames[page + 1])[frames[page + 1] := Blank()];
        page, entry := page + 1, 0;
      }
      var a := phys(next);
      MappedStep(phys, v, k, n, a);
      if a == 0 {
        ok := false;
        return;
      }
      FillStep(mem, frames, phys, v, k, page, entry);
      mem := Put(mem, frames[page], entry, a);
      entry := entry + 1;
      var step := if left > PAGE then PAGE else left;
      next, left, k := next + step, left - step, k + 1;
    }
    ok := true;
    assert page + 1 == |frames|;
    AllLinked(mem, frames, page);
    WalkFilled(mem, frames, phys, v, n, 0, 0);
  }

  lemma PageCount(bytes: nat)
    requires bytes > PAGE
    ensures MorePages(bytes, 0) >= 2 && (MorePages(bytes, 0) - 1) * PAGE < bytes <= MorePages(bytes, 0) * PAGE
  {
  }

  lemma Zeroes(phys: nat -> nat, v: nat)
    ensures Mapped(phys, v, 0) && |Blank()| == 512
  {
  }

  lemma MappedStep(phys: nat -> nat, v: nat, k: nat, n: nat, a: nat)
    requires Mapped(phys, v, k) && k < n && a == phys(v + k * PAGE)
    ensures a == PageAt(phys, v, k) && (a == 0 ==> !Mapped(phys, v, n)) && (a != 0 ==> Mapped(phys, v, k + 1))
  {
    assert a == PageAt(phys, v, k);
  }

  lemma StartLists(mem: Lists, frames: seq<nat>, phys: nat -> nat, v: nat)
    ensures Filled(mem, frames, phys, v, 0) && Linked(mem, frames, 0)
  {
  }

  lemma AllLinked(mem: Lists, frames: seq<nat>, page: nat)
    requires page + 1 == |frames| && Linked(mem, frames, page)
    ensures Linked(mem, frames, |frames|)
  {
  }

  lemma LinkStep(mem: Lists, frames: seq<nat>, phys: nat -> nat, v: nat, k: nat, page: nat)
    requires page + 1 < |frames| && k == 511 * page + 511 && L.Distinct(frames)
    requires frames[page] in mem && |mem[frames[page]]| == 512 && Filled(mem, frames, phys, v, k)
    requires Linked(mem, frames, page)
    ensures var mem' := Put(mem, frames[page], 511, frames[page + 1])[frames[page + 1] := Blank()];
      Filled(mem', frames, phys, v, k) && Linked(mem', frames, page + 1)
  {
    var mem' := Put(mem, frames[page], 511, frames[page + 1])[frames[page + 1] := Blank()];
    forall p: nat, e: nat | Seat(frames, p, e) && 511 * p + e < k
      ensures Entry(mem', frames[p], e) == PageAt(phys, v, 511 * p + e)
    {
      assert Entry(mem, frames[p], e) == PageAt(phys, v, 511 * p + e);
    }
    forall p: nat | p < page + 1 && p + 1 < |frames| ensures Entry(mem', frames[p], 511) == frames[p + 1] {
      if p < page { assert Entry(mem, frames[p], 511) == frames[p + 1]; }
    }
  }

  lemma FillStep(mem: Lists, frames: seq<nat>, phys: nat -> nat, v: nat, k: nat, page: nat, entry: nat)
    requires page < |frames| && Seat(frames, page, entry) && k == 511 * page + entry && L.Distinct(frames)
    requires frames[page] in mem && |mem[frames[page]]| == 512 && Filled(mem, frames, phys, v, k)
    requires Linked(mem, frames, page)
    ensures var mem' := Put(mem, frames[page], entry, PageAt(phys, v, k));
      && Filled(mem', frames, phys, v, k + 1) && Linked(mem', frames, page)
      && frames[page] in mem' && |mem'[frames[page]]| == 512
  {
    var mem' := Put(mem, frames[page], entry, PageAt(phys, v, k));
    forall p: nat, e: nat | Seat(frames, p, e) && 511 * p + e < k + 1
      ensures Entry(mem', frames[p], e) == PageAt(phys, v, 511 * p + e)
    {
      if 511 * p + e < k { assert Entry(mem, frames[p], e) == PageAt(phys, v, 511 * p + e); }
    }
    forall p: nat | p < page && p + 1 < |frames| ensures Entry(mem', frames[p], 511) == frames[p + 1] {
      assert Entry(mem, frames[p], 511) == frames[p + 1];
    }
  }

  function First(virt: nat): nat { PAGE - virt % PAGE }

  /** All pages of the transfer are mapped, and its lists fit into the array and can be had. */
  ghost predicate Ready(phys: nat -> nat, virt: nat, len: nat, pool: seq<nat>) {
    var more := MorePages(len, First(virt));
    && phys(virt) != 0 && Mapped(phys, virt + First(virt), more) && len <= First(virt) + MOST
    && (more >= 2 ==> |pool| >= ListFrames(more))
  }

  /** The driver stores list frame number 130, behind the end of its array. */
  ghost predicate Overruns(phys: nat -> nat, virt: nat, len: nat, pool: seq<nat>) {
    phys(virt) != 0 && len > First(virt) + MOST && |pool| >= MAX_FRAMES
  }

  /** The device transfers exactly the physical pages of the buffer, in order. */
  ghost predicate Faithful(phys: nat -> nat, virt: nat, len: nat, prp1: nat, prp2: nat, mem: Lists) {
    var more := MorePages(len, First(virt));
    && DevicePages(mem, prp1, prp2, more) == [phys(virt)] + PagesOf(phys, virt + First(virt), more)
    && (more == 0 ==> prp2 == 0)
  }

  /** Where the device puts byte x of a transfer that starts at the given offset in its first page. */
  ghost function DeviceByte(pages: seq<nat>, offset: nat, x: nat): nat
    requires (offset + x) / PAGE < |pages|
  {
    if (offset + x) / PAGE == 0 then pages[0] + x else pages[(offset + x) / PAGE] + (offset + x) % PAGE
  }

  lemma {:induction false} PageOf(phys: nat -> nat, v: nat, n: nat, k: nat)
    requires k < n
    ensures k < |PagesOf(phys, v, n)| && PagesOf(phys, v, n)[k] == phys(v + k * PAGE)
    decreases n
  {
    if k > 0 { PageOf(phys, v + PAGE, n - 1, k - 1); }
  }

  /** The second page of a buffer starts at a page boundary. */
  lemma Boundary(virt: nat)
    ensures 0 < First(virt) <= PAGE && virt + First(virt) == (virt / PAGE + 1) * PAGE
  {
  }

  /** So every byte of the transfer goes to the physical address of its byte of the buffer, and the
      device has no page that it does not need. */
  lemma EveryByte(phys: nat -> nat, virt: nat, len: nat, prp1: nat, prp2: nat, mem: Lists, x: nat)
    requires Faithful(phys, virt, len, prp1, prp2, mem) && x < len
    ensures var pages, a := DevicePages(mem, prp1, prp2, MorePages(len, First(virt))), virt + x;
      && |pages| == (virt % PAGE + len - 1) / PAGE + 1 && (virt % PAGE + x) / PAGE < |pages|
      && DeviceByte(pages, virt % PAGE, x) ==
         if a / PAGE == virt / PAGE then phys(virt) + x else phys(a / PAGE * PAGE) + a % PAGE
  {
    var more, v, k := MorePages(len, First(virt)), virt + First(virt), (virt % PAGE + x) / PAGE;
    var pages := DevicePages(mem, prp1, prp2, more);
    Boundary(virt);
    Touched(virt, len, x);
    assert pages == [phys(virt)] + PagesOf(phys, v, more);
    hide MorePages, First, DevicePages, Faithful, PagesOf;
    PagesSize(phys, v, more);
    if k > 0 { PageOf(phys, v, more, k - 1); }
  }

  lemma {:induction false} PagesSize(phys: nat -> nat, v: nat, n: nat)
    ensures |PagesOf(phys, v, n)| == n
    decreases n
  {
    if n > 0 { PagesSize(phys, v + PAGE, n - 1); }
  }

  lemma Touched(virt: nat, len: nat, x: nat)
    requires x < len
    ensures var k, a := (virt % PAGE + x) / PAGE, virt + x;
      && MorePages(len, First(virt)) == (virt % PAGE + len - 1) / PAGE && k <= MorePages(len, First(virt))
      && a / PAGE == virt / PAGE + k && a % PAGE == (virt % PAGE + x) % PAGE
      && (k > 0 ==> virt + First(virt) + (k - 1) * PAGE == a / PAGE * PAGE)
  {
    var q, r := virt / PAGE, virt % PAGE;
    assert virt == q * PAGE + r;
  }

  datatype Taken = All | Short | Past

  /** The loop that takes n frames into the array; pool is what the frame allocator has to give. */
  method TakeFrames(pool: seq<nat>, n: nat) returns (out: Taken, frames: array<nat>)
    ensures frames.Length == MAX_FRAMES
    ensures out == if n > MAX_FRAMES && |pool| >= MAX_FRAMES then Past else if n > |pool| then Short else All
    ensures out.All? ==> n <= MAX_FRAMES && n <= |pool| && frames[..n] == pool[..n]
  {
    frames := new nat[MAX_FRAMES];
    for i := 0 to n
      invariant i <= MAX_FRAMES && i <= |pool| && frames[..i] == pool[..i]
    {
      if i == frames.Length { return Past, frames; }
      if i == |pool| { return Short, frames; }
      frames[i] := pool[i];
    }
    out := All;
  }

  datatype Prepared = Pointers(prp1: nat, prp2: nat, lists: Lists) | Refused | Overrun

  /** The data pointers for one command of len bytes. */
  method Prepare(phys: nat -> nat, virt: nat, len: nat, pool: seq<nat>) returns (out: Prepared)
    requires L.Distinct(pool)
    ensures out.Pointers? <==> Ready(phys, virt, len, pool)
    ensures out.Overrun? <==> Overruns(phys, virt, len, pool)
    ensures out.Pointers? ==> Faithful(phys, virt, len, out.prp1, out.prp2, out.lists)
  {
    var prp1, first := phys(virt), First(virt);
    if prp1 == 0 { return Refused; }
    FramesFit(len, first);
    if len <= first { return Pointers(prp1, 0, map[]); }
    var next, left := virt + first, len - first;
    if left <= PAGE {
      assert MorePages(len, first) == 1;
      var prp2 := phys(next);
      assert prp2 == PageAt(phys, next, 0);
      return if prp2 == 0 then Refused else Pointers(prp1, prp2, map[]);
    }
    assert MorePages(left, 0) == MorePages(len, first) >= 2;
    hide MorePages, ListFrames, Walk, PagesOf;
    var n := ListFrames(MorePages(left, 0));
    var taken, frames := TakeFrames(pool, n);
    if taken != All { return if taken == Past then Overrun else Refused; }
    FramesExact(MorePages(left, 0));
    var ok, mem := FillLists(phys, next, left, frames[..n]);
    out := if ok then Pointers(prp1, frames[0], mem) else Refused;
  }

  /** One command: the blocks it reads, the bytes its pointers describe, and where they go. */
  datatype Command = Command(lba: nat, blocks: nat, bytes: nat, buffer: nat, prp1: nat, prp2: nat, lists: Lists)

  function EndLba(cmds: seq<Command>, lba: nat): nat {
    if cmds == [] then lba else cmds[|cmds| - 1].lba + cmds[|cmds| - 1].blocks
  }

  function EndBuf(cmds: seq<Command>, buf: nat): nat {
    if cmds == [] then buf else cmds[|cmds| - 1].buffer + cmds[|cmds| - 1].bytes
  }

  /** The 32-bit byte count of a command. */
  function ByteCount(blocks: nat, bs: nat): (n: nat) { Bytes(blocks, bs) % U32 }

  /** The commands ask for done blocks from lba on without a gap, each within the limits, with lists
      that fit into the array and pointers to the pages from where the one before ended. */
  ghost predicate Covers(phys: nat -> nat, cmds: seq<Command>, lba: nat, buf: nat, bs: nat, done: nat) {
    && (forall i :: 0 <= i < |cmds| ==>
          && 0 < cmds[i].blocks <= MAX_BLOCKS && cmds[i].bytes == ByteCount(cmds[i].blocks, bs)
          && cmds[i].bytes <= First(cmds[i].buffer) + MOST
          && Faithful(phys, cmds[i].buffer, cmds[i].bytes, cmds[i].prp1, cmds[i].prp2, cmds[i].lists))
    && (forall i :: 0 <= i < |cmds| ==>
          cmds[i].lba == EndLba(cmds[..i], lba) && cmds[i].buffer == EndBuf(cmds[..i], buf))
    && EndLba(cmds, lba) == lba + done
  }

  lemma CountRight(blocks: nat, bs: nat)
    ensures Bytes(blocks, bs) < U32 <==> ByteCount(blocks, bs) == Bytes(blocks, bs)
  {
    hide Bytes;
  }

  lemma CoversMore(phys: nat -> nat, cmds: seq<Command>, lba: nat, buf: nat, bs: nat, done: nat, c: Command)
    requires Covers(phys, cmds, lba, buf, bs, done) && 0 < c.blocks <= MAX_BLOCKS && c.bytes == ByteCount(c.blocks, bs)
    requires c.lba == lba + done && c.buffer == EndBuf(cmds, buf) && c.bytes <= First(c.buffer) + MOST
    requires Faithful(phys, c.buffer, c.bytes, c.prp1, c.prp2, c.lists)
    ensures Covers(phys, cmds + [c], lba, buf, bs, done + c.blocks)
  {
    var w := cmds + [c];
    hide Faithful, ByteCount, First;
    forall i | 0 <= i < |w| ensures w[i].lba == EndLba(w[..i], lba) && w[i].buffer == EndBuf(w[..i], buf) {
      if i < |cmds| { assert w[..i] == cmds[..i]; } else { assert w[..i] == cmds; }
    }
  }

  /** The most blocks in one command; limit is the device's limit in bytes, 0 for none. */
  function MostBlocks(limit: nat, bs: nat): (n: nat)
    requires bs > 0
    ensures 0 < n <= MAX_BLOCKS
  {
    if limit > 0 && 0 < limit / bs < MAX_BLOCKS then limit / bs else MAX_BLOCKS
  }

  function NextBlocks(left: nat, limit: nat, bs: nat): (n: nat)
    requires bs > 0
    ensures n <= left && n <= MAX_BLOCKS && (left > 0 ==> n > 0)
  {
    if left > MostBlocks(limit, bs) then MostBlocks(limit, bs) else left
  }

  /** The byte counts of the commands for count blocks fit into 32 bits. */
  predicate Whole(count: nat, limit: nat, bs: nat)
    requires bs > 0
  {
    Bytes(NextBlocks(count, limit, bs), bs) < U32
  }

  /** The blocks before command number i. */
  function Start(i: nat, limit: nat, bs: nat): nat
    requires bs > 0
  {
    i * MostBlocks(limit, bs)
  }

  /** The blocks of the last command. */
  function LastBlocks(count: nat, limit: nat, bs: nat): nat
    requires bs > 0
  {
    if count % MostBlocks(limit, bs) == 0 then MostBlocks(limit, bs) else count % MostBlocks(limit, bs)
  }

  /** What a caller can check: neither the first nor the last command can need more lists than the
      array holds, wherever the buffer is. */
  predicate Safe(count: nat, limit: nat, bs: nat)
    requires bs > 0
  {
    ByteCount(NextBlocks(count, limit, bs), bs) <= MOST + 1 && ByteCount(LastBlocks(count, limit, bs), bs) <= MOST + 1
  }

  lemma BytesMono(a: nat, b: nat, bs: nat)
    requires a <= b
    ensures Bytes(a, bs) <= Bytes(b, bs)
  {
    assert (b - a) * bs >= 0;
    assert b * bs == a * bs + (b - a) * bs;
  }

  /** The first command is the largest. */
  lemma NextLess(left: nat, count: nat, limit: nat, bs: nat)
    requires bs > 0 && left <= count
    ensures Bytes(NextBlocks(left, limit, bs), bs) <= Bytes(NextBlocks(count, limit, bs), bs)
  {
    BytesMono(NextBlocks(left, limit, bs), NextBlocks(count, limit, bs), bs);
  }

  lemma StartNext(i: nat, limit: nat, bs: nat)
    requires bs > 0
    ensures Start(i + 1, limit, bs) == Start(i, limit, bs) + MostBlocks(limit, bs) && Start(0, limit, bs) == 0
  {
  }

  lemma StartMono(i: nat, j: nat, limit: nat, bs: nat)
    requires bs > 0 && i <= j
    ensures Start(i, limit, bs) <= Start(j, limit, bs)
  {
    var m := MostBlocks(limit, bs);
    assert j * m == i * m + (j - i) * m;
  }

  /** A command that is not full is the last one. */
  lemma LastIs(i: nat, count: nat, limit: nat, bs: nat)
    requires bs > 0 && Start(i, limit, bs) < count <= Start(i, limit, bs) + MostBlocks(limit, bs)
    ensures LastBlocks(count, limit, bs) == count - Start(i, limit, bs)
  {
    var m, r := MostBlocks(limit, bs), count - Start(i, limit, bs);
    if r < m { DivUnique(count, m, i, r); } else { DivUnique(count, m, i + 1, 0); }
  }

  lemma LastIndex(count: nat, limit: nat, bs: nat)
    requires bs > 0 && count > 0
    ensures var i := (count - 1) / MostBlocks(limit, bs);
      Start(i, limit, bs) < count <= Start(i, limit, bs) + MostBlocks(limit, bs)
  {
    DivMod(count - 1, MostBlocks(limit, bs));
  }

  /** These are the two sizes that occur: exactly then every command fits at every address. */
  lemma SafeExactly(count: nat, limit: nat, bs: nat)
    requires bs > 0 && count > 0
    ensures Safe(count, limit, bs) <==>
      forall i: nat, virt: nat :: Start(i, limit, bs) < count ==>
        ByteCount(NextBlocks(count - Start(i, limit, bs), limit, bs), bs) <= First(virt) + MOST
  {
    hide ByteCount, MostBlocks, LastBlocks;
    if Safe(count, limit, bs) {
      forall i: nat, virt: nat | Start(i, limit, bs) < count
        ensures ByteCount(NextBlocks(count - Start(i, limit, bs), limit, bs), bs) <= First(virt) + MOST
      {
        SafeFits(i, count, limit, bs);
      }
    }
    LastIndex(count, limit, bs);
    LastIs((count - 1) / MostBlocks(limit, bs), count, limit, bs);
    StartNext(0, limit, bs);
    hide Start;
    assert First(4095) == 1;
  }

  lemma SafeFits(i: nat, count: nat, limit: nat, bs: nat)
    requires bs > 0 && Safe(count, limit, bs) && Start(i, limit, bs) < count
    ensures ByteCount(NextBlocks(count - Start(i, limit, bs), limit, bs), bs) <= MOST + 1
  {
    hide ByteCount, MostBlocks, LastBlocks;
    if count <= Start(i, limit, bs) + MostBlocks(limit, bs) { LastIs(i, count, limit, bs); }
    hide Start;
  }

  /** It holds for every block size up to a page. */
  lemma SmallBlocks(count: nat, limit: nat, bs: nat)
    requires 0 < bs <= PAGE
    ensures Safe(count, limit, bs)
  {
    SmallBytes(NextBlocks(count, limit, bs), bs);
    SmallBytes(LastBlocks(count, limit, bs), bs);
    hide ByteCount;
  }

  lemma SmallBytes(n: nat, bs: nat)
    requires n <= MAX_BLOCKS && bs <= PAGE
    ensures ByteCount(n, bs) <= MOST + 1
  {
    BytesMono(n, MAX_BLOCKS, bs);
    assert MAX_BLOCKS * bs <= MAX_BLOCKS * PAGE;
    CountRight(n, bs);
    hide ByteCount;
  }

  ghost predicate AllAccepted(accepts: Command -> bool, cmds: seq<Command>) {
    forall i :: 0 <= i < |cmds| ==> accepts(cmds[i])
  }

  /** The blocks of the commands, cut off as the driver does. */
  ghost predicate Chunked(cmds: seq<Command>, lba: nat, count: nat, limit: nat, bs: nat)
    requires bs > 0
  {
    forall i: nat :: i < |cmds| ==>
      && Start(i, limit, bs) < count && cmds[i].lba == lba + Start(i, limit, bs)
      && cmds[i].blocks == NextBlocks(count - Start(i, limit, bs), limit, bs)
  }

  /** The commands respect the limit of the device, if there is one of at least a block, and each but the
      last of the request is as large as the limit, or else the size field, allows. */
  ghost predicate Limited(cmds: seq<Command>, lba: nat, count: nat, limit: nat, bs: nat) {
    && (forall i :: 0 <= i < |cmds| ==> cmds[i].bytes == cmds[i].blocks * bs % 0x1_0000_0000)
    && (forall i :: 0 <= i < |cmds| && limit > 0 ==> (cmds[i].blocks * bs <= limit <==> bs <= limit))
    && (forall i :: 0 <= i < |cmds| && cmds[i].lba + cmds[i].blocks < lba + count ==>
          cmds[i].blocks == 0x1_0000 || (limit > 0 && (cmds[i].blocks + 1) * bs > limit))
  }

  lemma MostAllowed(left: nat, limit: nat, bs: nat)
    requires bs > 0 && left > 0
    ensures var n := NextBlocks(left, limit, bs);
      && (limit > 0 ==> (n * bs <= limit <==> bs <= limit))
      && (n < left ==> n == 0x1_0000 || (limit > 0 && (n + 1) * bs > limit))
  {
    var n, q := NextBlocks(left, limit, bs), limit / bs;
    DivMod(limit, bs);
    if q > 0 && n <= q { Times(n, q, bs); }
    if limit < bs { Times(1, n, bs); }
    assert (q + 1) * bs == q * bs + bs;
  }

  lemma LimitMore(cmds: seq<Command>, lba: nat, count: nat, limit: nat, bs: nat, done: nat, c: Command)
    requires bs > 0 && Limited(cmds, lba, count, limit, bs) && done < count && c.lba == lba + done
    requires c.blocks == NextBlocks(count - done, limit, bs) && c.bytes == ByteCount(c.blocks, bs)
    ensures Limited(cmds + [c], lba, count, limit, bs)
  {
    MostAllowed(count - done, limit, bs);
    hide NextBlocks;
  }

  lemma ChunkMore(cmds: seq<Command>, lba: nat, count: nat, limit: nat, bs: nat, c: Command)
    requires bs > 0 && Chunked(cmds, lba, count, limit, bs) && Start(|cmds|, limit, bs) < count
    requires c.lba == lba + Start(|cmds|, limit, bs)
    requires c.blocks == NextBlocks(count - Start(|cmds|, limit, bs), limit, bs)
    ensures Chunked(cmds + [c], lba, count, limit, bs)
  {
    hide Start, NextBlocks;
  }

  /** As long as blocks are left, all commands so far were full. */
  lemma DoneIs(phys: nat -> nat, cmds: seq<Command>, lba: nat, count: nat, buf: nat, limit: nat, bs: nat, done: nat)
    requires bs > 0 && Covers(phys, cmds, lba, buf, bs, done) && Chunked(cmds, lba, count, limit, bs) && done <= count
    ensures done < count ==> done == Start(|cmds|, limit, bs)
    ensures done <= Start(|cmds|, limit, bs)
  {
    StartNext(if cmds == [] then 0 else |cmds| - 1, limit, bs);
    LastOf(phys, cmds, lba, count, buf, limit, bs, done);
    hide Start, MostBlocks, Covers, Chunked;
  }

  lemma LastOf(phys: nat -> nat, cmds: seq<Command>, lba: nat, count: nat, buf: nat, limit: nat, bs: nat, done: nat)
    requires bs > 0 && Covers(phys, cmds, lba, buf, bs, done) && Chunked(cmds, lba, count, limit, bs)
    ensures if cmds == [] then done == 0 else
      var d := Start(|cmds| - 1, limit, bs);
      d < count && done == d + NextBlocks(count - d, limit, bs)
  {
    hide Start, NextBlocks, Faithful;
  }

  /** If the byte counts fit into 32 bits, every command describes all its blocks, and the data of
      the whole request lies in the buffer without a gap. */
  lemma {:induction false} WholeRequest(phys: nat -> nat, cmds: seq<Command>, lba: nat, buf: nat, bs: nat, done: nat,
                                        count: nat, limit: nat)
    requires bs > 0 && Covers(phys, cmds, lba, buf, bs, done) && Chunked(cmds, lba, count, limit, bs)
    requires Whole(count, limit, bs)
    ensures forall i :: 0 <= i < |cmds| ==> cmds[i].bytes == Bytes(cmds[i].blocks, bs)
    ensures EndBuf(cmds, buf) == buf + Bytes(done, bs)
  {
    hide *;
    if cmds == [] {
      NothingDone(phys, lba, buf, bs, done);
      return;
    }
    var c, most := cmds[|cmds| - 1], cmds[..|cmds| - 1];
    CoversLess(phys, cmds, lba, buf, bs, done, count, limit);
    WholeIs(count, limit, bs);
    LastEnd(cmds, buf);
    WholeRequest(phys, most, lba, buf, bs, c.lba - lba, count, limit);
    NextLess(count - (c.lba - lba), count, limit, bs);
    CountRight(c.blocks, bs);
    BytesSum(c.lba - lba, c.blocks, bs);
    forall i | 0 <= i < |cmds|
      ensures cmds[i].bytes == Bytes(cmds[i].blocks, bs)
    {
      assert cmds[i] == if i < |most| then most[i] else c;
    }
  }

  lemma NothingDone(phys: nat -> nat, lba: nat, buf: nat, bs: nat, done: nat)
    requires Covers(phys, [], lba, buf, bs, done)
    ensures EndBuf([], buf) == buf + Bytes(done, bs)
  {
  }

  lemma WholeIs(count: nat, limit: nat, bs: nat)
    requires bs > 0
    ensures Whole(count, limit, bs) <==> Bytes(NextBlocks(count, limit, bs), bs) < U32
  {
  }

  lemma LastEnd(cmds: seq<Command>, buf: nat)
    requires cmds != []
    ensures EndBuf(cmds, buf) == cmds[|cmds| - 1].buffer + cmds[|cmds| - 1].bytes
  {
  }

  /** All commands but the last. */
  lemma CoversLess(phys: nat -> nat, cmds: seq<Command>, lba: nat, buf: nat, bs: nat, done: nat, count: nat, limit: nat)
    requires bs > 0 && Covers(phys, cmds, lba, buf, bs, done) && Chunked(cmds, lba, count, limit, bs) && cmds != []
    ensures var c, most := cmds[|cmds| - 1], cmds[..|cmds| - 1];
      && lba <= c.lba < lba + count && c.blocks == NextBlocks(count - (c.lba - lba), limit, bs)
      && c.bytes == ByteCount(c.blocks, bs)
      && c.lba + c.blocks == lba + done && c.buffer == EndBuf(most, buf)
      && Covers(phys, most, lba, buf, bs, c.lba - lba) && Chunked(most, lba, count, limit, bs)
  {
    hide Faithful, NextBlocks, Bytes, ByteCount;
    var most := cmds[..|cmds| - 1];
    forall i | 0 <= i < |most| ensures most[i] == cmds[i] && most[..i] == cmds[..i] { }
    hide Start, First;
  }

  /** Otherwise the first command already describes fewer bytes than it reads. */
  lemma ShortRequest(phys: nat -> nat, cmds: seq<Command>, lba: nat, buf: nat, bs: nat, done: nat, count: nat,
                     limit: nat)
    requires bs > 0 && Covers(phys, cmds, lba, buf, bs, done) && Chunked(cmds, lba, count, limit, bs) && cmds != []
    ensures Whole(count, limit, bs) <==> cmds[0].bytes == Bytes(cmds[0].blocks, bs)
  {
    hide Faithful, NextBlocks, Bytes, ByteCount;
    assert cmds[..0] == [];
    StartNext(0, limit, bs);
    hide Start;
    CountRight(cmds[0].blocks, bs);
  }

  /** nvme_read: split the request into commands and issue them; accepts says whether the device
      completes a command without error. The first done blocks have been asked for; stray says that
      the next command made the driver write behind its array. */
  method Read(phys: nat -> nat, lba: nat, count: nat, buf: nat, bs: nat, limit: nat, pool: seq<nat>,
              accepts: Command -> bool)
    returns (ok: bool, stray: bool, cmds: seq<Command>, done: nat)
    requires L.Distinct(pool)
    ensures Covers(phys, cmds, lba, buf, bs, done) && done <= count && (bs > 0 ==> Chunked(cmds, lba, count, limit, bs))
    ensures ok <==> count > 0 && bs > 0 && done == count && AllAccepted(accepts, cmds)
    ensures ok || stray || !AllAccepted(accepts, cmds) || count == 0 || bs == 0
            || !Ready(phys, EndBuf(cmds, buf), ByteCount(NextBlocks(count - done, limit, bs), bs), pool)
    ensures stray <==> bs > 0 && done < count && AllAccepted(accepts, cmds)
                       && Overruns(phys, EndBuf(cmds, buf), ByteCount(NextBlocks(count - done, limit, bs), bs), pool)
    ensures bs > 0 && Safe(count, limit, bs) ==> !stray
    ensures cmds != [] ==> AllAccepted(accepts, cmds[..|cmds| - 1])
    ensures Limited(cmds, lba, count, limit, bs)
  {
    hide *;
    ok, stray, cmds, done := false, false, [], 0;
    NothingYet(phys, lba, count, buf, limit, bs, accepts);
    if count == 0 || bs == 0 { return; }
    while done < count
      invariant done <= count && Covers(phys, cmds, lba, buf, bs, done) && AllAccepted(accepts, cmds)
      invariant cmds != [] ==> AllAccepted(accepts, cmds[..|cmds| - 1])
      invariant Chunked(cmds, lba, count, limit, bs) && Limited(cmds, lba, count, limit, bs)
    {
      DoneIs(phys, cmds, lba, count, buf, limit, bs, done);
      var out, c := Issue(phys, lba, count, EndBuf(cmds, buf), bs, limit, pool, done, |cmds|);
      if !out.Pointers? {
        stray := out.Overrun?;
        return;
      }
      CoversMore(phys, cmds, lba, buf, bs, done, c);
      AcceptMore(accepts, cmds, c);
      ChunkMore(cmds, lba, count, limit, bs, c);
      LimitMore(cmds, lba, count, limit, bs, done, c);
      assert (cmds + [c])[..|cmds|] == cmds;
      cmds, done := cmds + [c], done + c.blocks;
      if !accepts(c) { return; }
    }
    ok := true;
  }

  /** One round of the loop: the command for the blocks after the first done ones. */
  method Issue(phys: nat -> nat, lba: nat, count: nat, virt: nat, bs: nat, limit: nat, pool: seq<nat>, done: nat,
               ghost i: nat)
    returns (out: Prepared, c: Command)
    requires bs > 0 && L.Distinct(pool) && done < count && done == Start(i, limit, bs)
    ensures var bytes := ByteCount(NextBlocks(count - done, limit, bs), bs);
      && (out.Pointers? <==> Ready(phys, virt, bytes, pool)) && (out.Overrun? <==> Overruns(phys, virt, bytes, pool))
    ensures Safe(count, limit, bs) ==> !out.Overrun?
    ensures out.Pointers? ==>
      && c.lba == lba + done && c.buffer == virt && c.blocks == NextBlocks(count - done, limit, bs)
      && c.bytes == ByteCount(c.blocks, bs) && c.bytes <= First(virt) + MOST
      && Faithful(phys, c.buffer, c.bytes, c.prp1, c.prp2, c.lists)
  {
    hide Faithful, MorePages, ListFrames, ByteCount, NextBlocks, LastBlocks, Start, Mapped;
    var blocks := NextBlocks(count - done, limit, bs);
    var bytes := ByteCount(blocks, bs);
    if Safe(count, limit, bs) { SafeFits(i, count, limit, bs); }
    out := Prepare(phys, virt, bytes, pool);
    c := if out.Pointers? then Command(lba + done, blocks, bytes, virt, out.prp1, out.prp2, out.lists)
      else Command(0, 0, 0, 0, 0, 0, map[]);
  }

  lemma NothingYet(phys: nat -> nat, lba: nat, count: nat, buf: nat, limit: nat, bs: nat, accepts: Command -> bool)
    ensures Covers(phys, [], lba, buf, bs, 0) && AllAccepted(accepts, [])
    ensures (bs > 0 ==> Chunked([], lba, count, limit, bs)) && Limited([], lba, count, limit, bs)
  {
  }

  lemma AcceptMore(accepts: Command -> bool, cmds: seq<Command>, c: Command)
    requires AllAccepted(accepts, cmds)
    ensures AllAccepted(accepts, cmds + [c]) <==> accepts(c)
  {
    assert (cmds + [c])[|cmds|] == c;
  }

  // ---- a request that is not safe strays at some address

  /** The bytes that the driver counts for i full commands. */
  function Skipped(i: nat, limit: nat, bs: nat): nat
    requires bs > 0
  {
    i * ByteCount(MostBlocks(limit, bs), bs)
  }

  lemma SkippedNext(i: nat, limit: nat, bs: nat)
    requires bs > 0
    ensures Skipped(i + 1, limit, bs) == Skipped(i, limit, bs) + ByteCount(MostBlocks(limit, bs), bs)
    ensures Skipped(0, limit, bs) == 0
  {
  }

  /** Command number i starts at this address, if all before it were full. */
  lemma {:induction false} BufferAt(phys: nat -> nat, cmds: seq<Command>, lba: nat, count: nat, buf: nat, limit: nat,
                                    bs: nat, done: nat, i: nat)
    requires bs > 0 && Covers(phys, cmds, lba, buf, bs, done) && Chunked(cmds, lba, count, limit, bs) && i < |cmds|
    ensures cmds[i].buffer == buf + Skipped(i, limit, bs)
    decreases i
  {
    hide Faithful, ByteCount, First, Skipped, Start, MostBlocks;
    if i == 0 {
      assert cmds[..0] == [];
      SkippedNext(0, limit, bs);
    } else {
      BufferAt(phys, cmds, lba, count, buf, limit, bs, done, i - 1);
      StartNext(i - 1, limit, bs);
      SkippedNext(i - 1, limit, bs);
      assert cmds[..i][i - 1] == cmds[i - 1];
    }
  }

  /** A command that was issued has lists that fit. */
  lemma IssuedFits(phys: nat -> nat, cmds: seq<Command>, lba: nat, count: nat, buf: nat, limit: nat, bs: nat,
                   done: nat, i: nat)
    requires bs > 0 && Covers(phys, cmds, lba, buf, bs, done) && Chunked(cmds, lba, count, limit, bs)
    requires Start(i, limit, bs) < count
    ensures i < |cmds| ==>
      ByteCount(NextBlocks(count - Start(i, limit, bs), limit, bs), bs) <= First(buf + Skipped(i, limit, bs)) + MOST
  {
    hide Faithful, ByteCount, First, Start, NextBlocks, MostBlocks, Skipped;
    if i < |cmds| { BufferAt(phys, cmds, lba, count, buf, limit, bs, done, i); }
  }

  /** With all pages mapped and as many frames as the array holds, a command is ready or overruns. */
  lemma ReadyOrOver(phys: nat -> nat, virt: nat, len: nat, pool: seq<nat>)
    requires (forall x :: phys(x) != 0) && |pool| >= MAX_FRAMES
    ensures Ready(phys, virt, len, pool) || Overruns(phys, virt, len, pool)
  {
    FramesFit(len, First(virt));
  }

  /** The command that does not fit, and a buffer at which it starts at the last byte of a page. */
  method FindBad(count: nat, limit: nat, bs: nat) returns (i: nat, buf: nat)
    requires bs > 0 && count > 0 && !Safe(count, limit, bs)
    ensures Start(i, limit, bs) < count && First(buf + Skipped(i, limit, bs)) == 1
    ensures ByteCount(NextBlocks(count - Start(i, limit, bs), limit, bs), bs) > MOST + 1
  {
    hide ByteCount, Start, MostBlocks, LastBlocks, First, Skipped;
    StartNext(0, limit, bs);
    if ByteCount(NextBlocks(count, limit, bs), bs) > MOST + 1 {
      i, buf := 0, 4095;
      SkippedNext(0, limit, bs);
      LastByte(0);
    } else {
      i := (count - 1) / MostBlocks(limit, bs);
      LastIndex(count, limit, bs);
      LastIs(i, count, limit, bs);
      buf := 4095 + 4095 * Skipped(i, limit, bs);
      LastByte(Skipped(i, limit, bs));
    }
  }

  lemma LastByte(x: nat)
    ensures First(4095 + 4095 * x + x) == 1
  {
    assert 4095 + 4095 * x + x == 4095 + PAGE * x;
  }

  function Mapping(x: nat): nat { 1 }

  predicate Always(c: Command) { true }

  lemma MustStray(cmds: seq<Command>, lba: nat, count: nat, buf: nat, limit: nat, bs: nat, pool: seq<nat>, done: nat,
                  i: nat)
    requires bs > 0 && Covers(Mapping, cmds, lba, buf, bs, done) && Chunked(cmds, lba, count, limit, bs)
    requires done <= count && |pool| >= MAX_FRAMES
    requires Start(i, limit, bs) < count && First(buf + Skipped(i, limit, bs)) == 1
    requires ByteCount(NextBlocks(count - Start(i, limit, bs), limit, bs), bs) > MOST + 1
    ensures done < count && AllAccepted(Always, cmds)
    ensures var bytes := ByteCount(NextBlocks(count - done, limit, bs), bs);
      Ready(Mapping, EndBuf(cmds, buf), bytes, pool) || Overruns(Mapping, EndBuf(cmds, buf), bytes, pool)
  {
    hide Start, ByteCount, MostBlocks, NextBlocks, First, Covers, Chunked, Ready, Overruns, Skipped;
    IssuedFits(Mapping, cmds, lba, count, buf, limit, bs, done, i);
    StartMono(if |cmds| <= i then |cmds| else i, i, limit, bs);
    DoneIs(Mapping, cmds, lba, count, buf, limit, bs, done);
    ReadyOrOver(Mapping, EndBuf(cmds, buf), ByteCount(NextBlocks(count - done, limit, bs), bs), pool);
  }

  /** So for every request that is not safe there is a call that writes behind the array. */
  method StrayCall(lba: nat, count: nat, limit: nat, bs: nat) returns (buf: nat, stray: bool)
    requires bs > 0 && count > 0 && !Safe(count, limit, bs)
    ensures stray
  {
    var i: nat;
    i, buf := FindBad(count, limit, bs);
    var pool := seq(MAX_FRAMES, k => k);
    assert L.Distinct(pool);
    hide *;
    var ok, cmds, done;
    ok, stray, cmds, done := Read(Mapping, lba, count, buf, bs, limit, pool, Always);
    MustStray(cmds, lba, count, buf, limit, bs, pool, done, i);
  }
}
