/** The 4-level page tables of src/kernel/mem/vmm.c (section 4.5 of volume 3A of the Intel SDM),
    user half, on top of the frame allocator.

    `Space` is an address space as a value: which frame holds each table, and the map from user
    pages to leaf entries. The class holds physical memory and the allocator; its invariant says
    that, for every address space at once, the words in memory represent its `Space` and no two
    tables share a frame. */
module PageTables {
  import opened Machine
  import P = Pmm

  const USER_PAGES: nat := 0x8_0000_0000  // USER_SPACE_MAX / PAGE
  const FRAMES: nat := 0x100_0000_0000    // frame numbers under PTE_ADDR_MASK

  /** One 64-bit entry: PRESENT, WRITABLE, USER and HUGE bits, the other flag bits, the frame number. */
  datatype Entry = Entry(present: bool, writable: bool, user: bool, huge: bool, rest: nat, frame: nat)
  datatype Flags = Flags(writable: bool, user: bool, huge: bool, rest: nat)

  const ZERO := Entry(false, false, false, false, 0, 0)

  type Mem = map<nat, seq<Entry>>

  function At(mem: Mem, f: nat, i: nat): Entry {
    if f in mem && i < |mem[f]| then mem[f][i] else ZERO
  }

  function Put(mem: Mem, f: nat, i: nat, e: Entry): Mem {
    if f in mem && i < |mem[f]| then mem[f := mem[f][i := e]] else mem
  }

  function Blank(): seq<Entry> { seq(512, i => ZERO) }

  // ---- the tree of tables

  /** The table of level 4 (PML4) down to 1 (PT) that covers the pages k * 512^level and up. */
  datatype Node = Node(level: nat, key: nat)

  const ROOT := Node(4, 0)

  datatype Space = Space(tabs: map<Node, nat>, pages: map<nat, Entry>)

  function Parent(n: Node): Node { Node(n.level + 1, n.key / 512) }

  /** The key of the ancestor d levels up. */
  function Up(k: nat, d: nat): nat
    decreases d
  {
    if d == 0 then k else Up(k / 512, d - 1)
  }

  /** The table of the given level on the walk to page v. */
  function Anc(v: nat, level: nat): Node { Node(level, Up(v, level)) }

  ghost predicate Shape(tabs: map<Node, nat>) {
    && ROOT in tabs
    && (forall n :: n in tabs ==> 1 <= n.level <= 4 && (n.level == 4 ==> n == ROOT))
    && (forall n :: n in tabs && n != ROOT ==> Parent(n) in tabs)
    && (forall n :: n in tabs && n.level == 3 ==> n.key < 256)
    && (forall m, n :: m in tabs && n in tabs && tabs[m] == tabs[n] ==> m == n)
  }

  /** The entry that points to table n; for level 0, the leaf entry of a page. */
  function Link(mem: Mem, tabs: map<Node, nat>, n: Node): Entry {
    if Parent(n) in tabs then At(mem, tabs[Parent(n)], n.key % 512) else ZERO
  }

  predicate UserNode(n: Node) { n.level == 3 ==> n.key < 256 }

  /** A present entry points to the tracked table; an absent one to none. Entry words of the user
      half hold nothing else, and none of them is a huge mapping. */
  ghost predicate LinksOk(mem: Mem, s: Space) {
    && (forall n :: n in s.tabs ==> s.tabs[n] in mem && |mem[s.tabs[n]]| == 512)
    && (forall n: Node {:trigger Link(mem, s.tabs, n)} :: 1 <= n.level <= 3 && Parent(n) in s.tabs && UserNode(n) ==>
          var e := Link(mem, s.tabs, n);
          (e.present <==> n in s.tabs) && (n in s.tabs ==> e.frame == s.tabs[n]) && !e.huge)
  }

  ghost predicate LeavesOk(mem: Mem, s: Space) {
    && (forall v :: v in s.pages ==> v < USER_PAGES && Anc(v, 1) in s.tabs && s.pages[v].present)
    && (forall v: nat {:trigger Link(mem, s.tabs, Node(0, v))} :: Anc(v, 1) in s.tabs ==>
          var e := Link(mem, s.tabs, Node(0, v));
          (e.present <==> v in s.pages) && (v in s.pages ==> e == s.pages[v]))
  }

  /** Entry e lets through every access that the leaf allows. */
  predicate Allows(e: Entry, writable: bool, user: bool) {
    (writable ==> e.writable) && (user ==> e.user)
  }

  ghost predicate PermsOk(mem: Mem, s: Space) {
    forall v, l {:trigger Link(mem, s.tabs, Anc(v, l))} :: v in s.pages && 1 <= l <= 3 ==>
      Allows(Link(mem, s.tabs, Anc(v, l)), s.pages[v].writable, s.pages[v].user)
  }

  ghost predicate SpaceOk(mem: Mem, s: Space) {
    Shape(s.tabs) && LinksOk(mem, s) && LeavesOk(mem, s) && PermsOk(mem, s)
  }

  ghost function Tables(s: Space): set<nat> { s.tabs.Values }

  // ---- arithmetic of keys

  lemma UpFacts(v: nat)
    ensures Up(v, 0) == v && Up(v, 1) == v / 512 && Up(v, 2) == v / 512 / 512
    ensures Up(v, 3) == v / 512 / 512 / 512 && Up(v, 4) == v / 512 / 512 / 512 / 512
    ensures v < USER_PAGES ==> Up(v, 3) < 256 && Up(v, 4) == 0
    ensures Parent(Anc(v, 1)) == Anc(v, 2) && Parent(Anc(v, 2)) == Anc(v, 3) && Parent(Anc(v, 3)) == Anc(v, 4)
    ensures Parent(Node(0, v)) == Anc(v, 1)
  {
    assert Up(v, 2) == Up(v / 512, 1);
    assert Up(v, 3) == Up(v / 512, 2) == Up(v / 512 / 512, 1);
    assert Up(v, 4) == Up(v / 512, 3) == Up(v / 512 / 512, 2) == Up(v / 512 / 512 / 512, 1);
  }

  // ---- vmmVirtToPhys, a read-only walk

  function Index(virt: nat, level: nat): (i: nat)
    requires 1 <= level <= 4
    ensures i < 512
  {
    match level
    case 4 => virt / 0x80_0000_0000 % 512
    case 3 => virt / 0x4000_0000 % 512
    case 2 => virt / 0x20_0000 % 512
    case _ => virt / 0x1000 % 512
  }

  function VirtToPhys(mem: Mem, root: nat, virt: nat): nat {
    var e4 := At(mem, root, Index(virt, 4));
    if !e4.present then 0 else
    var e3 := At(mem, e4.frame, Index(virt, 3));
    if !e3.present then 0 else
    if e3.huge then e3.frame / 0x4_0000 * 0x4000_0000 + virt % 0x4000_0000 else
    var e2 := At(mem, e3.frame, Index(virt, 2));
    if !e2.present then 0 else
    if e2.huge then e2.frame / 0x200 * 0x20_0000 + virt % 0x20_0000 else
    var e1 := At(mem, e2.frame, Index(virt, 1));
    if !e1.present then 0 else
    e1.frame * PAGE + virt % PAGE
  }

  /** What the processor allows at a user address: every level must grant the right. */
  datatype Access = Fault | Grant(phys: nat, writable: bool, user: bool)

  function MmuWalk(mem: Mem, root: nat, virt: nat): Access {
    var e4 := At(mem, root, Index(virt, 4));
    var e3 := At(mem, e4.frame, Index(virt, 3));
    var e2 := At(mem, e3.frame, Index(virt, 2));
    var e1 := At(mem, e2.frame, Index(virt, 1));
    if !(e4.present && e3.present && e2.present && e1.present) then Fault else
    Grant(e1.frame * PAGE + virt % PAGE,
          e4.writable && e3.writable && e2.writable && e1.writable,
          e4.user && e3.user && e2.user && e1.user)
  }

  lemma IndexIsKey(virt: nat)
    ensures var v := virt / PAGE;
      && Index(virt, 1) == v % 512 && Index(virt, 2) == Up(v, 1) % 512
      && Index(virt, 3) == Up(v, 2) % 512 && Index(virt, 4) == Up(v, 3) % 512
  {
    UpFacts(virt / PAGE);
    hide Up;
    Shifts(virt);
  }

  lemma Shifts(x: nat)
    ensures x / 0x20_0000 == x / 0x1000 / 512
    ensures x / 0x4000_0000 == x / 0x1000 / 512 / 512
    ensures x / 0x80_0000_0000 == x / 0x1000 / 512 / 512 / 512
  {
  }

  /** One step down the walk: the entry read at a tracked table decides whether the child exists. */
  lemma WalkStep(mem: Mem, s: Space, n: Node)
    requires SpaceOk(mem, s) && 1 <= n.level <= 3 && UserNode(n) && Parent(n) in s.tabs
    ensures var e := At(mem, s.tabs[Parent(n)], n.key % 512);
      e == Link(mem, s.tabs, n) && (e.present <==> n in s.tabs) && !e.huge && (n in s.tabs ==> e.frame == s.tabs[n])
  {
    hide LeavesOk, PermsOk;
    assert Link(mem, s.tabs, n) == At(mem, s.tabs[Parent(n)], n.key % 512);
  }

  lemma {:induction false} AncestorsExist(s: Space, v: nat, l: nat)
    requires Shape(s.tabs) && 1 <= l <= 4 && Anc(v, l) in s.tabs && v < USER_PAGES
    ensures forall k :: l <= k <= 4 ==> Anc(v, k) in s.tabs
    decreases 4 - l
  {
    UpFacts(v);
    if l < 4 { AncestorsExist(s, v, l + 1); }
  }

  /** The walk reads exactly the page map, and every access the leaf allows gets through the upper
      levels: the effective rights are the leaf's. */
  lemma WalkReadsMap(mem: Mem, s: Space, virt: nat)
    requires SpaceOk(mem, s) && virt < USER_PAGES * PAGE
    ensures var v := virt / PAGE;
      if v in s.pages then
        && VirtToPhys(mem, s.tabs[ROOT], virt) == s.pages[v].frame * PAGE + virt % PAGE
        && MmuWalk(mem, s.tabs[ROOT], virt)
           == Grant(s.pages[v].frame * PAGE + virt % PAGE, s.pages[v].writable, s.pages[v].user)
      else
        VirtToPhys(mem, s.tabs[ROOT], virt) == 0 && MmuWalk(mem, s.tabs[ROOT], virt) == Fault
  {
    var v := virt / PAGE;
    UpFacts(v);
    IndexIsKey(virt);
    var n3, n2, n1 := Anc(v, 3), Anc(v, 2), Anc(v, 1);
    if v in s.pages {
      AncestorsExist(s, v, 1);
      assert Allows(Link(mem, s.tabs, n3), s.pages[v].writable, s.pages[v].user);
      assert Allows(Link(mem, s.tabs, n2), s.pages[v].writable, s.pages[v].user);
      assert Allows(Link(mem, s.tabs, n1), s.pages[v].writable, s.pages[v].user);
    }
    WalkStep(mem, s, n3);
    if n3 in s.tabs {
      WalkStep(mem, s, n2);
      if n2 in s.tabs {
        WalkStep(mem, s, n1);
        if n1 in s.tabs {
          assert Link(mem, s.tabs, Node(0, v)) == At(mem, s.tabs[n1], v % 512);
        }
      }
    }
  }

  // ---- how one written word changes the space

  ghost predicate Sized(mem: Mem, tabs: map<Node, nat>) {
    forall n :: n in tabs ==> tabs[n] in mem && |mem[tabs[n]]| == 512
  }

  lemma LinkPut(mem: Mem, tabs: map<Node, nat>, m: Node, e: Entry, n: Node)
    requires Shape(tabs) && Sized(mem, tabs) && Parent(m) in tabs
    ensures Link(Put(mem, tabs[Parent(m)], m.key % 512, e), tabs, n) == if n == m then e else Link(mem, tabs, n)
    ensures Sized(Put(mem, tabs[Parent(m)], m.key % 512, e), tabs)
  {
  }

  /** Writing the leaf word of page v maps or unmaps exactly that page. */
  lemma WriteLeaf(mem: Mem, s: Space, v: nat, e: Entry)
    requires SpaceOk(mem, s) && v < USER_PAGES && Anc(v, 1) in s.tabs
    requires e.present ==> forall l :: 1 <= l <= 3 ==> Allows(Link(mem, s.tabs, Anc(v, l)), e.writable, e.user)
    ensures SpaceOk(Put(mem, s.tabs[Anc(v, 1)], v % 512, e),
                    s.(pages := if e.present then s.pages[v := e] else s.pages - {v}))
  {
    var mem' := Put(mem, s.tabs[Anc(v, 1)], v % 512, e);
    var s' := s.(pages := if e.present then s.pages[v := e] else s.pages - {v});
    var m := Node(0, v);
    assert Parent(m) == Anc(v, 1) by { UpFacts(v); }
    assert Sized(mem, s.tabs);
    forall n ensures Link(mem', s.tabs, n) == if n == m then e else Link(mem, s.tabs, n) {
      LinkPut(mem, s.tabs, m, e, n);
    }
    assert LinksOk(mem', s') by { LinkPut(mem, s.tabs, m, e, m); }
    assert LeavesOk(mem', s');
    assert PermsOk(mem', s');
  }

  /** Widening the rights of an entry that points to a table changes no translation. */
  lemma WriteRights(mem: Mem, s: Space, m: Node, e: Entry)
    requires SpaceOk(mem, s) && m in s.tabs && m != ROOT
    requires var o := Link(mem, s.tabs, m);
      e.present && !e.huge && e.frame == o.frame && Allows(e, o.writable, o.user)
    ensures Parent(m) in s.tabs && SpaceOk(Put(mem, s.tabs[Parent(m)], m.key % 512, e), s)
  {
    var mem' := Put(mem, s.tabs[Parent(m)], m.key % 512, e);
    assert Sized(mem, s.tabs);
    forall n ensures Link(mem', s.tabs, n) == if n == m then e else Link(mem, s.tabs, n) {
      LinkPut(mem, s.tabs, m, e, n);
    }
    assert LinksOk(mem', s) by { LinkPut(mem, s.tabs, m, e, m); }
    assert LeavesOk(mem', s);
    assert PermsOk(mem', s);
  }

  /** Hooking a blank table into the tree changes no translation. */
  lemma AddTable(mem: Mem, s: Space, m: Node, f: nat, e: Entry)
    requires SpaceOk(mem, s) && f !in Tables(s)
    requires 1 <= m.level <= 3 && UserNode(m) && m !in s.tabs && Parent(m) in s.tabs
    requires e.present && !e.huge && e.frame == f
    ensures SpaceOk(Put(mem[f := Blank()], s.tabs[Parent(m)], m.key % 512, e), s.(tabs := s.tabs[m := f]))
  {
    var mem1 := mem[f := Blank()];
    var mem' := Put(mem1, s.tabs[Parent(m)], m.key % 512, e);
    var s' := s.(tabs := s.tabs[m := f]);
    assert Shape(s'.tabs);
    assert Sized(mem1, s'.tabs);
    forall n
      ensures Link(mem', s'.tabs, n) == if n == m then e else if Parent(n) == m then ZERO else Link(mem, s.tabs, n)
    {
      LinkPut(mem1, s'.tabs, m, e, n);
      if Parent(n) in s.tabs { assert s.tabs[Parent(n)] in Tables(s); }
    }
    assert LinksOk(mem', s') by { LinkPut(mem1, s'.tabs, m, e, m); }
    assert LeavesOk(mem', s');
    NotAbove(mem, s, m);
    assert PermsOk(mem', s');
  }

  /** A table that does not exist is above no page. */
  lemma NotAbove(mem: Mem, s: Space, m: Node)
    requires SpaceOk(mem, s) && m !in s.tabs && Parent(m) in s.tabs && 1 <= m.level <= 3
    ensures forall v, l {:trigger Anc(v, l)} :: v in s.pages && 1 <= l <= 3 ==> Anc(v, l) != m && Parent(Anc(v, l)) != m
  {
    forall v, l | v in s.pages && 1 <= l <= 3 ensures Anc(v, l) != m && Parent(Anc(v, l)) != m {
      UpFacts(v);
      AncestorsExist(s, v, 1);
    }
  }

  ghost predicate AllAbsent(mem: Mem, f: nat) {
    forall i: nat :: i < 512 ==> !At(mem, f, i).present
  }

  /** A table without present entries covers no page and no table. */
  lemma EmptyHasNothing(mem: Mem, s: Space, m: Node)
    requires SpaceOk(mem, s) && m in s.tabs && m != ROOT && AllAbsent(mem, s.tabs[m])
    ensures forall n :: n in s.tabs && n != ROOT ==> Parent(n) != m
    ensures forall v :: v in s.pages ==> Anc(v, 1) != m
  {
    forall n | n in s.tabs && n != ROOT ensures Parent(n) != m {
      assert Link(mem, s.tabs, n).present;
    }
    forall v | v in s.pages ensures Anc(v, 1) != m {
      UpFacts(v);
      assert Link(mem, s.tabs, Node(0, v)).present;
    }
  }

  /** mem' is mem with the entry that points to m cleared. */
  ghost predicate Unhooked(mem: Mem, mem': Mem, tabs: map<Node, nat>, m: Node) {
    && Shape(tabs - {m}) && Sized(mem', tabs)
    && (forall n :: Parent(n) in tabs - {m} ==>
          Link(mem', tabs - {m}, n) == if n == m then ZERO else Link(mem, tabs, n))
  }

  lemma Unhook(mem: Mem, tabs: map<Node, nat>, m: Node)
    requires Shape(tabs) && Sized(mem, tabs) && m in tabs && m != ROOT
    requires forall n :: n in tabs && n != ROOT ==> Parent(n) != m
    ensures Unhooked(mem, Put(mem, tabs[Parent(m)], m.key % 512, ZERO), tabs, m)
  {
    var mem' := Put(mem, tabs[Parent(m)], m.key % 512, ZERO);
    forall n | Parent(n) in tabs - {m}
      ensures Link(mem', tabs - {m}, n) == if n == m then ZERO else Link(mem, tabs, n) {
      LinkPut(mem, tabs, m, ZERO, n);
    }
    LinkPut(mem, tabs, m, ZERO, m);
  }

  /** Unhooking an emptied table changes no translation. */
  lemma DropTable(mem: Mem, s: Space, m: Node)
    requires SpaceOk(mem, s) && m in s.tabs && m != ROOT && AllAbsent(mem, s.tabs[m])
    ensures Parent(m) in s.tabs
    ensures SpaceOk(Put(mem, s.tabs[Parent(m)], m.key % 512, ZERO), s.(tabs := s.tabs - {m}))
  {
    var mem' := Put(mem, s.tabs[Parent(m)], m.key % 512, ZERO);
    EmptyHasNothing(mem, s, m);
    assert Sized(mem, s.tabs);
    Unhook(mem, s.tabs, m);
    DropKeepsLinks(mem, mem', s, m);
    DropKeepsLeaves(mem, mem', s, m);
    DropKeepsPerms(mem, mem', s, m);
  }

  lemma DropKeepsLinks(mem: Mem, mem': Mem, s: Space, m: Node)
    requires LinksOk(mem, s) && Unhooked(mem, mem', s.tabs, m)
    ensures LinksOk(mem', s.(tabs := s.tabs - {m}))
  {
  }

  lemma DropKeepsLeaves(mem: Mem, mem': Mem, s: Space, m: Node)
    requires LeavesOk(mem, s) && Unhooked(mem, mem', s.tabs, m) && m.level > 0
    requires forall v :: v in s.pages ==> Anc(v, 1) != m
    ensures LeavesOk(mem', s.(tabs := s.tabs - {m}))
  {
    forall v: nat | Anc(v, 1) in s.tabs - {m}
      ensures Link(mem', s.tabs - {m}, Node(0, v)) == Link(mem, s.tabs, Node(0, v)) { UpFacts(v); }
  }

  lemma DropKeepsPerms(mem: Mem, mem': Mem, s: Space, m: Node)
    requires LeavesOk(mem, s) && PermsOk(mem, s) && Unhooked(mem, mem', s.tabs, m)
    requires forall v :: v in s.pages ==> Anc(v, 1) != m
    ensures PermsOk(mem', s.(tabs := s.tabs - {m}))
  {
    var s' := s.(tabs := s.tabs - {m});
    forall v, l | v in s.pages && 1 <= l <= 3 ensures Link(mem', s'.tabs, Anc(v, l)) == Link(mem, s.tabs, Anc(v, l)) {
      UpFacts(v);
      AncestorsExist(s', v, 1);
    }
  }

  /** A space only depends on its own tables. */
  lemma SpaceFrame(mem: Mem, mem': Mem, s: Space)
    requires SpaceOk(mem, s)
    requires forall f :: f in Tables(s) ==> f in mem && f in mem' && mem[f] == mem'[f]
    ensures SpaceOk(mem', s)
  {
    forall n ensures Link(mem', s.tabs, n) == Link(mem, s.tabs, n) {
      if Parent(n) in s.tabs { assert s.tabs[Parent(n)] in Tables(s); }
    }
    forall n | n in s.tabs ensures s.tabs[n] in mem' && |mem'[s.tabs[n]]| == 512 { assert s.tabs[n] in Tables(s); }
    assert LinksOk(mem', s);
    assert LeavesOk(mem', s);
    assert PermsOk(mem', s);
  }

  // ---- all address spaces together

  /** Physical memory, the address spaces by root frame, and the allocated frames. */
  datatype St = St(mem: Mem, spaces: map<nat, Space>, used: set<nat>)

  ghost predicate Rooted(st: St, s: Space, r: nat) {
    SpaceOk(st.mem, s) && s.tabs[ROOT] == r && Tables(s) <= st.used && 0 !in Tables(s)
  }

  /** Every address space is well formed in memory, its tables are allocated, and no two address
      spaces share a table with each other or with the kernel's PML4. */
  ghost predicate World(st: St, kernel: nat) {
    && kernel in st.used && kernel in st.mem && |st.mem[kernel]| == 512
    && (forall r :: r in st.spaces ==> Rooted(st, st.spaces[r], r) && kernel !in Tables(st.spaces[r]))
    && (forall q, r :: q in st.spaces && r in st.spaces && q != r ==> Tables(st.spaces[q]) !! Tables(st.spaces[r]))
  }

  /** Allocated frames outside the tables of s keep their contents and stay allocated. */
  ghost predicate OthersKept(st: St, st': St, s: Space) {
    && (forall f :: f in st.used && f !in Tables(s) && f in st.mem ==> f in st'.mem && st'.mem[f] == st.mem[f])
    && st.used - Tables(s) <= st'.used
  }

  lemma TableInMem(mem: Mem, s: Space, f: nat)
    requires SpaceOk(mem, s) && f in Tables(s)
    ensures f in mem && |mem[f]| == 512
  {
    var n :| n in s.tabs && s.tabs[n] == f;
    assert LinksOk(mem, s);
  }

  lemma OtherSpaceKept(st: St, st': St, s: Space, t: Space, q: nat)
    requires Rooted(st, t, q) && OthersKept(st, st', s) && Tables(s) !! Tables(t)
    ensures Rooted(st', t, q)
  {
    forall f | f in Tables(t) ensures f in st.mem && f in st'.mem && st'.mem[f] == st.mem[f] {
      TableInMem(st.mem, t, f);
    }
    SpaceFrame(st.mem, st'.mem, t);
  }

  /** A change of one space, inside its own tables and frames that were free, keeps all the others. */
  lemma WorldUpdate(st: St, st': St, r: nat, s: Space, kernel: nat)
    requires World(st, kernel) && r in st.spaces && st'.spaces == st.spaces[r := s] && Rooted(st', s, r)
    requires OthersKept(st, st', st.spaces[r])
    requires Tables(s) - Tables(st.spaces[r]) !! st.used
    ensures World(st', kernel)
  {
    hide Tables, SpaceOk;
    forall q | q in st.spaces && q != r
      ensures Rooted(st', st.spaces[q], q) && Tables(st.spaces[q]) !! Tables(s) && kernel !in Tables(st.spaces[q]) {
      assert Rooted(st, st.spaces[q], q);
      OtherSpaceKept(st, st', st.spaces[r], st.spaces[q], q);
    }
    Reassemble(st', st.spaces, r, s, kernel);
  }

  lemma Reassemble(st: St, spaces: map<nat, Space>, r: nat, s: Space, kernel: nat)
    requires r in spaces && st.spaces == spaces[r := s] && Rooted(st, s, r) && kernel !in Tables(s)
    requires kernel in st.used && kernel in st.mem && |st.mem[kernel]| == 512
    requires forall q :: q in spaces && q != r ==>
      Rooted(st, spaces[q], q) && Tables(spaces[q]) !! Tables(s) && kernel !in Tables(spaces[q])
    requires forall p, q :: p in spaces && q in spaces && p != q ==> Tables(spaces[p]) !! Tables(spaces[q])
    ensures World(st, kernel)
  {
    hide Tables, Rooted;
  }

  lemma TablesAdd(s: Space, m: Node, f: nat)
    requires m !in s.tabs
    ensures Tables(s.(tabs := s.tabs[m := f])) == Tables(s) + {f}
  {
    var t := s.tabs[m := f];
    forall x | x in Tables(s) ensures x in t.Values {
      var n :| n in s.tabs && s.tabs[n] == x;
      assert t[n] == x;
    }
    assert t[m] == f;
  }

  lemma TablesDrop(s: Space, m: Node)
    requires Shape(s.tabs) && m in s.tabs
    ensures Tables(s.(tabs := s.tabs - {m})) == Tables(s) - {s.tabs[m]}
  {
    var t := s.tabs - {m};
    forall x | x in Tables(s) && x != s.tabs[m] ensures x in t.Values {
      var n :| n in s.tabs && s.tabs[n] == x;
      assert t[n] == x;
    }
  }

  lemma PutKept(st: St, st': St, f: nat, i: nat, e: Entry, s: Space)
    requires f in Tables(s) && st'.mem == Put(st.mem, f, i, e) && st.used - Tables(s) <= st'.used
    ensures OthersKept(st, st', s)
  {
  }

  // ---- getOrAllocTable

  /** Table n is now in frame f. Its entry has gained the rights asked for, or, if the table is new, is
      writable, for users if that was asked for, and leads to a table without entries. No other entry
      of the tree changed. */
  ghost predicate TableReady(mem: Mem, s: Space, mem': Mem, s': Space, n: Node, f: nat, flags: Flags) {
    && s' == s.(tabs := s.tabs[n := f])
    && SpaceOk(mem', s')
    && (Link(mem', s'.tabs, n) ==
        if n !in s.tabs then Entry(true, true, flags.user, false, 0, f)
        else var e := Link(mem, s.tabs, n);
          Entry(e.present, e.writable || flags.writable, e.user || flags.user, e.huge, e.rest, e.frame))
    && (forall m :: m != n ==>
          Link(mem', s'.tabs, m) == if n !in s.tabs && Parent(m) == n then ZERO else Link(mem, s.tabs, m))
  }

  /** What a successful getOrAllocTable does: at most one frame that was free becomes a table of r. */
  ghost predicate Extended(st: St, st': St, r: nat, n: Node, f: nat, flags: Flags) {
    && r in st.spaces && r in st'.spaces
    && (if n in st.spaces[r].tabs then st.spaces[r].tabs[n] == f else f !in st.used)
    && st'.used == st.used + {f}
    && st'.spaces == st.spaces[r := st'.spaces[r]]
    && TableReady(st.mem, st.spaces[r], st'.mem, st'.spaces[r], n, f, flags)
  }

  function Widened(e: Entry, flags: Flags): Entry {
    e.(user := e.user || flags.user, writable := e.writable || flags.writable)
  }

  function Pointer(f: nat, flags: Flags): Entry {
    Entry(true, true, flags.user, false, 0, f)
  }

  lemma ReuseReady(mem: Mem, s: Space, n: Node, flags: Flags)
    requires SpaceOk(mem, s) && n in s.tabs && n != ROOT
    ensures Parent(n) in s.tabs && s.tabs[n := s.tabs[n]] == s.tabs && Link(mem, s.tabs, n).frame == s.tabs[n]
    ensures TableReady(mem, s, Put(mem, s.tabs[Parent(n)], n.key % 512, Widened(Link(mem, s.tabs, n), flags)),
                       s, n, s.tabs[n], flags)
  {
    WalkStep(mem, s, n);
    var e := Widened(Link(mem, s.tabs, n), flags);
    WriteRights(mem, s, n, e);
    assert Sized(mem, s.tabs);
    forall m
      ensures Link(Put(mem, s.tabs[Parent(n)], n.key % 512, e), s.tabs, m) == if m == n then e else Link(mem, s.tabs, m)
    {
      LinkPut(mem, s.tabs, n, e, m);
    }
  }

  lemma NewReady(mem: Mem, s: Space, n: Node, flags: Flags, f: nat)
    requires SpaceOk(mem, s) && f !in Tables(s)
    requires 1 <= n.level <= 3 && UserNode(n) && n !in s.tabs && Parent(n) in s.tabs
    ensures TableReady(mem, s, Put(mem[f := Blank()], s.tabs[Parent(n)], n.key % 512, Pointer(f, flags)),
                       s.(tabs := s.tabs[n := f]), n, f, flags)
  {
    var e, mem1, s' := Pointer(f, flags), mem[f := Blank()], s.(tabs := s.tabs[n := f]);
    AddTable(mem, s, n, f, e);
    assert Shape(s'.tabs);
    assert Sized(mem1, s'.tabs) by { assert Sized(mem, s.tabs); }
    hide SpaceOk;
    forall m
      ensures Link(Put(mem1, s.tabs[Parent(n)], n.key % 512, e), s'.tabs, m) ==
      if m == n then e else if Parent(m) == n then ZERO else Link(mem, s.tabs, m)
    {
      LinkPut(mem1, s'.tabs, n, e, m);
      if Parent(m) in s.tabs { assert s.tabs[Parent(m)] in Tables(s); }
    }
  }

  lemma ReuseTable(st: St, st': St, kernel: nat, r: nat, n: Node, flags: Flags, parent: nat, idx: nat)
    requires World(st, kernel) && Walkable(st, r, n, parent, idx) && n in st.spaces[r].tabs
    requires st' == st.(mem := Put(st.mem, parent, idx, Widened(At(st.mem, parent, idx), flags)))
    ensures World(st', kernel) && Extended(st, st', r, n, At(st.mem, parent, idx).frame, flags)
    ensures At(st.mem, parent, idx).frame != 0
  {
    var s := st.spaces[r];
    assert Rooted(st, s, r);
    ReuseReady(st.mem, s, n, flags);
    assert parent in Tables(s) && s.tabs[n] in Tables(s);
    assert Link(st.mem, s.tabs, n) == At(st.mem, parent, idx);
    hide Tables, Link, SpaceOk;
    PutKept(st, st', parent, idx, Widened(At(st.mem, parent, idx), flags), s);
    assert st.spaces[r := s] == st.spaces;
    WorldUpdate(st, st', r, s, kernel);
  }

  lemma NewTable(st: St, st': St, kernel: nat, r: nat, n: Node, flags: Flags, parent: nat, idx: nat, f: nat)
    requires World(st, kernel) && Walkable(st, r, n, parent, idx) && n !in st.spaces[r].tabs
    requires f != 0 && f !in st.used
    requires st' == St(Put(st.mem[f := Blank()], parent, idx, Pointer(f, flags)),
                       st.spaces[r := st.spaces[r].(tabs := st.spaces[r].tabs[n := f])], st.used + {f})
    ensures World(st', kernel) && Extended(st, st', r, n, f, flags)
  {
    var s, s' := st.spaces[r], st'.spaces[r];
    assert Rooted(st, s, r);
    assert parent in Tables(s);
    hide Link, SpaceOk, UserNode, Pointer;
    NewReady(st.mem, s, n, flags, f);
    TablesAdd(s, n, f);
    hide Tables;
    PutKept(st.(mem := st.mem[f := Blank()]), st', parent, idx, Pointer(f, flags), s);
    assert OthersKept(st, st', s);
    assert s'.tabs[ROOT] == r;
    WorldUpdate(st, st', r, s', kernel);
  }

  /** The entry at idx of the table in frame parent is the one that points to table n of r. */
  ghost predicate Walkable(st: St, r: nat, n: Node, parent: nat, idx: nat) {
    && r in st.spaces && 1 <= n.level <= 3 && UserNode(n)
    && Parent(n) in st.spaces[r].tabs && parent == st.spaces[r].tabs[Parent(n)] && idx == n.key % 512
  }

  lemma PresentMeansThere(st: St, kernel: nat, r: nat, n: Node, parent: nat, idx: nat)
    requires World(st, kernel) && Walkable(st, r, n, parent, idx)
    ensures At(st.mem, parent, idx).present <==> n in st.spaces[r].tabs
  {
    assert Rooted(st, st.spaces[r], r);
    WalkStep(st.mem, st.spaces[r], n);
  }

  // ---- the walk of vmmMapPage

  /** The word vmmMapPage writes into the PT. */
  function LeafOf(phys: nat, flags: Flags): Entry {
    Entry(true, flags.writable, flags.user, flags.huge, flags.rest, phys / PAGE % FRAMES)
  }

  ghost function SetPage(s: Space, v: nat, e: Entry): Space {
    s.(pages := if e.present then s.pages[v := e] else s.pages - {v})
  }

  /** The tables of levels l..3 on the walk to v exist and their entries let the access through. */
  ghost predicate LetsThrough(mem: Mem, s: Space, v: nat, l: nat, writable: bool, user: bool) {
    forall k {:trigger Anc(v, k)} :: l <= k <= 3 ==>
      Anc(v, k) in s.tabs && Allows(Link(mem, s.tabs, Anc(v, k)), writable, user)
  }

  /** The tree gained at most the three tables on the walk to v, and its other tables stayed. */
  ghost predicate OnlyAbove(tabs: map<Node, nat>, tabs': map<Node, nat>, v: nat) {
    && (forall n :: n in tabs ==> n in tabs' && tabs'[n] == tabs[n])
    && (forall n :: n in tabs' && n !in tabs ==> n == Anc(v, 1) || n == Anc(v, 2) || n == Anc(v, 3))
  }

  /** Only the space of r changed; it lost no table, and its new tables are missing ones on the walk to
      v, in frames that were free. */
  ghost predicate Grown(st: St, st': St, r: nat, v: nat) {
    && r in st.spaces && r in st'.spaces && st'.spaces == st.spaces[r := st'.spaces[r]]
    && OnlyAbove(st.spaces[r].tabs, st'.spaces[r].tabs, v)
    && Tables(st.spaces[r]) <= Tables(st'.spaces[r])
    && Tables(st'.spaces[r]) - Tables(st.spaces[r]) !! st.used
    && st'.used == st.used + Tables(st'.spaces[r])
  }

  /** Since st0, the walk to v in the space of r has reached the table of level l, in frame f; the
      page map is still that of st0. */
  ghost predicate OnWalk(st0: St, st: St, r: nat, v: nat, l: nat, f: nat, flags: Flags) {
    && v < USER_PAGES && 1 <= l <= 4
    && Grown(st0, st, r, v) && st.spaces[r].pages == st0.spaces[r].pages
    && Anc(v, l) in st.spaces[r].tabs && st.spaces[r].tabs[Anc(v, l)] == f
    && LetsThrough(st.mem, st.spaces[r], v, l, flags.writable, flags.user)
  }

  lemma StartWalk(st: St, kernel: nat, r: nat, v: nat, flags: Flags)
    requires World(st, kernel) && r in st.spaces && v < USER_PAGES
    ensures OnWalk(st, st, r, v, 4, r, flags)
  {
    assert Rooted(st, st.spaces[r], r);
    UpFacts(v);
    hide Tables;
  }

  lemma StepGrows(st0: St, st: St, st': St, r: nat, v: nat, n: Node, f: nat, flags: Flags)
    requires Grown(st0, st, r, v) && (n == Anc(v, 1) || n == Anc(v, 2) || n == Anc(v, 3))
    requires Extended(st, st', r, n, f, flags)
    ensures Grown(st0, st', r, v) && st'.spaces[r].pages == st.spaces[r].pages
  {
    hide SpaceOk;
    var s := st.spaces[r];
    if n in s.tabs {
      assert s.tabs[n := f] == s.tabs;
      assert f in Tables(s);
    } else {
      TablesAdd(s, n, f);
    }
    hide Tables, TableReady;
  }

  lemma StepLets(mem: Mem, s: Space, mem': Mem, s': Space, v: nat, l: nat, f: nat, flags: Flags)
    requires TableReady(mem, s, mem', s', Anc(v, l), f, flags) && 1 <= l <= 3
    requires LetsThrough(mem, s, v, l + 1, flags.writable, flags.user)
    ensures LetsThrough(mem', s', v, l, flags.writable, flags.user)
  {
    hide SpaceOk, Link;
    UpFacts(v);
    assert Allows(Link(mem', s'.tabs, Anc(v, l)), flags.writable, flags.user);
    forall k | l < k <= 3
      ensures Link(mem', s'.tabs, Anc(v, k)) == Link(mem, s.tabs, Anc(v, k)) && Anc(v, k) in s.tabs
    {
      assert Anc(v, k) != Anc(v, l) && Parent(Anc(v, k)) != Anc(v, l);
    }
  }

  lemma StepWalk(st0: St, st: St, st': St, r: nat, v: nat, l: nat, parent: nat, f: nat, flags: Flags)
    requires Extended(st, st', r, Anc(v, l), f, flags)
    requires 1 <= l <= 3 && OnWalk(st0, st, r, v, l + 1, parent, flags)
    ensures OnWalk(st0, st', r, v, l, f, flags)
  {
    StepGrows(st0, st, st', r, v, Anc(v, l), f, flags);
    StepLets(st.mem, st.spaces[r], st'.mem, st'.spaces[r], v, l, f, flags);
    hide LetsThrough, Grown, SpaceOk, Link, Up;
  }

  lemma WalkSoFar(st0: St, st: St, r: nat, v: nat, l: nat, f: nat, flags: Flags)
    requires OnWalk(st0, st, r, v, l, f, flags)
    ensures Grown(st0, st, r, v) && r in st.spaces && r in st0.spaces && st.spaces[r].pages == st0.spaces[r].pages
    ensures v < USER_PAGES
    ensures l == 1 ==> Anc(v, 1) in st.spaces[r].tabs && st.spaces[r].tabs[Anc(v, 1)] == f
    ensures l == 1 ==> LetsThrough(st.mem, st.spaces[r], v, 1, flags.writable, flags.user)
    ensures l == 1 ==> forall k :: 1 <= k <= 3 ==> Anc(v, k) in st.spaces[r].tabs
  {
  }

  lemma LeafWorld(st: St, st': St, kernel: nat, r: nat, v: nat, pt: nat, e: Entry)
    requires World(st, kernel) && r in st.spaces && v < USER_PAGES
    requires Anc(v, 1) in st.spaces[r].tabs && pt == st.spaces[r].tabs[Anc(v, 1)]
    requires e.present ==> LetsThrough(st.mem, st.spaces[r], v, 1, e.writable, e.user)
    requires st' == st.(mem := Put(st.mem, pt, v % 512, e), spaces := st.spaces[r := SetPage(st.spaces[r], v, e)])
    ensures World(st', kernel)
  {
    var s, s' := st.spaces[r], SetPage(st.spaces[r], v, e);
    assert Rooted(st, s, r);
    WriteLeaf(st.mem, s, v, e);
    assert pt in Tables(s) && Tables(s') == Tables(s);
    hide Tables, SpaceOk, LetsThrough;
    PutKept(st, st', pt, v % 512, e, s);
    WorldUpdate(st, st', r, s', kernel);
  }

  lemma LeafGrown(st0: St, st: St, r: nat, v: nat, pt: nat, flags: Flags, phys: nat, st': St)
    requires OnWalk(st0, st, r, v, 1, pt, flags)
    requires st'.used == st.used && st'.spaces == st.spaces[r := SetPage(st.spaces[r], v, LeafOf(phys, flags))]
    ensures Grown(st0, st', r, v)
    ensures st'.spaces[r].pages == st0.spaces[r].pages[v := LeafOf(phys, flags)]
  {
    assert Tables(st'.spaces[r]) == Tables(st.spaces[r]);
    hide Tables, LetsThrough;
  }

  /** The processor reads the page map of each space. */
  lemma MmuReads(st: St, kernel: nat, r: nat, a: nat)
    requires World(st, kernel) && r in st.spaces && a < USER_PAGES * PAGE
    ensures var pages, v := st.spaces[r].pages, a / PAGE;
      MmuWalk(st.mem, r, a) ==
      if v in pages then Grant(pages[v].frame * PAGE + a % PAGE, pages[v].writable, pages[v].user) else Fault
  {
    assert Rooted(st, st.spaces[r], r);
    WalkReadsMap(st.mem, st.spaces[r], a);
    hide SpaceOk, Tables, MmuWalk;
  }

  /** In the space of r the processor finds every byte of page v in frame f, with exactly the rights of
      the flags, and the leaf entry has their other bits. */
  ghost predicate Grants(st: St, r: nat, v: nat, f: nat, flags: Flags) {
    && (forall a: nat :: a / PAGE == v ==>
          MmuWalk(st.mem, r, a) == Grant(f * PAGE + a % PAGE, flags.writable, flags.user))
    && r in st.spaces && v in st.spaces[r].pages
    && st.spaces[r].pages[v].rest == flags.rest && st.spaces[r].pages[v].huge == flags.huge
  }

  /** In every space the processor finds every user address as before, except for pages vs of r. */
  ghost predicate WalksSame(st: St, st': St, r: nat, vs: set<nat>) {
    forall q, a: nat ::
      q in st'.spaces && a < USER_PAGES * PAGE && (q != r || a / PAGE !in vs) ==>
        MmuWalk(st'.mem, q, a) == MmuWalk(st.mem, q, a)
  }

  lemma MapGrants(st: St, kernel: nat, r: nat, v: nat, phys: nat, flags: Flags)
    requires World(st, kernel) && r in st.spaces && v < USER_PAGES
    requires v in st.spaces[r].pages && st.spaces[r].pages[v] == LeafOf(phys, flags)
    ensures Grants(st, r, v, phys / PAGE % FRAMES, flags)
  {
    hide World, MmuWalk;
    forall a: nat | a / PAGE == v
      ensures MmuWalk(st.mem, r, a) == Grant(phys / PAGE % FRAMES * PAGE + a % PAGE, flags.writable, flags.user)
    {
      MmuReads(st, kernel, r, a);
    }
  }

  lemma MapSeen(st: St, st': St, kernel: nat, r: nat, virt: nat, phys: nat, flags: Flags, ok: bool)
    requires World(st, kernel) && World(st', kernel) && virt < USER_PAGES * PAGE && Grown(st, st', r, virt / PAGE)
    requires st'.spaces[r].pages ==
      if ok then st.spaces[r].pages[virt / PAGE := LeafOf(phys, flags)] else st.spaces[r].pages
    ensures ok ==> Grants(st', r, virt / PAGE, phys / PAGE % FRAMES, flags)
    ensures WalksSame(st, st', r, if ok then {virt / PAGE} else {})
  {
    hide World, LeafOf, Grants, WalksSame;
    if ok { MapGrants(st', kernel, r, virt / PAGE, phys, flags); }
    WalksStay(st, st', kernel, r, if ok then {virt / PAGE} else {});
  }

  /** Where the page maps agree, so do the walks. */
  lemma WalksStay(st: St, st': St, kernel: nat, r: nat, vs: set<nat>)
    requires World(st, kernel) && World(st', kernel) && r in st.spaces && r in st'.spaces
    requires st'.spaces == st.spaces[r := st'.spaces[r]] && st'.spaces[r].pages - vs == st.spaces[r].pages - vs
    ensures WalksSame(st, st', r, vs)
  {
    hide World, MmuWalk;
    forall q, a: nat | q in st'.spaces && a < USER_PAGES * PAGE && (q != r || a / PAGE !in vs)
      ensures MmuWalk(st'.mem, q, a) == MmuWalk(st.mem, q, a)
    {
      MmuReads(st, kernel, q, a);
      MmuReads(st', kernel, q, a);
      if q == r {
        var w, m, m' := a / PAGE, st.spaces[r].pages, st'.spaces[r].pages;
        assert w in m <==> w in m - vs;
        assert w in m' <==> w in m' - vs;
        assert w in m ==> m[w] == (m - vs)[w];
        assert w in m' ==> m'[w] == (m' - vs)[w];
      }
    }
  }

  // ---- the pruning of vmmUnmapPage

  /** Node c is there: a table of the tree, or (level 0) a mapped page. */
  ghost predicate Has(s: Space, c: Node) {
    if c.level == 0 then c.key in s.pages else c in s.tabs
  }

  ghost predicate NonEmpty(s: Space, n: Node) {
    exists c :: Parent(c) == n && Has(s, c)
  }

  /** A table reads as empty exactly when it holds nothing. */
  lemma EmptyIffNothing(mem: Mem, s: Space, n: Node)
    requires SpaceOk(mem, s) && n in s.tabs && n != ROOT
    ensures AllAbsent(mem, s.tabs[n]) <==> !NonEmpty(s, n)
  {
    if AllAbsent(mem, s.tabs[n]) {
      EmptyHasNothing(mem, s, n);
      forall c | Parent(c) == n ensures !Has(s, c) { if c.level == 0 { UpFacts(c.key); } }
    } else {
      var i: nat :| i < 512 && At(mem, s.tabs[n], i).present;
      var c := Node(n.level - 1, n.key * 512 + i);
      assert Parent(c) == n;
      assert Link(mem, s.tabs, c).present;
      if c.level == 0 { UpFacts(c.key); }
      assert Has(s, c);
    }
  }

  /** The tables of levels below l on the walk to v. */
  ghost function PathBelow(v: nat, l: nat): set<Node> {
    set k | 1 <= k < l :: Anc(v, k)
  }

  ghost function FramesOf(tabs: map<Node, nat>, ns: set<Node>): set<nat> {
    set n | n in ns && n in tabs :: tabs[n]
  }

  /** Since st0, page v is gone from the space of r, and so are its tables of levels below l, whose
      frames are free. */
  ghost predicate Unmapping(st0: St, st: St, r: nat, v: nat, l: nat) {
    && r in st0.spaces && 1 <= l <= 4
    && var s0 := st0.spaces[r];
    && PathBelow(v, l) <= s0.tabs.Keys
    && st.spaces == st0.spaces[r := Space(s0.tabs - PathBelow(v, l), s0.pages - {v})]
    && st.used == st0.used - FramesOf(s0.tabs, PathBelow(v, l))
  }

  /** What vmmUnmapPage does: the page is gone, and so are its tables up to the first one that still
      holds something. Without a PT there was nothing to do. */
  ghost predicate Unmapped(st0: St, st: St, r: nat, v: nat) {
    && r in st0.spaces
    && if Anc(v, 1) in st0.spaces[r].tabs then
         exists l :: Unmapping(st0, st, r, v, l) && (l <= 3 ==> NonEmpty(st.spaces[r], Anc(v, l)))
       else
         v !in st0.spaces[r].pages && st.spaces == st0.spaces && st.used == st0.used
  }

  ghost predicate Dropped(st: St, st': St, r: nat, n: Node) {
    && r in st.spaces && n in st.spaces[r].tabs
    && st'.spaces == st.spaces[r := st.spaces[r].(tabs := st.spaces[r].tabs - {n})]
    && st'.used == st.used - {st.spaces[r].tabs[n]}
  }

  lemma DropWorld(st: St, st': St, kernel: nat, r: nat, n: Node, parent: nat, idx: nat)
    requires World(st, kernel) && Walkable(st, r, n, parent, idx)
    requires n in st.spaces[r].tabs && AllAbsent(st.mem, st.spaces[r].tabs[n])
    requires Dropped(st, st', r, n) && st'.mem == Put(st.mem, parent, idx, ZERO)
    ensures World(st', kernel) && st.spaces[r].tabs[n] in st.used && st.spaces[r].tabs[n] != 0
  {
    var s, s' := st.spaces[r], st'.spaces[r];
    assert Rooted(st, s, r);
    DropTable(st.mem, s, n);
    TablesDrop(s, n);
    assert parent in Tables(s) && s.tabs[n] in Tables(s);
    hide Tables, SpaceOk, AllAbsent;
    PutKept(st, st', parent, idx, ZERO, s);
    WorldUpdate(st, st', r, s', kernel);
  }

  /** The frames of the three tables on the walk to v. */
  ghost predicate PathFrames(s: Space, v: nat, l: nat, pdpt: nat, pd: nat, pt: nat) {
    && v < USER_PAGES && ROOT in s.tabs
    && (l <= 3 ==> Anc(v, 3) in s.tabs && s.tabs[Anc(v, 3)] == pdpt)
    && (l <= 2 ==> Anc(v, 2) in s.tabs && s.tabs[Anc(v, 2)] == pd)
    && (l <= 1 ==> Anc(v, 1) in s.tabs && s.tabs[Anc(v, 1)] == pt)
  }

  lemma PathWalkable(st: St, kernel: nat, r: nat, virt: nat, l: nat, pdpt: nat, pd: nat, pt: nat)
    requires World(st, kernel) && r in st.spaces && PathFrames(st.spaces[r], virt / PAGE, l, pdpt, pd, pt)
    requires 1 <= l <= 3
    ensures Index(virt, 4) < 256
    ensures Walkable(st, r, Anc(virt / PAGE, l), if l == 1 then pd else if l == 2 then pdpt else r, Index(virt, l + 1))
  {
    assert Rooted(st, st.spaces[r], r);
    hide SpaceOk, Tables;
    IndexIsKey(virt);
    UpFacts(virt / PAGE);
    hide Index;
  }

  /** What the reads of vmmUnmapPage's walk find. */
  lemma WalkFacts(st: St, kernel: nat, r: nat, virt: nat)
    requires World(st, kernel) && r in st.spaces && virt < USER_PAGES * PAGE
    ensures var v, s := virt / PAGE, st.spaces[r];
      var e4 := At(st.mem, r, Index(virt, 4));
      var e3 := At(st.mem, e4.frame, Index(virt, 3));
      var e2 := At(st.mem, e3.frame, Index(virt, 2));
      if !(e4.present && e3.present && e2.present) then Anc(v, 1) !in s.tabs
      else !e3.huge && !e2.huge && PathFrames(s, v, 1, e4.frame, e3.frame, e2.frame)
  {
    var v, s := virt / PAGE, st.spaces[r];
    assert Rooted(st, s, r);
    UpFacts(v);
    IndexIsKey(virt);
    if Anc(v, 1) in s.tabs { AncestorsExist(s, v, 1); }
    hide Index, Up;
    WalkStep(st.mem, s, Anc(v, 3));
    if Anc(v, 3) in s.tabs {
      WalkStep(st.mem, s, Anc(v, 2));
      if Anc(v, 2) in s.tabs { WalkStep(st.mem, s, Anc(v, 1)); }
    }
  }

  lemma UnmapNothing(st: St, kernel: nat, r: nat, v: nat)
    requires World(st, kernel) && r in st.spaces
    ensures Anc(v, 1) !in st.spaces[r].tabs ==> Unmapped(st, st, r, v)
  {
    assert Rooted(st, st.spaces[r], r);
  }

  lemma ClearedPage(st0: St, st: St, r: nat, v: nat, pdpt: nat, pd: nat, pt: nat)
    requires r in st0.spaces && st.used == st0.used && PathFrames(st0.spaces[r], v, 1, pdpt, pd, pt)
    requires st.spaces == st0.spaces[r := SetPage(st0.spaces[r], v, ZERO)]
    ensures Pruning(st0, st, r, v, 1, pdpt, pd, pt)
  {
    assert PathBelow(v, 1) == {};
    var tabs := st0.spaces[r].tabs;
    assert tabs - {} == tabs;
  }

  /** vmmUnmapPage has removed the page and the tables below level l; the frames of the walk are known. */
  ghost predicate Pruning(st0: St, st: St, r: nat, v: nat, l: nat, pdpt: nat, pd: nat, pt: nat) {
    && Unmapping(st0, st, r, v, l) && Anc(v, 1) in st0.spaces[r].tabs
    && PathFrames(st.spaces[r], v, l, pdpt, pd, pt)
  }

  lemma UnmapStep(st0: St, st: St, st': St, r: nat, v: nat, l: nat, pdpt: nat, pd: nat, pt: nat)
    requires 1 <= l <= 3 && Pruning(st0, st, r, v, l, pdpt, pd, pt) && Dropped(st, st', r, Anc(v, l))
    ensures Pruning(st0, st', r, v, l + 1, pdpt, pd, pt)
    ensures l == 3 ==> Unmapped(st0, st', r, v)
  {
    var n, ns, tabs := Anc(v, l), PathBelow(v, l), st0.spaces[r].tabs;
    assert PathBelow(v, l + 1) == ns + {n} by {
      forall m | m in PathBelow(v, l + 1) ensures m in ns + {n} { }
    }
    assert FramesOf(tabs, ns + {n}) == FramesOf(tabs, ns) + {tabs[n]};
    assert (tabs - ns) - {n} == tabs - (ns + {n});
    hide PathBelow, FramesOf;
  }

  lemma UnmapDone(st0: St, st: St, kernel: nat, r: nat, v: nat, l: nat, pdpt: nat, pd: nat, pt: nat)
    requires World(st, kernel) && Pruning(st0, st, r, v, l, pdpt, pd, pt) && 1 <= l <= 3
    requires !AllAbsent(st.mem, if l == 1 then pt else if l == 2 then pd else pdpt)
    ensures Unmapped(st0, st, r, v)
  {
    assert Rooted(st, st.spaces[r], r);
    EmptyIffNothing(st.mem, st.spaces[r], Anc(v, l));
  }

  // ---- what vmmDestroyAddressSpace frees

  ghost function Nodes(s: Space): set<Node> {
    s.tabs.Keys + (set v | v in s.pages :: Node(0, v))
  }

  /** The frame of a table, or the frame a page maps. */
  ghost function Frame(s: Space, c: Node): nat {
    if c.level == 0 then (if c.key in s.pages then s.pages[c.key].frame else 0)
    else if c in s.tabs then s.tabs[c] else 0
  }

  ghost predicate IsUnder(c: Node, n: Node) {
    c.level <= n.level && Up(c.key, n.level - c.level) == n.key
  }

  /** Through which entry of n the walk to c goes. */
  ghost function Through(c: Node, n: Node): nat
    requires c.level < n.level
  {
    Up(c.key, n.level - 1 - c.level) % 512
  }

  /** The nodes at or below n, and the ones strictly below it through its first i entries. */
  ghost function Under(s: Space, n: Node): set<Node> {
    set c | c in Nodes(s) && IsUnder(c, n)
  }

  ghost function Before(s: Space, n: Node, i: nat): set<Node> {
    set c | c in Nodes(s) && IsUnder(c, n) && c.level < n.level && Through(c, n) < i
  }

  ghost function Frames(s: Space, ns: set<Node>): set<nat> {
    set c | c in ns :: Frame(s, c)
  }

  /** Every table and every mapped leaf frame is a different, allocated frame other than frame 0. */
  ghost predicate OwnsFrames(s: Space, used: set<nat>) {
    && (forall c, d :: c in Nodes(s) && d in Nodes(s) && Frame(s, c) == Frame(s, d) ==> c == d)
    && (forall c :: c in Nodes(s) ==> Frame(s, c) != 0 && Frame(s, c) in used)
  }

  function Child(n: Node, i: nat): Node
    requires n.level > 0
  {
    Node(n.level - 1, n.key * 512 + i)
  }

  lemma {:induction false} UpAdd(k: nat, a: nat)
    ensures Up(k, a + 1) == Up(k, a) / 512
    decreases a
  {
    if a > 0 { UpAdd(k / 512, a - 1); }
  }

  /** Below n through entry i means at or below its i-th child. */
  lemma UnderChild(c: Node, n: Node, i: nat)
    requires n.level > 0 && i < 512
    ensures IsUnder(c, Child(n, i)) <==> IsUnder(c, n) && c.level < n.level && Through(c, n) == i
  {
    if c.level < n.level {
      UpAdd(c.key, n.level - 1 - c.level);
    }
  }

  /** The ancestors of a node that is there are there. */
  lemma {:induction false} AncestorThere(mem: Mem, s: Space, c: Node, n: Node)
    requires SpaceOk(mem, s) && c in Nodes(s) && IsUnder(c, n) && n.level <= 4
    ensures n in Nodes(s)
    decreases n.level - c.level
  {
    if c.level < n.level {
      if c.level == 0 { UpFacts(c.key); }
      assert Parent(c) in s.tabs;
      AncestorThere(mem, s, Parent(c), n);
    }
  }

  lemma NextEntry(mem: Mem, s: Space, n: Node, i: nat)
    requires SpaceOk(mem, s) && n in s.tabs && i < 512
    ensures Before(s, n, i + 1) == Before(s, n, i) + Under(s, Child(n, i))
    ensures Before(s, n, i) !! Under(s, Child(n, i)) && Under(s, Child(n, i)) <= Under(s, n)
    ensures Child(n, i) !in Nodes(s) ==> Under(s, Child(n, i)) == {}
  {
    forall c ensures IsUnder(c, Child(n, i)) <==> IsUnder(c, n) && c.level < n.level && Through(c, n) == i {
      UnderChild(c, n, i);
    }
    if Child(n, i) !in Nodes(s) {
      forall c | c in Nodes(s) ensures !IsUnder(c, Child(n, i)) {
        if IsUnder(c, Child(n, i)) { AncestorThere(mem, s, c, Child(n, i)); }
      }
    }
  }

  lemma LastEntry(mem: Mem, s: Space, n: Node)
    requires SpaceOk(mem, s) && n in s.tabs
    ensures Under(s, n) == Before(s, n, if n == ROOT then 256 else 512) + {n}
    ensures n !in Before(s, n, if n == ROOT then 256 else 512)
  {
    forall c | c in Nodes(s) && IsUnder(c, n) && c.level < n.level
      ensures Through(c, n) < if n == ROOT then 256 else 512 {
      if n == ROOT {
        var k := Node(3, Up(c.key, 3 - c.level));
        AncestorThere(mem, s, c, k);
      }
    }
    forall c | c in Nodes(s) && IsUnder(c, n) && c.level == n.level ensures c == n { }
  }

  lemma FramesSplit(s: Space, a: set<Node>, b: set<Node>, used: set<nat>)
    requires OwnsFrames(s, used) && a <= Nodes(s) && b <= Nodes(s) && a !! b
    ensures Frames(s, a + b) == Frames(s, a) + Frames(s, b) && Frames(s, a) !! Frames(s, b)
  {
  }

  /** The state before entry i: everything through the earlier entries is free. */
  ghost predicate FreedTo(s: Space, used0: set<nat>, used: set<nat>, gone: set<Node>) {
    gone <= Nodes(s) && used == used0 - Frames(s, gone)
  }

  lemma StillUsed(s: Space, owned: set<nat>, used0: set<nat>, used: set<nat>, gone: set<Node>, more: set<Node>)
    requires OwnsFrames(s, owned) && FreedTo(s, used0, used, gone) && more <= Nodes(s) && gone !! more
    requires Frames(s, more) <= used0
    ensures Frames(s, more) <= used
    ensures FreedTo(s, used0, used - Frames(s, more), gone + more)
  {
    FramesSplit(s, gone, more, owned);
  }

  lemma ChildUsed(s: Space, owned: set<nat>, used0: set<nat>, used: set<nat>, n: Node, i: nat)
    requires OwnsFrames(s, owned) && n.level > 0 && FreedTo(s, used0, used, Before(s, n, i))
    requires Frames(s, Under(s, n)) <= used0
    requires Before(s, n, i) !! Under(s, Child(n, i)) && Under(s, Child(n, i)) <= Under(s, n)
    requires Before(s, n, i + 1) == Before(s, n, i) + Under(s, Child(n, i))
    ensures var more := Under(s, Child(n, i));
      Frames(s, more) <= used && FreedTo(s, used0, used - Frames(s, more), Before(s, n, i + 1))
  {
    StillUsed(s, owned, used0, used, Before(s, n, i), Under(s, Child(n, i)));
  }

  lemma SelfUsed(s: Space, owned: set<nat>, used0: set<nat>, used: set<nat>, n: Node)
    requires OwnsFrames(s, owned) && n in s.tabs && n.level > 0
    requires var b := Before(s, n, if n.level == 4 then 256 else 512);
      FreedTo(s, used0, used, b) && Under(s, n) == b + {n} && n !in b
    requires Frames(s, Under(s, n)) <= used0
    ensures s.tabs[n] in used && s.tabs[n] != 0 && used - {s.tabs[n]} == used0 - Frames(s, Under(s, n))
  {
    var b := Before(s, n, if n.level == 4 then 256 else 512);
    assert n in Nodes(s) && n in Under(s, n);
    assert Frames(s, {n}) == {s.tabs[n]};
    assert Frames(s, {n}) <= Frames(s, Under(s, n));
    StillUsed(s, owned, used0, used, b, {n});
  }

  lemma DestroyReady(st: St, kernel: nat, r: nat)
    requires World(st, kernel) && r in st.spaces && OwnsFrames(st.spaces[r], st.used)
    ensures var s := st.spaces[r];
      && SpaceOk(st.mem, s) && ROOT in s.tabs && s.tabs[ROOT] == r
      && Frames(s, Under(s, ROOT)) <= st.used && Frames(s, Under(s, ROOT)) == Tables(s) + LeafFrames(s)
  {
    assert Rooted(st, st.spaces[r], r);
    AllUnderRoot(st.mem, st.spaces[r]);
  }

  lemma AllUnderRoot(mem: Mem, s: Space)
    requires SpaceOk(mem, s)
    ensures Under(s, ROOT) == Nodes(s)
    ensures Frames(s, Nodes(s)) == Tables(s) + LeafFrames(s)
  {
    forall c | c in Nodes(s) ensures IsUnder(c, ROOT) { UnderRoot(mem, s, c); }
    forall f | f in Tables(s) ensures f in Frames(s, Nodes(s)) {
      var n :| n in s.tabs && s.tabs[n] == f;
      assert n in Nodes(s) && Frame(s, n) == f;
    }
    forall f | f in LeafFrames(s) ensures f in Frames(s, Nodes(s)) {
      var v :| v in s.pages && s.pages[v].frame == f;
      assert Node(0, v) in Nodes(s) && Frame(s, Node(0, v)) == f;
    }
  }

  ghost function Mapped(pages: map<nat, Entry>): set<nat> {
    set v | v in pages :: pages[v].frame
  }

  ghost function LeafFrames(s: Space): set<nat> { Mapped(s.pages) }

  lemma {:induction false} UnderRoot(mem: Mem, s: Space, c: Node)
    requires SpaceOk(mem, s) && c in Nodes(s)
    ensures IsUnder(c, ROOT)
    decreases 4 - c.level
  {
    if c != ROOT {
      if c.level == 0 { UpFacts(c.key); }
      assert Parent(c) in s.tabs;
      UnderRoot(mem, s, Parent(c));
    }
  }

  lemma EntryIs(mem: Mem, s: Space, n: Node, i: nat)
    requires SpaceOk(mem, s) && n in s.tabs && i < if n == ROOT then 256 else 512
    ensures var e, c := At(mem, s.tabs[n], i), Child(n, i);
      && (e.present <==> c in Nodes(s)) && (n.level > 1 ==> !e.huge)
      && (c in Nodes(s) ==> e.frame == Frame(s, c) && (n.level > 1 ==> c in s.tabs))
  {
    var c := Child(n, i);
    assert Parent(c) == n;
    if c.level == 0 { UpFacts(c.key); }
    assert Link(mem, s.tabs, c) == At(mem, s.tabs[n], i);
  }

  lemma LeafAlone(s: Space, v: nat)
    requires v in s.pages
    ensures Under(s, Node(0, v)) == {Node(0, v)} && Frames(s, {Node(0, v)}) == {s.pages[v].frame}
  {
  }

  lemma FreedNone(s: Space, n: Node, used: set<nat>)
    ensures FreedTo(s, used, used, Before(s, n, 0))
  {
  }

  /** The words vmmCreateAddressSpace writes: an empty user half and the kernel's upper half. */
  function RootTable(kernel: seq<Entry>): seq<Entry>
    requires |kernel| == 512
  {
    seq(512, i requires 0 <= i < 512 => if i < 256 then ZERO else kernel[i])
  }

  ghost function NewSpace(f: nat): Space { Space(map[ROOT := f], map[]) }

  lemma NewSpaceOk(mem: Mem, kernel: seq<Entry>, f: nat)
    requires |kernel| == 512 && f in mem && mem[f] == RootTable(kernel)
    ensures SpaceOk(mem, NewSpace(f)) && Tables(NewSpace(f)) == {f}
  {
    var s := NewSpace(f);
    assert s.tabs[ROOT] == f;
    forall n: Node | n.level == 3 && n.key < 256 ensures Link(mem, s.tabs, n) == ZERO { }
    assert LinksOk(mem, s);
    assert LeavesOk(mem, s);
    assert PermsOk(mem, s);
  }

  lemma CreateWorld(st: St, st': St, kernel: nat, f: nat)
    requires World(st, kernel) && f != 0 && f !in st.used
    requires st' == St(st.mem[f := RootTable(st.mem[kernel])], st.spaces[f := NewSpace(f)], st.used + {f})
    ensures World(st', kernel) && f !in st.spaces
  {
    NewSpaceOk(st'.mem, st.mem[kernel], f);
    forall q | q in st.spaces ensures q in Tables(st.spaces[q]) {
      assert Rooted(st, st.spaces[q], q);
      assert st.spaces[q].tabs[ROOT] == q;
    }
    hide Tables, SpaceOk, RootTable;
    assert OthersKept(st, st', NewSpace(f));
    forall q | q in st.spaces ensures Rooted(st', st.spaces[q], q) && f !in Tables(st.spaces[q]) && q != f {
      assert Rooted(st, st.spaces[q], q);
      OtherSpaceKept(st, st', NewSpace(f), st.spaces[q], q);
    }
    AddSpace(st', st.spaces, f, kernel);
  }

  lemma AddSpace(st: St, spaces: map<nat, Space>, f: nat, kernel: nat)
    requires f !in spaces && st.spaces == spaces[f := NewSpace(f)] && Rooted(st, NewSpace(f), f)
    requires Tables(NewSpace(f)) == {f} != {kernel}
    requires kernel in st.used && kernel in st.mem && |st.mem[kernel]| == 512
    requires forall q :: q in spaces ==>
      Rooted(st, spaces[q], q) && f !in Tables(spaces[q]) && kernel !in Tables(spaces[q])
    requires forall p, q :: p in spaces && q in spaces && p != q ==> Tables(spaces[p]) !! Tables(spaces[q])
    ensures World(st, kernel)
  {
    hide Tables, Rooted, NewSpace;
  }

  /** No leaf frame of r is the kernel's PML4 or a table of another space. */
  ghost predicate LeavesApart(st: St, kernel: nat, r: nat) {
    && r in st.spaces && kernel !in LeafFrames(st.spaces[r])
    && (forall q :: q in st.spaces && q != r ==> Tables(st.spaces[q]) !! LeafFrames(st.spaces[r]))
  }

  lemma DestroyWorld(st: St, st': St, kernel: nat, r: nat)
    requires World(st, kernel) && r in st.spaces
    requires st'.mem == st.mem && st'.spaces == st.spaces - {r}
    requires st'.used == st.used - (Tables(st.spaces[r]) + LeafFrames(st.spaces[r]))
    requires LeavesApart(st, kernel, r)
    ensures World(st', kernel)
  {
    hide Tables, SpaceOk, LeafFrames;
    forall q | q in st'.spaces ensures Rooted(st', st.spaces[q], q) {
      assert Rooted(st, st.spaces[q], q);
    }
  }

  lemma UnmappedMeans(st: St, st': St, kernel: nat, r: nat, v: nat)
    requires World(st, kernel) && Unmapped(st, st', r, v)
    ensures r in st'.spaces && st'.spaces == st.spaces[r := st'.spaces[r]]
    ensures st'.spaces[r].pages == st.spaces[r].pages - {v}
    ensures Tables(st'.spaces[r]) <= Tables(st.spaces[r])
    ensures st'.used == st.used - (Tables(st.spaces[r]) - Tables(st'.spaces[r]))
  {
    var s := st.spaces[r];
    assert Rooted(st, s, r);
    if Anc(v, 1) in s.tabs {
      var l :| Unmapping(st, st', r, v, l) && (l <= 3 ==> NonEmpty(st'.spaces[r], Anc(v, l)));
      TablesMinus(s, PathBelow(v, l), st'.spaces[r]);
    } else {
      assert s.pages - {v} == s.pages;
      assert st.spaces[r := s] == st.spaces;
    }
  }

  lemma TablesMinus(s: Space, ns: set<Node>, s': Space)
    requires Shape(s.tabs) && ns <= s.tabs.Keys && s'.tabs == s.tabs - ns
    ensures Tables(s') == Tables(s) - FramesOf(s.tabs, ns)
  {
    forall f | f in Tables(s) && f !in FramesOf(s.tabs, ns) ensures f in Tables(s') {
      var n :| n in s.tabs && s.tabs[n] == f;
      assert s'.tabs[n] == f;
    }
    forall f | f in Tables(s') ensures f in Tables(s) && f !in FramesOf(s.tabs, ns) {
      var n :| n in s'.tabs && s'.tabs[n] == f;
      assert s.tabs[n] == f;
    }
  }

  lemma GiveBack(used: set<nat>, tables: set<nat>, tables': set<nat>)
    requires tables !! used && tables' <= tables
    ensures used + tables - (tables - tables') == used + tables' && tables' !! used
  {
  }

  lemma TablesApart(s: Space, used0: set<nat>, used: set<nat>)
    requires Shape(s.tabs) && 0 !in Tables(s) && Tables(s) <= used && Tables(s) !! used0 && used0 <= used
    requires forall v, w :: v in s.pages && w in s.pages && s.pages[v].frame == s.pages[w].frame ==> v == w
    requires forall v :: v in s.pages ==> s.pages[v].frame in used0 && s.pages[v].frame != 0
    ensures OwnsFrames(s, used)
  {
    forall n | n in s.tabs ensures s.tabs[n] in Tables(s) { }
    hide Tables;
  }

  class Vmm {
    const pmm: P.Pmm
    const kernelRoot: nat
    var mem: Mem
    ghost var spaces: map<nat, Space>

    ghost function Now(): St
      requires pmm.Valid()
      reads this, pmm, pmm.bits
    {
      St(mem, spaces, pmm.Used())
    }

    ghost predicate Valid()
      reads this, pmm, pmm.bits
    {
      pmm.Valid() && World(Now(), kernelRoot)
    }

    /** The state vmmInit leaves: a kernel PML4 and no user address space. */
    constructor (pmm: P.Pmm, kernelRoot: nat, kernelTable: seq<Entry>)
      requires pmm.Valid() && kernelRoot in pmm.Used() && |kernelTable| == 512
      ensures Valid() && spaces == map[] && this.pmm == pmm
    {
      this.pmm := pmm;
      this.kernelRoot := kernelRoot;
      mem := map[kernelRoot := kernelTable];
      spaces := map[];
    }

    /** getOrAllocTable for the entry that points to table n of the space rooted at r. */
    method GetOrAllocTable(ghost r: nat, ghost n: Node, parent: nat, idx: nat, flags: Flags) returns (f: nat)
      requires Valid() && Walkable(Now(), r, n, parent, idx)
      modifies this, pmm, pmm.bits
      ensures Valid()
      ensures if f == 0 then Now() == old(Now()) && pmm.Exhausted() else Extended(old(Now()), Now(), r, n, f, flags)
    {
      PresentMeansThere(Now(), kernelRoot, r, n, parent, idx);
      hide P.Pmm.Valid, P.Pmm.Used, P.Pmm.Exhausted, Put, At, World, Extended, Walkable, Widened, Pointer;
      ghost var st := Now();
      var e := At(mem, parent, idx);
      if e.present {
        mem := Put(mem, parent, idx, Widened(e, flags));
        ReuseTable(st, Now(), kernelRoot, r, n, flags, parent, idx);
        return e.frame;
      }
      f := AllocTable(r, n, parent, idx, flags);
    }

    method AllocTable(ghost r: nat, ghost n: Node, parent: nat, idx: nat, flags: Flags) returns (f: nat)
      requires Valid() && Walkable(Now(), r, n, parent, idx) && n !in spaces[r].tabs
      modifies this, pmm, pmm.bits
      ensures Valid()
      ensures if f == 0 then Now() == old(Now()) && pmm.Exhausted() else Extended(old(Now()), Now(), r, n, f, flags)
    {
      hide P.Pmm.Valid, P.Pmm.Used, P.Pmm.Exhausted, Put, At, World, Extended, Pointer;
      ghost var st := Now();
      f := pmm.Alloc();
      if f != 0 {
        mem := Put(mem[f := Blank()], parent, idx, Pointer(f, flags));
        spaces := spaces[r := spaces[r].(tabs := spaces[r].tabs[n := f])];
        NewTable(st, Now(), kernelRoot, r, n, flags, parent, idx, f);
      }
    }

    /** One getOrAllocTable call of vmmMapPage, on the walk to page v. */
    method Descend(ghost st0: St, ghost r: nat, ghost v: nat, ghost level: nat, parent: nat, idx: nat, flags: Flags)
      returns (f: nat)
      requires Valid() && OnWalk(st0, Now(), r, v, level + 1, parent, flags)
      requires 1 <= level <= 3 && idx == Up(v, level) % 512
      modifies this, pmm, pmm.bits
      ensures Valid()
      ensures if f == 0 then Now() == old(Now()) && pmm.Exhausted() else OnWalk(st0, Now(), r, v, level, f, flags)
    {
      ghost var st, n := Now(), Anc(v, level);
      UpFacts(v);
      assert Walkable(st, r, n, parent, idx);
      hide *;
      f := GetOrAllocTable(r, n, parent, idx, flags);
      if f != 0 {
        StepWalk(st0, st, Now(), r, v, level, parent, f, flags);
      }
    }

    /** Writing the leaf word of page v. */
    method WriteLeafEntry(ghost r: nat, ghost v: nat, pt: nat, idx: nat, e: Entry)
      requires Valid() && r in spaces && v < USER_PAGES && Anc(v, 1) in spaces[r].tabs
      requires pt == spaces[r].tabs[Anc(v, 1)] && idx == v % 512
      requires e.present ==> LetsThrough(mem, spaces[r], v, 1, e.writable, e.user)
      modifies this
      ensures Valid()
      ensures Now() == old(Now()).(mem := mem, spaces := old(spaces)[r := SetPage(old(spaces)[r], v, e)])
    {
      hide World, Put, P.Pmm.Valid, P.Pmm.Used;
      ghost var st := Now();
      mem := Put(mem, pt, idx, e);
      spaces := spaces[r := SetPage(spaces[r], v, e)];
      LeafWorld(st, Now(), kernelRoot, r, v, pt, e);
    }

    /** vmmMapPage, user half: maps one page to one frame, or fails because no frame is left; a
        failure keeps the page map, and either way the new tables are missing ones on the walk, in frames
        that were free. Then the processor finds every byte of the page in the frame, with exactly the
        rights asked for, and everything else in every space where it was. */
    method MapPage(root: nat, virt: nat, phys: nat, flags: Flags) returns (ok: bool)
      requires Valid() && root in spaces && virt < USER_PAGES * PAGE
      modifies this, pmm, pmm.bits
      ensures Valid() && Grown(old(Now()), Now(), root, virt / PAGE)
      ensures ok ==> spaces[root].pages == old(spaces)[root].pages[virt / PAGE := LeafOf(phys, flags)]
      ensures ok ==> forall l :: 1 <= l <= 3 ==> Anc(virt / PAGE, l) in spaces[root].tabs
      ensures !ok ==> spaces[root].pages == old(spaces)[root].pages && pmm.Exhausted()
      ensures ok ==> Grants(Now(), root, virt / PAGE, phys / PAGE % FRAMES, flags)
      ensures WalksSame(old(Now()), Now(), root, if ok then {virt / PAGE} else {})
    {
      ghost var st := Now();
      hide *;
      ok := MapAt(root, virt, phys, flags);
      MapSeen(st, Now(), kernelRoot, root, virt, phys, flags, ok);
    }

    method MapAt(root: nat, virt: nat, phys: nat, flags: Flags) returns (ok: bool)
      requires Valid() && root in spaces && virt < USER_PAGES * PAGE
      modifies this, pmm, pmm.bits
      ensures Valid() && Grown(old(Now()), Now(), root, virt / PAGE)
      ensures ok ==> spaces[root].pages == old(spaces)[root].pages[virt / PAGE := LeafOf(phys, flags)]
      ensures ok ==> forall l :: 1 <= l <= 3 ==> Anc(virt / PAGE, l) in spaces[root].tabs
      ensures !ok ==> spaces[root].pages == old(spaces)[root].pages && pmm.Exhausted()
    {
      ghost var v, st0 := virt / PAGE, Now();
      IndexIsKey(virt);
      StartWalk(st0, kernelRoot, root, v, flags);
      hide P.Pmm.Valid, P.Pmm.Used, P.Pmm.Exhausted, World, OnWalk, Grown, Index, Up, SetPage, LetsThrough, Anc;
      var pdpt := Descend(st0, root, v, 3, root, Index(virt, 4), flags);
      if pdpt == 0 {
        WalkSoFar(st0, Now(), root, v, 4, root, flags);
        return false;
      }
      ok := MapUnderPdpt(st0, root, v, virt, pdpt, phys, flags);
    }

    method MapUnderPdpt(ghost st0: St, ghost r: nat, ghost v: nat, virt: nat, pdpt: nat, phys: nat, flags: Flags)
      returns (ok: bool)
      requires Valid() && OnWalk(st0, Now(), r, v, 3, pdpt, flags) && v == virt / PAGE
      modifies this, pmm, pmm.bits
      ensures Valid() && Grown(st0, Now(), r, v)
      ensures ok ==> spaces[r].pages == st0.spaces[r].pages[v := LeafOf(phys, flags)]
      ensures ok ==> forall l :: 1 <= l <= 3 ==> Anc(v, l) in spaces[r].tabs
      ensures !ok ==> spaces[r].pages == st0.spaces[r].pages && pmm.Exhausted()
    {
      IndexIsKey(virt);
      hide P.Pmm.Valid, P.Pmm.Used, P.Pmm.Exhausted, World, OnWalk, Grown, Index, Up, SetPage, LetsThrough;
      var pd := Descend(st0, r, v, 2, pdpt, Index(virt, 3), flags);
      if pd == 0 {
        WalkSoFar(st0, Now(), r, v, 3, pdpt, flags);
        return false;
      }
      ok := MapUnderPd(st0, r, v, virt, pd, phys, flags);
    }

    /** The last step down and the leaf write of vmmMapPage. */
    method MapUnderPd(ghost st0: St, ghost r: nat, ghost v: nat, virt: nat, pd: nat, phys: nat, flags: Flags)
      returns (ok: bool)
      requires Valid() && OnWalk(st0, Now(), r, v, 2, pd, flags) && v == virt / PAGE
      modifies this, pmm, pmm.bits
      ensures Valid() && Grown(st0, Now(), r, v)
      ensures ok ==> spaces[r].pages == st0.spaces[r].pages[v := LeafOf(phys, flags)]
      ensures ok ==> forall l :: 1 <= l <= 3 ==> Anc(v, l) in spaces[r].tabs
      ensures !ok ==> spaces[r].pages == st0.spaces[r].pages && pmm.Exhausted()
    {
      IndexIsKey(virt);
      WalkSoFar(st0, Now(), r, v, 2, pd, flags);
      hide P.Pmm.Valid, P.Pmm.Used, P.Pmm.Exhausted, World, OnWalk, Grown, Index, Up, SetPage, LetsThrough;
      var pt := Descend(st0, r, v, 1, pd, Index(virt, 2), flags);
      if pt == 0 {
        return false;
      }
      ghost var st := Now();
      WalkSoFar(st0, st, r, v, 1, pt, flags);
      WriteLeafEntry(r, v, pt, Index(virt, 1), LeafOf(phys, flags));
      LeafGrown(st0, st, r, v, pt, flags, phys, Now());
      ok := true;
    }

    /** isTableEmpty. */
    method IsTableEmpty(f: nat) returns (empty: bool)
      ensures empty <==> AllAbsent(mem, f)
    {
      var i := 0;
      while i < 512
        invariant 0 <= i <= 512
        invariant forall j: nat :: j < i ==> !At(mem, f, j).present
      {
        if At(mem, f, i).present {
          return false;
        }
        i := i + 1;
      }
      return true;
    }

    /** Clearing the entry of an emptied table n and freeing its frame. */
    method Unlink(ghost r: nat, ghost n: Node, parent: nat, idx: nat, f: nat)
      requires Valid() && Walkable(Now(), r, n, parent, idx)
      requires n in spaces[r].tabs && f == spaces[r].tabs[n] && AllAbsent(mem, f)
      modifies this, pmm, pmm.bits
      ensures Valid() && Dropped(old(Now()), Now(), r, n)
    {
      ghost var st := Now();
      ghost var spaces' := spaces[r := spaces[r].(tabs := spaces[r].tabs - {n})];
      DropWorld(st, St(Put(mem, parent, idx, ZERO), spaces', pmm.Used() - {f}), kernelRoot, r, n, parent, idx);
      hide P.Pmm.Valid, P.Pmm.Used, World, Put, AllAbsent, Walkable;
      mem := Put(mem, parent, idx, ZERO);
      spaces := spaces';
      pmm.Release(f);
    }

    /** vmmUnmapPage, user half: removes one page; then the PT, PD and PDPT on its walk that hold
        nothing any more, and only those, are unhooked and their frames freed. */
    method UnmapPage(root: nat, virt: nat)
      requires Valid() && root in spaces && virt < USER_PAGES * PAGE
      modifies this, pmm, pmm.bits
      ensures Valid() && Unmapped(old(Now()), Now(), root, virt / PAGE)
    {
      ghost var v := virt / PAGE;
      WalkFacts(Now(), kernelRoot, root, virt);
      UnmapNothing(Now(), kernelRoot, root, v);
      hide P.Pmm.Valid, P.Pmm.Used, World, At, Put, Unmapped, Index, Up, PathFrames;
      var e4 := At(mem, root, Index(virt, 4));
      if !e4.present {
        return;
      }
      var e3 := At(mem, e4.frame, Index(virt, 3));
      if !e3.present || e3.huge {
        return;
      }
      var pdIdx := Index(virt, 2);
      var e2 := At(mem, e3.frame, pdIdx);
      if !e2.present {
        return;
      }
      mem := if e2.huge then Put(mem, e3.frame, pdIdx, ZERO) else mem;
      if e2.huge {
        return;
      }
      UnmapIn(root, v, virt, e4.frame, e3.frame, e2.frame);
    }

    /** vmmUnmapPage once the walk has found all three tables. */
    method UnmapIn(root: nat, ghost v: nat, virt: nat, pdpt: nat, pd: nat, pt: nat)
      requires Valid() && root in spaces && v == virt / PAGE && PathFrames(spaces[root], v, 1, pdpt, pd, pt)
      modifies this, pmm, pmm.bits
      ensures Valid() && Unmapped(old(Now()), Now(), root, v)
    {
      ghost var st0 := Now();
      IndexIsKey(virt);
      WriteLeafEntry(root, v, pt, Index(virt, 1), ZERO);
      ClearedPage(st0, Now(), root, v, pdpt, pd, pt);
      hide P.Pmm.Valid, P.Pmm.Used, World, Pruning, Index, Unmapped, PathFrames;
      var gone := PruneTable(st0, root, v, virt, 1, pdpt, pd, pt);
      if gone {
        gone := PruneTable(st0, root, v, virt, 2, pdpt, pd, pt);
        if gone {
          var _ := PruneTable(st0, root, v, virt, 3, pdpt, pd, pt);
        }
      }
    }

    /** One level of the pruning: the table of level l on the walk to v goes if it holds nothing. */
    method PruneTable(ghost st0: St, root: nat, ghost v: nat, virt: nat, l: nat, pdpt: nat, pd: nat, pt: nat)
      returns (gone: bool)
      requires Valid() && v == virt / PAGE && Pruning(st0, Now(), root, v, l, pdpt, pd, pt) && 1 <= l <= 3
      modifies this, pmm, pmm.bits
      ensures Valid()
      ensures if gone && l < 3 then Pruning(st0, Now(), root, v, l + 1, pdpt, pd, pt) else Unmapped(st0, Now(), root, v)
    {
      ghost var st := Now();
      PathWalkable(st, kernelRoot, root, virt, l, pdpt, pd, pt);
      var f := if l == 1 then pt else if l == 2 then pd else pdpt;
      var parent := if l == 1 then pd else if l == 2 then pdpt else root;
      var idx := Index(virt, l + 1);
      assert f == spaces[root].tabs[Anc(v, l)];
      hide P.Pmm.Valid, P.Pmm.Used, World, Pruning, Index, Up, AllAbsent, Walkable, Dropped, Unmapped;
      var empty := IsTableEmpty(f);
      gone := empty && (l < 3 || idx < 256);
      if gone {
        Unlink(root, Anc(v, l), parent, idx, f);
        UnmapStep(st0, st, Now(), root, v, l, pdpt, pd, pt);
      } else {
        UnmapDone(st0, st, kernelRoot, root, v, l, pdpt, pd, pt);
      }
    }

    /** vmmCreateAddressSpace; 0 is NULL. */
    method CreateAddressSpace() returns (f: nat)
      requires Valid()
      modifies this, pmm, pmm.bits
      ensures Valid()
      ensures f == 0 ==> Now() == old(Now()) && pmm.Exhausted()
      ensures f != 0 ==>
        && f !in old(spaces) && f !in old(pmm.Used())
        && spaces == old(spaces)[f := Space(map[ROOT := f], map[])] && pmm.Used() == old(pmm.Used()) + {f}
        && kernelRoot in old(mem) && |old(mem)[kernelRoot]| == 512
        && f in mem && |mem[f]| == 512 && mem == old(mem)[f := mem[f]]
        && (forall i :: 0 <= i < 256 ==> mem[f][i] == ZERO)
        && (forall i :: 256 <= i < 512 ==> mem[f][i] == old(mem)[kernelRoot][i])
    {
      assert kernelRoot in mem && |mem[kernelRoot]| == 512;
      hide P.Pmm.Valid, P.Pmm.Used, P.Pmm.Exhausted, World;
      ghost var st := Now();
      f := pmm.Alloc();
      if f != 0 {
        mem := mem[f := RootTable(mem[kernelRoot])];
        spaces := spaces[f := NewSpace(f)];
        CreateWorld(st, Now(), kernelRoot, f);
      }
    }

    /** The nested loops of vmmDestroyAddressSpace, one level per call: everything below table n is
        freed, then n itself. Release demands a frame in use, so nothing is freed twice. */
    method DestroyTable(ghost s: Space, ghost owned: set<nat>, ghost n: Node, level: nat, f: nat)
      requires pmm.Valid() && SpaceOk(mem, s) && OwnsFrames(s, owned)
      requires n in s.tabs && level == n.level && f == s.tabs[n] && Frames(s, Under(s, n)) <= pmm.Used()
      modifies pmm, pmm.bits
      ensures pmm.Valid() && pmm.Used() == old(pmm.Used()) - Frames(s, Under(s, n))
      decreases level
    {
      hide P.Pmm.Valid, P.Pmm.Used, OwnsFrames, FreedTo, Under, Before, Frames, LinksOk, LeavesOk, PermsOk;
      ghost var used0 := pmm.Used();
      FreedNone(s, n, used0);
      var limit := if level == 4 then 256 else 512;
      var i := 0;
      while i < limit
        invariant 0 <= i <= limit && pmm.Valid()
        invariant FreedTo(s, used0, pmm.Used(), Before(s, n, i))
      {
        DestroyEntry(s, owned, used0, n, level, f, i);
        i := i + 1;
      }
      DestroySelf(s, owned, used0, n, f);
    }

    method DestroyEntry(ghost s: Space, ghost owned: set<nat>, ghost used0: set<nat>, ghost n: Node, level: nat, f: nat,
                        i: nat)
      requires pmm.Valid() && SpaceOk(mem, s) && OwnsFrames(s, owned)
      requires n in s.tabs && level == n.level && f == s.tabs[n] && i < if level == 4 then 256 else 512
      requires FreedTo(s, used0, pmm.Used(), Before(s, n, i)) && Frames(s, Under(s, n)) <= used0
      modifies pmm, pmm.bits
      ensures pmm.Valid() && FreedTo(s, used0, pmm.Used(), Before(s, n, i + 1))
      decreases level, 0
    {
      ghost var c := Child(n, i);
      EntryIs(mem, s, n, i);
      NextEntry(mem, s, n, i);
      var e := At(mem, f, i);
      if !e.present || ((level == 3 || level == 2) && e.huge) {
        return;
      }
      ChildUsed(s, owned, used0, pmm.Used(), n, i);
      if level == 1 {
        LeafAlone(s, c.key);
        pmm.Release(e.frame);
      } else {
        DestroyTable(s, owned, c, level - 1, e.frame);
      }
    }

    method DestroySelf(ghost s: Space, ghost owned: set<nat>, ghost used0: set<nat>, ghost n: Node, f: nat)
      requires pmm.Valid() && SpaceOk(mem, s) && OwnsFrames(s, owned) && n in s.tabs && f == s.tabs[n]
      requires FreedTo(s, used0, pmm.Used(), Before(s, n, if n.level == 4 then 256 else 512))
      requires Frames(s, Under(s, n)) <= used0
      modifies pmm, pmm.bits
      ensures pmm.Valid() && pmm.Used() == used0 - Frames(s, Under(s, n))
    {
      LastEntry(mem, s, n);
      SelfUsed(s, owned, used0, pmm.Used(), n);
      pmm.Release(f);
    }

    /** vmmDestroyAddressSpace: exactly the tables and the still mapped leaf frames become free. */
    method DestroyAddressSpace(root: nat)
      requires Valid() && root in spaces && OwnsFrames(spaces[root], pmm.Used()) && LeavesApart(Now(), kernelRoot, root)
      modifies this, pmm, pmm.bits
      ensures Valid() && spaces == old(spaces) - {root}
      ensures pmm.Used() == old(pmm.Used()) - (Tables(old(spaces)[root]) + LeafFrames(old(spaces)[root]))
    {
      ghost var st := Now();
      hide P.Pmm.Valid, P.Pmm.Used, World, Tables, LeafFrames, OwnsFrames, LeavesApart;
      FreeAll(root);
      spaces := spaces - {root};
      DestroyWorld(st, Now(), kernelRoot, root);
    }

    method FreeAll(root: nat)
      requires Valid() && root in spaces && OwnsFrames(spaces[root], pmm.Used())
      modifies pmm, pmm.bits
      ensures pmm.Valid() && pmm.Used() == old(pmm.Used()) - (Tables(spaces[root]) + LeafFrames(spaces[root]))
    {
      DestroyReady(Now(), kernelRoot, root);
      hide P.Pmm.Valid, P.Pmm.Used, World, Tables, LeafFrames, Frames, Under, SpaceOk, OwnsFrames;
      DestroyTable(spaces[root], pmm.Used(), ROOT, 4, root);
    }
  }
}
