/** The initialisation order of the dynamic linker (src/lib/ldso/rtld.c): a depth-first walk over
    the dependency graph, which may be cyclic, that marks objects as being visited and as
    initialised, runs each initialiser, and records the order for the finalisers. */
module InitOrder {
  import L = DList

  type Graph = map<nat, seq<nat>>

  ghost predicate Edge(g: Graph, a: nat, b: nat) { a in g && b in g[a] }

  ghost predicate IsPath(g: Graph, p: seq<nat>, a: nat, b: nat) {
    |p| > 0 && p[0] == a && p[|p| - 1] == b && forall i :: 0 <= i < |p| - 1 ==> Edge(g, p[i], p[i + 1])
  }

  ghost predicate Reaches(g: Graph, a: nat, b: nat) { exists p :: IsPath(g, p, a, b) }

  /** No object is among the objects its dependencies need. */
  ghost predicate Acyclic(g: Graph) { forall a, b :: Edge(g, a, b) ==> !Reaches(g, b, a) }

  lemma ReachSelf(g: Graph, a: nat)
    ensures Reaches(g, a, a)
  {
    assert IsPath(g, [a], a, a);
  }

  lemma ReachEdge(g: Graph, a: nat, b: nat, c: nat)
    requires Reaches(g, a, b) && Edge(g, b, c)
    ensures Reaches(g, a, c)
  {
    var p :| IsPath(g, p, a, b);
    assert IsPath(g, p + [c], a, c);
  }

  lemma ReachFrom(g: Graph, a: nat, b: nat, c: nat)
    requires Edge(g, a, b) && Reaches(g, b, c)
    ensures Reaches(g, a, c)
  {
    var p :| IsPath(g, p, b, c);
    assert IsPath(g, [a] + p, a, c);
  }

  /** Every dependency of the k-th object to run has run before it, unless it needs that object
      itself. */
  ghost predicate Settled(g: Graph, ran: seq<nat>, k: nat)
    requires k < |ran|
  {
    forall d :: Edge(g, ran[k], d) && d != 0 ==> d in ran[..k] || Reaches(g, d, ran[k])
  }

  ghost predicate Ordered(g: Graph, ran: seq<nat>) {
    L.Distinct(ran) && 0 !in ran && (forall x :: x in ran ==> x in g) && forall k :: 0 <= k < |ran| ==>
      Settled(g, ran, k)
  }

  /** In an acyclic graph every object runs after all its dependencies. */
  lemma DependenciesFirst(g: Graph, ran: seq<nat>, k: nat, d: nat)
    requires Ordered(g, ran) && Acyclic(g) && k < |ran| && Edge(g, ran[k], d) && d != 0
    ensures d in ran[..k]
  {
    assert Settled(g, ran, k);
  }

  lemma OrderedPush(g: Graph, ran: seq<nat>, x: nat)
    requires Ordered(g, ran) && x !in ran && x != 0 && x in g
    requires forall d :: Edge(g, x, d) && d != 0 ==> d in ran || Reaches(g, d, x)
    ensures Ordered(g, ran + [x])
  {
    var r := ran + [x];
    forall k | 0 <= k < |r| ensures Settled(g, r, k) {
      if k < |ran| {
        assert Settled(g, ran, k) && r[..k] == ran[..k];
      } else {
        assert r[..k] == ran;
      }
    }
  }

  // ---- which of several objects runs first

  ghost predicate Needed(g: Graph, ds: seq<nat>, m: nat, y: nat) {
    exists i :: 0 <= i < m && i < |ds| && Reaches(g, ds[i], y)
  }

  /** The objects ds are taken in this order, when n have run: one of them that runs then does so behind
      every one listed before it, except where that one, or one before that, needs it. */
  ghost predicate InTurn(g: Graph, ds: seq<nat>, n: nat, ran: seq<nat>, self: nat) {
    forall j, k, p ::
      && 0 <= j < k < |ds| && n <= p < |ran| && ran[p] == ds[k]
      && ds[j] in ran && ds[j] != self && !Needed(g, ds, j + 1, ds[k])
      ==> ds[j] in ran[..p]
  }

  /** The first m of the objects have been taken; cuts says how many had run after each of them. */
  ghost predicate Taken(g: Graph, ds: seq<nat>, n: nat, ran: seq<nat>, cuts: seq<nat>, m: nat, open: set<nat>) {
    && m <= |ds| && |cuts| == m + 1 && cuts[0] == n <= |ran|
    && forall j :: 0 <= j < m ==> TakenAt(g, ds, n, ran, cuts, j, open)
  }

  ghost predicate TakenAt(g: Graph, ds: seq<nat>, n: nat, ran: seq<nat>, cuts: seq<nat>, j: nat, open: set<nat>) {
    && j < |ds| && j + 1 < |cuts| && n <= cuts[j + 1] <= |ran|
    && (ds[j] == 0 || ds[j] in open || ds[j] in ran[..cuts[j + 1]])
    && (forall p :: n <= p < cuts[j + 1] ==> Needed(g, ds, j + 1, ran[p]))
  }

  lemma TakenNone(g: Graph, ds: seq<nat>, ran: seq<nat>, open: set<nat>)
    ensures Taken(g, ds, |ran|, ran, [|ran|], 0, open)
  {
  }

  lemma TakeStep(g: Graph, ds: seq<nat>, n: nat, ran0: seq<nat>, ran: seq<nat>, cuts: seq<nat>, m: nat, open: set<nat>)
    requires Taken(g, ds, n, ran0, cuts, m, open) && m < |ds| && |ran0| <= |ran| && ran[..|ran0|] == ran0
    requires cuts[m] == |ran0| && (ds[m] == 0 || ds[m] in open || ds[m] in ran)
    requires forall p :: |ran0| <= p < |ran| ==> Reaches(g, ds[m], ran[p])
    ensures Taken(g, ds, n, ran, cuts + [|ran|], m + 1, open)
  {
    var cs := cuts + [|ran|];
    forall j | 0 <= j <= m ensures TakenAt(g, ds, n, ran, cs, j, open) {
      if j < m {
        assert TakenAt(g, ds, n, ran0, cuts, j, open) && ran[..cs[j + 1]] == ran0[..cs[j + 1]];
      } else {
        assert ran[..|ran|] == ran;
        forall p | n <= p < |ran| ensures Needed(g, ds, m + 1, ran[p]) {
          if p < |ran0| { NeededSooner(g, ds, n, ran0, cuts, m, open, p); }
        }
      }
    }
  }

  lemma NeededSooner(g: Graph, ds: seq<nat>, n: nat, ran: seq<nat>, cuts: seq<nat>, m: nat, open: set<nat>, p: nat)
    requires Taken(g, ds, n, ran, cuts, m, open) && m > 0 && n <= p < |ran| == cuts[m]
    ensures Needed(g, ds, m + 1, ran[p])
  {
    assert TakenAt(g, ds, n, ran, cuts, m - 1, open) && Needed(g, ds, m, ran[p]);
  }

  lemma TakenInTurn(g: Graph, ds: seq<nat>, n: nat, ran: seq<nat>, cuts: seq<nat>, open: set<nat>, self: nat)
    requires Taken(g, ds, n, ran, cuts, |ds|, open) && Ordered(g, ran)
    requires forall x :: x in open && x in ran ==> x == self
    ensures InTurn(g, ds, n, ran, self)
  {
    forall j, k, p |
      && 0 <= j < k < |ds| && n <= p < |ran| && ran[p] == ds[k]
      && ds[j] in ran && ds[j] != self && !Needed(g, ds, j + 1, ds[k])
      ensures ds[j] in ran[..p]
    {
      assert TakenAt(g, ds, n, ran, cuts, j, open);
      assert ran[..cuts[j + 1]] <= ran[..p];
    }
  }

  lemma NewlyRan(g: Graph, ran0: seq<nat>, ran: seq<nat>, called0: set<nat>, called: set<nat>, d: nat)
    requires |ran0| <= |ran| && ran[..|ran0|] == ran0 && Ordered(g, ran)
    requires (forall x :: x in called0 <==> x in ran0) && (forall x :: x in called <==> x in ran)
    requires forall y :: y in called && y !in called0 ==> Reaches(g, d, y)
    ensures forall p :: |ran0| <= p < |ran| ==> Reaches(g, d, ran[p])
  {
    forall p | |ran0| <= p < |ran| ensures Reaches(g, d, ran[p]) {
      forall q | 0 <= q < |ran0| ensures ran0[q] != ran[p] { assert ran0[q] == ran[q]; }
      assert ran[p] in called && ran[p] !in called0;
    }
  }

  /** The object itself runs last. */
  lemma TurnLast(g: Graph, ds: seq<nat>, n: nat, ran: seq<nat>, x: nat)
    requires InTurn(g, ds, n, ran, x) && n <= |ran|
    ensures InTurn(g, ds, n, ran + [x], x)
  {
    var r := ran + [x];
    forall j, k, p |
      && 0 <= j < k < |ds| && n <= p < |r| && r[p] == ds[k]
      && ds[j] in r && ds[j] != x && !Needed(g, ds, j + 1, ds[k])
      ensures ds[j] in r[..p]
    {
      assert ds[j] in ran;
      if p < |ran| { assert r[..p] == ran[..p]; } else { assert r[..p] == ran; }
    }
  }

  /** The objects of s from last to first, without those in skip. */
  ghost function Backwards(s: seq<nat>, skip: set<nat>): seq<nat> {
    if s == [] then []
    else (if s[|s| - 1] in skip then [] else [s[|s| - 1]]) + Backwards(s[..|s| - 1], skip)
  }

  lemma {:induction false} BackwardsAll(s: seq<nat>)
    ensures |Backwards(s, {})| == |s| && forall k :: 0 <= k < |s| ==> Backwards(s, {})[k] == s[|s| - 1 - k]
  {
    if s != [] { BackwardsAll(s[..|s| - 1]); }
  }

  /** Exactly the objects that are not skipped, and of any two the later one first. */
  lemma {:induction false} BackwardsElems(s: seq<nat>, skip: set<nat>, x: nat)
    ensures x in Backwards(s, skip) <==> x in s && x !in skip
  {
    if s != [] {
      var k := |s| - 1;
      BackwardsElems(s[..k], skip, x);
      assert s == s[..k] + [s[k]];
    }
  }

  lemma {:induction false} BackwardsOrder(s: seq<nat>, skip: set<nat>, i: nat, j: nat) returns (a: nat, b: nat)
    requires i < j < |s| && s[i] !in skip && s[j] !in skip
    ensures a < b < |Backwards(s, skip)| && Backwards(s, skip)[a] == s[j] && Backwards(s, skip)[b] == s[i]
    decreases |s|
  {
    var k := |s| - 1;
    var rest := Backwards(s[..k], skip);
    if j == k {
      BackwardsElems(s[..k], skip, s[i]);
      assert s[..k][i] == s[i];
      b :| 0 <= b < |rest| && rest[b] == s[i];
      a, b := 0, b + 1;
    } else {
      a, b := BackwardsOrder(s[..k], skip, i, j);
      if s[k] !in skip { a, b := a + 1, b + 1; }
    }
  }

  lemma BackStep(s: seq<nat>, skip: set<nat>, i: nat, done: seq<nat>)
    requires i < |s|
    ensures done + Backwards(s[..i + 1], skip) ==
      (if s[i] in skip then done else done + [s[i]]) + Backwards(s[..i], skip)
  {
    assert s[..i + 1][..i] == s[..i];
    assert done + ([s[i]] + Backwards(s[..i], skip)) == done + [s[i]] + Backwards(s[..i], skip);
    assert done + ([] + Backwards(s[..i], skip)) == done + Backwards(s[..i], skip);
  }

  class Linker {
    const deps: Graph
    var visiting: set<nat>
    var called: set<nat>
    var ran: seq<nat>          // the initialisers that have run, in order
    var order: array<nat>      // gInitOrder
    var count: nat             // gInitOrderCount
    var finiCalled: set<nat>
    var finished: seq<nat>     // the finalisers that have run, in order

    ghost predicate Valid()
      reads this, order
    {
      && count <= order.Length && order[..count] == ran
      && Ordered(deps, ran) && (forall x :: x in called <==> x in ran)
      && visiting !! called && visiting <= deps.Keys && 0 !in visiting
      && (forall x, d :: Edge(deps, x, d) && d != 0 ==> d in deps)
    }

    constructor (g: Graph)
      requires forall x, d :: Edge(g, x, d) && d != 0 ==> d in g
      ensures Valid() && deps == g && visiting == {} && ran == [] && finiCalled == {} && finished == [] && fresh(order)
    {
      deps := g;
      visiting, called, ran, count, finiCalled, finished := {}, {}, [], 0, {}, [];
      order := new nat[0];
    }

    /** rtldAppendInitOrder: the array doubles when it is full. */
    method Append(x: nat)
      requires count <= order.Length
      modifies this`order, this`count, order
      ensures count <= order.Length && order[..count] == old(order[..count]) + [x]
      ensures order == old(order) || fresh(order)
    {
      if count >= order.Length {
        var bigger := new nat[if order.Length == 0 then 16 else order.Length * 2];
        for i := 0 to count
          invariant forall j :: 0 <= j < i ==> bigger[j] == order[j]
          modifies bigger
        {
          bigger[i] := order[i];
        }
        assert bigger[..count] == order[..count];
        order := bigger;
      }
      order[count] := x;
      count := count + 1;
      assert order[..count] == order[..count - 1] + [x];
    }

    ghost predicate Grown(before: seq<nat>) reads this { |before| <= |ran| && ran[..|before|] == before }

    /** rtldInitDfs */
    method Visit(x: nat)
      requires Valid() && (x == 0 || x in deps) && (forall v :: v in visiting ==> Reaches(deps, v, x))
      modifies this`visiting, this`called, this`ran, this`order, this`count, order
      ensures Valid() && visiting == old(visiting) && Grown(old(ran)) && (order == old(order) || fresh(order))
      ensures x != 0 ==> x in called || x in visiting
      ensures forall y :: y in called && y !in old(called) ==> Reaches(deps, x, y)
      ensures called >= old(called)
      ensures x != 0 && x !in old(called) && x !in old(visiting) ==> InTurn(deps, deps[x], |old(ran)|, ran, x)
      decreases deps.Keys - visiting - called
    {
      if x == 0 || x in called || x in visiting { return; }
      visiting := visiting + {x};
      ReachSelf(deps, x);
      var i := 0;
      ghost var cuts: seq<nat> := [|ran|];
      TakenNone(deps, deps[x], ran, visiting);
      hide Ordered, Taken, InTurn, Reaches;
      while i < |deps[x]|
        invariant i <= |deps[x]| && Valid() && visiting == old(visiting) + {x} && Grown(old(ran))
        invariant order == old(order) || fresh(order)
        invariant forall j :: 0 <= j < i && deps[x][j] != 0 ==> deps[x][j] in called || deps[x][j] in visiting
        invariant forall y :: y in called && y !in old(called) ==> Reaches(deps, x, y)
        invariant called >= old(called)
        invariant |cuts| == i + 1 && cuts[i] == |ran| && Taken(deps, deps[x], |old(ran)|, ran, cuts, i, visiting)
      {
        var d, before := deps[x][i], called;
        ghost var ran0 := ran;
        assert Edge(deps, x, d);
        forall v | v in visiting ensures Reaches(deps, v, d) { ReachEdge(deps, v, x, d); }
        assert x in deps.Keys - old(visiting) - old(called);
        Visit(d);
        forall y | y in called && y !in before ensures Reaches(deps, x, y) { ReachFrom(deps, x, d, y); }
        NewlyRan(deps, ran0, ran, before, called, d);
        TakeStep(deps, deps[x], |old(ran)|, ran0, ran, cuts, i, visiting);
        cuts := cuts + [|ran|];
        i := i + 1;
      }
      TakenInTurn(deps, deps[x], |old(ran)|, ran, cuts, visiting, x);
      RunObject(x, |old(ran)|);
    }

    /** The object's own initialiser, when its dependencies have been visited. */
    method RunObject(x: nat, ghost n: nat)
      requires Valid() && x in visiting && n <= |ran| && InTurn(deps, deps[x], n, ran, x)
      requires forall d :: Edge(deps, x, d) && d != 0 ==> d in called || d in visiting
      requires forall v :: v in visiting ==> Reaches(deps, v, x)
      modifies this`visiting, this`called, this`ran, this`order, this`count, order
      ensures Valid() && visiting == old(visiting) - {x} && called == old(called) + {x} && ran == old(ran) + [x]
      ensures InTurn(deps, deps[x], n, ran, x) && (order == old(order) || fresh(order))
    {
      hide Reaches, InTurn;
      OrderedPush(deps, ran, x);
      TurnLast(deps, deps[x], n, ran, x);
      hide Ordered;
      visiting := visiting - {x};
      called := called + {x};
      ran := ran + [x];
      Append(x);
    }

    /** rtldCallInit: every object of the list, then the main program. */
    method CallInit(objects: seq<nat>, main: nat)
      requires Valid() && visiting == {} && 0 !in objects
      requires forall x :: x in deps <==> x in objects || (x == main && main != 0)
      modifies this`visiting, this`called, this`ran, this`order, this`count, order
      ensures Valid() && visiting == {} && Ordered(deps, ran) && (forall x :: x in ran <==> x in deps)
      ensures InTurn(deps, objects + [main], |old(ran)|, ran, 0)
    {
      var i := 0;
      ghost var cuts: seq<nat>, all: seq<nat> := [|ran|], objects + [main];
      TakenNone(deps, all, ran, {});
      hide Ordered, Taken, InTurn, Reaches;
      while i < |objects|
        invariant i <= |objects| && Valid() && visiting == {} && (order == old(order) || fresh(order))
        invariant forall j :: 0 <= j < i ==> objects[j] in called
        invariant |cuts| == i + 1 && cuts[i] == |ran| && Taken(deps, all, |old(ran)|, ran, cuts, i, {})
      {
        cuts := VisitNext(all, i, cuts, |old(ran)|, objects[i]);
        i := i + 1;
      }
      cuts := VisitNext(all, i, cuts, |old(ran)|, main);
      TakenInTurn(deps, all, |old(ran)|, ran, cuts, {}, 0);
    }

    /** One object of the list. */
    method VisitNext(ghost all: seq<nat>, ghost i: nat, ghost cuts: seq<nat>, ghost n: nat, x: nat)
      returns (ghost cs: seq<nat>)
      requires Valid() && visiting == {} && (x == 0 || x in deps) && i < |all| && all[i] == x
      requires |cuts| == i + 1 && cuts[i] == |ran| && Taken(deps, all, n, ran, cuts, i, {})
      modifies this`visiting, this`called, this`ran, this`order, this`count, order
      ensures Valid() && visiting == {} && (order == old(order) || fresh(order)) && called >= old(called)
      ensures x != 0 ==> x in called
      ensures |cs| == i + 2 && cs[i + 1] == |ran| && Taken(deps, all, n, ran, cs, i + 1, {})
    {
      hide Ordered, Taken, InTurn, Reaches;
      ghost var ran0, before := ran, called;
      Visit(x);
      NewlyRan(deps, ran0, ran, before, called, x);
      TakeStep(deps, all, n, ran0, ran, cuts, i, {});
      cs := cuts + [|ran|];
    }

    /** rtldCallFini */
    method CallFini()
      requires Valid()
      modifies this`finiCalled, this`finished
      ensures Valid() && finished == old(finished) + Backwards(ran, old(finiCalled))
      ensures forall x :: x in finiCalled <==> x in old(finiCalled) || x in ran
    {
      var i := count;
      ghost var skip := finiCalled;
      assert ran[..i] == ran;
      assert finished + Backwards(ran, skip) == finished + Backwards(ran[..i], skip);
      while i > 0
        invariant i <= count == |ran| && order[..count] == ran
        invariant finished + Backwards(ran[..i], skip) == old(finished) + Backwards(ran, skip)
        invariant forall j :: 0 <= j < i ==> (ran[j] in finiCalled <==> ran[j] in skip)
        invariant forall x :: x in finiCalled <==> x in skip || x in ran[i..]
      {
        i := i - 1;
        var x := order[i];
        BackStep(ran, skip, i, finished);
        if x !in finiCalled {
          finiCalled := finiCalled + {x};
          finished := finished + [x];
        }
      }
      assert finished + Backwards(ran[..0], skip) == finished;
    }
  }
}
