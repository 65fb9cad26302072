/** Doubly linked lists threaded through the next and prev fields of records, as the C sources
    write them: a head pointer, address 0 for NULL, and no sentinel. The fields live in a map
    from addresses, and the abstract list is a sequence of addresses. */
module DList {
  datatype Link = Link(next: nat, prev: nat)
  datatype List = List(links: map<nat, Link>, head: nat)

  function Get(links: map<nat, Link>, c: nat): Link {
    if c in links then links[c] else Link(0, 0)
  }

  /** The element at position i, or NULL past either end. */
  function At(s: seq<nat>, i: int): nat {
    if 0 <= i < |s| then s[i] else 0
  }

  ghost predicate Distinct(s: seq<nat>) {
    forall i, j :: 0 <= i < j < |s| ==> s[i] != s[j]
  }

  /** The list threaded from the head is s, with correct back links. */
  ghost predicate Listed(l: List, s: seq<nat>) {
    && l.head == At(s, 0) && 0 !in s && Distinct(s)
    && (forall i {:trigger Get(l.links, s[i])} :: 0 <= i < |s| ==>
          Get(l.links, s[i]) == Link(At(s, i + 1), At(s, i - 1)))
  }

  function SetNext(links: map<nat, Link>, c: nat, x: nat): map<nat, Link> {
    links[c := Get(links, c).(next := x)]
  }

  function SetPrev(links: map<nat, Link>, c: nat, x: nat): map<nat, Link> {
    links[c := Get(links, c).(prev := x)]
  }

  /** c->next = head; c->prev = NULL; if (head) head->prev = c; head = c; */
  function PushFront(l: List, c: nat): List {
    var links := l.links[c := Link(l.head, 0)];
    List(if l.head != 0 then SetPrev(links, l.head, c) else links, c)
  }

  /** c->next = NULL; c->prev = tail; if (tail) tail->next = c; else head = c; */
  function PushBack(l: List, tail: nat, c: nat): List {
    var links := l.links[c := Link(0, tail)];
    if tail != 0 then List(SetNext(links, tail, c), l.head) else List(links, c)
  }

  /** Bypass c on both sides, then clear its own links. */
  function Remove(l: List, c: nat): List {
    var h := Get(l.links, c);
    var links := if h.prev != 0 then SetNext(l.links, h.prev, h.next) else l.links;
    var links' := if h.next != 0 then SetPrev(links, h.next, h.prev) else links;
    List(links'[c := Link(0, 0)], if h.prev != 0 then l.head else h.next)
  }

  /** c goes between it and its successor. */
  function InsertAfter(l: List, it: nat, c: nat): List {
    var n := Get(l.links, it).next;
    var links := l.links[c := Link(n, it)];
    var links' := if n != 0 then SetPrev(links, n, c) else links;
    List(SetNext(links', it, c), l.head)
  }

  ghost function Without(s: seq<nat>, i: nat): seq<nat>
    requires i < |s|
  {
    s[..i] + s[i + 1..]
  }

  ghost function With(s: seq<nat>, i: nat, c: nat): seq<nat>
    requires i <= |s|
  {
    s[..i] + [c] + s[i..]
  }

  lemma PushFrontLists(l: List, s: seq<nat>, c: nat)
    requires Listed(l, s) && c != 0 && c !in s
    ensures Listed(PushFront(l, c), [c] + s)
  {
    var t, l' := [c] + s, PushFront(l, c);
    forall i | 0 <= i < |t| ensures Get(l'.links, t[i]) == Link(At(t, i + 1), At(t, i - 1)) {
      if i > 0 { assert Get(l.links, s[i - 1]) == Link(At(s, i), At(s, i - 2)); }
    }
  }

  lemma PushBackLists(l: List, s: seq<nat>, c: nat)
    requires Listed(l, s) && c != 0 && c !in s
    ensures Listed(PushBack(l, At(s, |s| - 1), c), s + [c])
  {
    var t, l' := s + [c], PushBack(l, At(s, |s| - 1), c);
    forall i | 0 <= i < |t| ensures Get(l'.links, t[i]) == Link(At(t, i + 1), At(t, i - 1)) {
      if i < |s| { assert Get(l.links, s[i]) == Link(At(s, i + 1), At(s, i - 1)); }
    }
  }

  /** A list does not notice changes to links of records that are not in it. */
  lemma Frame(links: map<nat, Link>, links': map<nat, Link>, head: nat, s: seq<nat>)
    requires Listed(List(links, head), s)
    requires forall x :: x in s ==> Get(links', x) == Get(links, x)
    ensures Listed(List(links', head), s)
  {
    forall i | 0 <= i < |s| ensures Get(links', s[i]) == Link(At(s, i + 1), At(s, i - 1)) {
      assert Get(links, s[i]) == Link(At(s, i + 1), At(s, i - 1));
    }
  }

  lemma AtMember(s: seq<nat>, k: nat)
    ensures k < |s| ==> At(s, k) in s
  {
  }

  /** The links and the head determine the list. */
  lemma ListedOnce(l: List, s: seq<nat>, t: seq<nat>)
    requires Listed(l, s) && Listed(l, t)
    ensures s == t
  {
    var k := 0;
    while k < |s|
      invariant 0 <= k <= |s| && k <= |t| && s[..k] == t[..k] && At(s, k) == At(t, k)
    {
      assert s[k] in s && k < |t|;
      assert Get(l.links, s[k]) == Link(At(s, k + 1), At(s, k - 1))
        && Get(l.links, t[k]) == Link(At(t, k + 1), At(t, k - 1));
      k := k + 1;
    }
    AtMember(t, |s|);
    assert s[..k] == s && t[..k] == t;
  }

  lemma RemoveFrame(l: List, s: seq<nat>, i: nat, x: nat)
    requires Listed(l, s) && i < |s| && x !in s
    ensures Get(Remove(l, s[i]).links, x) == Get(l.links, x)
  {
    assert Get(l.links, s[i]) == Link(At(s, i + 1), At(s, i - 1));
  }

  lemma PushBackFrame(l: List, s: seq<nat>, c: nat, x: nat)
    requires Listed(l, s) && x !in s && x != c
    ensures Get(PushBack(l, At(s, |s| - 1), c).links, x) == Get(l.links, x)
  {
  }

  lemma PushFrontFrame(l: List, s: seq<nat>, c: nat, x: nat)
    requires Listed(l, s) && x !in s && x != c
    ensures Get(PushFront(l, c).links, x) == Get(l.links, x)
  {
  }

  lemma AtWithout(s: seq<nat>, i: nat)
    requires i < |s|
    ensures |Without(s, i)| == |s| - 1
    ensures forall k: int :: k < i ==> At(Without(s, i), k) == At(s, k)
    ensures forall k: int :: k >= i ==> At(Without(s, i), k) == At(s, k + 1)
  {
  }

  lemma AtWith(s: seq<nat>, i: nat, c: nat)
    requires i <= |s|
    ensures |With(s, i, c)| == |s| + 1 && At(With(s, i, c), i) == c
    ensures forall k: int :: k < i ==> At(With(s, i, c), k) == At(s, k)
    ensures forall k: int :: k > i ==> At(With(s, i, c), k) == At(s, k - 1)
  {
  }

  lemma WithElems(s: seq<nat>, i: nat, c: nat)
    requires i <= |s|
    ensures forall x :: x in With(s, i, c) <==> x in s || x == c
    ensures Distinct(s) && c !in s ==> Distinct(With(s, i, c))
  {
    var t := With(s, i, c);
    assert t[i] == c;
    forall x | x in s ensures x in t {
      var j := FindIndex(s, x);
      assert t[if j < i then j else j + 1] == x;
    }
  }

  lemma RemoveLists(l: List, s: seq<nat>, i: nat)
    requires Listed(l, s) && i < |s|
    ensures Listed(Remove(l, s[i]), Without(s, i))
  {
    var t, l' := Without(s, i), Remove(l, s[i]);
    AtWithout(s, i);
    WithoutElems(s, i);
    hide Without;
    forall k | 0 <= k < |t| ensures Get(l'.links, t[k]) == Link(At(t, k + 1), At(t, k - 1)) {
      RemovedLink(l, s, i, if k < i then k else k + 1);
      assert t[k] == At(t, k);
    }
    assert l.head != 0 || |s| == 0;
    assert l'.head == At(t, 0) by { assert Get(l.links, s[i]) == Link(At(s, i + 1), At(s, i - 1)); }
  }

  lemma RemovedLink(l: List, s: seq<nat>, i: nat, o: nat)
    requires Listed(l, s) && i < |s| && o < |s| && o != i
    ensures Get(Remove(l, s[i]).links, s[o]) ==
      Link(if o + 1 == i then At(s, i + 1) else At(s, o + 1), if o - 1 == i then At(s, i - 1) else At(s, o - 1))
  {
    assert Get(l.links, s[i]) == Link(At(s, i + 1), At(s, i - 1));
    assert Get(l.links, s[o]) == Link(At(s, o + 1), At(s, o - 1));
  }

  lemma InsertAfterLists(l: List, s: seq<nat>, i: nat, c: nat)
    requires Listed(l, s) && i < |s| && c != 0 && c !in s
    ensures Listed(InsertAfter(l, s[i], c), With(s, i + 1, c))
  {
    var t, l' := With(s, i + 1, c), InsertAfter(l, s[i], c);
    AtWith(s, i + 1, c);
    WithElems(s, i + 1, c);
    hide With;
    forall k | 0 <= k < |t| ensures Get(l'.links, t[k]) == Link(At(t, k + 1), At(t, k - 1)) {
      assert t[k] == At(t, k);
      if k == i + 1 {
        assert Get(l.links, s[i]) == Link(At(s, i + 1), At(s, i - 1));
      } else {
        InsertedLink(l, s, i, c, if k <= i then k else k - 1);
      }
    }
  }

  lemma InsertedLink(l: List, s: seq<nat>, i: nat, c: nat, o: nat)
    requires Listed(l, s) && i < |s| && c != 0 && c !in s && o < |s|
    ensures Get(InsertAfter(l, s[i], c).links, s[o]) ==
      Link(if o == i then c else At(s, o + 1), if o == i + 1 then c else At(s, o - 1))
  {
    assert Get(l.links, s[i]) == Link(At(s, i + 1), At(s, i - 1));
    assert Get(l.links, s[o]) == Link(At(s, o + 1), At(s, o - 1));
  }

  lemma FindIndex(s: seq<nat>, c: nat) returns (i: nat)
    requires c in s
    ensures i < |s| && s[i] == c
  {
    i :| i < |s| && s[i] == c;
  }

  lemma WithoutElems(s: seq<nat>, i: nat)
    requires Distinct(s) && i < |s|
    ensures Distinct(Without(s, i)) && forall x :: x in Without(s, i) <==> x in s && x != s[i]
  {
    var t := Without(s, i);
    forall x | x in s && x != s[i] ensures x in t {
      var j := FindIndex(s, x);
      assert t[if j < i then j else j - 1] == x;
    }
  }

  ghost function IndexOf(s: seq<nat>, c: nat): (i: nat)
    requires c in s
    ensures i < |s| && s[i] == c
  {
    var i :| 0 <= i < |s| && s[i] == c;
    i
  }

  /** Of n numbers from lo on there are no more than n different ones. */
  lemma {:induction false} Pigeonhole(s: seq<nat>, lo: nat, n: nat)
    requires Distinct(s) && forall i :: 0 <= i < |s| ==> lo <= s[i] < lo + n
    ensures |s| <= n
    decreases n
  {
    if s != [] { assert lo <= s[0] < lo + n; }
    if n > 0 {
      if i :| 0 <= i < |s| && s[i] == lo + n - 1 {
        Pigeonhole(Without(s, i), lo, n - 1);
      } else {
        Pigeonhole(s, lo, n - 1);
      }
    }
  }
}
