/** Collecting a process and all its descendants from one snapshot (src/platform/process.cpp:46-75). */
module ProcessTree {
  type Pid = nat

  datatype Edge = Edge(parent: Pid, child: Pid)

  /** `pid` is `n` generations below `root`. */
  ghost predicate Below(edges: seq<Edge>, root: Pid, pid: Pid, n: nat)
    decreases n
  {
    if n == 0 then pid == root else exists e :: e in edges && e.child == pid && Below(edges, root, e.parent, n - 1)
  }

  ghost predicate Descends(edges: seq<Edge>, root: Pid, pid: Pid) {
    exists n: nat :: Below(edges, root, pid, n)
  }

  lemma ChildDescends(edges: seq<Edge>, root: Pid, e: Edge)
    requires e in edges && Descends(edges, root, e.parent)
    ensures Descends(edges, root, e.child)
  {
    var n: nat :| Below(edges, root, e.parent, n);
    assert Below(edges, root, e.child, n + 1);
  }

  /** A set with the root that holds the children of its members holds every descendant. */
  lemma {:induction false} ClosedHoldsAll(edges: seq<Edge>, root: Pid, s: set<Pid>, pid: Pid, n: nat)
    requires root in s && (forall e :: e in edges && e.parent in s ==> e.child in s) && Below(edges, root, pid, n)
    ensures pid in s
    decreases n
  {
    if n > 0 {
      var e :| e in edges && e.child == pid && Below(edges, root, e.parent, n - 1);
      ClosedHoldsAll(edges, root, s, e.parent, n - 1);
    }
  }

  /** Every process the snapshot mentions. */
  function Mentioned(edges: seq<Edge>, root: Pid): set<Pid> {
    {root} + set e | e in edges :: e.child
  }

  predicate NoRepeats(s: seq<Pid>) {
    forall i, j :: 0 <= i < j < |s| ==> s[i] != s[j]
  }

  lemma {:induction false} NoRepeatsFits(s: seq<Pid>, whole: set<Pid>)
    requires NoRepeats(s) && forall p :: p in s ==> p in whole
    ensures |s| <= |whole|
    decreases |s|
  {
    if s != [] {
      var last := s[|s| - 1];
      forall p | p in s[..|s| - 1] ensures p in whole - {last} {}
      NoRepeatsFits(s[..|s| - 1], whole - {last});
    }
  }

  /** `pid` is the root or the child of one of `parents`. */
  predicate HasParentIn(edges: seq<Edge>, root: Pid, pid: Pid, parents: seq<Pid>) {
    pid == root || exists e :: e in edges && e.child == pid && e.parent in parents
  }

  /** Every process but the root was found after a parent of its own. */
  predicate AfterAParent(edges: seq<Edge>, root: Pid, found: seq<Pid>) {
    forall i :: 0 <= i < |found| ==> HasParentIn(edges, root, found[i], found[..i])
  }

  /** The children of `current` not found yet are put on the stack. */
  method PushChildren(edges: seq<Edge>, current: Pid, found: seq<Pid>, stack: seq<Pid>) returns (pushed: seq<Pid>)
    ensures forall p :: p in pushed <==> p in stack || (p !in found && Edge(current, p) in edges)
  {
    pushed := stack;
    var i := 0;
    while i < |edges|
      invariant i <= |edges|
      invariant forall p :: p in pushed <==> p in stack || (p !in found && Edge(current, p) in edges[..i])
    {
      if edges[i].parent == current && edges[i].child !in found {
        pushed := pushed + [edges[i].child];
      }
      i := i + 1;
    }
    assert edges[..i] == edges;
  }

  function Reversed(s: seq<Pid>): (r: seq<Pid>)
    ensures |r| == |s| && forall i :: 0 <= i < |s| ==> r[i] == s[|s| - 1 - i]
  {
    seq(|s|, i requires 0 <= i < |s| => s[|s| - 1 - i])
  }

  lemma Discover(edges: seq<Edge>, root: Pid, found: seq<Pid>, current: Pid)
    requires AfterAParent(edges, root, found) && HasParentIn(edges, root, current, found)
    ensures AfterAParent(edges, root, found + [current])
  {
    var longer := found + [current];
    forall i | 0 <= i < |longer| ensures HasParentIn(edges, root, longer[i], longer[..i]) {
      assert longer[..i] == found[..i];
      if i == |found| { assert found[..i] == found; }
    }
  }

  /** What the search keeps: nothing found twice, only descendants, each after a parent of its own,
      and every child of a found process found or on the stack. */
  ghost predicate Searching(edges: seq<Edge>, root: Pid, found: seq<Pid>, stack: seq<Pid>) {
    && NoRepeats(found) && AfterAParent(edges, root, found)
    && (forall p :: p in found || p in stack ==> Descends(edges, root, p) && p in Mentioned(edges, root))
    && (forall p :: p in stack ==> HasParentIn(edges, root, p, found))
    && (root in found || root in stack)
    && (forall e :: e in edges && e.parent in found ==> e.child in found || e.child in stack)
  }

  lemma SearchSkips(edges: seq<Edge>, root: Pid, found: seq<Pid>, rest: seq<Pid>, current: Pid)
    requires Searching(edges, root, found, rest + [current]) && current in found
    ensures Searching(edges, root, found, rest)
  {
    assert forall p :: p in rest + [current] <==> p in rest || p == current;
  }

  lemma SearchFinds(edges: seq<Edge>, root: Pid, found: seq<Pid>, rest: seq<Pid>, current: Pid, pushed: seq<Pid>)
    requires Searching(edges, root, found, rest + [current]) && current !in found
    requires forall p :: p in pushed <==> p in rest || (p !in found + [current] && Edge(current, p) in edges)
    ensures Searching(edges, root, found + [current], pushed)
  {
    assert forall p :: p in rest + [current] <==> p in rest || p == current;
    assert forall p :: p in found + [current] <==> p in found || p == current;
    Discover(edges, root, found, current);
    forall p | p in pushed
      ensures Descends(edges, root, p) && p in Mentioned(edges, root) && HasParentIn(edges, root, p, found + [current])
    {
      if p !in rest {
        assert Edge(current, p) in edges;
        ChildDescends(edges, root, Edge(current, p));
      }
    }
    forall e | e in edges && e.parent in found + [current] ensures e.child in found + [current] || e.child in pushed {
      if e.parent == current { assert e == Edge(current, e.child); }
    }
  }

  lemma SearchEnds(edges: seq<Edge>, root: Pid, found: seq<Pid>, p: Pid)
    requires Searching(edges, root, found, [])
    ensures p in found <==> Descends(edges, root, p)
  {
    if Descends(edges, root, p) {
      var n: nat :| Below(edges, root, p, n);
      ClosedHoldsAll(edges, root, (set q | q in found), p, n);
    }
  }

  lemma ReversedHas(s: seq<Pid>, p: Pid)
    ensures p in Reversed(s) <==> p in s
  {
    if p in s {
      var i :| 0 <= i < |s| && s[i] == p;
      assert Reversed(s)[|s| - 1 - i] == p;
    }
  }

  /** The root and all its descendants, each once, whatever cycles the snapshot holds; turned round,
      every process but the root was found after a parent of its own. */
  method CollectTree(edges: seq<Edge>, root: Pid) returns (victims: seq<Pid>)
    ensures NoRepeats(victims)
    ensures forall p :: p in victims <==> Descends(edges, root, p)
    ensures AfterAParent(edges, root, Reversed(victims))
  {
    var found: seq<Pid> := [];
    var stack := [root];
    assert Below(edges, root, root, 0);
    while stack != []
      invariant Searching(edges, root, found, stack)
      decreases |Mentioned(edges, root)| - |found|, |stack|
    {
      NoRepeatsFits(found, Mentioned(edges, root));
      var current := stack[|stack| - 1];
      var rest := stack[..|stack| - 1];
      assert stack == rest + [current];
      if current in found {
        SearchSkips(edges, root, found, rest, current);
        stack := rest;
      } else {
        var pushed := PushChildren(edges, current, found + [current], rest);
        SearchFinds(edges, root, found, rest, current, pushed);
        found, stack := found + [current], pushed;
        NoRepeatsFits(found, Mentioned(edges, root));
      }
    }
    victims := Reversed(found);
    assert Reversed(victims) == found;
    forall p ensures p in victims <==> Descends(edges, root, p) {
      SearchEnds(edges, root, found, p);
      ReversedHas(found, p);
    }
  }

  /** When no process has two parents, terminating in the order collected takes every process
      before its parent, whatever other edges there are. */
  lemma ChildrenFirst(edges: seq<Edge>, root: Pid, victims: seq<Pid>, i: nat, j: nat)
    requires AfterAParent(edges, root, Reversed(victims)) && NoRepeats(victims)
    requires forall e, f :: e in edges && f in edges && e.child == f.child ==> e.parent == f.parent
    requires i < |victims| && j < |victims| && victims[i] != root && Edge(victims[j], victims[i]) in edges
    ensures i < j
  {
    var found := Reversed(victims);
    var at := |victims| - 1 - i;
    assert HasParentIn(edges, root, found[at], found[..at]);
    var e :| e in edges && e.child == found[at] && e.parent in found[..at];
    var k :| 0 <= k < at && found[k] == e.parent;
    assert victims[|victims| - 1 - k] == victims[j];
  }
}
