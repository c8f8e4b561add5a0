/** The recursive depth-first sort that puts upstream milestones first and skips the
    back edges of a cyclic precedence graph. */
module TopoSort {
  import opened Basics
  import opened Graphs

  type Predecessors = map<Id, set<Id>>

  /** (d, u) for every u listed as a predecessor of d. */
  function EdgesOf(preds: Predecessors): Edges {
    set d, u | d in preds && u in preds[d] :: (d, u)
  }

  function PredsOf(preds: Predecessors, n: Id): set<Id> {
    if n in preds then preds[n] else {}
  }

  /** Every edge points backwards in the list, except edges that close a cycle. */
  ghost predicate UpstreamFirst(g: Edges, s: seq<Id>) {
    forall i, u :: 0 <= i < |s| && (s[i], u) in g ==> u in s[..i] || Reaches(g, u, s[i])
  }

  ghost predicate ReachedFrom(g: Edges, nodes: set<Id>, x: Id) {
    exists n :: n in nodes && Reaches(g, n, x)
  }

  ghost predicate ClosedUnder(g: Edges, s: set<Id>) {
    forall a, b :: (a, b) in g && a in s ==> b in s
  }

  /** What the sort promises on any graph, cyclic or not, in whatever order the nodes
      and predecessor sets are walked. */
  ghost predicate IsUpstreamOrder(g: Edges, nodes: set<Id>, s: seq<Id>) {
    && Distinct(s)
    && UpstreamFirst(g, s)
    && nodes <= Elements(s)
    && ClosedUnder(g, Elements(s))
    && (forall x {:trigger ReachedFrom(g, nodes, x)} :: x in s ==> ReachedFrom(g, nodes, x))
  }

  lemma AppendKeepsUpstreamFirst(g: Edges, s: seq<Id>, n: Id)
    requires UpstreamFirst(g, s)
    requires forall u :: (n, u) in g ==> u in s || Reaches(g, u, n)
    ensures UpstreamFirst(g, s + [n])
  {
    var t := s + [n];
    forall i, u | 0 <= i < |t| && (t[i], u) in g
      ensures u in t[..i] || Reaches(g, u, t[i])
    {
      if i < |s| {
        assert s[i] == t[i] && s[..i] == t[..i];
      } else {
        assert t[..i] == s;
      }
    }
  }

  // ---------------------------------------------------------------- the sort as a function

  /** The order in which each predecessor set happens to be iterated. A node's set is
      walked at most once in a sort, so one list for each node says it all. */
  type Walk = map<Id, seq<Id>>

  ghost predicate IsWalk(preds: Predecessors, walk: Walk) {
    && walk.Keys == preds.Keys
    && forall n :: n in walk ==> Distinct(walk[n]) && Elements(walk[n]) == preds[n]
  }

  /** What the nested visits share: the list so far and the nodes in it. */
  datatype Progress = Progress(ordered: seq<Id>, seen: set<Id>)

  const START := Progress([], {})

  function Visited(walk: Walk, n: Id, stack: set<Id>, p: Progress): Progress
    decreases walk.Keys - stack, 0
  {
    if n in p.seen || n in stack then p
    else
      var above := if n in walk then VisitedAll(walk, walk[n], stack + {n}, p) else p;
      if n in above.seen then above else Progress(above.ordered + [n], above.seen + {n})
  }

  /** Visiting the nodes of a list one after the other. */
  function VisitedAll(walk: Walk, ups: seq<Id>, stack: set<Id>, p: Progress): Progress
    decreases walk.Keys - stack, |ups|
  {
    if ups == [] then p
    else Visited(walk, ups[|ups| - 1], stack, VisitedAll(walk, ups[..|ups| - 1], stack, p))
  }

  /** The list the sort returns for these nodes and these iteration orders. */
  function Sorted(walk: Walk, nodes: seq<Id>): seq<Id> {
    VisitedAll(walk, nodes, {}, START).ordered
  }

  /** Every edge out of a seen node leads to a seen node or to one being visited. */
  ghost predicate IsGood(g: Edges, p: Progress, stack: set<Id>) {
    && Distinct(p.ordered) && Elements(p.ordered) == p.seen
    && UpstreamFirst(g, p.ordered)
    && (forall a, b :: (a, b) in g && a in p.seen ==> b in p.seen || b in stack)
  }

  /** A visit only appends; what it adds is reached from the visited nodes and was not
      being visited. */
  ghost predicate Extends(g: Edges, p: Progress, q: Progress, from: set<Id>, stack: set<Id>) {
    && p.ordered <= q.ordered && p.seen <= q.seen
    && (forall x {:trigger ReachedFrom(g, from, x)} :: x in q.seen && x !in p.seen ==> ReachedFrom(g, from, x))
    && (forall x :: x in q.seen && x !in p.seen ==> x !in stack)
  }

  ghost predicate AllReach(g: Edges, stack: set<Id>, n: Id) {
    forall s :: s in stack ==> Reaches(g, s, n)
  }

  lemma AppendKeepsGood(g: Edges, p: Progress, stack: set<Id>, n: Id)
    requires IsGood(g, p, stack + {n}) && n !in p.seen && n !in stack
    requires forall u :: (n, u) in g ==> u in p.seen || u in stack + {n}
    requires AllReach(g, stack, n)
    ensures IsGood(g, Progress(p.ordered + [n], p.seen + {n}), stack)
  {
    ReachesSelf(g, n);
    assert n !in p.ordered;
    assert UpstreamFirst(g, p.ordered + [n]) by {
      forall u | (n, u) in g
        ensures u in p.ordered || Reaches(g, u, n)
      {
        assert u in p.seen ==> u in p.ordered;
      }
      AppendKeepsUpstreamFirst(g, p.ordered, n);
    }
    assert Elements(p.ordered + [n]) == Elements(p.ordered) + {n};
  }

  lemma ReachedThroughEdges(g: Edges, n: Id, from: set<Id>, x: Id)
    requires ReachedFrom(g, from, x) && forall u :: u in from ==> (n, u) in g
    ensures Reaches(g, n, x)
  {
    var u :| u in from && Reaches(g, u, x);
    ReachesEdge(g, n, u);
    ReachesTrans(g, n, u, x);
  }

  lemma StackReachesUps(g: Edges, stack: set<Id>, n: Id, u: Id)
    requires AllReach(g, stack, n) && (n, u) in g
    ensures AllReach(g, stack + {n}, u)
  {
    ReachesEdge(g, n, u);
    forall s | s in stack
      ensures Reaches(g, s, u)
    {
      ReachesTrans(g, s, n, u);
    }
  }

  lemma ExtendsOneMore(g: Edges, p: Progress, mid: Progress, q: Progress, init: seq<Id>, last: Id, stack: set<Id>)
    requires Extends(g, p, mid, Elements(init), stack) && Extends(g, mid, q, {last}, stack)
    ensures Extends(g, p, q, Elements(init + [last]), stack)
  {
    assert Elements(init + [last]) == Elements(init) + {last};
    forall x | x in q.seen && x !in p.seen
      ensures ReachedFrom(g, Elements(init + [last]), x)
    {
      if x in mid.seen {
        assert ReachedFrom(g, Elements(init), x);
        var u :| u in Elements(init) && Reaches(g, u, x);
        assert u in Elements(init + [last]);
      } else {
        assert ReachedFrom(g, {last}, x);
        assert Reaches(g, last, x) && last in Elements(init + [last]);
      }
    }
  }

  lemma {:induction false} VisitKeeps(preds: Predecessors, walk: Walk, n: Id, stack: set<Id>, p: Progress)
    requires IsWalk(preds, walk) && IsGood(EdgesOf(preds), p, stack) && AllReach(EdgesOf(preds), stack, n)
    ensures var g, q := EdgesOf(preds), Visited(walk, n, stack, p);
      && IsGood(g, q, stack) && Extends(g, p, q, {n}, stack) && (n in q.seen || n in stack)
      && (n !in p.seen && n !in stack ==> q.ordered != [] && q.ordered[|q.ordered| - 1] == n)
    decreases walk.Keys - stack, 0
  {
    var g := EdgesOf(preds);
    if n !in p.seen && n !in stack {
      ReachesSelf(g, n);
      assert ReachedFrom(g, {n}, n);
      assert IsGood(g, p, stack + {n});
      var above := p;
      if n in walk {
        forall u | u in walk[n]
          ensures AllReach(g, stack + {n}, u)
        {
          assert u in Elements(walk[n]);
          StackReachesUps(g, stack, n, u);
        }
        above := VisitedAll(walk, walk[n], stack + {n}, p);
        VisitAllKeeps(preds, walk, walk[n], stack + {n}, p);
        forall x | x in above.seen && x !in p.seen
          ensures ReachedFrom(g, {n}, x)
        {
          assert ReachedFrom(g, Elements(walk[n]), x);
          ReachedThroughEdges(g, n, Elements(walk[n]), x);
        }
      }
      forall u | (n, u) in g
        ensures u in above.seen || u in stack + {n}
      {
        assert n in walk && u in Elements(walk[n]);
        assert u in walk[n];
      }
      AppendKeepsGood(g, above, stack, n);
    }
  }

  lemma {:induction false} VisitAllKeeps(preds: Predecessors, walk: Walk, ups: seq<Id>, stack: set<Id>, p: Progress)
    requires IsWalk(preds, walk) && IsGood(EdgesOf(preds), p, stack)
    requires forall u :: u in ups ==> AllReach(EdgesOf(preds), stack, u)
    ensures var g, q := EdgesOf(preds), VisitedAll(walk, ups, stack, p);
      && IsGood(g, q, stack) && Extends(g, p, q, Elements(ups), stack)
      && (forall u :: u in ups ==> u in q.seen || u in stack)
    decreases walk.Keys - stack, |ups|
  {
    if ups != [] {
      var init, last := ups[..|ups| - 1], ups[|ups| - 1];
      var mid := VisitedAll(walk, init, stack, p);
      assert ups == init + [last];
      VisitAllKeeps(preds, walk, init, stack, p);
      VisitKeeps(preds, walk, last, stack, mid);
      ExtendsOneMore(EdgesOf(preds), p, mid, Visited(walk, last, stack, mid), init, last, stack);
    }
  }

  /** On any graph, in whatever order nodes and predecessor sets are iterated, the list has
      each reached node once and upstream milestones first, except along cycles. */
  lemma SortedIsUpstreamOrder(preds: Predecessors, walk: Walk, nodes: seq<Id>)
    requires IsWalk(preds, walk)
    ensures IsUpstreamOrder(EdgesOf(preds), Elements(nodes), Sorted(walk, nodes))
  {
    VisitAllKeeps(preds, walk, nodes, {}, START);
  }

  lemma {:induction false} FirstStaysInFront(preds: Predecessors, walk: Walk, nodes: seq<Id>)
    requires IsWalk(preds, walk) && nodes != []
    ensures Visited(walk, nodes[0], {}, START).ordered <= Sorted(walk, nodes)
  {
    if |nodes| == 1 {
      assert VisitedAll(walk, nodes[..0], {}, START) == START;
    } else {
      var init := nodes[..|nodes| - 1];
      FirstStaysInFront(preds, walk, init);
      VisitAllKeeps(preds, walk, init, {}, START);
      VisitKeeps(preds, walk, nodes[|nodes| - 1], {}, VisitedAll(walk, init, {}, START));
    }
  }

  lemma ReachedStandBefore(g: Edges, p: Progress, u: Id, k: nat)
    requires IsGood(g, p, {}) && k == |p.ordered| - 1 && p.ordered[k] == u
    ensures forall x :: x != u && Reaches(g, u, x) ==> x in p.ordered[..k]
  {
    assert p.ordered == p.ordered[..k] + [u];
    assert u in p.ordered;
    forall x | x != u && Reaches(g, u, x)
      ensures x in p.ordered[..k]
    {
      ClosedContainsReached(g, p.seen, u, x);
      assert x in Elements(p.ordered);
    }
  }

  /** Everything the first node reaches stands before it. */
  lemma FirstComesAfterItsUpstream(preds: Predecessors, walk: Walk, nodes: seq<Id>) returns (k: nat)
    requires IsWalk(preds, walk) && nodes != []
    ensures k < |Sorted(walk, nodes)| && Sorted(walk, nodes)[k] == nodes[0]
    ensures forall x :: x != nodes[0] && Reaches(EdgesOf(preds), nodes[0], x) ==> x in Sorted(walk, nodes)[..k]
  {
    var g, u := EdgesOf(preds), nodes[0];
    var first := Visited(walk, u, {}, START);
    VisitKeeps(preds, walk, u, {}, START);
    FirstStaysInFront(preds, walk, nodes);
    k := |first.ordered| - 1;
    ReachedStandBefore(g, first, u, k);
    assert Sorted(walk, nodes)[..k] == first.ordered[..k];
  }

  // ---------------------------------------------------------------- the sort as it runs

  /** The state shared by the nested `visit` calls. */
  class Sorter {
    const walk: Walk
    var ordered: seq<Id>
    var seen: set<Id>
    var stack: set<Id>

    ghost function Now(): Progress
      reads this
    {
      Progress(ordered, seen)
    }

    constructor (walk: Walk)
      ensures this.walk == walk && Now() == START && stack == {}
    {
      this.walk := walk;
      ordered, seen, stack := [], {}, {};
    }

    method Visit(n: Id)
      modifies this`ordered, this`seen, this`stack
      ensures Now() == Visited(walk, n, old(stack), old(Now())) && stack == old(stack)
      decreases walk.Keys - stack
    {
      if n in seen || n in stack {
        return;
      }
      stack := stack + {n};
      if n in walk {
        var ups := walk[n];
        for k := 0 to |ups|
          invariant Now() == VisitedAll(walk, ups[..k], old(stack) + {n}, old(Now()))
          invariant stack == old(stack) + {n}
        {
          assert ups[..k + 1][..k] == ups[..k];
          Visit(ups[k]);
        }
        assert ups[..|ups|] == ups;
      }
      stack := stack - {n};
      if n !in seen {
        seen := seen + {n};
        ordered := ordered + [n];
      }
    }
  }

  /** The members of a set in some order. */
  method ListOf(s: set<Id>) returns (xs: seq<Id>)
    ensures Elements(xs) == s && Distinct(xs)
  {
    xs := [];
    var rest := s;
    while rest != {}
      invariant rest <= s && Elements(xs) == s - rest && Distinct(xs)
    {
      var x :| x in rest;
      rest := rest - {x};
      assert Elements(xs + [x]) == Elements(xs) + {x};
      xs := xs + [x];
    }
  }

  method SomeWalk(preds: Predecessors) returns (walk: Walk)
    ensures IsWalk(preds, walk)
  {
    walk := map[];
    var rest := preds.Keys;
    while rest != {}
      invariant rest <= preds.Keys && walk.Keys == preds.Keys - rest
      invariant forall n :: n in walk ==> Distinct(walk[n]) && Elements(walk[n]) == preds[n]
    {
      var n :| n in rest;
      rest := rest - {n};
      var ups := ListOf(preds[n]);
      walk := walk[n := ups];
    }
  }

  /** Sort `nodes` so that upstream milestones come before downstream ones. */
  method Toposort(nodes: seq<Id>, preds: Predecessors) returns (ordered: seq<Id>, ghost walk: Walk)
    ensures IsWalk(preds, walk) && ordered == Sorted(walk, nodes)
    ensures IsUpstreamOrder(EdgesOf(preds), Elements(nodes), ordered)
  {
    var chosen := SomeWalk(preds);
    var sorter := new Sorter(chosen);
    for i := 0 to |nodes|
      invariant sorter.walk == chosen && sorter.stack == {}
      invariant sorter.Now() == VisitedAll(chosen, nodes[..i], {}, START)
    {
      assert nodes[..i + 1][..i] == nodes[..i];
      sorter.stack := {};
      sorter.Visit(nodes[i]);
    }
    assert nodes[..|nodes|] == nodes;
    ordered, walk := sorter.ordered, chosen;
    SortedIsUpstreamOrder(preds, walk, nodes);
  }

  /** Predecessor sets can be iterated in some order. */
  lemma {:induction false} SomeOrder(s: set<Id>) returns (xs: seq<Id>)
    ensures Elements(xs) == s && Distinct(xs)
    decreases s
  {
    xs := [];
    if s != {} {
      var x :| x in s;
      var rest := SomeOrder(s - {x});
      xs := rest + [x];
      assert Elements(xs) == Elements(rest) + {x};
    }
  }

  lemma {:induction false} WalkExists(preds: Predecessors) returns (walk: Walk)
    ensures IsWalk(preds, walk)
    decreases preds.Keys
  {
    walk := map[];
    if preds.Keys != {} {
      var n :| n in preds.Keys;
      var rest := WalkExists(preds - {n});
      var ups := SomeOrder(preds[n]);
      walk := rest[n := ups];
    }
  }

  // ---------------------------------------------------------------- consequences

  /** If an upstream ends up after its downstream, both lie on a common cycle. */
  lemma LateUpstreamIsOnACycle(g: Edges, nodes: set<Id>, s: seq<Id>, i: nat, j: nat)
    requires IsUpstreamOrder(g, nodes, s) && i < j < |s| && (s[i], s[j]) in g
    ensures Reaches(g, s[i], s[j]) && Reaches(g, s[j], s[i])
  {
    ReachesEdge(g, s[i], s[j]);
    assert s[j] !in s[..i];
  }

  /** On an acyclic graph the list is a topological order. */
  lemma AcyclicMeansTopological(g: Edges, nodes: set<Id>, s: seq<Id>)
    requires IsUpstreamOrder(g, nodes, s) && Acyclic(g)
    ensures forall i, j :: 0 <= i < |s| && 0 <= j < |s| && (s[i], s[j]) in g ==> j < i
  {
    forall i, j | 0 <= i < |s| && 0 <= j < |s| && (s[i], s[j]) in g
      ensures j < i
    {
      ReachesSelf(g, s[i]);
    }
  }

  lemma ReachedIsInside(g: Edges, nodes: set<Id>, x: Id)
    requires ReachedFrom(g, nodes, x) && ClosedUnder(g, nodes)
    ensures x in nodes
  {
    var n :| n in nodes && Reaches(g, n, x);
    ClosedContainsReached(g, nodes, n, x);
  }

  /** When every predecessor is itself a node, the list is a permutation of the nodes. */
  lemma ListsExactlyTheNodes(g: Edges, nodes: set<Id>, s: seq<Id>)
    requires IsUpstreamOrder(g, nodes, s) && ClosedUnder(g, nodes)
    ensures Elements(s) == nodes && |s| == |nodes|
  {
    forall x | x in s
      ensures x in nodes
    {
      ReachedIsInside(g, nodes, x);
    }
    DistinctSize(s);
  }
}
