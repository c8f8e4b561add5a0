/** The iterative search that guards task dependencies against loops. */
module Dependencies {
  import opened Basics
  import opened Graphs

  type Adjacency = map<Id, seq<Id>>

  /** The edges an adjacency list stands for. */
  function EdgesOf(adj: Adjacency): Edges {
    set a, b | a in adj && b in adj[a] :: (a, b)
  }

  function Neighbours(adj: Adjacency, n: Id): seq<Id> {
    if n in adj then adj[n] else []
  }

  lemma AppendAddsEdge(adj: Adjacency, e: (Id, Id))
    ensures EdgesOf(adj[e.0 := Neighbours(adj, e.0) + [e.1]]) == EdgesOf(adj) + {e}
  {
    var after := adj[e.0 := Neighbours(adj, e.0) + [e.1]];
    forall a, b
      ensures (a, b) in EdgesOf(after) <==> (a, b) in EdgesOf(adj) + {e}
    {
      if a == e.0 {
        assert b in after[a] <==> b in Neighbours(adj, a) || b == e.1;
      }
    }
  }

  /** Group dependency rows by their dependent task, in whatever order they arrive. */
  method DependencyMap(rows: Edges) returns (out: Adjacency)
    ensures EdgesOf(out) == rows
    ensures forall a :: a in out ==> out[a] != []
  {
    out := map[];
    var rest := rows;
    while rest != {}
      invariant rest <= rows
      invariant EdgesOf(out) == rows - rest
      invariant forall a :: a in out ==> out[a] != []
    {
      var e :| e in rest;
      ghost var before := out;
      out := out[e.0 := Neighbours(out, e.0) + [e.1]];
      rest := rest - {e};
      assert EdgesOf(out) == EdgesOf(before) + {e} by { AppendAddsEdge(before, e); }
    }
  }

  /** Would "task depends on dependency" close a loop? Exactly when the dependency
      already reaches the task along existing rows. */
  method WouldCreateCycle(adj: Adjacency, task: Id, dependency: Id) returns (cycle: bool)
    ensures cycle <==> Reaches(EdgesOf(adj), dependency, task)
  {
    ghost var g := EdgesOf(adj);
    ghost var universe := {dependency} + (set e | e in g :: e.1);
    var stack := [dependency];
    var seen: set<Id> := {};
    ReachesSelf(g, dependency);
    while stack != []
      invariant forall n :: n in stack ==> n in universe && Reaches(g, dependency, n)
      invariant seen <= universe && task !in seen
      invariant dependency in seen || dependency in stack
      invariant forall a, b :: (a, b) in g && a in seen ==> b in seen || b in stack
      decreases universe - seen, |stack|
    {
      var node := stack[|stack| - 1];
      ghost var whole := stack;
      stack := stack[..|stack| - 1];
      assert whole == stack + [node];
      if node == task {
        return true;
      }
      if node !in seen {
        seen := seen + {node};
        stack := stack + Neighbours(adj, node);
        forall n | n in Neighbours(adj, node)
          ensures n in universe && Reaches(g, dependency, n)
        {
          assert (node, n) in g;
          ReachesEdge(g, node, n);
          ReachesTrans(g, dependency, node, n);
        }
      }
    }
    if Reaches(g, dependency, task) {
      ClosedContainsReached(g, seen, dependency, task);
    }
    return false;
  }
}
