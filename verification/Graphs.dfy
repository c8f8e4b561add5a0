/** Reachability over a finite set of directed edges. An edge (a, b) reads
    "a depends on b": following edges walks upstream. */
module Graphs {
  import opened Basics

  type Edges = set<(Id, Id)>

  predicate Step(g: Edges, p: seq<Id>, i: nat)
    requires i < |p| - 1
  {
    (p[i], p[i + 1]) in g
  }

  ghost predicate IsPath(g: Edges, p: seq<Id>) {
    && |p| > 0
    && forall i :: 0 <= i < |p| - 1 ==> Step(g, p, i)
  }

  ghost predicate Joins(g: Edges, a: Id, b: Id, p: seq<Id>) {
    IsPath(g, p) && p[0] == a && p[|p| - 1] == b
  }

  /** b can be reached from a in zero or more edges. */
  ghost predicate Reaches(g: Edges, a: Id, b: Id) {
    exists p :: Joins(g, a, b, p)
  }

  /** No edge lies on a cycle. */
  ghost predicate Acyclic(g: Edges) {
    forall a, b :: (a, b) in g ==> !Reaches(g, b, a)
  }

  lemma ReachesSelf(g: Edges, a: Id)
    ensures Reaches(g, a, a)
  {
    assert Joins(g, a, a, [a]);
  }

  lemma ReachesEdge(g: Edges, a: Id, b: Id)
    requires (a, b) in g
    ensures Reaches(g, a, b)
  {
    assert Joins(g, a, b, [a, b]);
  }

  lemma ReachesTrans(g: Edges, a: Id, b: Id, c: Id)
    requires Reaches(g, a, b) && Reaches(g, b, c)
    ensures Reaches(g, a, c)
  {
    var p :| Joins(g, a, b, p);
    var q :| Joins(g, b, c, q);
    var r := p + q[1..];
    forall i | 0 <= i < |r| - 1
      ensures Step(g, r, i)
    {
      if i < |p| - 1 {
        assert Step(g, p, i);
      } else {
        assert Step(g, q, i - (|p| - 1));
      }
    }
    assert Joins(g, a, c, r);
  }

  /** Fewer edges reach less. */
  lemma ReachesMono(g: Edges, h: Edges, a: Id, b: Id)
    requires g <= h && Reaches(g, a, b)
    ensures Reaches(h, a, b)
  {
    var p :| Joins(g, a, b, p);
    forall i | 0 <= i < |p| - 1
      ensures Step(h, p, i)
    {
      assert Step(g, p, i);
    }
    assert Joins(h, a, b, p);
  }

  /** The rest of a path is a path. */
  lemma PathTail(g: Edges, p: seq<Id>)
    requires IsPath(g, p) && |p| > 1
    ensures IsPath(g, p[1..]) && (p[0], p[1]) in g
  {
    assert Step(g, p, 0);
    forall i | 0 <= i < |p[1..]| - 1
      ensures Step(g, p[1..], i)
    {
      assert Step(g, p, i + 1);
    }
  }

  /** A set closed under the edges contains everything its members reach. */
  lemma {:induction false} ClosedUnderReach(g: Edges, s: set<Id>, p: seq<Id>)
    requires IsPath(g, p) && p[0] in s
    requires forall a, b :: (a, b) in g && a in s ==> b in s
    ensures p[|p| - 1] in s
  {
    if |p| > 1 {
      PathTail(g, p);
      ClosedUnderReach(g, s, p[1..]);
    }
  }

  lemma ClosedContainsReached(g: Edges, s: set<Id>, a: Id, b: Id)
    requires a in s && Reaches(g, a, b)
    requires forall x, y :: (x, y) in g && x in s ==> y in s
    ensures b in s
  {
    var p :| Joins(g, a, b, p);
    ClosedUnderReach(g, s, p);
  }

  /** A path that uses a new edge (t, d) first reaches t and last leaves d. */
  lemma {:induction false} PathThroughNewEdge(g: Edges, t: Id, d: Id, p: seq<Id>)
    requires IsPath(g + {(t, d)}, p)
    ensures Reaches(g, p[0], p[|p| - 1])
         || (Reaches(g, p[0], t) && Reaches(g, d, p[|p| - 1]))
  {
    var a, z := p[0], p[|p| - 1];
    if |p| == 1 {
      ReachesSelf(g, a);
    } else {
      var rest := p[1..];
      PathTail(g + {(t, d)}, p);
      PathThroughNewEdge(g, t, d, rest);
      if (a, rest[0]) in g {
        ReachesEdge(g, a, rest[0]);
        if Reaches(g, rest[0], z) {
          ReachesTrans(g, a, rest[0], z);
        } else {
          ReachesTrans(g, a, rest[0], t);
        }
      } else {
        ReachesSelf(g, t);
      }
    }
  }

  /** In an acyclic graph, one more edge closes a loop exactly when its head
      already reaches its tail. */
  lemma NewEdgeClosesLoopIff(g: Edges, t: Id, d: Id)
    requires Acyclic(g)
    ensures Acyclic(g + {(t, d)}) <==> !Reaches(g, d, t)
  {
    var h := g + {(t, d)};
    if Reaches(g, d, t) {
      ReachesMono(g, h, d, t);
      assert (t, d) in h;
    } else {
      forall a, b | (a, b) in h
        ensures !Reaches(h, b, a)
      {
        if Reaches(h, b, a) {
          var p :| Joins(h, b, a, p);
          PathThroughNewEdge(g, t, d, p);
          if (a, b) in g {
            assert !Reaches(g, b, a);
            ReachesEdge(g, a, b);
            // b reaches t and d reaches a, and a -> b: so d reaches t
            ReachesTrans(g, d, a, b);
            ReachesTrans(g, d, b, t);
          }
          assert false;
        }
      }
    }
  }

  lemma FewerEdgesStayAcyclic(g: Edges, h: Edges)
    requires g <= h && Acyclic(h)
    ensures Acyclic(g)
  {
    forall a, b | (a, b) in g
      ensures !Reaches(g, b, a)
    {
      if Reaches(g, b, a) {
        ReachesMono(g, h, b, a);
      }
    }
  }
}
