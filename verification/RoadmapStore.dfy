/** The roadmap tables as an object the request handlers update in place, and the
    facts that hold after any run of requests. */
module RoadmapStore {
  import opened Basics
  import opened Graphs
  import opened RoadmapTables
  import opened RoadmapIsolation
  import Dependencies
  import TopoSort
  import opened Replan

  datatype Refusal = NotFound | SelfDependency | DependencyCycle

  // ---------------------------------------------------------------- re-plan requests

  /** The requested ids that name a proposed change, in request order. */
  function Chosen(changes: seq<Change>, ids: seq<Id>): seq<Id> {
    if ids == [] then []
    else
      var m := ids[|ids| - 1];
      Chosen(changes, ids[..|ids| - 1]) + if ChangeOf(changes, m).Some? then [m] else []
  }

  function NotProposed(changes: seq<Change>, ids: seq<Id>): seq<Id> {
    if ids == [] then []
    else
      var m := ids[|ids| - 1];
      NotProposed(changes, ids[..|ids| - 1]) + if ChangeOf(changes, m).Some? then [] else [m]
  }

  /** The changes as recorded in the replan history, one per applied id. */
  function Snapshot(changes: seq<Change>, ids: seq<Id>): seq<Change> {
    if ids == [] then []
    else
      var c := ChangeOf(changes, ids[|ids| - 1]);
      Snapshot(changes, ids[..|ids| - 1]) + if c.Some? then [c.value] else []
  }

  /** The tables after applying the requested ids of a proposal. */
  function Replanned(t: Tables, r: Id, changes: seq<Change>, ids: seq<Id>, now: int): Tables {
    var recorded := Snapshot(changes, ids);
    t.(milestones := AfterReplan(t.milestones, changes, Elements(ids), now),
       replans := if recorded == [] then t.replans else t.replans + [ReplanRow(r, recorded)])
  }

  /** `compute_replan` may return these changes for roadmap r as it is stored. */
  ghost predicate MayPropose(t: Tables, r: Id, today: int, changes: seq<Change>) {
    exists preds :: TopoSort.EdgesOf(preds) == Precedence(t, r) && MayReturn(MilestonesOf(t, r), preds, today, changes)
  }

  /** Any request against the roadmap. */
  datatype Request =
    | Edit(action: Action)
    | ApplyReplan(r: Id, today: int, now: int, ids: seq<Id>)

  ghost predicate Does(t: Tables, q: Request, t': Tables) {
    match q
    case Edit(a) => t' == Perform(t, a)
    case ApplyReplan(r, today, now, ids) =>
      exists changes :: MayPropose(t, r, today, changes) && t' == Replanned(t, r, changes, ids, now)
  }

  ghost predicate IsRun(states: seq<Tables>, requests: seq<Request>) {
    && |states| == |requests| + 1 && states[0] == EMPTY
    && forall i :: 0 <= i < |requests| ==> Does(states[i], requests[i], states[i + 1])
  }

  // ---------------------------------------------------------------- facts about runs

  /** Only due dates, replan notes and history rows differ. */
  lemma {:induction false} DatesOnly(t: Tables, u: Tables)
    requires Sound(t)
    requires u == t.(milestones := u.milestones, replans := u.replans)
    requires u.milestones.Keys == t.milestones.Keys
    requires forall m :: m in t.milestones ==>
      u.milestones[m] == t.milestones[m].(due := u.milestones[m].due, replanned := u.milestones[m].replanned)
    ensures Sound(u)
  {
    forall m | m in t.milestones
      ensures u.milestones[m].progress == ProgressOf(u, m)
    {
      SameTasksSameProgress(t, u, m);
    }
    SameOwnersKeepDeps(t, u);
  }

  /** Moving due dates keeps every invariant. */
  lemma {:induction false} ReplanKeepsSound(t: Tables, r: Id, changes: seq<Change>, ids: seq<Id>, now: int)
    requires Sound(t)
    ensures Sound(Replanned(t, r, changes, ids, now))
  {
    var u := Replanned(t, r, changes, ids, now);
    DatesOnly(t, u);
  }

  lemma EmptyIsSound()
    ensures Sound(EMPTY)
  {
  }

  lemma StepKeepsSound(t: Tables, q: Request, t': Tables)
    requires Sound(t) && Does(t, q, t')
    ensures Sound(t')
  {
    match q
    case Edit(a) => PerformKeepsSound(t, a);
    case ApplyReplan(r, today, now, ids) =>
      var changes :| MayPropose(t, r, today, changes) && t' == Replanned(t, r, changes, ids, now);
      ReplanKeepsSound(t, r, changes, ids, now);
  }

  lemma OneMoreRequest(states: seq<Tables>, requests: seq<Request>, q: Request, t: Tables)
    returns (longer: seq<Tables>, more: seq<Request>)
    requires IsRun(states, requests) && Does(states[|requests|], q, t)
    ensures IsRun(longer, more) && longer == states + [t] && more == requests + [q]
  {
    longer, more := states + [t], requests + [q];
    forall i | 0 <= i < |more|
      ensures Does(longer[i], more[i], longer[i + 1])
    {
      if i < |requests| {
        assert longer[i] == states[i] && longer[i + 1] == states[i + 1] && more[i] == requests[i];
      }
    }
  }

  /** In every state any run of requests can reach from the empty tables, foreign keys
      hold, dependencies stay inside one roadmap and form no loop, and each stored
      progress equals its recomputation. */
  lemma {:induction false} EveryRunIsSound(states: seq<Tables>, requests: seq<Request>, n: nat)
    requires IsRun(states, requests) && n <= |requests|
    ensures Sound(states[n])
  {
    if n == 0 {
      EmptyIsSound();
    } else {
      EveryRunIsSound(states, requests, n - 1);
      assert Does(states[n - 1], requests[n - 1], states[n]);
      StepKeepsSound(states[n - 1], requests[n - 1], states[n]);
    }
  }

  /** Predecessors of a roadmap's milestones are milestones of the same roadmap. */
  lemma PrecedenceStaysInside(t: Tables, r: Id)
    ensures TopoSort.ClosedUnder(Precedence(t, r), MilestonesOf(t, r).Keys)
  {
    forall a, b | (a, b) in Precedence(t, r)
      ensures b in MilestonesOf(t, r).Keys
    {
      var e :| e in t.deps && InRoadmap(t, r, e.0) && InRoadmap(t, r, e.1) && t.tasks[e.1].milestone == b;
    }
  }

  lemma ProposedIsProposal(t: Tables, r: Id, today: int, changes: seq<Change>)
    requires MayPropose(t, r, today, changes)
    ensures IsProposal(MilestonesOf(t, r), Precedence(t, r), today, changes)
  {
    var preds :| TopoSort.EdgesOf(preds) == Precedence(t, r) && MayReturn(MilestonesOf(t, r), preds, today, changes);
    PrecedenceStaysInside(t, r);
    MayReturnIsProposal(MilestonesOf(t, r), preds, today, changes);
  }

  /** Every proposed change names a row of the roadmap. */
  lemma ProposedAreRows(t: Tables, r: Id, today: int, changes: seq<Change>)
    requires MayPropose(t, r, today, changes)
    ensures forall c :: c in changes ==> c.milestone in t.milestones
  {
    ProposedIsProposal(t, r, today, changes);
  }

  /** There is always an answer. */
  lemma SomethingIsProposed(t: Tables, r: Id, preds: TopoSort.Predecessors, today: int) returns (changes: seq<Change>)
    requires TopoSort.EdgesOf(preds) == Precedence(t, r)
    ensures MayPropose(t, r, today, changes)
  {
    PrecedenceStaysInside(t, r);
    var nodes := TopoSort.SomeOrder(MilestonesOf(t, r).Keys);
    var walk := TopoSort.WalkExists(preds);
    var _, _, some := SomethingIsReturned(MilestonesOf(t, r), preds, today, nodes, walk);
    changes := some;
  }

  /** Re-planning leaves tasks, phases and dependencies alone, so precedence too. */
  lemma ReplanKeepsPrecedence(t: Tables, r: Id, changes: seq<Change>, ids: seq<Id>, now: int)
    ensures var u := Replanned(t, r, changes, ids, now);
      && Precedence(u, r) == Precedence(t, r)
      && MilestonesOf(u, r) == AfterReplan(MilestonesOf(t, r), changes, Elements(ids), now)
  {
    var u := Replanned(t, r, changes, ids, now);
    assert forall x :: RoadmapOf(u, x) == RoadmapOf(t, x);
    assert Precedence(u, r) == Precedence(t, r);
    assert forall m :: OwnsMilestone(u, r, m) <==> OwnsMilestone(t, r, m);
  }

  /** Accepting a whole proposal settles the roadmap for that day: nothing is late any
      more and the only proposal left is the empty one, on any precedence graph. */
  lemma ReplanAllSettles(t: Tables, r: Id, today: int, now: int, changes: seq<Change>, ids: seq<Id>,
                         again: seq<Change>)
    requires MayPropose(t, r, today, changes)
    requires forall c :: c in changes ==> c.milestone in ids
    ensures var u := Replanned(t, r, changes, ids, now);
      && Drift(MilestonesOf(u, r), today) == {}
      && (MayPropose(u, r, today, again) <==> again == [])
  {
    var u := Replanned(t, r, changes, ids, now);
    var preds :| TopoSort.EdgesOf(preds) == Precedence(t, r) && MayReturn(MilestonesOf(t, r), preds, today, changes);
    ProposedIsProposal(t, r, today, changes);
    ReplanKeepsPrecedence(t, r, changes, ids, now);
    var answer := SomethingIsProposed(u, r, preds, today);
    ProposedIsProposal(u, r, today, answer);
    ApplyingAllIsAFixpoint(MilestonesOf(t, r), Precedence(t, r), today, changes, Elements(ids), now, answer);
    if MayPropose(u, r, today, again) {
      ProposedIsProposal(u, r, today, again);
      ApplyingAllIsAFixpoint(MilestonesOf(t, r), Precedence(t, r), today, changes, Elements(ids), now, again);
    }
  }

  // ---------------------------------------------------------------- in terms of the rows

  /** In every state of every run, each stored progress is the rounded share of its tasks that
      are done. */
  lemma ProgressIsTheDoneShare(states: seq<Tables>, requests: seq<Request>, n: nat, m: Id)
    requires IsRun(states, requests) && n <= |requests| && m in states[n].milestones
    ensures ShowsDoneShare(states[n], m)
  {
    EveryRunIsSound(states, requests, n);
    CurrentShowsDoneShare(states[n], m);
  }

  /** Milestone m of roadmap r, read off the rows. */
  predicate LiesIn(t: Tables, m: Id, r: Id) {
    m in t.milestones && t.milestones[m].phase in t.phases && t.phases[t.milestones[m].phase].roadmap == r
  }

  /** Some task of d depends on some task of u. */
  ghost predicate TaskWaits(t: Tables, d: Id, u: Id) {
    exists x, y ::
      (x, y) in t.deps && x in t.tasks && y in t.tasks && t.tasks[x].milestone == d && t.tasks[y].milestone == u
  }

  lemma MilestonesAreThoseOfTheRoadmap(t: Tables, r: Id, m: Id)
    ensures m in MilestonesOf(t, r) <==> LiesIn(t, m, r)
    ensures m in MilestonesOf(t, r) ==> MilestonesOf(t, r)[m] == t.milestones[m]
  {
  }

  /** One milestone is upstream of another exactly when a task of the other depends on one of
      its tasks, both in this roadmap. */
  lemma PrecedenceFollowsTasks(t: Tables, r: Id, d: Id, u: Id)
    ensures (d, u) in Precedence(t, r) <==> d != u && LiesIn(t, d, r) && LiesIn(t, u, r) && TaskWaits(t, d, u)
  {
    if (d, u) in Precedence(t, r) {
      var e :| e in t.deps && InRoadmap(t, r, e.0) && InRoadmap(t, r, e.1)
        && t.tasks[e.0].milestone == d && t.tasks[e.1].milestone == u && d != u;
      assert (e.0, e.1) in t.deps;
    }
    if d != u && LiesIn(t, d, r) && LiesIn(t, u, r) && TaskWaits(t, d, u) {
      var x, y :| (x, y) in t.deps && x in t.tasks && y in t.tasks
        && t.tasks[x].milestone == d && t.tasks[y].milestone == u;
      assert InRoadmap(t, r, (x, y).0) && InRoadmap(t, r, (x, y).1);
    }
  }

  /** Whatever is proposed for the stored roadmap moves only what is late or waits for it. */
  lemma ProposalMovesOnlyTheLateRows(t: Tables, r: Id, today: int, changes: seq<Change>)
    requires MayPropose(t, r, today, changes)
    ensures MovesOnlyTheLate(MilestonesOf(t, r), Precedence(t, r), today, changes)
  {
    ProposedIsProposal(t, r, today, changes);
    ProposalMovesOnlyTheLate(MilestonesOf(t, r), Precedence(t, r), today, changes);
  }

  lemma {:induction false} ChangeOfIsTheOne(changes: seq<Change>, c: Change)
    requires NobodyTwice(changes) && c in changes
    ensures ChangeOf(changes, c.milestone) == Some(c)
  {
    var found := ChangeOf(changes, c.milestone);
    assert Proposes(changes, c.milestone);
    var i :| 0 <= i < |changes| && changes[i] == c;
    var j :| 0 <= j < |changes| && changes[j] == found.value;
    assert i == j;
  }

  /** Requested ids are split into those that name a change and the others. */
  lemma {:induction false} RequestIsSplit(changes: seq<Change>, ids: seq<Id>)
    ensures multiset(Chosen(changes, ids)) + multiset(NotProposed(changes, ids)) == multiset(ids)
    ensures forall m :: m in Chosen(changes, ids) ==> Proposes(changes, m)
    ensures forall m :: m in NotProposed(changes, ids) ==> !Proposes(changes, m)
  {
    if ids != [] {
      RequestIsSplit(changes, ids[..|ids| - 1]);
      assert ids == ids[..|ids| - 1] + [ids[|ids| - 1]];
    }
  }

  /** The history lists the change of each applied id, in the same order. */
  lemma {:induction false} HistoryMatchesChosen(changes: seq<Change>, ids: seq<Id>)
    ensures |Snapshot(changes, ids)| == |Chosen(changes, ids)|
    ensures forall k :: 0 <= k < |Snapshot(changes, ids)| ==>
      Snapshot(changes, ids)[k] in changes && Snapshot(changes, ids)[k].milestone == Chosen(changes, ids)[k]
  {
    if ids != [] {
      HistoryMatchesChosen(changes, ids[..|ids| - 1]);
    }
  }

  /** Exactly the requested milestones that the proposal names get its date, and the note of
      when and why; every other row stays. */
  lemma ReplanWritesTheChosen(t: Tables, r: Id, today: int, changes: seq<Change>, ids: seq<Id>, now: int, m: Id)
    requires MayPropose(t, r, today, changes) && m in t.milestones
    ensures var u := Replanned(t, r, changes, ids, now);
      && u == t.(milestones := u.milestones, replans := u.replans) && m in u.milestones
      && (m !in ids || !Proposes(changes, m) ==> u.milestones[m] == t.milestones[m])
      && (forall c :: c in changes && c.milestone == m && m in ids ==>
            u.milestones[m] == t.milestones[m].(due := Some(c.newDue), replanned := Some((now, c.reason))))
  {
    ProposedIsProposal(t, r, today, changes);
    forall c | c in changes && c.milestone == m
      ensures ChangeOf(changes, m) == Some(c)
    {
      ChangeOfIsTheOne(changes, c);
    }
  }

  lemma OwnMilestonesOnly(t: Tables, u: Tables, r: Id)
    requires u == t.(milestones := u.milestones, replans := u.replans) && u.milestones.Keys == t.milestones.Keys
    requires forall m :: m in t.milestones ==>
      u.milestones[m].phase == t.milestones[m].phase && (u.milestones[m] == t.milestones[m] || LiesIn(t, m, r))
    ensures SameOutside(t, u, r)
  {
  }

  /** Re-planning touches no other roadmap either. */
  lemma ReplanStaysInside(t: Tables, r: Id, today: int, changes: seq<Change>, ids: seq<Id>, now: int)
    requires MayPropose(t, r, today, changes)
    ensures SameOutside(t, Replanned(t, r, changes, ids, now), r)
  {
    ProposedIsProposal(t, r, today, changes);
    var u := Replanned(t, r, changes, ids, now);
    forall m | m in t.milestones && u.milestones[m] != t.milestones[m]
      ensures LiesIn(t, m, r)
    {
      assert Proposes(changes, m);
      MilestonesAreThoseOfTheRoadmap(t, r, m);
    }
    OwnMilestonesOnly(t, u, r);
  }

  // ---------------------------------------------------------------- a run onto a cycle

  /** One phase with a milestone due in week 15 and one due in week 12, two tasks each. */
  const CROSSED_TEMPLATE: Template := [[MilestoneSpec(15, 2), MilestoneSpec(12, 2)]]

  /** Roadmap 0 with phase 1, milestone 2 with tasks 3 and 4, milestone 5 with tasks 6 and 7. */
  function Crossed(deps: Edges): Tables {
    Tables(map[0 := Roadmap(0, [])], map[1 := Phase(0)],
           map[2 := Milestone(1, Some(105), Todo, 0, None), 5 := Milestone(1, Some(84), Todo, 0, None)],
           map[3 := Task(2, Todo), 4 := Task(2, Todo), 6 := Task(5, Todo), 7 := Task(5, Todo)],
           deps, [], 8)
  }

  lemma TwoTasks(t: Tables, m: Id)
    ensures WithTasks(t, m, 2) == AddTask(AddTask(t, m, Todo), m, Todo)
  {
    assert WithTasks(t, m, 1) == AddTask(WithTasks(t, m, 0), m, Todo);
  }

  lemma CrossedGenerated()
    ensures Perform(EMPTY, Action.Generate(0, 0, CROSSED_TEMPLATE)) == Crossed({})
  {
    var specs := CROSSED_TEMPLATE[0];
    var claimed := EMPTY.(roadmaps := map[0 := Roadmap(0, [])], next := 1);
    var phased := AddPhase(claimed, 0);
    var first := WithMilestone(phased, 1, 0, specs[0]);
    assert specs[..1] == [specs[0]] && specs[..1][..0] == [] && CROSSED_TEMPLATE[..0] == [];
    assert WithPhases(claimed, 0, 0, CROSSED_TEMPLATE[..0]) == claimed;
    assert WithPhases(claimed, 0, 0, CROSSED_TEMPLATE) == WithMilestones(phased, 1, 0, specs);
    assert WithMilestones(phased, 1, 0, specs[..1]) == first;
    assert WithMilestones(phased, 1, 0, specs) == WithMilestone(first, 1, 0, specs[1]);
    TwoTasks(AddMilestone(phased, 1, Some(105), Todo), 2);
    TwoTasks(AddMilestone(first, 1, Some(84), Todo), 5);
  }

  lemma CrossedMayDepend(t: Tables, deps: Edges, x: Id, on: Id)
    requires t == Crossed(deps) && x in {3, 4, 6, 7} && on in {3, 4, 6, 7} && x != on
    requires forall e :: e in deps ==> e.0 != on
    ensures MayDepend(t, 0, x, on)
  {
    var own := RoadmapEdges(t, 0);
    if Reaches(own, on, x) {
      ClosedContainsReached(own, {on}, on, x);
    }
  }

  lemma CrossedDependency(deps: Edges, x: Id, on: Id)
    requires x in {3, 4, 6, 7} && on in {3, 4, 6, 7} && x != on
    requires forall e :: e in deps ==> e.0 != on
    ensures Perform(Crossed(deps), Action.CreateDependency(0, x, on)) == Crossed(deps + {(x, on)})
  {
    CrossedMayDepend(Crossed(deps), deps, x, on);
  }

  lemma CrossedPrecedence()
    ensures Precedence(Crossed({(3, 6), (7, 4)}), 0) == {(2, 5), (5, 2)}
  {
    var t := Crossed({(3, 6), (7, 4)});
    assert (3, 6) in t.deps && (7, 4) in t.deps;
    assert InRoadmap(t, 0, 3) && InRoadmap(t, 0, 6) && InRoadmap(t, 0, 7) && InRoadmap(t, 0, 4);
  }

  /** The milestone graph can be cyclic although the task graph is not: three requests on
      the empty tables make two milestones wait for each other. */
  lemma AcyclicTasksCyclicMilestones() returns (states: seq<Tables>, requests: seq<Request>)
    ensures IsRun(states, requests) && |requests| == 3
    ensures states[3] == Crossed({(3, 6), (7, 4)})
    ensures Sound(states[3]) && Acyclic(states[3].deps)
    ensures Precedence(states[3], 0) == {(2, 5), (5, 2)} && !Acyclic(Precedence(states[3], 0))
  {
    requests := [Edit(Action.Generate(0, 0, CROSSED_TEMPLATE)),
                 Edit(Action.CreateDependency(0, 3, 6)), Edit(Action.CreateDependency(0, 7, 4))];
    states := [EMPTY, Crossed({}), Crossed({(3, 6)}), Crossed({(3, 6), (7, 4)})];
    CrossedGenerated();
    CrossedDependency({}, 3, 6);
    CrossedDependency({(3, 6)}, 7, 4);
    assert {} + {(3, 6)} == {(3, 6)} && {(3, 6)} + {(7, 4)} == {(3, 6), (7, 4)};
    EveryRunIsSound(states, requests, 3);
    CrossedPrecedence();
    ReachesEdge({(2, 5), (5, 2)}, 5, 2);
  }

  lemma CrossedPredecessors(t: Tables) returns (preds: TopoSort.Predecessors)
    requires t == Crossed({(3, 6), (7, 4)})
    ensures TopoSort.EdgesOf(preds) == Precedence(t, 0) && Reaches(Precedence(t, 0), 5, 2)
  {
    preds := map[2 := {5}, 5 := {2}];
    CrossedPrecedence();
    assert TopoSort.EdgesOf(preds) == {(2, 5), (5, 2)};
    ReachesEdge(TopoSort.EdgesOf(preds), 5, 2);
  }

  lemma CrossedMilestones(deps: Edges)
    ensures var t := Crossed(deps); MilestonesOf(t, 0) == t.milestones && t.milestones.Keys == {2, 5}
  {
  }

  /** On day 100 milestone 5 is sixteen days late and milestone 2 is not. */
  lemma CrossedReplan(t: Tables) returns (changes: seq<Change>)
    requires t == Crossed({(3, 6), (7, 4)})
    ensures MayPropose(t, 0, 100, changes)
    ensures 2 in t.milestones && 5 in t.milestones && MovesOnlyUpstream(t.milestones, 100, changes, 2, 5)
  {
    var preds := CrossedPredecessors(t);
    CrossedMilestones({(3, 6), (7, 4)});
    PrecedenceStaysInside(t, 0);
    changes := CycleCanNarrowAGap(MilestonesOf(t, 0), preds, 100, 2, 5);
  }

  predicate IsDue(t: Tables, m: Id, day: int) {
    m in t.milestones && t.milestones[m].due == Some(day)
  }

  lemma CrossedAfter(t: Tables, changes: seq<Change>, ids: seq<Id>)
    requires t == Crossed({(3, 6), (7, 4)})
    requires MovesOnlyUpstream(t.milestones, 100, changes, 2, 5)
    requires forall c :: c in changes ==> c.milestone in Elements(ids)
    ensures var after := Replanned(t, 0, changes, ids, 0); IsDue(after, 2, 105) && IsDue(after, 5, 107)
  {
    assert MovesBy(t.milestones, changes, Elements(ids), 0, 2, 0);
    assert BaseShift(t.milestones[5], 100) == 23;
  }

  /** Milestone 2 waits for milestone 5 and was due three weeks after it; now it is due before it. */
  ghost predicate DatesReversed(before: Tables, after: Tables) {
    && Precedence(after, 0) == Precedence(before, 0) == {(2, 5), (5, 2)}
    && IsDue(before, 5, 84) && IsDue(before, 2, 105)
    && IsDue(after, 2, 105) && IsDue(after, 5, 107)
  }

  /** Every milestone, so that whatever is proposed is accepted whole. */
  const BOTH: seq<Id> := [2, 5]

  lemma BothAreAll(t: Tables, m: Id)
    requires t.milestones.Keys == Crossed({}).milestones.Keys && m in t.milestones
    ensures m in Elements(BOTH)
  {
    assert m == 2 || m == 5;
    assert BOTH[0] == 2 && BOTH[1] == 5;
  }

  lemma CrossedIsAcceptedWhole(t: Tables, changes: seq<Change>)
    requires t == Crossed({(3, 6), (7, 4)}) && MayPropose(t, 0, 100, changes)
    ensures forall c :: c in changes ==> c.milestone in Elements(BOTH)
  {
    ProposedAreRows(t, 0, 100, changes);
    forall c | c in changes
      ensures c.milestone in Elements(BOTH)
    {
      BothAreAll(t, c.milestone);
    }
  }

  lemma CrossedRequest(t: Tables) returns (after: Tables)
    requires t == Crossed({(3, 6), (7, 4)})
    ensures Does(t, ApplyReplan(0, 100, 0, BOTH), after) && DatesReversed(t, after)
  {
    var changes := CrossedReplan(t);
    CrossedIsAcceptedWhole(t, changes);
    CrossedAfter(t, changes, BOTH);
    ReplanKeepsPrecedence(t, 0, changes, BOTH, 0);
    CrossedPrecedence();
    after := Replanned(t, 0, changes, BOTH, 0);
  }

  /** One request more, accepting the whole proposal of day 100, puts the milestone that waits
      before the one it waits for. */
  lemma ReplanCanReverseDates() returns (states: seq<Tables>, requests: seq<Request>)
    ensures IsRun(states, requests) && |requests| == 4
    ensures requests[3] == ApplyReplan(0, 100, 0, BOTH)
    ensures DatesReversed(states[3], states[4])
  {
    var crossed, asked := AcyclicTasksCyclicMilestones();
    var after := CrossedRequest(crossed[3]);
    states, requests := OneMoreRequest(crossed, asked, ApplyReplan(0, 100, 0, BOTH), after);
  }

  // ---------------------------------------------------------------- the store

  lemma CountOne(s: set<Id>, rest: set<Id>, x: Id)
    requires x in rest
    ensures |s - (rest - {x})| == |s - rest| + if x in s then 1 else 0
  {
    if x in s {
      assert s - (rest - {x}) == (s - rest) + {x};
    } else {
      assert s - (rest - {x}) == s - rest;
    }
  }

  lemma OneMoreDependency(t: Tables, e: (Id, Id), r: Id)
    ensures var u := t.(deps := t.deps + {e});
      Precedence(u, r) == Precedence(t, r) +
        if InRoadmap(t, r, e.0) && InRoadmap(t, r, e.1) && t.tasks[e.0].milestone != t.tasks[e.1].milestone
        then {(t.tasks[e.0].milestone, t.tasks[e.1].milestone)} else {}
  {
    var u := t.(deps := t.deps + {e});
    assert forall x :: RoadmapOf(u, x) == RoadmapOf(t, x);
  }

  lemma AddPredecessor(preds: TopoSort.Predecessors, down: Id, up: Id)
    ensures TopoSort.EdgesOf(preds[down := TopoSort.PredsOf(preds, down) + {up}])
            == TopoSort.EdgesOf(preds) + {(down, up)}
  {
  }

  /** Applying one more id overwrites that row, also when the id came before. */
  lemma OneMoreId(ms: Milestones, changes: seq<Change>, ids: set<Id>, id: Id, now: int)
    ensures var before, after := AfterReplan(ms, changes, ids, now), AfterReplan(ms, changes, ids + {id}, now);
      var c := ChangeOf(changes, id);
      after == if c.Some? && id in ms then before[id := Moved(before[id], c.value, now)] else before
  {
  }

  lemma PerformKeepsValid(t: Tables, a: Action)
    ensures Sound(t) ==> Sound(Perform(t, a))
  {
    if Sound(t) { PerformKeepsSound(t, a); }
  }

  lemma ReplanKeepsValid(t: Tables, r: Id, changes: seq<Change>, ids: seq<Id>, now: int)
    ensures Sound(t) ==> Sound(Replanned(t, r, changes, ids, now))
  {
    if Sound(t) { ReplanKeepsSound(t, r, changes, ids, now); }
  }

  class Store {
    var roadmaps: map<Id, Roadmap>
    var phases: map<Id, Phase>
    var milestones: map<Id, Milestone>
    var tasks: map<Id, Task>
    var deps: Edges
    var replans: seq<ReplanRow>
    var next: Id

    ghost function View(): Tables
      reads this
    {
      Tables(roadmaps, phases, milestones, tasks, deps, replans, next)
    }

    /** What every request keeps. No request relies on it. */
    ghost predicate Valid()
      reads this
    {
      Sound(View())
    }

    constructor ()
      ensures View() == EMPTY && Valid()
    {
      roadmaps, phases, milestones, tasks := map[], map[], map[], map[];
      deps, replans, next := {}, [], 0;
      new;
      EmptyIsSound();
    }

    function OwnerOf(x: Id): (r: Option<Id>)
      reads this
      ensures r == RoadmapOf(View(), x)
    {
      if x !in tasks || tasks[x].milestone !in milestones then None
      else
        var p := milestones[tasks[x].milestone].phase;
        if p in phases then Some(phases[p].roadmap) else None
    }

    predicate HasMilestone(r: Id, m: Id)
      reads this
      ensures HasMilestone(r, m) <==> OwnsMilestone(View(), r, m)
    {
      m in milestones && milestones[m].phase in phases && phases[milestones[m].phase].roadmap == r
    }

    /** Walk the task rows, counting the milestone's tasks and those done. */
    method CountTasks(m: Id) returns (total: nat, done: nat)
      ensures total == |TasksOf(tasks, m)| && done == |DoneOf(tasks, m)|
    {
      total, done := 0, 0;
      ghost var all, finished := TasksOf(tasks, m), DoneOf(tasks, m);
      var rest := tasks.Keys;
      while rest != {}
        invariant rest <= tasks.Keys
        invariant total == |all - rest| && done == |finished - rest|
      {
        var x :| x in rest;
        CountOne(all, rest, x);
        CountOne(finished, rest, x);
        rest := rest - {x};
        if tasks[x].milestone == m {
          total := total + 1;
          if tasks[x].status == Done { done := done + 1; }
        }
      }
      assert all - rest == all && finished - rest == finished;
    }

    /** Store the rounded share of the milestone's tasks that is done. */
    method RecomputeMilestoneProgress(m: Id)
      requires m in milestones
      modifies this`milestones
      ensures View() == Recomputed(old(View()), m) && ShowsDoneShare(View(), m)
    {
      var total, done := CountTasks(m);
      var progress;
      if total == 0 {
        progress := if milestones[m].status == Done then 100 else 0;
      } else {
        progress := Percent(done, total);
      }
      milestones := milestones[m := milestones[m].(progress := progress)];
      SameTasksSameProgress(old(View()), View(), m);
      CurrentShowsDoneShare(View(), m);
    }

    method AppendMilestones(phase: Id, today: int, specs: seq<MilestoneSpec>) returns (nTasks: nat)
      modifies this`milestones, this`tasks, this`next
      ensures View() == WithMilestones(old(View()), phase, today, specs)
      ensures nTasks == TotalTasks(specs)
    {
      nTasks := 0;
      for i := 0 to |specs|
        invariant View() == WithMilestones(old(View()), phase, today, specs[..i])
        invariant nTasks == TotalTasks(specs[..i])
      {
        assert specs[..i + 1][..i] == specs[..i];
        var milestone := next;
        ghost var before := View();
        milestones := milestones[milestone :=
          Milestone(phase, Some(today + 7 * specs[i].dueWeek), Todo, 0, None)];
        next := next + 1;
        ghost var started := View();
        for k := 0 to specs[i].tasks
          invariant View() == WithTasks(started, milestone, k)
        {
          tasks := tasks[next := Task(milestone, Todo)];
          next := next + 1;
        }
        nTasks := nTasks + specs[i].tasks;
        assert View() == WithMilestone(before, phase, today, specs[i]);
      }
      assert specs[..|specs|] == specs;
    }

    /** The nested loops that lay a template onto a roadmap. */
    method AppendTemplate(r: Id, today: int, tmpl: Template) returns (nPhases: nat, nMilestones: nat, nTasks: nat)
      modifies this
      ensures View() == WithPhases(old(View()), r, today, tmpl)
      ensures nPhases == |tmpl| && nMilestones == TotalMilestones(tmpl) && nTasks == TotalTemplateTasks(tmpl)
    {
      nPhases, nMilestones, nTasks := 0, 0, 0;
      for i := 0 to |tmpl|
        invariant View() == WithPhases(old(View()), r, today, tmpl[..i])
        invariant nPhases == i && nMilestones == TotalMilestones(tmpl[..i])
        invariant nTasks == TotalTemplateTasks(tmpl[..i])
      {
        assert tmpl[..i + 1][..i] == tmpl[..i];
        var phase := next;
        phases := phases[phase := Phase(r)];
        next := next + 1;
        nPhases := nPhases + 1;
        var count := AppendMilestones(phase, today, tmpl[i]);
        nMilestones := nMilestones + |tmpl[i]|;
        nTasks := nTasks + count;
      }
      assert tmpl[..|tmpl|] == tmpl;
    }

    /** Create-once generation: a startup that already has a roadmap keeps it. */
    method GenerateRoadmap(startup: Id, today: int, tmpl: Template) returns (r: Id)
      modifies this
      ensures View() == Generated(old(View()), startup, today, tmpl)
      ensures old(Valid()) ==> Valid()
      ensures r == View().roadmaps[startup].id
      ensures startup in old(roadmaps) ==> View() == old(View())
      ensures startup !in old(roadmaps) ==>
        r == old(next) && roadmaps == old(roadmaps)[startup := Roadmap(old(next), [])]
    {
      PerformKeepsValid(View(), Action.Generate(startup, today, tmpl));
      if startup !in roadmaps {
        r := next;
        roadmaps := roadmaps[startup := Roadmap(r, [])];
        next := next + 1;
        TemplateKeepsRoadmaps(View(), r, today, tmpl);
        var _, _, _ := AppendTemplate(r, today, tmpl);
      } else {
        r := roadmaps[startup].id;
      }
    }

    method ApplyGalleryTemplate(startup: Id, key: Id, today: int, stage: Template, tmpl: Template)
      returns (alreadyApplied: bool, nPhases: nat, nMilestones: nat, nTasks: nat)
      modifies this
      ensures View() == Perform(old(View()), Action.ApplyTemplate(startup, key, today, stage, tmpl))
      ensures old(Valid()) ==> Valid()
      ensures alreadyApplied <==>
        key in Generated(old(View()), startup, today, stage).roadmaps[startup].applied
      ensures if alreadyApplied then nPhases == nMilestones == nTasks == 0
              else nPhases == |tmpl| && nMilestones == TotalMilestones(tmpl) && nTasks == TotalTemplateTasks(tmpl)
      ensures startup in roadmaps && key in roadmaps[startup].applied
      ensures startup in old(roadmaps) ==>
        && (alreadyApplied <==> key in old(roadmaps)[startup].applied)
        && roadmaps == old(roadmaps)[startup := roadmaps[startup]]
        && roadmaps[startup].id == old(roadmaps)[startup].id
        && roadmaps[startup].applied == old(roadmaps)[startup].applied + if alreadyApplied then [] else [key]
    {
      PerformKeepsValid(View(), Action.ApplyTemplate(startup, key, today, stage, tmpl));
      var r := GenerateRoadmap(startup, today, stage);
      var row := roadmaps[startup];
      if key in row.applied {
        return true, 0, 0, 0;
      }
      alreadyApplied := false;
      TemplateKeepsRoadmaps(View(), r, today, tmpl);
      nPhases, nMilestones, nTasks := AppendTemplate(r, today, tmpl);
      roadmaps := roadmaps[startup := row.(applied := row.applied + [key])];
    }

    method CreateMilestone(r: Id, p: Id, due: Option<int>, initial: Option<Status>) returns (m: Option<Id>)
      modifies this
      ensures View() == Perform(old(View()), Action.CreateMilestone(r, p, due, initial))
      ensures old(Valid()) ==> Valid()
      ensures m == if p in old(phases) && old(phases)[p].roadmap == r then Some(old(next)) else None
      ensures m.Some? ==>
        var status := if initial.Some? then initial.value else Todo;
        milestones == old(milestones)[old(next) := Milestone(p, due, status, if status == Done then 100 else 0, None)]
    {
      PerformKeepsValid(View(), Action.CreateMilestone(r, p, due, initial));
      if p !in phases || phases[p].roadmap != r {
        return None;
      }
      var row := Milestone(p, due, StatusOr(initial, Todo), 0, None);
      if row.status == Done {
        row := row.(progress := 100);
      }
      milestones := milestones[next := row];
      m := Some(next);
      next := next + 1;
    }

    method UpdateMilestone(r: Id, m: Id, newDue: Option<Option<int>>, newStatus: Option<Status>)
      returns (found: bool)
      modifies this`milestones
      ensures View() == Perform(old(View()), Action.UpdateMilestone(r, m, newDue, newStatus))
      ensures old(Valid()) ==> Valid()
      ensures found <==> LiesIn(old(View()), m, r)
      ensures found ==>
        && milestones == old(milestones)[m := milestones[m]] && ShowsDoneShare(View(), m)
        && milestones[m].phase == old(milestones)[m].phase && milestones[m].replanned == old(milestones)[m].replanned
        && milestones[m].due == (if newDue.Some? then newDue.value else old(milestones)[m].due)
        && milestones[m].status == (if newStatus.Some? then newStatus.value else old(milestones)[m].status)
    {
      PerformKeepsValid(View(), Action.UpdateMilestone(r, m, newDue, newStatus));
      found := HasMilestone(r, m);
      if found {
        var row := milestones[m];
        if newDue.Some? { row := row.(due := newDue.value); }
        if newStatus.Some? { row := row.(status := newStatus.value); }
        milestones := milestones[m := row];
        RecomputeMilestoneProgress(m);
      }
    }

    /** Foreign keys delete a milestone's tasks and their dependency rows with it. */
    method Cascade(gone: set<Id>)
      modifies this`milestones, this`tasks, this`deps
      ensures View() == RemoveMilestones(old(View()), gone)
    {
      var lost := set x | x in tasks && tasks[x].milestone in gone;
      milestones := milestones - gone;
      tasks := tasks - lost;
      deps := set e | e in deps && e.0 !in lost && e.1 !in lost;
    }

    method DeleteMilestone(r: Id, m: Id) returns (found: bool)
      modifies this`milestones, this`tasks, this`deps
      ensures View() == Perform(old(View()), Action.DeleteMilestone(r, m))
      ensures old(Valid()) ==> Valid()
      ensures found <==> LiesIn(old(View()), m, r)
      ensures found ==> milestones == old(milestones) - {m}
      ensures found ==> tasks == map x | x in old(tasks) && old(tasks)[x].milestone != m :: old(tasks)[x]
    {
      PerformKeepsValid(View(), Action.DeleteMilestone(r, m));
      found := HasMilestone(r, m);
      if found {
        Cascade({m});
      }
    }

    method CreatePhase(r: Id) returns (p: Option<Id>)
      modifies this`phases, this`next
      ensures View() == Perform(old(View()), Action.CreatePhase(r))
      ensures old(Valid()) ==> Valid()
      ensures p.Some? <==> exists s :: s in roadmaps && roadmaps[s].id == r
      ensures p.Some? ==> p.value == old(next) && phases == old(phases)[old(next) := Phase(r)]
    {
      PerformKeepsValid(View(), Action.CreatePhase(r));
      if !(exists s :: s in roadmaps && roadmaps[s].id == r) {
        return None;
      }
      p := Some(next);
      phases := phases[next := Phase(r)];
      next := next + 1;
    }

    method DeletePhase(r: Id, p: Id) returns (found: bool)
      modifies this
      ensures View() == Perform(old(View()), Action.DeletePhase(r, p))
      ensures old(Valid()) ==> Valid()
      ensures found <==> p in old(phases) && old(phases)[p].roadmap == r
      ensures found ==> phases == old(phases) - {p}
      ensures found ==>
        milestones == map m | m in old(milestones) && old(milestones)[m].phase != p :: old(milestones)[m]
    {
      PerformKeepsValid(View(), Action.DeletePhase(r, p));
      found := p in phases && phases[p].roadmap == r;
      if found {
        Cascade(set m | m in milestones && milestones[m].phase == p);
        phases := phases - {p};
      }
    }

    method CreateTask(r: Id, m: Id, initial: Option<Status>) returns (x: Option<Id>)
      modifies this
      ensures View() == Perform(old(View()), Action.CreateTask(r, m, initial))
      ensures old(Valid()) ==> Valid()
      ensures x == if LiesIn(old(View()), m, r) then Some(old(next)) else None
      ensures x.Some? ==>
        && tasks == old(tasks)[old(next) := Task(m, if initial.Some? then initial.value else Todo)]
        && milestones == old(milestones)[m := old(milestones)[m].(progress := milestones[m].progress)]
        && ShowsDoneShare(View(), m)
    {
      PerformKeepsValid(View(), Action.CreateTask(r, m, initial));
      if !HasMilestone(r, m) {
        return None;
      }
      x := Some(next);
      tasks := tasks[next := Task(m, StatusOr(initial, Todo))];
      next := next + 1;
      RecomputeMilestoneProgress(m);
    }

    method UpdateTask(r: Id, x: Id, newStatus: Option<Status>) returns (found: bool)
      modifies this`tasks, this`milestones
      ensures View() == Perform(old(View()), Action.UpdateTask(r, x, newStatus))
      ensures old(Valid()) ==> Valid()
      ensures found <==> x in old(tasks) && LiesIn(old(View()), old(tasks)[x].milestone, r)
      ensures found ==>
        var m := old(tasks)[x].milestone;
        && tasks == old(tasks)[x := Task(m, if newStatus.Some? then newStatus.value else old(tasks)[x].status)]
        && milestones == old(milestones)[m := old(milestones)[m].(progress := milestones[m].progress)]
        && ShowsDoneShare(View(), m)
    {
      PerformKeepsValid(View(), Action.UpdateTask(r, x, newStatus));
      found := OwnerOf(x) == Some(r);
      if found {
        if newStatus.Some? {
          tasks := tasks[x := tasks[x].(status := newStatus.value)];
        }
        assert tasks == old(tasks)[x := old(tasks)[x].(status := StatusOr(newStatus, old(tasks)[x].status))];
        RecomputeMilestoneProgress(tasks[x].milestone);
      }
    }

    method DeleteTask(r: Id, x: Id) returns (found: bool)
      modifies this`tasks, this`deps, this`milestones
      ensures View() == Perform(old(View()), Action.DeleteTask(r, x))
      ensures old(Valid()) ==> Valid()
      ensures found <==> x in old(tasks) && LiesIn(old(View()), old(tasks)[x].milestone, r)
      ensures found ==>
        var m := old(tasks)[x].milestone;
        && tasks == old(tasks) - {x} && deps == (set e | e in old(deps) && e.0 != x && e.1 != x)
        && milestones == old(milestones)[m := old(milestones)[m].(progress := milestones[m].progress)]
        && ShowsDoneShare(View(), m)
    {
      PerformKeepsValid(View(), Action.DeleteTask(r, x));
      found := OwnerOf(x) == Some(r);
      if found {
        var m := tasks[x].milestone;
        tasks := tasks - {x};
        deps := set e | e in deps && e.0 !in {x} && e.1 !in {x};
        RecomputeMilestoneProgress(m);
      }
    }

    /** Guard, then store. `Ok(created)` is false when the row was already there. */
    method CreateDependency(r: Id, x: Id, on: Id) returns (answer: Result<bool, Refusal>)
      modifies this`deps
      ensures View() == Perform(old(View()), Action.CreateDependency(r, x, on))
      ensures old(Valid()) ==> Valid()
      ensures match answer
        case Ok(created) => MayDepend(old(View()), r, x, on) && (created <==> (x, on) !in old(deps))
        case Err(NotFound) =>
          !InRoadmap(old(View()), r, x) || (x != on && !InRoadmap(old(View()), r, on))
        case Err(SelfDependency) => InRoadmap(old(View()), r, x) && x == on
        case Err(DependencyCycle) =>
          && InRoadmap(old(View()), r, x) && InRoadmap(old(View()), r, on) && x != on
          && Reaches(RoadmapEdges(old(View()), r), on, x)
      ensures deps == if answer.Ok? then old(deps) + {(x, on)} else old(deps)
      ensures answer == Err(NotFound) <==>
        || !(x in tasks && LiesIn(View(), tasks[x].milestone, r))
        || (x != on && !(on in tasks && LiesIn(View(), tasks[on].milestone, r)))
    {
      PerformKeepsValid(View(), Action.CreateDependency(r, x, on));
      if OwnerOf(x) != Some(r) {
        return Err(NotFound);
      }
      if x == on {
        return Err(SelfDependency);
      }
      if OwnerOf(on) != Some(r) {
        return Err(NotFound);
      }
      var own := set e | e in deps && OwnerOf(e.0) == Some(r);
      assert own == RoadmapEdges(View(), r);
      var adj := Dependencies.DependencyMap(own);
      var cycle := Dependencies.WouldCreateCycle(adj, x, on);
      if cycle {
        return Err(DependencyCycle);
      }
      var created := (x, on) !in deps;
      deps := deps + {(x, on)};
      answer := Ok(created);
    }

    method DeleteDependency(r: Id, x: Id, on: Id) returns (found: bool)
      modifies this`deps
      ensures View() == Perform(old(View()), Action.DeleteDependency(r, x, on))
      ensures old(Valid()) ==> Valid()
      ensures found <==> (x, on) in old(deps) && x in old(tasks) && LiesIn(old(View()), old(tasks)[x].milestone, r)
      ensures deps == if found then old(deps) - {(x, on)} else old(deps)
    {
      PerformKeepsValid(View(), Action.DeleteDependency(r, x, on));
      found := OwnerOf(x) == Some(r) && (x, on) in deps;
      if found {
        deps := deps - {(x, on)};
      } else {
        assert OwnerOf(x) == Some(r) ==> deps - {(x, on)} == deps;
      }
    }

    /** Project the task dependencies onto the roadmap's milestones. */
    method MilestonePrecedence(r: Id) returns (preds: TopoSort.Predecessors)
      ensures TopoSort.EdgesOf(preds) == Precedence(View(), r)
    {
      var taskMilestone := map x | x in tasks && OwnerOf(x) == Some(r) :: tasks[x].milestone;
      preds := map[];
      var rest := deps;
      while rest != {}
        invariant rest <= deps
        invariant TopoSort.EdgesOf(preds) == Precedence(View().(deps := deps - rest), r)
      {
        var e :| e in rest;
        ghost var handled := View().(deps := deps - rest);
        rest := rest - {e};
        ghost var handledNow := View().(deps := deps - rest);
        OneMoreDependency(handled, e, r);
        assert handledNow.deps == handled.deps + {e};
        if e.0 in taskMilestone && e.1 in taskMilestone && taskMilestone[e.0] != taskMilestone[e.1] {
          var down, up := taskMilestone[e.0], taskMilestone[e.1];
          AddPredecessor(preds, down, up);
          preds := preds[down := TopoSort.PredsOf(preds, down) + {up}];
        }
      }
      assert deps - rest == deps;
    }

    method Proposal(r: Id, today: int) returns (changes: seq<Change>)
      ensures MayPropose(View(), r, today, changes)
      ensures MovesOnlyTheLate(MilestonesOf(View(), r), Precedence(View(), r), today, changes)
    {
      var own := map m | m in milestones && HasMilestone(r, m) :: milestones[m];
      assert own == MilestonesOf(View(), r);
      var preds := MilestonePrecedence(r);
      PrecedenceStaysInside(View(), r);
      changes := ComputeReplan(own, preds, today);
    }

    method WriteChanges(changes: seq<Change>, now: int, ids: seq<Id>)
      returns (applied: seq<Id>, skipped: seq<Id>, snapshot: seq<Change>)
      requires forall c :: c in changes ==> c.milestone in milestones
      modifies this`milestones
      ensures milestones == AfterReplan(old(milestones), changes, Elements(ids), now)
      ensures applied == Chosen(changes, ids) && skipped == NotProposed(changes, ids)
      ensures snapshot == Snapshot(changes, ids)
    {
      applied, skipped, snapshot := [], [], [];
      assert milestones == AfterReplan(old(milestones), changes, Elements(ids[..0]), now);
      for i := 0 to |ids|
        invariant milestones == AfterReplan(old(milestones), changes, Elements(ids[..i]), now)
        invariant applied == Chosen(changes, ids[..i]) && skipped == NotProposed(changes, ids[..i])
        invariant snapshot == Snapshot(changes, ids[..i])
      {
        assert ids[..i + 1][..i] == ids[..i];
        assert Elements(ids[..i + 1]) == Elements(ids[..i]) + {ids[i]};
        var c := ChangeOf(changes, ids[i]);
        OneMoreId(old(milestones), changes, Elements(ids[..i]), ids[i], now);
        if c.None? {
          skipped := skipped + [ids[i]];
        } else {
          milestones := milestones[ids[i] := Moved(milestones[ids[i]], c.value, now)];
          applied := applied + [ids[i]];
          snapshot := snapshot + [c.value];
        }
      }
      assert ids[..|ids|] == ids;
    }

    /** Recompute the proposal, then write the requested ids one by one. */
    method ApplyReplan(r: Id, today: int, now: int, ids: seq<Id>) returns (applied: seq<Id>, skipped: seq<Id>)
      modifies this`milestones, this`replans
      ensures exists changes ::
        && MayPropose(old(View()), r, today, changes)
        && View() == Replanned(old(View()), r, changes, ids, now)
        && applied == Chosen(changes, ids) && skipped == NotProposed(changes, ids)
      ensures old(Valid()) ==> Valid()
    {
      var changes := Proposal(r, today);
      ProposedAreRows(View(), r, today, changes);
      ReplanKeepsValid(View(), r, changes, ids, now);
      var snapshot;
      applied, skipped, snapshot := WriteChanges(changes, now, ids);
      HistoryMatchesChosen(changes, ids);
      if applied != [] {
        replans := replans + [ReplanRow(r, snapshot)];
      }
      assert MayPropose(old(View()), r, today, changes)
        && View() == Replanned(old(View()), r, changes, ids, now);
    }
  }
}
