/** Isolation of the workspaces: a request reads its own roadmap off the caller and leaves the
    rows of every other roadmap exactly as they are. */
module RoadmapIsolation {
  import opened Basics
  import opened Graphs
  import opened RoadmapTables

  predicate IsElsewhere(t: Tables, p: Id, r: Id) {
    p in t.phases && t.phases[p].roadmap != r
  }

  predicate TaskIsElsewhere(t: Tables, x: Id, r: Id) {
    x in t.tasks && t.tasks[x].milestone in t.milestones
    && IsElsewhere(t, t.milestones[t.tasks[x].milestone].phase, r)
  }

  /** Every phase, milestone, task and dependency row that u has outside roadmap r, t has too. */
  ghost predicate HasOthersOf(t: Tables, u: Tables, r: Id) {
    && (forall p :: IsElsewhere(u, p, r) ==> p in t.phases && t.phases[p] == u.phases[p])
    && (forall m :: m in u.milestones && IsElsewhere(u, u.milestones[m].phase, r) ==>
          m in t.milestones && t.milestones[m] == u.milestones[m])
    && (forall x :: TaskIsElsewhere(u, x, r) ==> x in t.tasks && t.tasks[x] == u.tasks[x])
    && (forall e :: e in u.deps && TaskIsElsewhere(u, e.0, r) ==> e in t.deps)
  }

  /** Outside roadmap r the tables have exactly the same rows. */
  ghost predicate SameOutside(t: Tables, u: Tables, r: Id) {
    HasOthersOf(t, u, r) && HasOthersOf(u, t, r)
  }

  lemma HasOthersTrans(t: Tables, u: Tables, v: Tables, r: Id)
    requires HasOthersOf(t, u, r) && HasOthersOf(u, v, r)
    ensures HasOthersOf(t, v, r)
  {
  }

  lemma SameOutsideTrans(t: Tables, u: Tables, v: Tables, r: Id)
    requires SameOutside(t, u, r) && SameOutside(u, v, r)
    ensures SameOutside(t, v, r)
  {
    HasOthersTrans(t, u, v, r);
    HasOthersTrans(v, u, t, r);
  }

  /** u keeps every row of t, and every row it adds lies in roadmap r. */
  ghost predicate Grows(t: Tables, u: Tables, r: Id) {
    && Extends(t, u)
    && (forall p :: p in u.phases && p !in t.phases ==> u.phases[p].roadmap == r)
    && (forall m :: m in u.milestones && m !in t.milestones ==> !IsElsewhere(u, u.milestones[m].phase, r))
    && (forall x :: x in u.tasks && x !in t.tasks ==> !TaskIsElsewhere(u, x, r))
  }

  lemma TaskStaysWhereItIs(t: Tables, u: Tables, x: Id, r: Id)
    requires WellFormed(t) && Extends(t, u) && x in t.tasks
    ensures TaskIsElsewhere(u, x, r) <==> TaskIsElsewhere(t, x, r)
  {
  }

  lemma GrowsTrans(t: Tables, u: Tables, v: Tables, r: Id)
    requires Grows(t, u, r) && Grows(u, v, r) && WellFormed(u)
    ensures Grows(t, v, r)
  {
    ExtendsTrans(t, u, v);
    forall x | x in v.tasks && x !in t.tasks
      ensures !TaskIsElsewhere(v, x, r)
    {
      if x in u.tasks { TaskStaysWhereItIs(u, v, x, r); }
    }
  }

  lemma GrownIsSameOutside(t: Tables, u: Tables, r: Id)
    requires WellFormed(t) && Grows(t, u, r)
    ensures SameOutside(t, u, r)
  {
  }

  lemma AddedTaskGrows(t: Tables, r: Id, m: Id)
    requires WellFormed(t) && OwnsMilestone(t, r, m)
    ensures Grows(t, AddTask(t, m, Todo), r) && WellFormed(AddTask(t, m, Todo))
  {
  }

  lemma AddedMilestoneGrows(t: Tables, r: Id, p: Id, due: Option<int>)
    requires WellFormed(t) && OwnsPhase(t, r, p)
    ensures var u := AddMilestone(t, p, due, Todo); Grows(t, u, r) && WellFormed(u) && OwnsMilestone(u, r, t.next)
  {
  }

  lemma AddedPhaseGrows(t: Tables, r: Id)
    requires WellFormed(t)
    ensures var u := AddPhase(t, r); Grows(t, u, r) && WellFormed(u) && OwnsPhase(u, r, t.next)
  {
  }

  lemma {:induction false} AddedTasksGrow(t: Tables, r: Id, m: Id, n: nat)
    requires WellFormed(t) && OwnsMilestone(t, r, m)
    ensures Grows(t, WithTasks(t, m, n), r) && WellFormed(WithTasks(t, m, n))
  {
    if n > 0 {
      var u := WithTasks(t, m, n - 1);
      AddedTasksGrow(t, r, m, n - 1);
      AddedTaskGrows(u, r, m);
      GrowsTrans(t, u, AddTask(u, m, Todo), r);
    }
  }

  lemma WithMilestoneGrows(t: Tables, r: Id, p: Id, today: int, spec: MilestoneSpec)
    requires WellFormed(t) && OwnsPhase(t, r, p)
    ensures Grows(t, WithMilestone(t, p, today, spec), r) && WellFormed(WithMilestone(t, p, today, spec))
  {
    var u := AddMilestone(t, p, Some(today + 7 * spec.dueWeek), Todo);
    AddedMilestoneGrows(t, r, p, Some(today + 7 * spec.dueWeek));
    AddedTasksGrow(u, r, t.next, spec.tasks);
    var v := WithMilestone(t, p, today, spec);
    assert v == WithTasks(u, t.next, spec.tasks);
    GrowsTrans(t, u, v, r);
  }

  lemma {:induction false} AddedMilestonesGrow(t: Tables, r: Id, p: Id, today: int, specs: seq<MilestoneSpec>)
    requires WellFormed(t) && OwnsPhase(t, r, p)
    ensures Grows(t, WithMilestones(t, p, today, specs), r) && WellFormed(WithMilestones(t, p, today, specs))
  {
    if specs != [] {
      var spec, u := specs[|specs| - 1], WithMilestones(t, p, today, specs[..|specs| - 1]);
      AddedMilestonesGrow(t, r, p, today, specs[..|specs| - 1]);
      WithMilestoneGrows(u, r, p, today, spec);
      GrowsTrans(t, u, WithMilestone(u, p, today, spec), r);
    }
  }

  lemma {:induction false} TemplateGrows(t: Tables, r: Id, today: int, tmpl: Template)
    requires WellFormed(t)
    ensures Grows(t, WithPhases(t, r, today, tmpl), r) && WellFormed(WithPhases(t, r, today, tmpl))
  {
    if tmpl != [] {
      var u := WithPhases(t, r, today, tmpl[..|tmpl| - 1]);
      var specs := tmpl[|tmpl| - 1];
      TemplateGrows(t, r, today, tmpl[..|tmpl| - 1]);
      AddedPhaseGrows(u, r);
      AddedMilestonesGrow(AddPhase(u, r), r, u.next, today, specs);
      GrowsTrans(u, AddPhase(u, r), WithMilestones(AddPhase(u, r), u.next, today, specs), r);
      GrowsTrans(t, u, WithMilestones(AddPhase(u, r), u.next, today, specs), r);
    }
  }

  lemma MilestoneRowIsOwn(t: Tables, r: Id, m: Id, row: Milestone)
    requires WellFormed(t) && OwnsMilestone(t, r, m) && row.phase == t.milestones[m].phase
    ensures SameOutside(t, t.(milestones := t.milestones[m := row]), r)
  {
  }

  lemma TaskRowIsOwn(t: Tables, r: Id, x: Id, row: Task)
    requires WellFormed(t) && InRoadmap(t, r, x) && row.milestone == t.tasks[x].milestone
    ensures SameOutside(t, t.(tasks := t.tasks[x := row]), r)
  {
  }

  lemma RemovedTasksAreOwn(t: Tables, r: Id, gone: set<Id>)
    requires Structured(t) && forall x :: x in gone ==> !TaskIsElsewhere(t, x, r)
    ensures SameOutside(t, RemoveTasks(t, gone), r)
  {
    forall e | e in t.deps && TaskIsElsewhere(t, e.0, r)
      ensures e.0 !in gone && e.1 !in gone
    {
      assert RoadmapOf(t, e.0) == RoadmapOf(t, e.1);
    }
  }

  lemma RemovedMilestonesAreOwn(t: Tables, r: Id, gone: set<Id>)
    requires Structured(t)
    requires forall m :: m in gone && m in t.milestones ==> !IsElsewhere(t, t.milestones[m].phase, r)
    ensures SameOutside(t, RemoveMilestones(t, gone), r)
  {
    var lost := set x | x in t.tasks && t.tasks[x].milestone in gone;
    RemovedTasksAreOwn(t, r, lost);
    RemoveTasksKeeps(t, lost);
    var u := RemoveTasks(t, lost);
    assert SameOutside(u, u.(milestones := u.milestones - gone), r);
    SameOutsideTrans(t, u, u.(milestones := u.milestones - gone), r);
  }

  lemma RemovedPhaseIsOwn(t: Tables, r: Id, p: Id)
    requires Structured(t) && OwnsPhase(t, r, p)
    ensures SameOutside(t, RemovePhase(t, p), r)
  {
    var gone := set m | m in t.milestones && t.milestones[m].phase == p;
    RemovedMilestonesAreOwn(t, r, gone);
    var u := RemoveMilestones(t, gone);
    assert SameOutside(u, u.(phases := u.phases - {p}), r);
    SameOutsideTrans(t, u, u.(phases := u.phases - {p}), r);
  }

  /** The roadmap a request works on: the caller's own, also the one it is about to create. */
  function RoadmapNamed(t: Tables, a: Action): Id {
    match a
    case Generate(startup, _, _) => if startup in t.roadmaps then t.roadmaps[startup].id else t.next
    case ApplyTemplate(startup, _, _, _, _) => if startup in t.roadmaps then t.roadmaps[startup].id else t.next
    case _ => a.r
  }

  lemma TemplateIsOwn(t: Tables, r: Id, today: int, tmpl: Template)
    requires WellFormed(t)
    ensures SameOutside(t, WithPhases(t, r, today, tmpl), r) && WellFormed(WithPhases(t, r, today, tmpl))
  {
    TemplateGrows(t, r, today, tmpl);
    GrownIsSameOutside(t, WithPhases(t, r, today, tmpl), r);
  }

  lemma OtherColumnsAreOutside(t: Tables, u: Tables, r: Id)
    requires u == t.(roadmaps := u.roadmaps, next := u.next)
    ensures SameOutside(t, u, r)
  {
  }

  lemma GeneratingIsOwn(t: Tables, startup: Id, today: int, tmpl: Template)
    requires Sound(t)
    ensures SameOutside(t, Generated(t, startup, today, tmpl), RoadmapNamed(t, Action.Generate(startup, today, tmpl)))
    ensures Generated(t, startup, today, tmpl).roadmaps[startup].id
         == RoadmapNamed(t, Action.Generate(startup, today, tmpl))
  {
    if startup !in t.roadmaps {
      var claimed := t.(roadmaps := t.roadmaps[startup := Roadmap(t.next, [])], next := t.next + 1);
      SameRowsKeep(t, claimed);
      OtherColumnsAreOutside(t, claimed, t.next);
      TemplateIsOwn(claimed, t.next, today, tmpl);
      TemplateKeepsRoadmaps(claimed, t.next, today, tmpl);
      var u := Generated(t, startup, today, tmpl);
      assert u == WithPhases(claimed, t.next, today, tmpl);
      SameOutsideTrans(t, claimed, u, t.next);
    }
  }

  lemma ApplyingTemplateIsOwn(t: Tables, startup: Id, key: Id, today: int, tmpl: Template)
    requires Sound(t) && startup in t.roadmaps
    ensures SameOutside(t, TemplateApplied(t, startup, key, today, tmpl), t.roadmaps[startup].id)
  {
    var row := t.roadmaps[startup];
    if key !in row.applied {
      var grown, u := WithPhases(t, row.id, today, tmpl), TemplateApplied(t, startup, key, today, tmpl);
      TemplateIsOwn(t, row.id, today, tmpl);
      OtherColumnsAreOutside(grown, u, row.id);
      SameOutsideTrans(t, grown, u, row.id);
    }
  }

  lemma RecomputingIsOwn(t: Tables, u: Tables, r: Id, m: Id)
    requires SameOutside(t, u, r) && WellFormed(u) && OwnsMilestone(u, r, m)
    ensures SameOutside(t, Recomputed(u, m), r)
  {
    MilestoneRowIsOwn(u, r, m, u.milestones[m].(progress := ProgressOf(u, m)));
    SameOutsideTrans(t, u, Recomputed(u, m), r);
  }

  lemma CreatingTaskIsOwn(t: Tables, r: Id, m: Id, status: Status)
    requires Sound(t) && OwnsMilestone(t, r, m)
    ensures SameOutside(t, Recomputed(AddTask(t, m, status), m), r)
  {
    var u := AddTask(t, m, status);
    assert SameOutside(t, u, r);
    RecomputingIsOwn(t, u, r, m);
  }

  lemma UpdatingTaskIsOwn(t: Tables, r: Id, x: Id, newStatus: Option<Status>)
    requires Sound(t) && InRoadmap(t, r, x)
    ensures SameOutside(t, TaskUpdated(t, x, newStatus), r)
  {
    var row := t.tasks[x].(status := StatusOr(newStatus, t.tasks[x].status));
    TaskRowIsOwn(t, r, x, row);
    RecomputingIsOwn(t, t.(tasks := t.tasks[x := row]), r, row.milestone);
  }

  lemma DeletingTaskIsOwn(t: Tables, r: Id, x: Id)
    requires Sound(t) && InRoadmap(t, r, x)
    ensures SameOutside(t, Recomputed(RemoveTasks(t, {x}), t.tasks[x].milestone), r)
  {
    RemovedTasksAreOwn(t, r, {x});
    RecomputingIsOwn(t, RemoveTasks(t, {x}), r, t.tasks[x].milestone);
  }

  lemma DependencyRowsAreOwn(t: Tables, r: Id, x: Id, on: Id)
    requires InRoadmap(t, r, x)
    ensures SameOutside(t, t.(deps := t.deps + {(x, on)}), r) && SameOutside(t, t.(deps := t.deps - {(x, on)}), r)
  {
  }

  lemma RefusingIsOwn(t: Tables, r: Id)
    ensures SameOutside(t, t, r)
  {
  }

  lemma CreatingPhaseIsOwn(t: Tables, r: Id)
    requires Sound(t)
    ensures SameOutside(t, AddPhase(t, r), r)
  {
  }

  lemma CreatingMilestoneIsOwn(t: Tables, r: Id, p: Id, due: Option<int>, status: Status)
    requires Sound(t) && OwnsPhase(t, r, p)
    ensures SameOutside(t, AddMilestone(t, p, due, status), r)
  {
  }

  lemma UpdatingMilestoneIsOwn(t: Tables, r: Id, m: Id, newDue: Option<Option<int>>, newStatus: Option<Status>)
    requires Sound(t) && OwnsMilestone(t, r, m)
    ensures SameOutside(t, MilestoneUpdated(t, m, newDue, newStatus), r)
  {
    var u := MilestoneUpdated(t, m, newDue, newStatus);
    MilestoneRowIsOwn(t, r, m, u.milestones[m]);
    assert u == t.(milestones := t.milestones[m := u.milestones[m]]);
  }

  lemma GalleryTemplateIsOwn(t: Tables, startup: Id, key: Id, today: int, stage: Template, tmpl: Template)
    requires Sound(t)
    ensures SameOutside(t, TemplateApplied(Generated(t, startup, today, stage), startup, key, today, tmpl),
                        RoadmapNamed(t, Action.ApplyTemplate(startup, key, today, stage, tmpl)))
  {
    var g := Generated(t, startup, today, stage);
    GeneratingIsOwn(t, startup, today, stage);
    GenerateKeeps(t, startup, today, stage);
    ApplyingTemplateIsOwn(g, startup, key, today, tmpl);
    SameOutsideTrans(t, g, TemplateApplied(g, startup, key, today, tmpl), g.roadmaps[startup].id);
  }

  /** Whoever calls, no request adds, changes or removes a row of another roadmap. */
  lemma OthersStayUntouched(t: Tables, a: Action)
    requires Sound(t)
    ensures SameOutside(t, Perform(t, a), RoadmapNamed(t, a))
  {
    RefusingIsOwn(t, RoadmapNamed(t, a));
    match a
    case Generate(startup, today, tmpl) => GeneratingIsOwn(t, startup, today, tmpl);
    case ApplyTemplate(startup, key, today, stage, tmpl) =>
      GalleryTemplateIsOwn(t, startup, key, today, stage, tmpl);
    case CreatePhase(r) => CreatingPhaseIsOwn(t, r);
    case DeletePhase(r, p) => if OwnsPhase(t, r, p) { RemovedPhaseIsOwn(t, r, p); }
    case CreateMilestone(r, p, due, initial) =>
      if OwnsPhase(t, r, p) { CreatingMilestoneIsOwn(t, r, p, due, StatusOr(initial, Todo)); }
    case UpdateMilestone(r, m, newDue, newStatus) =>
      if OwnsMilestone(t, r, m) { UpdatingMilestoneIsOwn(t, r, m, newDue, newStatus); }
    case DeleteMilestone(r, m) => if OwnsMilestone(t, r, m) { RemovedMilestonesAreOwn(t, r, {m}); }
    case CreateTask(r, m, initial) =>
      if OwnsMilestone(t, r, m) { CreatingTaskIsOwn(t, r, m, StatusOr(initial, Todo)); }
    case UpdateTask(r, x, newStatus) => if InRoadmap(t, r, x) { UpdatingTaskIsOwn(t, r, x, newStatus); }
    case DeleteTask(r, x) => if InRoadmap(t, r, x) { DeletingTaskIsOwn(t, r, x); }
    case CreateDependency(r, x, on) => if InRoadmap(t, r, x) { DependencyRowsAreOwn(t, r, x, on); }
    case DeleteDependency(r, x, on) => if InRoadmap(t, r, x) { DependencyRowsAreOwn(t, r, x, on); }
  }
}
