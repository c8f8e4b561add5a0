/** The roadmap's rows, what each editing request does to them, and the three facts
    that every run of requests keeps: foreign keys hold, the task dependency graph is
    acyclic, and every stored milestone progress equals its recomputation. */
module RoadmapTables {
  import opened Basics
  import opened Graphs

  datatype Status = Todo | InProgress | Done

  /** Why a milestone was moved (the sentence shown to the user, as data). */
  datatype Reason =
    | Overdue(days: int)
    | OverdueAndPushed(days: int, shift: int, driver: Id)
    | Pushed(shift: int, driver: Id)

  datatype Change = Change(milestone: Id, oldDue: int, newDue: int, reason: Reason)

  datatype Roadmap = Roadmap(id: Id, applied: seq<Id>)
  datatype Phase = Phase(roadmap: Id)
  datatype Milestone = Milestone(phase: Id, due: Option<int>, status: Status, progress: nat,
                                 replanned: Option<(int, Reason)>)
  datatype Task = Task(milestone: Id, status: Status)
  datatype ReplanRow = ReplanRow(roadmap: Id, changes: seq<Change>)

  /** `roadmaps` is keyed by the owning startup (a unique column); `next` stands for
      the supply of fresh UUIDs. */
  datatype Tables = Tables(
    roadmaps: map<Id, Roadmap>,
    phases: map<Id, Phase>,
    milestones: map<Id, Milestone>,
    tasks: map<Id, Task>,
    deps: Edges,
    replans: seq<ReplanRow>,
    next: Id)

  const EMPTY := Tables(map[], map[], map[], map[], {}, [], 0)

  // ---------------------------------------------------------------- derived data

  function TasksOf(tasks: map<Id, Task>, m: Id): set<Id> {
    set x | x in tasks && tasks[x].milestone == m
  }

  function DoneOf(tasks: map<Id, Task>, m: Id): set<Id> {
    set x | x in tasks && tasks[x].milestone == m && tasks[x].status == Done
  }

  /** What `recompute_milestone_progress` stores. */
  function ProgressOf(t: Tables, m: Id): nat
    requires m in t.milestones
  {
    var all := TasksOf(t.tasks, m);
    if all == {} then if t.milestones[m].status == Done then 100 else 0
    else Percent(|DoneOf(t.tasks, m)|, |all|)
  }

  function Recomputed(t: Tables, m: Id): Tables
    requires m in t.milestones
  {
    t.(milestones := t.milestones[m := t.milestones[m].(progress := ProgressOf(t, m))])
  }

  /** The roadmap a task belongs to, following its milestone and phase. */
  function RoadmapOf(t: Tables, x: Id): Option<Id> {
    if x !in t.tasks || t.tasks[x].milestone !in t.milestones then None
    else
      var p := t.milestones[t.tasks[x].milestone].phase;
      if p in t.phases then Some(t.phases[p].roadmap) else None
  }

  predicate InRoadmap(t: Tables, r: Id, x: Id) {
    RoadmapOf(t, x) == Some(r)
  }

  predicate OwnsMilestone(t: Tables, r: Id, m: Id) {
    m in t.milestones && t.milestones[m].phase in t.phases
    && t.phases[t.milestones[m].phase].roadmap == r
  }

  predicate OwnsPhase(t: Tables, r: Id, p: Id) {
    p in t.phases && t.phases[p].roadmap == r
  }

  /** The dependency rows whose dependent task belongs to roadmap r. */
  function RoadmapEdges(t: Tables, r: Id): Edges {
    set e | e in t.deps && InRoadmap(t, r, e.0)
  }

  // ---------------------------------------------------------------- invariants

  /** `next` has not been used as an id. */
  ghost predicate IdsBelowNext(t: Tables) {
    && (forall p :: p in t.phases ==> p < t.next)
    && (forall m :: m in t.milestones ==> m < t.next)
    && (forall x :: x in t.tasks ==> x < t.next)
  }

  ghost predicate WellFormed(t: Tables) {
    && IdsBelowNext(t)
    && (forall s :: s in t.roadmaps ==> t.roadmaps[s].id < t.next)
    && (forall m :: m in t.milestones ==> t.milestones[m].phase in t.phases)
    && (forall x :: x in t.tasks ==> t.tasks[x].milestone in t.milestones)
  }

  /** Both ends of every dependency are tasks of one roadmap. */
  ghost predicate DepsStayInside(t: Tables) {
    forall e :: e in t.deps ==> RoadmapOf(t, e.0).Some? && RoadmapOf(t, e.0) == RoadmapOf(t, e.1)
  }

  ghost predicate ProgressIsCurrent(t: Tables) {
    forall m :: m in t.milestones ==> t.milestones[m].progress == ProgressOf(t, m)
  }

  ghost predicate Structured(t: Tables) {
    WellFormed(t) && DepsStayInside(t) && Acyclic(t.deps)
  }

  ghost predicate Sound(t: Tables) {
    Structured(t) && ProgressIsCurrent(t)
  }

  /** The percentage of `all` that is `done`, rounded to the nearest integer with ties to even;
      without tasks, whether the milestone itself is done. */
  ghost predicate IsShare(row: Milestone, all: set<Id>, done: set<Id>) {
    if all == {} then row.progress == if row.status == Done then 100 else 0
    else IsRoundingOf(row.progress, 100 * |done|, |all|)
  }

  /** The stored progress, read off the rows. */
  ghost predicate ShowsDoneShare(t: Tables, m: Id)
    requires m in t.milestones
  {
    IsShare(t.milestones[m], set x | x in t.tasks && t.tasks[x].milestone == m,
            set x | x in t.tasks && t.tasks[x].milestone == m && t.tasks[x].status == Done)
  }

  lemma CurrentShowsDoneShare(t: Tables, m: Id)
    requires m in t.milestones && t.milestones[m].progress == ProgressOf(t, m)
    ensures ShowsDoneShare(t, m)
  {
    var all, done := TasksOf(t.tasks, m), DoneOf(t.tasks, m);
    if all != {} { PercentIsRounded(|done|, |all|); }
    assert IsShare(t.milestones[m], all, done);
    assert all == set x | x in t.tasks && t.tasks[x].milestone == m;
    assert done == set x | x in t.tasks && t.tasks[x].milestone == m && t.tasks[x].status == Done;
  }

  // ---------------------------------------------------------------- row operations

  function AddTask(t: Tables, m: Id, status: Status): Tables {
    t.(tasks := t.tasks[t.next := Task(m, status)], next := t.next + 1)
  }

  function AddMilestone(t: Tables, p: Id, due: Option<int>, status: Status): Tables {
    var progress := if status == Done then 100 else 0;
    t.(milestones := t.milestones[t.next := Milestone(p, due, status, progress, None)],
       next := t.next + 1)
  }

  function AddPhase(t: Tables, r: Id): Tables {
    t.(phases := t.phases[t.next := Phase(r)], next := t.next + 1)
  }

  /** Deleting rows cascades along the foreign keys. */
  function RemoveTasks(t: Tables, gone: set<Id>): Tables {
    t.(tasks := t.tasks - gone,
       deps := set e | e in t.deps && e.0 !in gone && e.1 !in gone)
  }

  function RemoveMilestones(t: Tables, gone: set<Id>): Tables {
    RemoveTasks(t, set x | x in t.tasks && t.tasks[x].milestone in gone)
      .(milestones := t.milestones - gone)
  }

  function RemovePhase(t: Tables, p: Id): Tables {
    RemoveMilestones(t, set m | m in t.milestones && t.milestones[m].phase == p)
      .(phases := t.phases - {p})
  }

  /** A template is a list of phases, each a list of milestones with a due week and
      a number of tasks. */
  datatype MilestoneSpec = MilestoneSpec(dueWeek: int, tasks: nat)
  type Template = seq<seq<MilestoneSpec>>

  function WithTasks(t: Tables, m: Id, n: nat): Tables {
    if n == 0 then t else AddTask(WithTasks(t, m, n - 1), m, Todo)
  }

  function WithMilestone(t: Tables, p: Id, today: int, spec: MilestoneSpec): Tables {
    WithTasks(AddMilestone(t, p, Some(today + 7 * spec.dueWeek), Todo), t.next, spec.tasks)
  }

  function WithMilestones(t: Tables, p: Id, today: int, specs: seq<MilestoneSpec>): Tables {
    if specs == [] then t
    else WithMilestone(WithMilestones(t, p, today, specs[..|specs| - 1]), p, today,
                       specs[|specs| - 1])
  }

  function WithPhases(t: Tables, r: Id, today: int, tmpl: Template): Tables
  {
    if tmpl == [] then t
    else
      var before := WithPhases(t, r, today, tmpl[..|tmpl| - 1]);
      WithMilestones(AddPhase(before, r), before.next, today, tmpl[|tmpl| - 1])
  }

  // ---------------------------------------------------------------- requests

  /** The editing requests other than re-planning. `r` is the caller's roadmap; a row
      outside it answers "not found" and changes nothing. */
  datatype Action =
    | Generate(startup: Id, today: int, tmpl: Template)
    | ApplyTemplate(startup: Id, key: Id, today: int, stage: Template, tmpl: Template)
    | CreatePhase(r: Id)
    | DeletePhase(r: Id, p: Id)
    | CreateMilestone(r: Id, p: Id, due: Option<int>, initial: Option<Status>)
    | UpdateMilestone(r: Id, m: Id, newDue: Option<Option<int>>, newStatus: Option<Status>)
    | DeleteMilestone(r: Id, m: Id)
    | CreateTask(r: Id, m: Id, initial: Option<Status>)
    | UpdateTask(r: Id, x: Id, newStatus: Option<Status>)
    | DeleteTask(r: Id, x: Id)
    | CreateDependency(r: Id, x: Id, on: Id)
    | DeleteDependency(r: Id, x: Id, on: Id)

  function StatusOr(s: Option<Status>, default: Status): Status {
    if s.Some? then s.value else default
  }

  lemma {:induction false} TasksKeepRest(t: Tables, m: Id, n: nat)
    ensures var u := WithTasks(t, m, n);
      u.roadmaps == t.roadmaps && u.phases == t.phases && u.milestones == t.milestones && u.next == t.next + n
  {
    if n > 0 { TasksKeepRest(t, m, n - 1); }
  }

  lemma {:induction false} MilestonesGrow(t: Tables, p: Id, today: int, specs: seq<MilestoneSpec>)
    ensures var u := WithMilestones(t, p, today, specs); u.roadmaps == t.roadmaps && t.next <= u.next
  {
    if specs != [] {
      var spec := specs[|specs| - 1];
      var before := WithMilestones(t, p, today, specs[..|specs| - 1]);
      MilestonesGrow(t, p, today, specs[..|specs| - 1]);
      TasksKeepRest(AddMilestone(before, p, Some(today + 7 * spec.dueWeek), Todo),
                    before.next, spec.tasks);
    }
  }

  lemma {:induction false} TemplateKeepsRoadmaps(t: Tables, r: Id, today: int, tmpl: Template)
    ensures WithPhases(t, r, today, tmpl).roadmaps == t.roadmaps
  {
    if tmpl != [] {
      TemplateKeepsRoadmaps(t, r, today, tmpl[..|tmpl| - 1]);
      var before := WithPhases(t, r, today, tmpl[..|tmpl| - 1]);
      MilestonesGrow(AddPhase(before, r), before.next, today, tmpl[|tmpl| - 1]);
    }
  }

  function Generated(t: Tables, startup: Id, today: int, tmpl: Template): (t': Tables)
    ensures startup in t'.roadmaps
  {
    if startup in t.roadmaps then t
    else
      var claimed := t.(roadmaps := t.roadmaps[startup := Roadmap(t.next, [])], next := t.next + 1);
      var grown := WithPhases(claimed, t.next, today, tmpl);
      TemplateKeepsRoadmaps(claimed, t.next, today, tmpl);
      grown
  }

  function TemplateApplied(t: Tables, startup: Id, key: Id, today: int, tmpl: Template): Tables
    requires startup in t.roadmaps
  {
    var row := t.roadmaps[startup];
    if key in row.applied then t
    else
      WithPhases(t, row.id, today, tmpl)
        .(roadmaps := t.roadmaps[startup := row.(applied := row.applied + [key])])
  }

  function MilestoneUpdated(t: Tables, m: Id, newDue: Option<Option<int>>,
                            newStatus: Option<Status>): Tables
    requires m in t.milestones
  {
    var row := t.milestones[m];
    var edited := row.(due := if newDue.Some? then newDue.value else row.due,
                       status := StatusOr(newStatus, row.status));
    Recomputed(t.(milestones := t.milestones[m := edited]), m)
  }

  function TaskUpdated(t: Tables, x: Id, newStatus: Option<Status>): Tables
    requires x in t.tasks && t.tasks[x].milestone in t.milestones
  {
    var row := t.tasks[x];
    Recomputed(t.(tasks := t.tasks[x := row.(status := StatusOr(newStatus, row.status))]),
               row.milestone)
  }

  /** A dependency request is accepted when it names two different tasks of the
      caller's roadmap and the dependency does not already reach the dependent. */
  ghost predicate MayDepend(t: Tables, r: Id, x: Id, on: Id) {
    InRoadmap(t, r, x) && x != on && InRoadmap(t, r, on) && !Reaches(RoadmapEdges(t, r), on, x)
  }

  ghost function Perform(t: Tables, a: Action): Tables {
    match a
    case Generate(startup, today, tmpl) => Generated(t, startup, today, tmpl)
    case ApplyTemplate(startup, key, today, stage, tmpl) =>
      TemplateApplied(Generated(t, startup, today, stage), startup, key, today, tmpl)
    case CreatePhase(r) =>
      if exists s :: s in t.roadmaps && t.roadmaps[s].id == r then AddPhase(t, r) else t
    case DeletePhase(r, p) => if OwnsPhase(t, r, p) then RemovePhase(t, p) else t
    case CreateMilestone(r, p, due, initial) =>
      if OwnsPhase(t, r, p) then AddMilestone(t, p, due, StatusOr(initial, Todo)) else t
    case UpdateMilestone(r, m, newDue, newStatus) =>
      if OwnsMilestone(t, r, m) then MilestoneUpdated(t, m, newDue, newStatus) else t
    case DeleteMilestone(r, m) => if OwnsMilestone(t, r, m) then RemoveMilestones(t, {m}) else t
    case CreateTask(r, m, initial) =>
      if OwnsMilestone(t, r, m) then Recomputed(AddTask(t, m, StatusOr(initial, Todo)), m) else t
    case UpdateTask(r, x, newStatus) =>
      if InRoadmap(t, r, x) then TaskUpdated(t, x, newStatus) else t
    case DeleteTask(r, x) =>
      if InRoadmap(t, r, x) then Recomputed(RemoveTasks(t, {x}), t.tasks[x].milestone) else t
    case CreateDependency(r, x, on) =>
      if MayDepend(t, r, x, on) then t.(deps := t.deps + {(x, on)}) else t
    case DeleteDependency(r, x, on) =>
      if InRoadmap(t, r, x) then t.(deps := t.deps - {(x, on)}) else t
  }

  // ---------------------------------------------------------------- proofs

  /** Progress depends only on the milestone's status and its own tasks. */
  lemma {:induction false} SameTasksSameProgress(t: Tables, u: Tables, m: Id)
    requires m in t.milestones && m in u.milestones
    requires t.milestones[m].status == u.milestones[m].status
    requires TasksOf(t.tasks, m) == TasksOf(u.tasks, m)
    requires DoneOf(t.tasks, m) == DoneOf(u.tasks, m)
    ensures ProgressOf(t, m) == ProgressOf(u, m)
  {
  }

  /** After m alone is recomputed, everything is current again, provided the other
      milestones' own rows and tasks did not change. */
  lemma {:induction false} RecomputeRestores(t: Tables, u: Tables, m: Id)
    requires ProgressIsCurrent(t) && m in u.milestones
    requires u.milestones.Keys == t.milestones.Keys
    requires forall k :: k in u.milestones && k != m ==> u.milestones[k] == t.milestones[k]
    requires forall k :: k in u.milestones && k != m ==>
               TasksOf(t.tasks, k) == TasksOf(u.tasks, k) && DoneOf(t.tasks, k) == DoneOf(u.tasks, k)
    ensures ProgressIsCurrent(Recomputed(u, m))
  {
    var v := Recomputed(u, m);
    forall k | k in v.milestones
      ensures v.milestones[k].progress == ProgressOf(v, k)
    {
      SameTasksSameProgress(u, v, k);
      if k != m {
        SameTasksSameProgress(t, v, k);
      }
    }
  }

  /** Dependencies stay inside as long as no task changes roadmap and no edge is new. */
  lemma {:induction false} SameOwnersKeepDeps(t: Tables, u: Tables)
    requires DepsStayInside(t) && u.deps <= t.deps
    requires forall e :: e in u.deps ==>
               RoadmapOf(u, e.0) == RoadmapOf(t, e.0) && RoadmapOf(u, e.1) == RoadmapOf(t, e.1)
    ensures DepsStayInside(u)
  {
  }

  lemma {:induction false} RecomputedStructure(t: Tables, m: Id)
    requires Structured(t) && m in t.milestones
    ensures Structured(Recomputed(t, m))
  {
    SameOwnersKeepDeps(t, Recomputed(t, m));
  }

  lemma {:induction false} AddTaskStructure(t: Tables, m: Id, status: Status)
    requires Structured(t) && m in t.milestones
    ensures Structured(AddTask(t, m, status))
  {
    SameOwnersKeepDeps(t, AddTask(t, m, status));
  }

  lemma {:induction false} OtherMilestonesUntouched(t: Tables, m: Id, status: Status, k: Id)
    requires WellFormed(t) && k in t.milestones && k != m
    ensures var u := AddTask(t, m, status);
      TasksOf(t.tasks, k) == TasksOf(u.tasks, k) && DoneOf(t.tasks, k) == DoneOf(u.tasks, k)
  {
  }

  lemma {:induction false} AddTaskKeeps(t: Tables, m: Id, status: Status)
    requires Sound(t) && m in t.milestones
    ensures Sound(Recomputed(AddTask(t, m, status), m))
  {
    var u := AddTask(t, m, status);
    AddTaskStructure(t, m, status);
    RecomputedStructure(u, m);
    forall k | k in u.milestones && k != m
      ensures TasksOf(t.tasks, k) == TasksOf(u.tasks, k) && DoneOf(t.tasks, k) == DoneOf(u.tasks, k)
    {
      OtherMilestonesUntouched(t, m, status, k);
    }
    RecomputeRestores(t, u, m);
  }

  lemma {:induction false} AddMilestoneKeeps(t: Tables, p: Id, due: Option<int>, status: Status)
    requires Sound(t) && p in t.phases
    ensures Sound(AddMilestone(t, p, due, status))
  {
    var u := AddMilestone(t, p, due, status);
    assert TasksOf(u.tasks, t.next) == {};
    forall m | m in t.milestones
      ensures ProgressOf(u, m) == ProgressOf(t, m)
    {
      SameTasksSameProgress(t, u, m);
    }
    SameOwnersKeepDeps(t, u);
  }

  lemma {:induction false} AddPhaseKeeps(t: Tables, r: Id)
    requires Sound(t)
    ensures Sound(AddPhase(t, r))
  {
    var u := AddPhase(t, r);
    forall m | m in t.milestones
      ensures ProgressOf(u, m) == ProgressOf(t, m)
    {
      SameTasksSameProgress(t, u, m);
    }
    SameOwnersKeepDeps(t, u);
  }

  // Templates: a fresh milestone has progress 0, and tasks arriving undone keep it 0.

  lemma {:induction false} PercentOfNone(whole: nat)
    requires whole > 0
    ensures Percent(0, whole) == 0
  {
    RoundDivIsNearestEven(0, whole, 0);
  }

  /** One undone task on a milestone that has nothing done keeps its progress at 0. */
  lemma {:induction false} AddUndoneTaskProgress(t: Tables, m: Id)
    requires ProgressIsCurrent(t) && m in t.milestones && t.next !in t.tasks
    requires t.milestones[m].progress == 0 && DoneOf(t.tasks, m) == {}
    ensures var u := AddTask(t, m, Todo); ProgressIsCurrent(u) && DoneOf(u.tasks, m) == {}
  {
    var u := AddTask(t, m, Todo);
    assert DoneOf(u.tasks, m) == {};
    forall k | k in u.milestones
      ensures u.milestones[k].progress == ProgressOf(u, k)
    {
      if k == m {
        assert t.next in TasksOf(u.tasks, m);
        PercentOfNone(|TasksOf(u.tasks, m)|);
      } else {
        assert TasksOf(t.tasks, k) == TasksOf(u.tasks, k) && DoneOf(t.tasks, k) == DoneOf(u.tasks, k);
      }
    }
  }

  /** u extends t: every old row is still there, unchanged. */
  ghost predicate Extends(t: Tables, u: Tables) {
    && u.roadmaps == t.roadmaps && u.deps == t.deps && u.replans == t.replans && t.next <= u.next
    && (forall p :: p in t.phases ==> p in u.phases && u.phases[p] == t.phases[p])
    && (forall m :: m in t.milestones ==> m in u.milestones && u.milestones[m] == t.milestones[m])
    && (forall x :: x in t.tasks ==> x in u.tasks && u.tasks[x] == t.tasks[x])
  }

  lemma {:induction false} ExtendsTrans(t: Tables, u: Tables, v: Tables)
    requires Extends(t, u) && Extends(u, v)
    ensures Extends(t, v)
  {
  }

  /** Adding tasks touches only the task rows, and keeps the old ones. */
  lemma {:induction false} WithTasksAppends(t: Tables, m: Id, n: nat)
    requires IdsBelowNext(t)
    ensures var u := WithTasks(t, m, n);
      && IdsBelowNext(u) && Extends(t, u) && u.phases == t.phases && u.milestones == t.milestones
  {
    if n > 0 {
      var before := WithTasks(t, m, n - 1);
      WithTasksAppends(t, m, n - 1);
      assert Extends(before, AddTask(before, m, Todo));
      ExtendsTrans(t, before, AddTask(before, m, Todo));
    }
  }

  lemma {:induction false} TaskIdsBelowNext(t: Tables, m: Id, n: nat)
    requires forall x :: x in t.tasks ==> x < t.next
    ensures forall x :: x in WithTasks(t, m, n).tasks ==> x < WithTasks(t, m, n).next
  {
    if n > 0 { TaskIdsBelowNext(t, m, n - 1); }
  }

  lemma {:induction false} WithTasksSize(t: Tables, m: Id, n: nat)
    requires forall x :: x in t.tasks ==> x < t.next
    ensures |WithTasks(t, m, n).tasks| == |t.tasks| + n
  {
    if n > 0 {
      WithTasksSize(t, m, n - 1);
      TaskIdsBelowNext(t, m, n - 1);
    }
  }

  lemma {:induction false} WithTasksStructure(t: Tables, m: Id, n: nat)
    requires Structured(t) && m in t.milestones
    ensures Structured(WithTasks(t, m, n)) && WithTasks(t, m, n).milestones == t.milestones
  {
    if n > 0 {
      WithTasksStructure(t, m, n - 1);
      AddTaskStructure(WithTasks(t, m, n - 1), m, Todo);
    }
  }

  lemma {:induction false} WithTasksProgress(t: Tables, m: Id, n: nat)
    requires ProgressIsCurrent(t) && m in t.milestones
    requires forall x :: x in t.tasks ==> x < t.next
    requires t.milestones[m].progress == 0 && DoneOf(t.tasks, m) == {}
    ensures ProgressIsCurrent(WithTasks(t, m, n)) && DoneOf(WithTasks(t, m, n).tasks, m) == {}
    ensures WithTasks(t, m, n).milestones == t.milestones
  {
    if n > 0 {
      WithTasksProgress(t, m, n - 1);
      TaskIdsBelowNext(t, m, n - 1);
      AddUndoneTaskProgress(WithTasks(t, m, n - 1), m);
    }
  }

  function TotalTasks(specs: seq<MilestoneSpec>): nat {
    if specs == [] then 0 else TotalTasks(specs[..|specs| - 1]) + specs[|specs| - 1].tasks
  }

  lemma {:induction false} NoTasksYet(t: Tables)
    requires WellFormed(t)
    ensures DoneOf(t.tasks, t.next) == {}
  {
  }

  lemma {:induction false} WithMilestoneKeeps(t: Tables, p: Id, today: int, spec: MilestoneSpec)
    requires Sound(t) && p in t.phases
    ensures Sound(WithMilestone(t, p, today, spec))
  {
    AddMilestoneKeeps(t, p, Some(today + 7 * spec.dueWeek), Todo);
    var u := AddMilestone(t, p, Some(today + 7 * spec.dueWeek), Todo);
    NoTasksYet(t);
    WithTasksStructure(u, t.next, spec.tasks);
    WithTasksProgress(u, t.next, spec.tasks);
  }

  lemma {:induction false} WithMilestoneAppends(t: Tables, p: Id, today: int, spec: MilestoneSpec)
    requires IdsBelowNext(t)
    ensures var u := WithMilestone(t, p, today, spec);
      && IdsBelowNext(u) && Extends(t, u) && u.phases == t.phases
      && u.milestones.Keys == t.milestones.Keys + {t.next}
  {
    var u := AddMilestone(t, p, Some(today + 7 * spec.dueWeek), Todo);
    assert Extends(t, u);
    WithTasksAppends(u, t.next, spec.tasks);
    ExtendsTrans(t, u, WithTasks(u, t.next, spec.tasks));
  }

  lemma {:induction false} WithMilestonesKeeps(t: Tables, p: Id, today: int, specs: seq<MilestoneSpec>)
    requires Sound(t) && p in t.phases
    ensures Sound(WithMilestones(t, p, today, specs))
    ensures WithMilestones(t, p, today, specs).phases == t.phases
  {
    if specs != [] {
      var before := WithMilestones(t, p, today, specs[..|specs| - 1]);
      WithMilestonesKeeps(t, p, today, specs[..|specs| - 1]);
      WithMilestoneKeeps(before, p, today, specs[|specs| - 1]);
      TasksKeepRest(AddMilestone(before, p, Some(today + 7 * specs[|specs| - 1].dueWeek), Todo),
                    before.next, specs[|specs| - 1].tasks);
    }
  }

  lemma {:induction false} WithMilestonesAppends(t: Tables, p: Id, today: int, specs: seq<MilestoneSpec>)
    requires IdsBelowNext(t)
    ensures var u := WithMilestones(t, p, today, specs);
      && IdsBelowNext(u) && Extends(t, u) && u.phases == t.phases
  {
    if specs != [] {
      WithMilestonesAppends(t, p, today, specs[..|specs| - 1]);
      WithMilestoneAppends(WithMilestones(t, p, today, specs[..|specs| - 1]), p, today,
                           specs[|specs| - 1]);
    }
  }

  function TotalMilestones(tmpl: Template): nat {
    if tmpl == [] then 0 else TotalMilestones(tmpl[..|tmpl| - 1]) + |tmpl[|tmpl| - 1]|
  }

  function TotalTemplateTasks(tmpl: Template): nat {
    if tmpl == [] then 0
    else TotalTemplateTasks(tmpl[..|tmpl| - 1]) + TotalTasks(tmpl[|tmpl| - 1])
  }

  lemma NewKeyCounts<V>(a: map<Id, V>, k: Id, v: V)
    requires k !in a
    ensures |a[k := v]| == |a| + 1
  {
    var b := a[k := v];
    assert b.Keys == a.Keys + {k};
    assert |a.Keys| == |a| && |b.Keys| == |b|;
  }

  lemma {:induction false} OneMoreMilestone(t: Tables, p: Id, today: int, spec: MilestoneSpec)
    requires t.next !in t.milestones
    ensures |WithMilestone(t, p, today, spec).milestones| == |t.milestones| + 1
  {
    var u := AddMilestone(t, p, Some(today + 7 * spec.dueWeek), Todo);
    TasksKeepRest(u, t.next, spec.tasks);
    NewKeyCounts(t.milestones, t.next, u.milestones[t.next]);
  }

  lemma {:induction false} ItsTasksAdded(t: Tables, p: Id, today: int, spec: MilestoneSpec)
    requires forall x :: x in t.tasks ==> x < t.next
    ensures |WithMilestone(t, p, today, spec).tasks| == |t.tasks| + spec.tasks
  {
    WithTasksSize(AddMilestone(t, p, Some(today + 7 * spec.dueWeek), Todo), t.next, spec.tasks);
  }

  lemma {:induction false} WithMilestonesSizes(t: Tables, p: Id, today: int, specs: seq<MilestoneSpec>)
    requires IdsBelowNext(t)
    ensures var u := WithMilestones(t, p, today, specs);
      && |u.milestones| == |t.milestones| + |specs|
      && |u.tasks| == |t.tasks| + TotalTasks(specs)
  {
    if specs != [] {
      var before := WithMilestones(t, p, today, specs[..|specs| - 1]);
      WithMilestonesSizes(t, p, today, specs[..|specs| - 1]);
      assert IdsBelowNext(before) by { WithMilestonesAppends(t, p, today, specs[..|specs| - 1]); }
      OneMoreMilestone(before, p, today, specs[|specs| - 1]);
      ItsTasksAdded(before, p, today, specs[|specs| - 1]);
    }
  }

  /** Laying a template onto a roadmap only appends: every old row survives untouched,
      and exactly the template's phases, milestones and tasks are added. */
  lemma {:induction false} TemplateOnlyAppends(t: Tables, r: Id, today: int, tmpl: Template)
    requires IdsBelowNext(t)
    ensures var u := WithPhases(t, r, today, tmpl);
      && IdsBelowNext(u) && Extends(t, u)
      && |u.phases| == |t.phases| + |tmpl|
      && |u.milestones| == |t.milestones| + TotalMilestones(tmpl)
      && |u.tasks| == |t.tasks| + TotalTemplateTasks(tmpl)
  {
    if tmpl != [] {
      TemplateOnlyAppends(t, r, today, tmpl[..|tmpl| - 1]);
      var before := WithPhases(t, r, today, tmpl[..|tmpl| - 1]);
      WithMilestonesAppends(AddPhase(before, r), before.next, today, tmpl[|tmpl| - 1]);
      WithMilestonesSizes(AddPhase(before, r), before.next, today, tmpl[|tmpl| - 1]);
    }
  }

  /** Milestone m stands as a template says: due that day, nothing begun, so many tasks to do. */
  ghost predicate IsLaidOut(t: Tables, m: Id, r: Id, day: int, n: nat) {
    && m in t.milestones && t.milestones[m].phase in t.phases && t.phases[t.milestones[m].phase].roadmap == r
    && t.milestones[m].due == Some(day) && t.milestones[m].status == Todo && t.milestones[m].progress == 0
    && |set x | x in t.tasks && t.tasks[x].milestone == m| == n
    && forall x :: x in t.tasks && t.tasks[x].milestone == m ==> t.tasks[x].status == Todo
  }

  /** u keeps what t has, and gives tasks only to milestones that are new too. */
  ghost predicate AddsBeyond(t: Tables, u: Tables) {
    Extends(t, u) && forall x :: x in u.tasks && x !in t.tasks ==> u.tasks[x].milestone >= t.next
  }

  lemma LaidOutStays(t: Tables, u: Tables, m: Id, r: Id, day: int, n: nat)
    requires IsLaidOut(t, m, r, day, n) && AddsBeyond(t, u) && m < t.next
    ensures IsLaidOut(u, m, r, day, n)
  {
    assert TasksOf(u.tasks, m) == TasksOf(t.tasks, m);
    assert TasksOf(t.tasks, m) == set x | x in t.tasks && t.tasks[x].milestone == m;
    assert TasksOf(u.tasks, m) == set x | x in u.tasks && u.tasks[x].milestone == m;
  }

  lemma OneMoreOfItsTasks(t: Tables, m: Id)
    requires t.next !in t.tasks
    ensures |TasksOf(AddTask(t, m, Todo).tasks, m)| == |TasksOf(t.tasks, m)| + 1
  {
    assert TasksOf(AddTask(t, m, Todo).tasks, m) == TasksOf(t.tasks, m) + {t.next};
  }

  lemma {:induction false} ItsTasksAreTodo(t: Tables, m: Id, n: nat)
    requires IdsBelowNext(t) && TasksOf(t.tasks, m) == {}
    ensures |TasksOf(WithTasks(t, m, n).tasks, m)| == n
    ensures forall x :: x in WithTasks(t, m, n).tasks && x !in t.tasks ==> WithTasks(t, m, n).tasks[x] == Task(m, Todo)
  {
    if n > 0 {
      ItsTasksAreTodo(t, m, n - 1);
      TaskIdsBelowNext(t, m, n - 1);
      OneMoreOfItsTasks(WithTasks(t, m, n - 1), m);
    }
  }

  lemma MilestoneIsLaidOut(t: Tables, r: Id, p: Id, today: int, spec: MilestoneSpec)
    requires WellFormed(t) && OwnsPhase(t, r, p)
    ensures var u := WithMilestone(t, p, today, spec);
      IsLaidOut(u, t.next, r, today + 7 * spec.dueWeek, spec.tasks) && AddsBeyond(t, u) && t.next < u.next
  {
    var begun := AddMilestone(t, p, Some(today + 7 * spec.dueWeek), Todo);
    var u := WithMilestone(t, p, today, spec);
    assert u == WithTasks(begun, t.next, spec.tasks) && TasksOf(begun.tasks, t.next) == {};
    WithMilestoneAppends(t, p, today, spec);
    TasksKeepRest(begun, t.next, spec.tasks);
    ItsTasksAreTodo(begun, t.next, spec.tasks);
    assert TasksOf(u.tasks, t.next) == set x | x in u.tasks && u.tasks[x].milestone == t.next;
  }

  lemma {:induction false} TemplateKeeps(t: Tables, r: Id, today: int, tmpl: Template)
    requires Sound(t)
    ensures Sound(WithPhases(t, r, today, tmpl)) && t.next <= WithPhases(t, r, today, tmpl).next
  {
    if tmpl != [] {
      TemplateKeeps(t, r, today, tmpl[..|tmpl| - 1]);
      var before := WithPhases(t, r, today, tmpl[..|tmpl| - 1]);
      AddPhaseKeeps(before, r);
      WithMilestonesKeeps(AddPhase(before, r), before.next, today, tmpl[|tmpl| - 1]);
      MilestonesGrow(AddPhase(before, r), before.next, today, tmpl[|tmpl| - 1]);
    }
  }

  lemma AddsBeyondTrans(t: Tables, u: Tables, v: Tables)
    requires AddsBeyond(t, u) && AddsBeyond(u, v)
    ensures AddsBeyond(t, v)
  {
    ExtendsTrans(t, u, v);
  }

  lemma {:induction false} SpecsAddBeyond(t: Tables, r: Id, p: Id, today: int, specs: seq<MilestoneSpec>)
    requires Sound(t) && OwnsPhase(t, r, p)
    ensures AddsBeyond(t, WithMilestones(t, p, today, specs))
  {
    if specs != [] {
      var init := specs[..|specs| - 1];
      var before := WithMilestones(t, p, today, init);
      SpecsAddBeyond(t, r, p, today, init);
      WithMilestonesKeeps(t, p, today, init);
      MilestoneIsLaidOut(before, r, p, today, specs[|specs| - 1]);
      AddsBeyondTrans(t, before, WithMilestones(t, p, today, specs));
    }
  }

  lemma {:induction false} SpecIsLaidOut(t: Tables, r: Id, p: Id, today: int, specs: seq<MilestoneSpec>, j: nat)
    returns (m: Id)
    requires Sound(t) && OwnsPhase(t, r, p) && j < |specs|
    ensures var u := WithMilestones(t, p, today, specs);
      t.next <= m < u.next && IsLaidOut(u, m, r, today + 7 * specs[j].dueWeek, specs[j].tasks)
  {
    var init, spec := specs[..|specs| - 1], specs[|specs| - 1];
    var before, u := WithMilestones(t, p, today, init), WithMilestones(t, p, today, specs);
    WithMilestonesKeeps(t, p, today, init);
    SpecsAddBeyond(t, r, p, today, init);
    MilestoneIsLaidOut(before, r, p, today, spec);
    if j < |init| {
      m := SpecIsLaidOut(t, r, p, today, init, j);
      LaidOutStays(before, u, m, r, today + 7 * specs[j].dueWeek, specs[j].tasks);
    } else {
      m := before.next;
    }
  }

  lemma OneMorePhase(t: Tables, r: Id, today: int, specs: seq<MilestoneSpec>)
    requires Sound(t)
    ensures AddsBeyond(t, WithMilestones(AddPhase(t, r), t.next, today, specs))
    ensures Sound(AddPhase(t, r)) && OwnsPhase(AddPhase(t, r), r, t.next)
  {
    AddPhaseKeeps(t, r);
    SpecsAddBeyond(AddPhase(t, r), r, t.next, today, specs);
    AddsBeyondTrans(t, AddPhase(t, r), WithMilestones(AddPhase(t, r), t.next, today, specs));
  }

  /** Laying a template gives every milestone of it a row of its own, due its number of weeks
      from today, with its number of tasks, nothing begun. */
  lemma {:induction false} TemplateIsLaidOut(t: Tables, r: Id, today: int, tmpl: Template, i: nat, j: nat)
    returns (m: Id)
    requires Sound(t) && i < |tmpl| && j < |tmpl[i]|
    ensures var u := WithPhases(t, r, today, tmpl);
      && t.next <= m < u.next && m !in t.milestones
      && IsLaidOut(u, m, r, today + 7 * tmpl[i][j].dueWeek, tmpl[i][j].tasks)
  {
    var init, specs := tmpl[..|tmpl| - 1], tmpl[|tmpl| - 1];
    var before, u := WithPhases(t, r, today, init), WithPhases(t, r, today, tmpl);
    TemplateKeeps(t, r, today, init);
    OneMorePhase(before, r, today, specs);
    assert u == WithMilestones(AddPhase(before, r), before.next, today, specs);
    if i < |init| {
      m := TemplateIsLaidOut(t, r, today, init, i, j);
      LaidOutStays(before, u, m, r, today + 7 * tmpl[i][j].dueWeek, tmpl[i][j].tasks);
    } else {
      m := SpecIsLaidOut(AddPhase(before, r), r, before.next, today, specs, j);
    }
  }

  // Plain syntactic facts, true without the invariants.

  /** Only the roadmap rows or the id supply changed. */
  lemma {:induction false} SameRowsKeep(t: Tables, u: Tables)
    requires Sound(t)
    requires u == t.(roadmaps := u.roadmaps, next := u.next) && t.next <= u.next
    requires forall s :: s in u.roadmaps ==> u.roadmaps[s].id < u.next
    ensures Sound(u)
  {
    forall m | m in t.milestones
      ensures ProgressOf(u, m) == ProgressOf(t, m)
    {
      SameTasksSameProgress(t, u, m);
    }
    SameOwnersKeepDeps(t, u);
  }

  lemma {:induction false} GenerateKeeps(t: Tables, startup: Id, today: int, tmpl: Template)
    requires Sound(t)
    ensures Sound(Generated(t, startup, today, tmpl))
  {
    if startup !in t.roadmaps {
      var claimed := t.(roadmaps := t.roadmaps[startup := Roadmap(t.next, [])], next := t.next + 1);
      SameRowsKeep(t, claimed);
      TemplateKeeps(claimed, t.next, today, tmpl);
      assert Generated(t, startup, today, tmpl) == WithPhases(claimed, t.next, today, tmpl);
    }
  }

  lemma {:induction false} ApplyTemplateKeeps(t: Tables, startup: Id, key: Id, today: int, tmpl: Template)
    requires Sound(t) && startup in t.roadmaps
    ensures Sound(TemplateApplied(t, startup, key, today, tmpl))
  {
    var row := t.roadmaps[startup];
    if key !in row.applied {
      TemplateKeeps(t, row.id, today, tmpl);
      SameRowsKeep(WithPhases(t, row.id, today, tmpl), TemplateApplied(t, startup, key, today, tmpl));
    }
  }

  // Deletions.

  lemma {:induction false} RemoveTasksKeeps(t: Tables, gone: set<Id>)
    requires Structured(t)
    ensures Structured(RemoveTasks(t, gone))
  {
    var u := RemoveTasks(t, gone);
    FewerEdgesStayAcyclic(u.deps, t.deps);
    SameOwnersKeepDeps(t, u);
  }

  lemma {:induction false} DeleteTaskKeeps(t: Tables, x: Id)
    requires Sound(t) && x in t.tasks
    ensures Sound(Recomputed(RemoveTasks(t, {x}), t.tasks[x].milestone))
  {
    var m := t.tasks[x].milestone;
    var u := RemoveTasks(t, {x});
    RemoveTasksKeeps(t, {x});
    RecomputedStructure(u, m);
    forall k | k in u.milestones && k != m
      ensures TasksOf(t.tasks, k) == TasksOf(u.tasks, k) && DoneOf(t.tasks, k) == DoneOf(u.tasks, k)
    {
    }
    RecomputeRestores(t, u, m);
  }

  lemma {:induction false} RemoveMilestonesKeeps(t: Tables, gone: set<Id>)
    requires Sound(t)
    ensures Sound(RemoveMilestones(t, gone))
  {
    var xs := set x | x in t.tasks && t.tasks[x].milestone in gone;
    var u := RemoveMilestones(t, gone);
    RemoveTasksKeeps(t, xs);
    forall m | m in u.milestones
      ensures ProgressOf(u, m) == ProgressOf(t, m)
    {
      assert TasksOf(t.tasks, m) == TasksOf(u.tasks, m);
      assert DoneOf(t.tasks, m) == DoneOf(u.tasks, m);
    }
    SameOwnersKeepDeps(RemoveTasks(t, xs), u);
  }

  lemma {:induction false} RemoveEmptyPhaseKeeps(t: Tables, p: Id)
    requires Sound(t) && forall m :: m in t.milestones ==> t.milestones[m].phase != p
    ensures Sound(t.(phases := t.phases - {p}))
  {
    var u := t.(phases := t.phases - {p});
    forall m | m in u.milestones
      ensures ProgressOf(u, m) == ProgressOf(t, m)
    {
      SameTasksSameProgress(t, u, m);
    }
    SameOwnersKeepDeps(t, u);
  }

  lemma {:induction false} RemovePhaseKeeps(t: Tables, p: Id)
    requires Sound(t)
    ensures Sound(RemovePhase(t, p))
  {
    var ms := set m | m in t.milestones && t.milestones[m].phase == p;
    RemoveMilestonesKeeps(t, ms);
    RemoveEmptyPhaseKeeps(RemoveMilestones(t, ms), p);
  }

  // Updates.

  lemma {:induction false} UpdateMilestoneKeeps(t: Tables, m: Id, newDue: Option<Option<int>>,
                                                newStatus: Option<Status>)
    requires Sound(t) && m in t.milestones
    ensures Sound(MilestoneUpdated(t, m, newDue, newStatus))
  {
    var row := t.milestones[m];
    var edited := row.(due := if newDue.Some? then newDue.value else row.due,
                       status := StatusOr(newStatus, row.status));
    var u := t.(milestones := t.milestones[m := edited]);
    SameOwnersKeepDeps(t, u);
    RecomputedStructure(u, m);
    RecomputeRestores(t, u, m);
  }

  lemma {:induction false} UpdateTaskKeeps(t: Tables, x: Id, newStatus: Option<Status>)
    requires Sound(t) && x in t.tasks
    ensures Sound(TaskUpdated(t, x, newStatus))
  {
    var row := t.tasks[x];
    var m := row.milestone;
    var u := t.(tasks := t.tasks[x := row.(status := StatusOr(newStatus, row.status))]);
    SameOwnersKeepDeps(t, u);
    RecomputedStructure(u, m);
    forall k | k in u.milestones && k != m
      ensures TasksOf(t.tasks, k) == TasksOf(u.tasks, k) && DoneOf(t.tasks, k) == DoneOf(u.tasks, k)
    {
    }
    RecomputeRestores(t, u, m);
  }

  // Dependencies.

  lemma {:induction false} PathStaysInRoadmap(t: Tables, r: Id, p: seq<Id>)
    requires DepsStayInside(t) && IsPath(t.deps, p) && InRoadmap(t, r, p[0])
    ensures IsPath(RoadmapEdges(t, r), p)
  {
    if |p| > 1 {
      PathTail(t.deps, p);
      PathStaysInRoadmap(t, r, p[1..]);
      forall i | 0 <= i < |p| - 1
        ensures Step(RoadmapEdges(t, r), p, i)
      {
        if i > 0 {
          assert Step(RoadmapEdges(t, r), p[1..], i - 1);
        }
      }
    }
  }

  /** Searching only the caller's roadmap loses nothing: from one of its tasks, the
      whole dependency table reaches no more than the roadmap's own rows do. */
  lemma {:induction false} ReachStaysInRoadmap(t: Tables, r: Id, a: Id, b: Id)
    requires DepsStayInside(t) && InRoadmap(t, r, a)
    ensures Reaches(t.deps, a, b) <==> Reaches(RoadmapEdges(t, r), a, b)
  {
    var own := RoadmapEdges(t, r);
    if Reaches(own, a, b) {
      ReachesMono(own, t.deps, a, b);
    }
    if Reaches(t.deps, a, b) {
      var p :| Joins(t.deps, a, b, p);
      PathStaysInRoadmap(t, r, p);
      assert Joins(own, a, b, p);
    }
  }

  lemma {:induction false} DepsChangeKeepsProgress(t: Tables, deps: Edges)
    requires Sound(t)
    ensures WellFormed(t.(deps := deps)) && ProgressIsCurrent(t.(deps := deps))
  {
    var u := t.(deps := deps);
    forall m | m in t.milestones
      ensures ProgressOf(u, m) == ProgressOf(t, m)
    {
      SameTasksSameProgress(t, u, m);
    }
  }

  lemma {:induction false} CreateDependencyKeeps(t: Tables, r: Id, x: Id, on: Id)
    requires Sound(t) && MayDepend(t, r, x, on)
    ensures Sound(t.(deps := t.deps + {(x, on)}))
  {
    var u := t.(deps := t.deps + {(x, on)});
    DepsChangeKeepsProgress(t, u.deps);
    ReachStaysInRoadmap(t, r, on, x);
    NewEdgeClosesLoopIff(t.deps, x, on);
    assert forall k :: RoadmapOf(u, k) == RoadmapOf(t, k);
  }

  lemma {:induction false} DeleteDependencyKeeps(t: Tables, x: Id, on: Id)
    requires Sound(t)
    ensures Sound(t.(deps := t.deps - {(x, on)}))
  {
    var u := t.(deps := t.deps - {(x, on)});
    DepsChangeKeepsProgress(t, u.deps);
    FewerEdgesStayAcyclic(u.deps, t.deps);
    SameOwnersKeepDeps(t, u);
  }

  /** Asking again for a dependency that already exists is never refused as a loop. */
  lemma {:induction false} ReAddingIsNeverALoop(t: Tables, r: Id, x: Id, on: Id)
    requires Sound(t) && (x, on) in t.deps && InRoadmap(t, r, x)
    ensures MayDepend(t, r, x, on)
    ensures Perform(t, CreateDependency(r, x, on)) == t
  {
    ReachStaysInRoadmap(t, r, on, x);
    if x == on { ReachesSelf(t.deps, x); }
    assert t.deps + {(x, on)} == t.deps;
  }

  /** The cycle guard is exact: between two tasks of the caller's roadmap it refuses a
      dependency precisely when storing it would make the whole table cyclic. */
  lemma {:induction false} GuardIsExact(t: Tables, r: Id, x: Id, on: Id)
    requires Sound(t) && InRoadmap(t, r, x) && InRoadmap(t, r, on) && x != on
    ensures MayDepend(t, r, x, on) <==> Acyclic(t.deps + {(x, on)})
  {
    ReachStaysInRoadmap(t, r, on, x);
    NewEdgeClosesLoopIff(t.deps, x, on);
  }

  /** Every editing request keeps the invariants. */
  lemma {:induction false} PerformKeepsSound(t: Tables, a: Action)
    requires Sound(t)
    ensures Sound(Perform(t, a))
  {
    match a
    case Generate(startup, today, tmpl) => GenerateKeeps(t, startup, today, tmpl);
    case ApplyTemplate(startup, key, today, stage, tmpl) =>
      GenerateKeeps(t, startup, today, stage);
      ApplyTemplateKeeps(Generated(t, startup, today, stage), startup, key, today, tmpl);
    case CreatePhase(r) =>
      if exists s :: s in t.roadmaps && t.roadmaps[s].id == r { AddPhaseKeeps(t, r); }
    case DeletePhase(r, p) => RemovePhaseKeeps(t, p);
    case CreateMilestone(r, p, due, initial) =>
      if OwnsPhase(t, r, p) { AddMilestoneKeeps(t, p, due, StatusOr(initial, Todo)); }
    case UpdateMilestone(r, m, newDue, newStatus) =>
      if OwnsMilestone(t, r, m) { UpdateMilestoneKeeps(t, m, newDue, newStatus); }
    case DeleteMilestone(r, m) => RemoveMilestonesKeeps(t, {m});
    case CreateTask(r, m, initial) =>
      if OwnsMilestone(t, r, m) { AddTaskKeeps(t, m, StatusOr(initial, Todo)); }
    case UpdateTask(r, x, newStatus) =>
      if InRoadmap(t, r, x) { UpdateTaskKeeps(t, x, newStatus); }
    case DeleteTask(r, x) =>
      if InRoadmap(t, r, x) { DeleteTaskKeeps(t, x); }
    case CreateDependency(r, x, on) =>
      if MayDepend(t, r, x, on) { CreateDependencyKeeps(t, r, x, on); }
    case DeleteDependency(r, x, on) => DeleteDependencyKeeps(t, x, on);
  }
}
