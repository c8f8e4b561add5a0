/** Daily missions of one startup: lazy generation with carry-over, custom tasks, the
    task actions that can complete a mission, and the streak. A day is its proleptic
    Gregorian ordinal, on which day 1 is a Monday. */
module Missions {
  import opened Basics

  const DEFAULT_MISSION_SIZE: nat := 3
  const STREAK_MILESTONES: set<nat> := {7, 30, 100}

  datatype TaskStatus = Todo | Done | Snoozed | Rejected

  /** What a task is about; custom tasks have no roadmap link. */
  datatype Item = Item(roadmapTask: Option<Id>, title: string)

  datatype MissionTask = MissionTask(item: Item, order: int, status: TaskStatus)
  datatype Mission = Mission(complete: bool, tasks: seq<MissionTask>)
  datatype Settings = Settings(size: nat, weekends: bool)
  datatype Candidate = Candidate(id: Id, title: string)

  type Calendar = map<int, Mission>

  datatype Event =
    | ReasonJob(date: int)
    | TaskCompleted(date: int, task: nat)
    | MissionCompleted(date: int)
    | StreakMilestone(days: nat)

  datatype World = World(missions: Calendar, events: seq<Event>)

  const EMPTY := World(map[], [])

  predicate IsWeekend(day: int) {
    (day + 6) % 7 in {5, 6}
  }

  // ---------------------------------------------------------------- the streak

  predicate IsComplete(missions: Calendar, day: int) {
    day in missions && missions[day].complete
  }

  ghost function DaysUpTo(missions: Calendar, day: int): set<int> {
    set d | d in missions && d <= day
  }

  /** Complete days in a row, counted back from `day`. */
  ghost function RunEndingAt(missions: Calendar, day: int): nat
    decreases DaysUpTo(missions, day)
  {
    if IsComplete(missions, day) then
      assert day in DaysUpTo(missions, day) && day !in DaysUpTo(missions, day - 1);
      1 + RunEndingAt(missions, day - 1)
    else 0
  }

  ghost predicate IsMaximalRun(missions: Calendar, day: int, n: nat) {
    (forall d :: day - n < d <= day ==> IsComplete(missions, d)) && !IsComplete(missions, day - n)
  }

  function Anchor(missions: Calendar, today: int): int {
    if IsComplete(missions, today) then today else today - 1
  }

  ghost function Streak(missions: Calendar, today: int): nat {
    RunEndingAt(missions, Anchor(missions, today))
  }

  /** The counted run is the one maximal run of complete days that ends there. */
  lemma {:induction false} RunIsTheMaximalOne(missions: Calendar, day: int, n: nat)
    ensures IsMaximalRun(missions, day, n) <==> n == RunEndingAt(missions, day)
    decreases DaysUpTo(missions, day)
  {
    if IsComplete(missions, day) {
      assert day in DaysUpTo(missions, day) && day !in DaysUpTo(missions, day - 1);
      if n > 0 {
        RunIsTheMaximalOne(missions, day - 1, n - 1);
        assert IsMaximalRun(missions, day, n) <==> IsMaximalRun(missions, day - 1, n - 1);
      }
    } else {
      assert n > 0 && IsMaximalRun(missions, day, n) ==> IsComplete(missions, day);
    }
  }

  /** Completing today's mission, and nothing else, raises the streak by exactly one. */
  lemma CompletingTodayRaisesTheStreak(missions: Calendar, after: Calendar, today: int)
    requires !IsComplete(missions, today) && IsComplete(after, today)
    requires forall d :: d != today ==> (IsComplete(missions, d) <==> IsComplete(after, d))
    ensures Streak(after, today) == Streak(missions, today) + 1
  {
    var n := Streak(missions, today);
    RunIsTheMaximalOne(missions, today - 1, n);
    assert IsMaximalRun(after, today, n + 1);
    RunIsTheMaximalOne(after, today, n + 1);
  }

  /** Completing one day never shortens the streak, and leaves it as it was exactly when that
      day is neither today nor the day just before the run. */
  lemma CompletingADayKeepsTheStreakIff(missions: Calendar, after: Calendar, date: int, today: int)
    requires !IsComplete(missions, date) && IsComplete(after, date)
    requires forall d :: d != date ==> (IsComplete(missions, d) <==> IsComplete(after, d))
    ensures Streak(after, today) >= Streak(missions, today)
    ensures Streak(after, today) == Streak(missions, today)
      <==> date != today && date != Anchor(missions, today) - Streak(missions, today)
  {
    if date == today {
      CompletingTodayRaisesTheStreak(missions, after, today);
    } else {
      var anchor, n, m := Anchor(missions, today), Streak(missions, today), Streak(after, today);
      RunIsTheMaximalOne(missions, anchor, n);
      RunIsTheMaximalOne(after, anchor, m);
      if date == anchor - n {
        assert m <= n ==> IsComplete(after, anchor - m);
      } else {
        assert IsMaximalRun(after, anchor, n);
        RunIsTheMaximalOne(after, anchor, n);
      }
    }
  }

  // ---------------------------------------------------------------- what to put in a mission

  predicate Carries(items: seq<Item>, id: Id) {
    exists k :: 0 <= k < |items| && items[k].roadmapTask == Some(id)
  }

  /** The candidates that are not carried already, in order. */
  function Fresh(candidates: seq<Candidate>, carried: seq<Item>): seq<Item> {
    if candidates == [] then []
    else
      var c := candidates[|candidates| - 1];
      Fresh(candidates[..|candidates| - 1], carried) +
        if Carries(carried, c.id) then [] else [Item(Some(c.id), c.title)]
  }

  function FirstOf<T>(s: seq<T>, n: nat): seq<T> {
    s[..Min(n, |s|)]
  }

  /** Carried tasks first, then added candidates, `size` in all. */
  function Planned(size: nat, snoozed: seq<Item>, candidates: seq<Candidate>): seq<Item> {
    var carried := FirstOf(snoozed, size);
    carried + FirstOf(Fresh(candidates, carried), size - |carried|)
  }

  ghost predicate DistinctLinks(items: seq<Item>) {
    forall i, j :: 0 <= i < j < |items| && items[i].roadmapTask.Some? ==> items[i].roadmapTask != items[j].roadmapTask
  }

  ghost predicate DistinctIds(candidates: seq<Candidate>) {
    forall i, j :: 0 <= i < j < |candidates| ==> candidates[i].id != candidates[j].id
  }

  lemma {:induction false} FreshIsCandidatesMinusCarried(candidates: seq<Candidate>, carried: seq<Item>)
    requires DistinctIds(candidates)
    ensures DistinctLinks(Fresh(candidates, carried))
    ensures forall k :: 0 <= k < |Fresh(candidates, carried)| ==>
      var it := Fresh(candidates, carried)[k];
      it.roadmapTask.Some? && !Carries(carried, it.roadmapTask.value)
      && Candidate(it.roadmapTask.value, it.title) in candidates
    ensures forall c :: c in candidates && !Carries(carried, c.id) ==>
      Item(Some(c.id), c.title) in Fresh(candidates, carried)
  {
    if candidates != [] {
      var init, last := candidates[..|candidates| - 1], candidates[|candidates| - 1];
      FreshIsCandidatesMinusCarried(init, carried);
      forall c | c in init
        ensures c.id != last.id
      {
        var i :| 0 <= i < |init| && init[i] == c;
        assert candidates[i].id != candidates[|candidates| - 1].id;
      }
      assert candidates == init + [last];
    }
  }

  lemma {:induction false} FreshGrows(candidates: seq<Candidate>, carried: seq<Item>, n: nat)
    requires n <= |candidates|
    ensures Fresh(candidates[..n], carried) <= Fresh(candidates, carried)
  {
    if n < |candidates| {
      var init := candidates[..|candidates| - 1];
      FreshGrows(init, carried, n);
      assert init[..n] == candidates[..n];
    } else {
      assert candidates[..n] == candidates;
    }
  }

  lemma PlanLinksAreDistinct(size: nat, snoozed: seq<Item>, candidates: seq<Candidate>)
    requires DistinctLinks(snoozed) && DistinctIds(candidates)
    ensures DistinctLinks(Planned(size, snoozed, candidates))
  {
    var carried := FirstOf(snoozed, size);
    var added := Fresh(candidates, carried);
    var plan := Planned(size, snoozed, candidates);
    FreshIsCandidatesMinusCarried(candidates, carried);
    forall i, j | 0 <= i < j < |plan| && plan[i].roadmapTask.Some?
      ensures plan[i].roadmapTask != plan[j].roadmapTask
    {
      if i < |carried| <= j {
        assert !Carries(carried, added[j - |carried|].roadmapTask.value);
      }
    }
  }

  lemma CarriedIn(carried: seq<Item>, more: seq<Item>, id: Id)
    requires Carries(carried, id)
    ensures Carries(carried + more, id)
  {
    var k :| 0 <= k < |carried| && carried[k].roadmapTask == Some(id);
    assert (carried + more)[k].roadmapTask == Some(id);
  }

  lemma ShortPlanHasEverything(size: nat, snoozed: seq<Item>, candidates: seq<Candidate>)
    requires DistinctIds(candidates) && |Planned(size, snoozed, candidates)| < size
    ensures snoozed <= Planned(size, snoozed, candidates)
    ensures forall c :: c in candidates ==> Carries(Planned(size, snoozed, candidates), c.id)
  {
    var added := Fresh(candidates, snoozed);
    var plan := Planned(size, snoozed, candidates);
    assert FirstOf(snoozed, size) == snoozed && plan == snoozed + added;
    FreshIsCandidatesMinusCarried(candidates, snoozed);
    forall c | c in candidates
      ensures Carries(plan, c.id)
    {
      if Carries(snoozed, c.id) {
        CarriedIn(snoozed, added, c.id);
      } else {
        var k :| 0 <= k < |added| && added[k] == Item(Some(c.id), c.title);
        assert plan[|snoozed| + k].roadmapTask == Some(c.id);
      }
    }
  }

  /** A generated mission has at most `size` tasks, carried ones first in their old
      order, no roadmap task twice, and falls short only when every snoozed and every
      candidate task is in it. */
  lemma PlanIsFair(size: nat, snoozed: seq<Item>, candidates: seq<Candidate>)
    requires DistinctLinks(snoozed) && DistinctIds(candidates)
    ensures var plan := Planned(size, snoozed, candidates);
      && |plan| <= size
      && FirstOf(snoozed, size) <= plan
      && DistinctLinks(plan)
      && (|plan| < size ==> snoozed <= plan && forall c :: c in candidates ==> Carries(plan, c.id))
  {
    PlanLinksAreDistinct(size, snoozed, candidates);
    if |Planned(size, snoozed, candidates)| < size {
      ShortPlanHasEverything(size, snoozed, candidates);
    }
  }

  lemma FreshKeepsOrder(candidates: seq<Candidate>, carried: seq<Item>, i: nat, j: nat, p: nat) returns (q: nat)
    requires DistinctIds(candidates) && i < j < |candidates| && !Carries(carried, candidates[i].id)
    requires p < |Fresh(candidates, carried)|
    requires Fresh(candidates, carried)[p].roadmapTask == Some(candidates[j].id)
    ensures q < p && Fresh(candidates, carried)[q].roadmapTask == Some(candidates[i].id)
  {
    FreshGrows(candidates, carried, j);
    var early := Fresh(candidates[..j], carried);
    FreshIsCandidatesMinusCarried(candidates[..j], carried);
    assert candidates[..j][i] == candidates[i];
    q :| 0 <= q < |early| && early[q] == Item(Some(candidates[i].id), candidates[i].title);
  }

  /** No candidate is passed over for a later one. */
  lemma NoCandidateIsPassedOver(size: nat, snoozed: seq<Item>, candidates: seq<Candidate>, i: nat, j: nat)
    requires DistinctIds(candidates) && i < j < |candidates|
    requires var carried := FirstOf(snoozed, size);
      !Carries(carried, candidates[j].id) && Carries(Planned(size, snoozed, candidates), candidates[j].id)
    ensures Carries(Planned(size, snoozed, candidates), candidates[i].id)
  {
    var carried := FirstOf(snoozed, size);
    var plan, added := Planned(size, snoozed, candidates), Fresh(candidates, carried);
    if Carries(carried, candidates[i].id) {
      var k :| 0 <= k < |carried| && carried[k].roadmapTask == Some(candidates[i].id);
      assert plan[k].roadmapTask == Some(candidates[i].id);
    } else {
      var p :| 0 <= p < |plan| && plan[p].roadmapTask == Some(candidates[j].id);
      assert added[p - |carried|].roadmapTask == Some(candidates[j].id);
      var q := FreshKeepsOrder(candidates, carried, i, j, p - |carried|);
      assert plan[|carried| + q].roadmapTask == Some(candidates[i].id);
    }
  }

  // ---------------------------------------------------------------- steps

  /** The mission before `today`, if any. */
  predicate IsPrior(missions: Calendar, today: int, prior: Option<int>) {
    match prior
    case None => forall d :: d in missions ==> today <= d
    case Some(p) => p in missions && p < today && forall d :: d in missions && d < today ==> d <= p
  }

  /** The snoozed tasks by position, in `order`; equal orders come in any order. */
  predicate IsListing(tasks: seq<MissionTask>, listing: seq<nat>) {
    && (forall k :: 0 <= k < |listing| ==> listing[k] < |tasks| && tasks[listing[k]].status == Snoozed)
    && (forall j, k :: 0 <= j < k < |listing| ==>
          listing[j] != listing[k] && tasks[listing[j]].order <= tasks[listing[k]].order)
    && (forall i :: 0 <= i < |tasks| && tasks[i].status == Snoozed ==> i in listing)
  }

  function TasksOf(missions: Calendar, prior: Option<int>): seq<MissionTask> {
    if prior.Some? && prior.value in missions then missions[prior.value].tasks else []
  }

  function Listed(tasks: seq<MissionTask>, listing: seq<nat>): seq<Item>
    requires IsListing(tasks, listing)
  {
    seq(|listing|, k requires 0 <= k < |listing| => tasks[listing[k]].item)
  }

  function NewTasks(items: seq<Item>): seq<MissionTask> {
    seq(|items|, k requires 0 <= k < |items| => MissionTask(items[k], k, Todo))
  }

  function SizeOf(settings: Option<Settings>): nat {
    if settings.Some? then settings.value.size else DEFAULT_MISSION_SIZE
  }

  predicate IsDayOff(today: int, settings: Option<Settings>) {
    IsWeekend(today) && !(settings.Some? && settings.value.weekends)
  }

  /** Everything generation reads besides the missions themselves. */
  datatype Source = Source(roadmap: Option<seq<Candidate>>, settings: Option<Settings>,
                           prior: Option<int>, listing: seq<nat>)

  ghost predicate Readable(missions: Calendar, today: int, src: Source) {
    && IsPrior(missions, today, src.prior) && IsListing(TasksOf(missions, src.prior), src.listing)
    && (src.roadmap.Some? ==> DistinctIds(src.roadmap.value))
  }

  ghost function Opened(w: World, today: int, src: Source): World
    requires Readable(w.missions, today, src)
  {
    if today in w.missions || src.roadmap.None? then w
    else if IsDayOff(today, src.settings) then w.(missions := w.missions[today := Mission(false, [])])
    else
      var snoozed := Listed(TasksOf(w.missions, src.prior), src.listing);
      var items := Planned(SizeOf(src.settings), snoozed, src.roadmap.value);
      World(w.missions[today := Mission(false, NewTasks(items))],
            w.events + if items == [] then [] else [ReasonJob(today)])
  }

  /** One more than the largest order, zero in an empty mission. */
  function NextOrder(tasks: seq<MissionTask>): (n: int)
    ensures forall t :: t in tasks ==> t.order < n
    ensures tasks == [] ==> n == 0
    ensures tasks != [] ==> exists t :: t in tasks && n == t.order + 1
  {
    if tasks == [] then 0
    else
      var last := tasks[|tasks| - 1];
      assert last in tasks;
      if |tasks| == 1 then last.order + 1
      else Max(NextOrder(tasks[..|tasks| - 1]), last.order + 1)
  }

  ghost function WithCustom(missions: Calendar, today: int, title: string): Calendar {
    var tasks := TasksOf(missions, Some(today));
    var m := if today in missions then missions[today] else Mission(false, []);
    missions[today := m.(tasks := tasks + [MissionTask(Item(None, title), NextOrder(tasks), Todo)])]
  }

  /** Nothing open, and something actually done. */
  ghost predicate Finished(tasks: seq<MissionTask>) {
    && (forall k :: 0 <= k < |tasks| ==> tasks[k].status == Done || tasks[k].status == Rejected)
    && exists k :: 0 <= k < |tasks| && tasks[k].status == Done
  }

  ghost function MilestoneEvents(days: nat): seq<Event> {
    if days in STREAK_MILESTONES then [StreakMilestone(days)] else []
  }

  /** Complete the mission if its last open task is gone. */
  ghost function Settled(w: World, date: int, today: int): World
    requires date in w.missions
  {
    var m := w.missions[date];
    if m.complete || !Finished(m.tasks) then w
    else
      var missions := w.missions[date := m.(complete := true)];
      World(missions, w.events + [MissionCompleted(date)] + MilestoneEvents(Streak(missions, today)))
  }

  function WithTask(missions: Calendar, date: int, i: nat, t: MissionTask): Calendar
    requires date in missions && i < |missions[date].tasks|
  {
    missions[date := missions[date].(tasks := missions[date].tasks[i := t])]
  }

  datatype Step =
    | Open(today: int, src: Source)
    | AddCustom(today: int, src: Source, title: string)
    | CompleteTask(today: int, date: int, i: nat)
    | RejectTask(today: int, date: int, i: nat)
    | SnoozeTask(date: int, i: nat)
    | ReorderTask(date: int, i: nat, order: int)

  predicate HasTask(w: World, date: int, i: nat) {
    date in w.missions && i < |w.missions[date].tasks|
  }

  ghost predicate Enabled(w: World, s: Step) {
    match s
    case Open(today, src) => Readable(w.missions, today, src)
    case AddCustom(today, src, _) => Readable(w.missions, today, src)
    case CompleteTask(_, date, i) => HasTask(w, date, i)
    case RejectTask(_, date, i) => HasTask(w, date, i)
    case SnoozeTask(date, i) => HasTask(w, date, i)
    case ReorderTask(date, i, _) => HasTask(w, date, i)
  }

  ghost function Apply(w: World, s: Step): World
    requires Enabled(w, s)
  {
    match s
    case Open(today, src) => Opened(w, today, src)
    case AddCustom(today, src, title) =>
      var started := Opened(w, today, src);
      started.(missions := WithCustom(started.missions, today, title))
    case CompleteTask(today, date, i) =>
      var t := w.missions[date].tasks[i];
      if t.status == Done then w
      else Settled(World(WithTask(w.missions, date, i, t.(status := Done)),
                         w.events + [TaskCompleted(date, i)]), date, today)
    case RejectTask(today, date, i) =>
      var t := w.missions[date].tasks[i];
      Settled(w.(missions := WithTask(w.missions, date, i, t.(status := Rejected))), date, today)
    case SnoozeTask(date, i) =>
      var t := w.missions[date].tasks[i];
      w.(missions := WithTask(w.missions, date, i, t.(status := Snoozed)))
    case ReorderTask(date, i, order) =>
      var t := w.missions[date].tasks[i];
      w.(missions := WithTask(w.missions, date, i, t.(order := order)))
  }

  ghost predicate IsRun(worlds: seq<World>, steps: seq<Step>) {
    && |worlds| == |steps| + 1 && worlds[0] == EMPTY
    && forall i :: 0 <= i < |steps| ==> Enabled(worlds[i], steps[i]) && worlds[i + 1] == Apply(worlds[i], steps[i])
  }

  // ---------------------------------------------------------------- the invariant

  function ItemsOf(tasks: seq<MissionTask>): seq<Item> {
    seq(|tasks|, k requires 0 <= k < |tasks| => tasks[k].item)
  }

  /** No roadmap task twice; and nothing finished is left pending. */
  ghost predicate SoundMission(m: Mission) {
    DistinctLinks(ItemsOf(m.tasks)) && (Finished(m.tasks) ==> m.complete)
  }

  ghost predicate SoundMissions(missions: Calendar) {
    forall d :: d in missions ==> SoundMission(missions[d])
  }

  ghost predicate PublishedOnce(w: World) {
    forall d :: multiset(w.events)[MissionCompleted(d)] == if IsComplete(w.missions, d) then 1 else 0
  }

  ghost predicate Sound(w: World) {
    SoundMissions(w.missions) && PublishedOnce(w)
  }

  lemma ListedLinksAreDistinct(tasks: seq<MissionTask>, listing: seq<nat>)
    requires IsListing(tasks, listing) && DistinctLinks(ItemsOf(tasks))
    ensures DistinctLinks(Listed(tasks, listing))
  {
    var items, all := Listed(tasks, listing), ItemsOf(tasks);
    forall i, j | 0 <= i < j < |items| && items[i].roadmapTask.Some?
      ensures items[i].roadmapTask != items[j].roadmapTask
    {
      assert items[i] == all[listing[i]] && items[j] == all[listing[j]];
    }
  }

  lemma NewMissionKeepsSound(w: World, today: int, m: Mission, more: seq<Event>)
    requires Sound(w) && today !in w.missions && SoundMission(m) && !m.complete
    requires forall e :: e in more ==> e.ReasonJob?
    ensures Sound(World(w.missions[today := m], w.events + more))
  {
    forall d
      ensures multiset(w.events + more)[MissionCompleted(d)] == multiset(w.events)[MissionCompleted(d)]
    {
      assert MissionCompleted(d) !in more;
    }
  }

  lemma NewTasksAreSound(items: seq<Item>)
    requires DistinctLinks(items)
    ensures SoundMission(Mission(false, NewTasks(items)))
  {
    assert ItemsOf(NewTasks(items)) == items;
  }

  lemma PlannedLinksAreDistinct(w: World, today: int, src: Source)
    requires Sound(w) && Readable(w.missions, today, src) && src.roadmap.Some?
    ensures var snoozed := Listed(TasksOf(w.missions, src.prior), src.listing);
      DistinctLinks(Planned(SizeOf(src.settings), snoozed, src.roadmap.value))
  {
    var tasks := TasksOf(w.missions, src.prior);
    ListedLinksAreDistinct(tasks, src.listing);
    PlanLinksAreDistinct(SizeOf(src.settings), Listed(tasks, src.listing), src.roadmap.value);
  }

  lemma OpenKeepsSound(w: World, today: int, src: Source)
    requires Sound(w) && Readable(w.missions, today, src)
    ensures Sound(Opened(w, today, src))
  {
    if today !in w.missions && src.roadmap.Some? {
      if IsDayOff(today, src.settings) {
        NewMissionKeepsSound(w, today, Mission(false, []), []);
        assert w.events + [] == w.events;
      } else {
        var snoozed := Listed(TasksOf(w.missions, src.prior), src.listing);
        var items := Planned(SizeOf(src.settings), snoozed, src.roadmap.value);
        PlannedLinksAreDistinct(w, today, src);
        NewTasksAreSound(items);
        NewMissionKeepsSound(w, today, Mission(false, NewTasks(items)), if items == [] then [] else [ReasonJob(today)]);
      }
    }
  }

  lemma CustomKeepsSound(w: World, today: int, title: string)
    requires Sound(w)
    ensures Sound(w.(missions := WithCustom(w.missions, today, title)))
  {
    var missions := WithCustom(w.missions, today, title);
    var tasks := TasksOf(w.missions, Some(today));
    var more := missions[today].tasks;
    assert more[|tasks|].status == Todo;
    assert ItemsOf(more) == ItemsOf(tasks) + [Item(None, title)];
  }

  /** Everything is sound except that the mission of `date` may be due for completion. */
  ghost predicate AlmostSound(w: World, date: int) {
    && date in w.missions && PublishedOnce(w)
    && (forall d :: d in w.missions && d != date ==> SoundMission(w.missions[d]))
    && DistinctLinks(ItemsOf(w.missions[date].tasks))
  }

  lemma SettlingRestores(w: World, date: int, today: int)
    requires AlmostSound(w, date)
    ensures Sound(Settled(w, date, today))
    ensures date in Settled(w, date, today).missions
  {
    var w' := Settled(w, date, today);
    forall d
      ensures multiset(w'.events)[MissionCompleted(d)] == if IsComplete(w'.missions, d) then 1 else 0
    {
      assert multiset(w.events)[MissionCompleted(d)] == if IsComplete(w.missions, d) then 1 else 0;
    }
  }

  lemma StatusChangeIsAlmostSound(w: World, date: int, i: nat, t: MissionTask, more: seq<Event>)
    requires Sound(w) && HasTask(w, date, i) && t.item == w.missions[date].tasks[i].item
    requires forall e :: e in more ==> e.TaskCompleted?
    ensures AlmostSound(World(WithTask(w.missions, date, i, t), w.events + more), date)
  {
    var tasks := w.missions[date].tasks;
    assert ItemsOf(tasks[i := t]) == ItemsOf(tasks);
    forall d
      ensures multiset(w.events + more)[MissionCompleted(d)] == multiset(w.events)[MissionCompleted(d)]
    {
      assert MissionCompleted(d) !in more;
    }
  }

  /** Neither snoozing nor moving a task can leave a finished mission pending. */
  lemma PlainChangeKeepsSound(w: World, date: int, i: nat, t: MissionTask)
    requires Sound(w) && HasTask(w, date, i) && t.item == w.missions[date].tasks[i].item
    requires t.status == Snoozed || t.status == w.missions[date].tasks[i].status
    ensures Sound(w.(missions := WithTask(w.missions, date, i, t)))
  {
    StatusChangeIsAlmostSound(w, date, i, t, []);
    assert w.events + [] == w.events;
    var before, after := w.missions[date].tasks, w.missions[date].tasks[i := t];
    if Finished(after) {
      assert after[i] == t;
      forall k | 0 <= k < |before|
        ensures before[k].status == after[k].status
      {
      }
      assert Finished(before) by {
        var k :| 0 <= k < |after| && after[k].status == Done;
        assert before[k].status == Done;
      }
    }
  }

  lemma StepKeepsSound(w: World, s: Step)
    requires Sound(w) && Enabled(w, s)
    ensures Sound(Apply(w, s))
  {
    match s
    case Open(today, src) => OpenKeepsSound(w, today, src);
    case AddCustom(today, src, title) =>
      OpenKeepsSound(w, today, src);
      CustomKeepsSound(Opened(w, today, src), today, title);
    case CompleteTask(today, date, i) =>
      var t := w.missions[date].tasks[i].(status := Done);
      if w.missions[date].tasks[i].status != Done {
        StatusChangeIsAlmostSound(w, date, i, t, [TaskCompleted(date, i)]);
        SettlingRestores(World(WithTask(w.missions, date, i, t), w.events + [TaskCompleted(date, i)]), date, today);
      }
    case RejectTask(today, date, i) =>
      var t := w.missions[date].tasks[i].(status := Rejected);
      StatusChangeIsAlmostSound(w, date, i, t, []);
      assert w.events + [] == w.events;
      SettlingRestores(World(WithTask(w.missions, date, i, t), w.events), date, today);
    case SnoozeTask(date, i) =>
      PlainChangeKeepsSound(w, date, i, w.missions[date].tasks[i].(status := Snoozed));
    case ReorderTask(date, i, order) =>
      PlainChangeKeepsSound(w, date, i, w.missions[date].tasks[i].(order := order));
  }

  lemma {:induction false} RunIsSound(worlds: seq<World>, steps: seq<Step>, n: nat)
    requires IsRun(worlds, steps) && n <= |steps|
    ensures Sound(worlds[n])
  {
    if n > 0 {
      RunIsSound(worlds, steps, n - 1);
      StepKeepsSound(worlds[n - 1], steps[n - 1]);
    }
  }

  // ---------------------------------------------------------------- theorems

  /** Over any run, no mission links the same roadmap task twice, every finished mission
      is marked complete, and `mission.completed` was published exactly once for each
      complete mission and never for another. */
  lemma MissionsStaySound(worlds: seq<World>, steps: seq<Step>, n: nat, d: int)
    requires IsRun(worlds, steps) && n <= |steps|
    ensures var w := worlds[n];
      && (d in w.missions ==>
            && DistinctLinks(ItemsOf(w.missions[d].tasks))
            && (Finished(w.missions[d].tasks) ==> w.missions[d].complete))
      && multiset(w.events)[MissionCompleted(d)] == if IsComplete(w.missions, d) then 1 else 0
  {
    RunIsSound(worlds, steps, n);
    if d in worlds[n].missions {
      assert SoundMission(worlds[n].missions[d]);
    }
  }

  /** On a day that generates: at most `size` open tasks, ordered 0, 1, 2 and so on, what
      was snoozed last time first; short only when nothing snoozed and no candidate is
      left out. */
  lemma GeneratedMissionIsFair(worlds: seq<World>, steps: seq<Step>, n: nat, today: int, src: Source)
    requires IsRun(worlds, steps) && n < |steps| && steps[n] == Open(today, src)
    requires Enabled(worlds[n], steps[n])
    requires today !in worlds[n].missions && src.roadmap.Some? && !IsDayOff(today, src.settings)
    ensures today in worlds[n + 1].missions
    ensures var size := SizeOf(src.settings);
      var tasks, items := worlds[n + 1].missions[today].tasks, ItemsOf(worlds[n + 1].missions[today].tasks);
      var snoozed := Listed(TasksOf(worlds[n].missions, src.prior), src.listing);
      && |tasks| <= size
      && (forall k :: 0 <= k < |tasks| ==> tasks[k].order == k && tasks[k].status == Todo)
      && FirstOf(snoozed, size) <= items && DistinctLinks(items)
      && (|tasks| < size ==> snoozed <= items && forall c :: c in src.roadmap.value ==> Carries(items, c.id))
  {
    RunIsSound(worlds, steps, n);
    var tasks := TasksOf(worlds[n].missions, src.prior);
    ListedLinksAreDistinct(tasks, src.listing);
    var snoozed := Listed(tasks, src.listing);
    PlanIsFair(SizeOf(src.settings), snoozed, src.roadmap.value);
    var plan := Planned(SizeOf(src.settings), snoozed, src.roadmap.value);
    assert ItemsOf(NewTasks(plan)) == plan;
    assert worlds[n + 1] == Apply(worlds[n], steps[n]);
  }

  lemma StepFinishes(w: World, s: Step, d: int)
    requires Enabled(w, s) && !IsComplete(w.missions, d) && IsComplete(Apply(w, s).missions, d)
    ensures Finished(Apply(w, s).missions[d].tasks)
  {
  }

  /** A mission becomes complete only in a step that leaves every task done or rejected
      and at least one done, and that step publishes it. */
  lemma CompletionIsEarned(worlds: seq<World>, steps: seq<Step>, n: nat, d: int)
    requires IsRun(worlds, steps) && n < |steps|
    requires IsComplete(worlds[n + 1].missions, d) && !IsComplete(worlds[n].missions, d)
    ensures var tasks := worlds[n + 1].missions[d].tasks;
      && (forall k :: 0 <= k < |tasks| ==> tasks[k].status == Done || tasks[k].status == Rejected)
      && (exists k :: 0 <= k < |tasks| && tasks[k].status == Done)
    ensures MissionCompleted(d) in worlds[n + 1].events && MissionCompleted(d) !in worlds[n].events
  {
    StepFinishes(worlds[n], steps[n], d);
    assert multiset(worlds[n].events)[MissionCompleted(d)] == 0 by { MissionsStaySound(worlds, steps, n, d); }
    assert multiset(worlds[n + 1].events)[MissionCompleted(d)] == 1 by { MissionsStaySound(worlds, steps, n + 1, d); }
  }

  /** The i-th task is the only done one. */
  ghost predicate OnlyDone(tasks: seq<MissionTask>, i: nat) {
    && i < |tasks| && tasks[i].status == Done
    && forall k :: 0 <= k < |tasks| && k != i ==> tasks[k].status != Done
  }

  /** The requests after which a finished mission of day d is no longer finished: a custom
      task is added to it, one of its tasks is snoozed, or its only done task rejected. */
  ghost predicate Reopens(w: World, s: Step, d: int)
    requires d in w.missions
  {
    || (s.AddCustom? && s.today == d)
    || (s.SnoozeTask? && s.date == d)
    || (s.RejectTask? && s.date == d && OnlyDone(w.missions[d].tasks, s.i))
  }

  lemma TaskChangeKeepsFinishedIff(tasks: seq<MissionTask>, i: nat, t: MissionTask)
    requires Finished(tasks) && i < |tasks|
    ensures Finished(tasks[i := t])
      <==> t.status == Done || (t.status == Rejected && !OnlyDone(tasks, i))
  {
    var after := tasks[i := t];
    assert after[i] == t;
    if !OnlyDone(tasks, i) {
      var k :| 0 <= k < |tasks| && k != i && tasks[k].status == Done;
      assert after[k].status == Done;
    }
    if t.status != Done && t.status != Rejected {
      assert !Finished(after);
    }
  }

  /** A finished complete mission stays finished in exactly the steps that do not reopen
      it; its completion is never taken back. */
  lemma StaysFinishedIff(w: World, s: Step, d: int)
    requires Enabled(w, s) && IsComplete(w.missions, d) && Finished(w.missions[d].tasks)
    ensures IsComplete(Apply(w, s).missions, d)
    ensures Finished(Apply(w, s).missions[d].tasks) <==> !Reopens(w, s, d)
  {
    var tasks := w.missions[d].tasks;
    match s
    case Open(today, src) =>
    case AddCustom(today, src, title) =>
      if today == d {
        assert Apply(w, s).missions[d].tasks[|tasks|].status == Todo;
      }
    case CompleteTask(today, date, i) =>
      if date == d { TaskChangeKeepsFinishedIff(tasks, i, tasks[i].(status := Done)); }
    case RejectTask(today, date, i) =>
      if date == d { TaskChangeKeepsFinishedIff(tasks, i, tasks[i].(status := Rejected)); }
    case SnoozeTask(date, i) =>
      if date == d { TaskChangeKeepsFinishedIff(tasks, i, tasks[i].(status := Snoozed)); }
    case ReorderTask(date, i, order) =>
      if date == d { TaskChangeKeepsFinishedIff(tasks, i, tasks[i].(order := order)); }
  }

  const NO_ROADMAP := Source(None, None, None, [])

  lemma RunGrows(worlds: seq<World>, steps: seq<Step>, s: Step)
    requires IsRun(worlds, steps) && Enabled(worlds[|steps|], s)
    ensures IsRun(worlds + [Apply(worlds[|steps|], s)], steps + [s])
  {
    var more, longer := worlds + [Apply(worlds[|steps|], s)], steps + [s];
    forall i | 0 <= i < |longer|
      ensures Enabled(more[i], longer[i]) && more[i + 1] == Apply(more[i], longer[i])
    {
      assert more[i] == worlds[i];
      if i < |steps| { assert more[i + 1] == worlds[i + 1] && longer[i] == steps[i]; }
    }
  }

  ghost predicate HasOneOpenTask(w: World, d: int) {
    w.missions.Keys == {d} && |w.missions[d].tasks| == 1 && w.missions[d].tasks[0].status == Todo
    && !w.missions[d].complete
  }

  lemma NothingToRead(d: int)
    ensures Readable(EMPTY.missions, d, NO_ROADMAP)
  {
  }

  lemma CustomTaskAlone(d: int, title: string)
    ensures var missions := WithCustom(map[], d, title);
      && missions.Keys == {d} && !missions[d].complete
      && |missions[d].tasks| == 1 && missions[d].tasks[0].status == Todo
  {
  }

  lemma FirstCustomTask(d: int)
    ensures Enabled(EMPTY, AddCustom(d, NO_ROADMAP, "first"))
    ensures HasOneOpenTask(Apply(EMPTY, AddCustom(d, NO_ROADMAP, "first")), d)
  {
    NothingToRead(d);
    CustomTaskAlone(d, "first");
  }

  lemma FirstTaskIsDone(w: World, d: int)
    requires HasOneOpenTask(w, d)
    ensures Enabled(w, CompleteTask(d, d, 0))
    ensures var w' := Apply(w, CompleteTask(d, d, 0));
      w'.missions.Keys == {d} && IsComplete(w'.missions, d) && Finished(w'.missions[d].tasks)
  {
    var tasks := w.missions[d].tasks;
    var after := tasks[0 := tasks[0].(status := Done)];
    assert after[0].status == Done;
    assert Finished(after);
  }

  lemma SecondTaskReopens(w: World, d: int)
    requires w.missions.Keys == {d} && IsComplete(w.missions, d) && Finished(w.missions[d].tasks)
    ensures Enabled(w, AddCustom(d, NO_ROADMAP, "second"))
    ensures var w' := Apply(w, AddCustom(d, NO_ROADMAP, "second"));
      IsComplete(w'.missions, d) && !Finished(w'.missions[d].tasks)
  {
    assert IsPrior(w.missions, d, None);
    StaysFinishedIff(w, AddCustom(d, NO_ROADMAP, "second"), d);
  }

  lemma OneTaskAdded(d: int) returns (worlds: seq<World>, steps: seq<Step>)
    ensures IsRun(worlds, steps) && |steps| == 1 && HasOneOpenTask(worlds[1], d)
  {
    var first := AddCustom(d, NO_ROADMAP, "first");
    FirstCustomTask(d);
    RunGrows([EMPTY], [], first);
    worlds, steps := [EMPTY] + [Apply(EMPTY, first)], [] + [first];
  }

  lemma OneTaskRun(d: int) returns (worlds: seq<World>, steps: seq<Step>)
    ensures IsRun(worlds, steps) && |steps| == 2
    ensures var w := worlds[2];
      w.missions.Keys == {d} && IsComplete(w.missions, d) && Finished(w.missions[d].tasks)
  {
    worlds, steps := OneTaskAdded(d);
    var done := CompleteTask(d, d, 0);
    FirstTaskIsDone(worlds[1], d);
    RunGrows(worlds, steps, done);
    worlds, steps := worlds + [Apply(worlds[1], done)], steps + [done];
  }

  /** So complete does not mean nothing open: one custom task, done, completes the mission
      of any day d, and a second one leaves it complete with an open task. */
  lemma CompleteMissionReopens(d: int) returns (worlds: seq<World>, steps: seq<Step>)
    ensures IsRun(worlds, steps) && |steps| == 3
    ensures IsComplete(worlds[2].missions, d) && Finished(worlds[2].missions[d].tasks)
    ensures IsComplete(worlds[3].missions, d) && !Finished(worlds[3].missions[d].tasks)
  {
    worlds, steps := OneTaskRun(d);
    SecondTaskReopens(worlds[2], d);
    RunGrows(worlds, steps, AddCustom(d, NO_ROADMAP, "second"));
    worlds := worlds + [Apply(worlds[2], AddCustom(d, NO_ROADMAP, "second"))];
    steps := steps + [AddCustom(d, NO_ROADMAP, "second")];
  }

  /** No run takes a completion back or drops a mission. */
  lemma {:induction false} CompleteIsForever(worlds: seq<World>, steps: seq<Step>, m: nat, n: nat, d: int)
    requires IsRun(worlds, steps) && m <= n <= |steps|
    ensures worlds[m].missions.Keys <= worlds[n].missions.Keys
    ensures IsComplete(worlds[m].missions, d) ==> IsComplete(worlds[n].missions, d)
  {
    if m < n {
      CompleteIsForever(worlds, steps, m, n - 1, d);
      assert Enabled(worlds[n - 1], steps[n - 1]) && worlds[n] == Apply(worlds[n - 1], steps[n - 1]);
    }
  }

  /** Whenever a step completes today's mission, the streak is one longer than before. */
  lemma CompletingTodayAddsOneDay(worlds: seq<World>, steps: seq<Step>, n: nat, today: int)
    requires IsRun(worlds, steps) && n < |steps|
    requires !IsComplete(worlds[n].missions, today) && IsComplete(worlds[n + 1].missions, today)
    ensures Streak(worlds[n + 1].missions, today) == Streak(worlds[n].missions, today) + 1
  {
    var before, after := worlds[n].missions, worlds[n + 1].missions;
    assert Enabled(worlds[n], steps[n]) && worlds[n + 1] == Apply(worlds[n], steps[n]);
    forall d | d != today
      ensures IsComplete(before, d) <==> IsComplete(after, d)
    {
    }
    CompletingTodayRaisesTheStreak(before, after, today);
  }

  /** The step publishes that the streak is n days long. */
  ghost predicate Announces(w: World, s: Step, n: nat)
    requires Enabled(w, s)
  {
    |w.events| <= |Apply(w, s).events| && StreakMilestone(n) in Apply(w, s).events[|w.events|..]
  }

  ghost predicate Completes(w: World, s: Step, date: int)
    requires Enabled(w, s)
  {
    !IsComplete(w.missions, date) && IsComplete(Apply(w, s).missions, date)
  }

  /** A completing step announces exactly the milestone the streak now stands at. That streak
      was there before the step, so that the announcement is no crossing, exactly when the
      completed day is neither today nor the day just before the run. */
  lemma AnnouncedWithoutCrossingIff(w: World, s: Step, date: int, n: nat)
    requires Enabled(w, s) && (s.CompleteTask? || s.RejectTask?) && Completes(w, s, date)
    ensures Announces(w, s, n) <==> n in {7, 30, 100} && n == Streak(Apply(w, s).missions, s.today)
    ensures var before := Streak(w.missions, s.today);
      Streak(Apply(w, s).missions, s.today) == before
      <==> date != s.today && date != Anchor(w.missions, s.today) - before
  {
    var w' := Apply(w, s);
    forall d | d != date
      ensures IsComplete(w.missions, d) <==> IsComplete(w'.missions, d)
    {
    }
    CompletingADayKeepsTheStreakIff(w.missions, w'.missions, date, s.today);
    var own := if s.CompleteTask? then [TaskCompleted(s.date, s.i)] else [];
    var told := MilestoneEvents(Streak(w'.missions, s.today));
    assert w.events + [] == w.events;
    assert w'.events == w.events + (own + [MissionCompleted(date)] + told);
    assert w'.events[|w.events|..] == own + [MissionCompleted(date)] + told;
  }

  ghost predicate HasOneTask(w: World, d: int, status: TaskStatus) {
    d in w.missions && |w.missions[d].tasks| == 1 && w.missions[d].tasks[0].status == status
  }

  /** Day 0 was left open; k days from day 2 on are complete; there is nothing else. */
  ghost predicate StreakAfterGap(w: World, k: nat) {
    && (forall d :: d in w.missions <==> d == 0 || 2 <= d < 2 + k)
    && HasOneTask(w, 0, Todo) && !w.missions[0].complete
    && forall d :: 2 <= d < 2 + k ==> HasOneTask(w, d, Done) && w.missions[d].complete
  }

  /** What generation reads on the next day: the last day, which has nothing snoozed. */
  function NextSource(k: nat): Source {
    Source(None, None, Some(if k == 0 then 0 else 1 + k), [])
  }

  lemma NextDayOpens(w: World, k: nat) returns (w': World)
    requires StreakAfterGap(w, k)
    ensures Enabled(w, AddCustom(2 + k, NextSource(k), "")) && w' == Apply(w, AddCustom(2 + k, NextSource(k), ""))
    ensures w'.missions == w.missions[2 + k := w'.missions[2 + k]]
    ensures HasOneTask(w', 2 + k, Todo) && !w'.missions[2 + k].complete
  {
    assert HasOneTask(w, NextSource(k).prior.value, if k == 0 then Todo else Done);
    w' := Apply(w, AddCustom(2 + k, NextSource(k), ""));
  }

  /** Doing the only task of a day completes it. */
  lemma OnlyTaskDone(w: World, today: int, d: int) returns (w': World)
    requires HasOneTask(w, d, Todo) && !w.missions[d].complete
    ensures Enabled(w, CompleteTask(today, d, 0)) && w' == Apply(w, CompleteTask(today, d, 0))
    ensures w'.missions == w.missions[d := w'.missions[d]]
    ensures HasOneTask(w', d, Done) && w'.missions[d].complete
  {
    var done := w.missions[d].tasks[0 := w.missions[d].tasks[0].(status := Done)];
    assert done[0].status == Done;
    assert Finished(done);
    w' := Apply(w, CompleteTask(today, d, 0));
  }

  lemma StreakIsLong(w: World, k: nat)
    requires StreakAfterGap(w, k) && k > 0
    ensures Streak(w.missions, 1 + k) == k
  {
    assert HasOneTask(w, 1 + k, Done);
    assert IsMaximalRun(w.missions, 1 + k, k);
    RunIsTheMaximalOne(w.missions, 1 + k, k);
  }

  /** The day after: a custom task, done at once. */
  lemma NextDayIsDone(w: World, k: nat) returns (begun: World, done: World)
    requires StreakAfterGap(w, k)
    ensures Enabled(w, AddCustom(2 + k, NextSource(k), "")) && begun == Apply(w, AddCustom(2 + k, NextSource(k), ""))
    ensures Enabled(begun, CompleteTask(2 + k, 2 + k, 0)) && done == Apply(begun, CompleteTask(2 + k, 2 + k, 0))
    ensures Completes(begun, CompleteTask(2 + k, 2 + k, 0), 2 + k) && StreakAfterGap(done, k + 1)
  {
    begun := NextDayOpens(w, k);
    done := OnlyTaskDone(begun, 2 + k, 2 + k);
  }

  ghost predicate EndsWith(worlds: seq<World>, steps: seq<Step>, day: int)
    requires IsRun(worlds, steps)
  {
    var k := |steps| - 1;
    k >= 0 && steps[k] == CompleteTask(day, day, 0) && Completes(worlds[k], steps[k], day)
  }

  lemma OneMoreStep(worlds: seq<World>, steps: seq<Step>, s: Step, w: World)
    returns (more: seq<World>, longer: seq<Step>)
    requires IsRun(worlds, steps) && Enabled(worlds[|steps|], s) && w == Apply(worlds[|steps|], s)
    ensures IsRun(more, longer) && more[|longer|] == w
    ensures |longer| == |steps| + 1 && longer[|steps|] == s && more[|steps|] == worlds[|steps|]
  {
    RunGrows(worlds, steps, s);
    more, longer := worlds + [w], steps + [s];
  }

  lemma OneMoreDay(worlds: seq<World>, steps: seq<Step>, k: nat) returns (more: seq<World>, longer: seq<Step>)
    requires IsRun(worlds, steps) && StreakAfterGap(worlds[|steps|], k)
    ensures IsRun(more, longer) && StreakAfterGap(more[|longer|], k + 1) && EndsWith(more, longer, 2 + k)
  {
    var begun, done := NextDayIsDone(worlds[|steps|], k);
    var add, do := AddCustom(2 + k, NextSource(k), ""), CompleteTask(2 + k, 2 + k, 0);
    more, longer := OneMoreStep(worlds, steps, add, begun);
    more, longer := OneMoreStep(more, longer, do, done);
  }

  lemma {:induction false} StreakRun(k: nat) returns (worlds: seq<World>, steps: seq<Step>)
    ensures IsRun(worlds, steps) && StreakAfterGap(worlds[|steps|], k)
    ensures k > 0 ==> EndsWith(worlds, steps, 1 + k)
  {
    if k == 0 {
      worlds, steps := OneTaskAdded(0);
    } else {
      worlds, steps := StreakRun(k - 1);
      worlds, steps := OneMoreDay(worlds, steps, k - 1);
    }
  }

  /** So every milestone can be announced twice in a row: once when the streak reaches it, and
      again when a day left open before the streak is finished afterwards. */
  lemma MilestoneAnnouncedTwice(n: nat) returns (worlds: seq<World>, steps: seq<Step>, k: nat)
    requires n in {7, 30, 100}
    ensures IsRun(worlds, steps) && |steps| == k + 2
    ensures Announces(worlds[k], steps[k], n) && Announces(worlds[k + 1], steps[k + 1], n)
  {
    worlds, steps := StreakRun(n);
    k := |steps| - 1;
    var w := worlds[k + 1];
    StreakIsLong(w, n);
    AnnouncedWithoutCrossingIff(worlds[k], steps[k], 1 + n, n);
    var again := CompleteTask(1 + n, 0, 0);
    var late := OnlyTaskDone(w, 1 + n, 0);
    AnnouncedWithoutCrossingIff(w, again, 0, n);
    RunGrows(worlds, steps, again);
    worlds, steps := worlds + [late], steps + [again];
  }

  // ---------------------------------------------------------------- a new day in terms of the rows

  /** Candidate c is among the first `size` snoozed tasks. */
  predicate IsCarried(tasks: seq<MissionTask>, listing: seq<nat>, size: nat, c: Candidate)
    requires IsListing(tasks, listing)
  {
    exists k :: 0 <= k < |listing| && k < size && tasks[listing[k]].item.roadmapTask == Some(c.id)
  }

  /** A day off, a Saturday or Sunday unless the settings say otherwise, gets an empty mission
      and no job. Any other day gets as many tasks as the mission size allows, three without
      settings, out of the snoozed tasks and the candidates that are not carried already; and a
      job to explain them, if there are any. */
  ghost predicate IsNewDay(w: World, today: int, src: Source, w': World)
    requires Readable(w.missions, today, src) && src.roadmap.Some?
  {
    && today in w'.missions && w'.missions == w.missions[today := w'.missions[today]] && !w'.missions[today].complete
    && if (today % 7 == 6 || today % 7 == 0) && !(src.settings.Some? && src.settings.value.weekends) then
         w'.missions[today].tasks == [] && w'.events == w.events
       else
         var size := if src.settings.Some? then src.settings.value.size else 3;
         var left := set c | c in src.roadmap.value && !IsCarried(TasksOf(w.missions, src.prior), src.listing, size, c);
         && |w'.missions[today].tasks| == Min(size, |src.listing| + |left|)
         && w'.events == w.events + if w'.missions[today].tasks == [] then [] else [ReasonJob(today)]
  }

  lemma LastIsNew(candidates: seq<Candidate>)
    requires DistinctIds(candidates) && candidates != []
    ensures var init, last := candidates[..|candidates| - 1], candidates[|candidates| - 1];
      last !in init && forall c :: c in candidates <==> c in init || c == last
  {
    assert candidates == candidates[..|candidates| - 1] + [candidates[|candidates| - 1]];
  }

  lemma {:induction false} FreshCount(candidates: seq<Candidate>, carried: seq<Item>)
    requires DistinctIds(candidates)
    ensures |Fresh(candidates, carried)| == |set c | c in candidates && !Carries(carried, c.id)|
  {
    var kept := set c | c in candidates && !Carries(carried, c.id);
    if candidates == [] {
      assert kept == {};
    } else {
      var init, last := candidates[..|candidates| - 1], candidates[|candidates| - 1];
      FreshCount(init, carried);
      var before := set c | c in init && !Carries(carried, c.id);
      LastIsNew(candidates);
      if Carries(carried, last.id) {
        assert kept == before;
      } else {
        assert kept == before + {last};
      }
    }
  }

  lemma CarriedMeans(tasks: seq<MissionTask>, listing: seq<nat>, size: nat, c: Candidate)
    requires IsListing(tasks, listing)
    ensures Carries(FirstOf(Listed(tasks, listing), size), c.id) <==> IsCarried(tasks, listing, size, c)
  {
    var carried := FirstOf(Listed(tasks, listing), size);
    assert forall k :: 0 <= k < |carried| ==> carried[k] == tasks[listing[k]].item;
    if IsCarried(tasks, listing, size, c) {
      var k :| 0 <= k < |listing| && k < size && tasks[listing[k]].item.roadmapTask == Some(c.id);
      assert carried[k].roadmapTask == Some(c.id);
    }
  }

  lemma PlannedCount(tasks: seq<MissionTask>, listing: seq<nat>, size: nat, candidates: seq<Candidate>)
    requires IsListing(tasks, listing) && DistinctIds(candidates)
    ensures |Planned(size, Listed(tasks, listing), candidates)|
      == Min(size, |listing| + |set c | c in candidates && !IsCarried(tasks, listing, size, c)|)
  {
    var carried := FirstOf(Listed(tasks, listing), size);
    FreshCount(candidates, carried);
    forall c: Candidate
      ensures Carries(carried, c.id) <==> IsCarried(tasks, listing, size, c)
    {
      CarriedMeans(tasks, listing, size, c);
    }
    assert (set c | c in candidates && !Carries(carried, c.id))
      == set c | c in candidates && !IsCarried(tasks, listing, size, c);
  }

  lemma WeekendIs(day: int)
    ensures IsWeekend(day) <==> day % 7 == 6 || day % 7 == 0
  {
  }

  lemma OpenedIsNewDay(w: World, today: int, src: Source)
    requires Readable(w.missions, today, src)
    ensures today !in w.missions && src.roadmap.Some? ==> IsNewDay(w, today, src, Apply(w, Open(today, src)))
  {
    if today !in w.missions && src.roadmap.Some? {
      WeekendIs(today);
      PlannedCount(TasksOf(w.missions, src.prior), src.listing, SizeOf(src.settings), src.roadmap.value);
    }
  }

  // ---------------------------------------------------------------- the service

  /** Everything but task i of one day is as before. */
  ghost predicate OnlyTaskChanged(w: World, w': World, date: int, i: nat) {
    && w'.events == w.events && w'.missions.Keys == w.missions.Keys && HasTask(w, date, i) && HasTask(w', date, i)
    && (forall d :: d in w.missions && d != date ==> w'.missions[d] == w.missions[d])
    && w'.missions[date].complete == w.missions[date].complete
    && |w'.missions[date].tasks| == |w.missions[date].tasks|
    && forall k :: 0 <= k < |w.missions[date].tasks| && k != i ==>
         w'.missions[date].tasks[k] == w.missions[date].tasks[k]
  }

  class MissionStore {
    var missions: Calendar
    var events: seq<Event>

    ghost function View(): World
      reads this
    {
      World(missions, events)
    }

    constructor ()
      ensures View() == EMPTY
    {
      missions, events := map[], [];
    }

    method MostRecentPrior(today: int) returns (prior: Option<int>)
      ensures IsPrior(missions, today, prior)
      ensures prior.None? ==> forall d :: d in missions ==> d >= today
      ensures prior.Some? ==>
        prior.value in missions && prior.value < today && forall d :: d in missions && d < today ==> d <= prior.value
    {
      prior := None;
      var days := missions.Keys;
      while exists d :: d in days
        invariant days <= missions.Keys
        invariant prior.Some? ==> prior.value in missions && prior.value < today
        invariant forall d :: d in missions && d !in days && d < today ==> prior.Some? && d <= prior.value
        decreases |days|
      {
        var d :| d in days;
        days := days - {d};
        if d < today && (prior.None? || prior.value < d) {
          prior := Some(d);
        }
      }
    }

    static method CarryOver(tasks: seq<MissionTask>, listing: seq<nat>, size: nat) returns (items: seq<Item>)
      requires IsListing(tasks, listing)
      ensures items == FirstOf(Listed(tasks, listing), size)
    {
      items := [];
      for k := 0 to |listing|
        invariant |items| == k <= size
        invariant items == Listed(tasks, listing)[..k]
      {
        if |items| >= size {
          break;
        }
        items := items + [tasks[listing[k]].item];
      }
    }

    static method FillUp(carried: seq<Item>, candidates: seq<Candidate>, size: nat) returns (items: seq<Item>)
      requires |carried| <= size
      ensures items == carried + FirstOf(Fresh(candidates, carried), size - |carried|)
    {
      items := carried;
      var k := 0;
      while k < |candidates|
        invariant k <= |candidates| && |items| <= size
        invariant items == carried + Fresh(candidates[..k], carried)
      {
        if |items| >= size {
          break;
        }
        assert candidates[..k + 1][..k] == candidates[..k];
        var c := candidates[k];
        if !Carries(carried, c.id) {
          items := items + [Item(Some(c.id), c.title)];
        }
        k := k + 1;
      }
      FreshGrows(candidates, carried, k);
      assert candidates[..|candidates|] == candidates;
    }

    /** Start today's mission unless it exists: carry what was snoozed last time, fill
        up with candidates. `listing` is the snoozed tasks of the prior mission as the
        ordered query returned them. */
    method GetOrGenerateToday(today: int, src: Source) returns (found: bool)
      requires Readable(missions, today, src)
      modifies this
      ensures View() == Apply(old(View()), Open(today, src))
      ensures found <==> today in missions
      ensures found <==> today in old(missions) || src.roadmap.Some?
      ensures today in old(missions) || src.roadmap.None? ==> View() == old(View())
      ensures today !in old(missions) && src.roadmap.Some? ==> IsNewDay(old(View()), today, src, View())
    {
      OpenedIsNewDay(View(), today, src);
      if today in missions {
        return true;
      }
      if src.roadmap.None? {
        return false;
      }
      found := true;
      if IsDayOff(today, src.settings) {
        missions := missions[today := Mission(false, [])];
        return;
      }
      var size := SizeOf(src.settings);
      var carried := CarryOver(TasksOf(missions, src.prior), src.listing, size);
      var items := FillUp(carried, src.roadmap.value, size);
      missions := missions[today := Mission(false, NewTasks(items))];
      if |items| > 0 {
        events := events + [ReasonJob(today)];
      } else {
        assert old(events) + [] == events;
      }
    }

    /** Count back from today, or from yesterday while today is not complete. */
    method CountStreak(today: int) returns (count: nat)
      ensures IsMaximalRun(missions, Anchor(missions, today), count)
      ensures count == Streak(missions, today)
      ensures var last := if today in missions && missions[today].complete then today else today - 1;
        && (forall d :: last - count < d <= last ==> d in missions && missions[d].complete)
        && !(last - count in missions && missions[last - count].complete)
    {
      var anchor := Anchor(missions, today);
      var cursor := anchor;
      count := 0;
      while cursor in missions && missions[cursor].complete
        invariant cursor == anchor - count
        invariant forall d :: anchor - count < d <= anchor ==> IsComplete(missions, d)
        decreases DaysUpTo(missions, cursor)
      {
        assert cursor in DaysUpTo(missions, cursor) && cursor !in DaysUpTo(missions, cursor - 1);
        count := count + 1;
        cursor := cursor - 1;
      }
      RunIsTheMaximalOne(missions, anchor, count);
      forall d | anchor - count < d <= anchor
        ensures d in missions && missions[d].complete
      {
        assert IsComplete(missions, d);
      }
    }

    /** The endpoint: without a roadmap the caller's own task still starts a mission. */
    method AddCustomTask(today: int, src: Source, title: string)
      requires Readable(missions, today, src)
      modifies this
      ensures View() == Apply(old(View()), AddCustom(today, src, title))
      ensures today in missions && missions[today].tasks != []
      ensures var tasks := missions[today].tasks;
        var last := tasks[|tasks| - 1];
        && last.item == Item(None, title) && last.status == Todo
        && (forall k :: 0 <= k < |tasks| - 1 ==> tasks[k].order < last.order)
        && (today in old(missions) ==> tasks[..|tasks| - 1] == old(missions)[today].tasks)
    {
      var found := GetOrGenerateToday(today, src);
      if !found {
        missions := missions[today := Mission(false, [])];
      }
      var m := missions[today];
      missions := missions[today := m.(tasks := m.tasks + [MissionTask(Item(None, title), NextOrder(m.tasks), Todo)])];
    }

    method MaybeComplete(date: int, today: int)
      requires date in missions
      modifies this
      ensures View() == Settled(old(View()), date, today)
      ensures missions == old(missions)[date := old(missions)[date].(complete := missions[date].complete)]
      ensures var tasks := old(missions)[date].tasks;
        missions[date].complete <==>
          || old(missions)[date].complete
          || ((forall k :: 0 <= k < |tasks| ==> tasks[k].status == Done || tasks[k].status == Rejected)
              && exists k :: 0 <= k < |tasks| && tasks[k].status == Done)
      ensures events == old(events) +
        if missions[date].complete && !old(missions)[date].complete then
          [MissionCompleted(date)] +
            if Streak(missions, today) in {7, 30, 100} then [StreakMilestone(Streak(missions, today))] else []
        else []
    {
      var m := missions[date];
      if m.complete {
        return;
      }
      var remaining, done := 0, 0;
      for k := 0 to |m.tasks|
        invariant remaining == 0 <==>
          forall j :: 0 <= j < k ==> m.tasks[j].status == Done || m.tasks[j].status == Rejected
        invariant done == 0 <==> forall j :: 0 <= j < k ==> m.tasks[j].status != Done
        invariant remaining >= 0 && done >= 0
      {
        if m.tasks[k].status != Done && m.tasks[k].status != Rejected { remaining := remaining + 1; }
        if m.tasks[k].status == Done { done := done + 1; }
      }
      if remaining != 0 || done == 0 {
        return;
      }
      missions := missions[date := m.(complete := true)];
      events := events + [MissionCompleted(date)];
      var days := CountStreak(today);
      if days in STREAK_MILESTONES {
        events := events + [StreakMilestone(days)];
      } else {
        assert events + [] == events;
      }
    }

    method Complete(today: int, date: int, i: nat)
      requires HasTask(View(), date, i)
      modifies this
      ensures View() == Apply(old(View()), CompleteTask(today, date, i))
      ensures missions == old(missions)[date := missions[date]]
      ensures missions[date].tasks == old(missions)[date].tasks[i := old(missions)[date].tasks[i].(status := Done)]
      ensures old(missions)[date].tasks[i].status == Done ==> View() == old(View())
    {
      var m := missions[date];
      if m.tasks[i].status == Done {
        return;
      }
      missions := missions[date := m.(tasks := m.tasks[i := m.tasks[i].(status := Done)])];
      events := events + [TaskCompleted(date, i)];
      MaybeComplete(date, today);
    }

    method Reject(today: int, date: int, i: nat)
      requires HasTask(View(), date, i)
      modifies this
      ensures View() == Apply(old(View()), RejectTask(today, date, i))
      ensures missions == old(missions)[date := missions[date]]
      ensures missions[date].tasks == old(missions)[date].tasks[i := old(missions)[date].tasks[i].(status := Rejected)]
    {
      var m := missions[date];
      missions := missions[date := m.(tasks := m.tasks[i := m.tasks[i].(status := Rejected)])];
      MaybeComplete(date, today);
    }

    method Snooze(date: int, i: nat)
      requires HasTask(View(), date, i)
      modifies this
      ensures View() == Apply(old(View()), SnoozeTask(date, i))
      ensures OnlyTaskChanged(old(View()), View(), date, i)
      ensures missions[date].tasks[i] == old(missions)[date].tasks[i].(status := Snoozed)
    {
      var m := missions[date];
      missions := missions[date := m.(tasks := m.tasks[i := m.tasks[i].(status := Snoozed)])];
    }

    method Reorder(date: int, i: nat, order: int)
      requires HasTask(View(), date, i)
      modifies this
      ensures View() == Apply(old(View()), ReorderTask(date, i, order))
      ensures OnlyTaskChanged(old(View()), View(), date, i)
      ensures missions[date].tasks[i] == old(missions)[date].tasks[i].(order := order)
    {
      var m := missions[date];
      missions := missions[date := m.(tasks := m.tasks[i := m.tasks[i].(order := order)])];
    }
  }
}
