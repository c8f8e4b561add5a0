/** The scheduler tick: detectors, the once-per-period ledger, and many workers ticking
    at once. */
module Scheduler {
  import opened Basics

  datatype Task = MissionGenerate | RoadmapOverdue | AssessmentQuarterly
  datatype Period = Day(date: int) | Once | Quarter(year: int, quarter: int)

  /** A ledger row: this task fired for this scope in this period. */
  datatype Key = Key(task: Task, scope: Id, period: Period)

  /** Work found due: the ledger key, and the startup the job is for. */
  datatype Due = Due(key: Key, startup: Id)

  type Ledger = set<Key>

  // ---------------------------------------------------------------- detectors

  /** What the detectors read besides the ledger. */
  datatype Facts = Facts(
    hour: int, genHour: int, today: int, year: int, month: int,
    activeStartups: seq<Id>,
    overdueMilestones: seq<(Id, Id)>,
    reassessStartups: seq<Id>, inProgress: set<Id>)

  function QuarterOf(f: Facts): Period {
    Quarter(f.year, (f.month - 1) / 3 + 1)
  }

  /** The items not yet in the ledger, in order. */
  function Unclaimed(due: seq<Due>, ledger: Ledger): seq<Due> {
    if due == [] then []
    else
      Unclaimed(due[..|due| - 1], ledger) +
        if due[|due| - 1].key in ledger then [] else [due[|due| - 1]]
  }

  function MissionItems(f: Facts): seq<Due> {
    if f.hour < f.genHour then []
    else
      seq(|f.activeStartups|, i requires 0 <= i < |f.activeStartups| =>
        Due(Key(MissionGenerate, f.activeStartups[i], Day(f.today)), f.activeStartups[i]))
  }

  function OverdueItems(f: Facts): seq<Due> {
    seq(|f.overdueMilestones|, i requires 0 <= i < |f.overdueMilestones| =>
      Due(Key(RoadmapOverdue, f.overdueMilestones[i].0, Once), f.overdueMilestones[i].1))
  }

  function NotInProgress(ids: seq<Id>, inProgress: set<Id>): seq<Id> {
    if ids == [] then []
    else
      NotInProgress(ids[..|ids| - 1], inProgress) +
        if ids[|ids| - 1] in inProgress then [] else [ids[|ids| - 1]]
  }

  function QuarterlyItems(f: Facts): seq<Due> {
    var ids := NotInProgress(f.reassessStartups, f.inProgress);
    seq(|ids|, i requires 0 <= i < |ids| => Due(Key(AssessmentQuarterly, ids[i], QuarterOf(f)), ids[i]))
  }

  /** Everything due, without looking at the ledger. */
  function AllItems(f: Facts): seq<Due> {
    MissionItems(f) + OverdueItems(f) + QuarterlyItems(f)
  }

  /** What the three detectors return: each leaves out what its own ledger read shows as
      already claimed. */
  function Detected(f: Facts, forMissions: Ledger, forOverdue: Ledger, forQuarterly: Ledger): seq<Due> {
    Unclaimed(MissionItems(f), forMissions) + Unclaimed(OverdueItems(f), forOverdue)
      + Unclaimed(QuarterlyItems(f), forQuarterly)
  }

  lemma NotInProgressMeans(ids: seq<Id>, inProgress: set<Id>, x: Id)
    ensures x in NotInProgress(ids, inProgress) <==> x in ids && x !in inProgress
  {
    if ids != [] {
      NotInProgressMeans(ids[..|ids| - 1], inProgress, x);
      assert ids == ids[..|ids| - 1] + [ids[|ids| - 1]];
    }
  }

  lemma MissionsDue(f: Facts, item: Due)
    ensures item in MissionItems(f) <==>
      && f.hour >= f.genHour && item.startup in f.activeStartups
      && item.key == Key(MissionGenerate, item.startup, Day(f.today))
  {
    if f.hour >= f.genHour && item.startup in f.activeStartups {
      var i :| 0 <= i < |f.activeStartups| && f.activeStartups[i] == item.startup;
      assert MissionItems(f)[i] == Due(Key(MissionGenerate, item.startup, Day(f.today)), item.startup);
    }
  }

  lemma OverdueDue(f: Facts, item: Due)
    ensures item in OverdueItems(f) <==>
      && item.key.task == RoadmapOverdue && item.key.period == Once
      && (item.key.scope, item.startup) in f.overdueMilestones
  {
    if (item.key.scope, item.startup) in f.overdueMilestones {
      var i :| 0 <= i < |f.overdueMilestones| && f.overdueMilestones[i] == (item.key.scope, item.startup);
      assert OverdueItems(f)[i] == Due(Key(RoadmapOverdue, item.key.scope, Once), item.startup);
    }
  }

  lemma QuarterlyDue(f: Facts, item: Due)
    ensures item in QuarterlyItems(f) <==>
      && item.startup in f.reassessStartups && item.startup !in f.inProgress
      && item.key.task == AssessmentQuarterly && item.key.scope == item.startup && item.key.period.Quarter?
      && item.key.period.year == f.year
      && 3 * (item.key.period.quarter - 1) < f.month <= 3 * item.key.period.quarter
  {
    var ids := NotInProgress(f.reassessStartups, f.inProgress);
    NotInProgressMeans(f.reassessStartups, f.inProgress, item.startup);
    if item.startup in ids {
      var i :| 0 <= i < |ids| && ids[i] == item.startup;
      assert QuarterlyItems(f)[i] == Due(Key(AssessmentQuarterly, item.startup, QuarterOf(f)), item.startup);
    }
  }

  /** What is due: from the generation hour on, today's mission of each active startup; each
      overdue milestone once for all; and, for each startup due for reassessment with none in
      progress, one assessment in the quarter the month lies in. */
  lemma DueExactly(f: Facts, item: Due)
    ensures item in AllItems(f) <==>
      || (f.hour >= f.genHour && item.startup in f.activeStartups
          && item.key == Key(MissionGenerate, item.startup, Day(f.today)))
      || (item.key.task == RoadmapOverdue && item.key.period == Once
          && (item.key.scope, item.startup) in f.overdueMilestones)
      || (item.startup in f.reassessStartups && item.startup !in f.inProgress
          && item.key.task == AssessmentQuarterly && item.key.scope == item.startup && item.key.period.Quarter?
          && item.key.period.year == f.year
          && 3 * (item.key.period.quarter - 1) < f.month <= 3 * item.key.period.quarter)
  {
    var m, o, q := MissionItems(f), OverdueItems(f), QuarterlyItems(f);
    assert item in AllItems(f) <==> item in m || item in o || item in q;
    MissionsDue(f, item);
    OverdueDue(f, item);
    QuarterlyDue(f, item);
  }

  // ---------------------------------------------------------------- one tick alone

  datatype TickResult = TickResult(ledger: Ledger, jobs: seq<Due>, enqueued: nat)

  /** Claim and enqueue in order. `failing` are the items whose enqueue raises: their
      claim stands, but they add no job and are not counted. */
  function Tick(ledger: Ledger, jobs: seq<Due>, due: seq<Due>, failing: set<Due>): TickResult {
    if due == [] then TickResult(ledger, jobs, 0)
    else
      var before := Tick(ledger, jobs, due[..|due| - 1], failing);
      var item := due[|due| - 1];
      if item.key in before.ledger then before
      else if item in failing then before.(ledger := before.ledger + {item.key})
      else TickResult(before.ledger + {item.key}, before.jobs + [item], before.enqueued + 1)
  }

  lemma {:induction false} TickOnlyAdds(ledger: Ledger, jobs: seq<Due>, due: seq<Due>, failing: set<Due>)
    ensures ledger <= Tick(ledger, jobs, due, failing).ledger
    ensures forall k :: 0 <= k < |due| ==> due[k].key in Tick(ledger, jobs, due, failing).ledger
  {
    if due != [] { TickOnlyAdds(ledger, jobs, due[..|due| - 1], failing); }
  }

  /** A tick claims exactly the keys of what it is given, and enqueues for keys that were not
      claimed before; the count is that of the jobs it added. */
  lemma {:induction false} TickClaimsAll(ledger: Ledger, jobs: seq<Due>, due: seq<Due>, failing: set<Due>)
    ensures var after := Tick(ledger, jobs, due, failing);
      && after.ledger == ledger + (set item | item in due :: item.key)
      && jobs <= after.jobs && after.enqueued == |after.jobs| - |jobs|
      && forall k :: |jobs| <= k < |after.jobs| ==>
           after.jobs[k] in due && after.jobs[k] !in failing && after.jobs[k].key !in ledger
  {
    if due != [] {
      var init, last := due[..|due| - 1], due[|due| - 1];
      TickClaimsAll(ledger, jobs, init, failing);
      assert due == init + [last];
      assert (set item | item in due :: item.key) == (set item | item in init :: item.key) + {last.key};
    }
  }

  /** Filtering out what some earlier ledger read showed as claimed changes nothing: not
      the ledger, not the jobs, not the returned count. */
  lemma {:induction false} PreFilterIsInvisible(ledger: Ledger, jobs: seq<Due>, due: seq<Due>,
                                                failing: set<Due>, read: Ledger)
    requires read <= ledger
    ensures Tick(ledger, jobs, Unclaimed(due, read), failing) == Tick(ledger, jobs, due, failing)
  {
    if due != [] {
      var init, item := due[..|due| - 1], due[|due| - 1];
      PreFilterIsInvisible(ledger, jobs, init, failing, read);
      TickOnlyAdds(ledger, jobs, init, failing);
      if item.key !in read {
        var kept := Unclaimed(init, read);
        assert (kept + [item])[..|kept|] == kept;
      } else {
        assert Unclaimed(due, read) == Unclaimed(init, read);
      }
    }
  }

  /** A tick over a + b is a tick over a followed by one over b. */
  lemma {:induction false} TickConcat(ledger: Ledger, jobs: seq<Due>, a: seq<Due>, b: seq<Due>, failing: set<Due>)
    ensures var first := Tick(ledger, jobs, a, failing);
      var second := Tick(first.ledger, first.jobs, b, failing);
      Tick(ledger, jobs, a + b, failing) == second.(enqueued := first.enqueued + second.enqueued)
  {
    if b == [] {
      assert a + b == a;
    } else {
      TickConcat(ledger, jobs, a, b[..|b| - 1], failing);
      assert (a + b)[..|a + b| - 1] == a + b[..|b| - 1];
    }
  }

  lemma FilterOneMore(ledger: Ledger, jobs: seq<Due>, kept: seq<Due>, all: seq<Due>, more: seq<Due>, read: Ledger,
                      failing: set<Due>)
    requires read <= ledger && Tick(ledger, jobs, kept, failing) == Tick(ledger, jobs, all, failing)
    ensures Tick(ledger, jobs, kept + Unclaimed(more, read), failing) == Tick(ledger, jobs, all + more, failing)
  {
    var first := Tick(ledger, jobs, kept, failing);
    TickConcat(ledger, jobs, kept, Unclaimed(more, read), failing);
    TickConcat(ledger, jobs, all, more, failing);
    TickOnlyAdds(ledger, jobs, kept, failing);
    PreFilterIsInvisible(first.ledger, first.jobs, more, failing, read);
  }

  /** So a tick through the detectors does what a tick over everything due would do, also
      when each detector reads the ledger at a moment of its own. */
  lemma DetectorsMayFilter(f: Facts, ledger: Ledger, jobs: seq<Due>, failing: set<Due>,
                           forMissions: Ledger, forOverdue: Ledger, forQuarterly: Ledger)
    requires forMissions <= ledger && forOverdue <= ledger && forQuarterly <= ledger
    ensures Tick(ledger, jobs, Detected(f, forMissions, forOverdue, forQuarterly), failing)
      == Tick(ledger, jobs, AllItems(f), failing)
  {
    var m, o, q := MissionItems(f), OverdueItems(f), QuarterlyItems(f);
    var m', o', q' := Unclaimed(m, forMissions), Unclaimed(o, forOverdue), Unclaimed(q, forQuarterly);
    FilterOneMore(ledger, jobs, [], [], m, forMissions, failing);
    assert [] + m' == m' && [] + m == m;
    FilterOneMore(ledger, jobs, m', m, o, forOverdue, failing);
    FilterOneMore(ledger, jobs, m' + o', m + o, q, forQuarterly, failing);
  }

  class SchedulerStore {
    var ledger: Ledger
    var jobs: seq<Due>

    /** Insert the ledger row; the unique key refuses a second one. */
    method Claim(key: Key) returns (claimed: bool)
      modifies this`ledger
      ensures claimed <==> key !in old(ledger)
      ensures ledger == old(ledger) + {key}
    {
      claimed := key !in ledger;
      if claimed {
        ledger := ledger + {key};
      }
      assert !claimed ==> ledger + {key} == ledger;
    }

    method SchedulerTick(f: Facts, failing: set<Due>) returns (enqueued: nat)
      modifies this
      ensures TickResult(ledger, jobs, enqueued) == Tick(old(ledger), old(jobs), AllItems(f), failing)
      ensures ledger == old(ledger) + set item | item in AllItems(f) :: item.key
      ensures old(jobs) <= jobs && enqueued == |jobs| - |old(jobs)|
      ensures forall k :: |old(jobs)| <= k < |jobs| ==>
        jobs[k] in AllItems(f) && jobs[k] !in failing && jobs[k].key !in old(ledger)
    {
      var due := Detected(f, ledger, ledger, ledger);
      enqueued := 0;
      for i := 0 to |due|
        invariant TickResult(ledger, jobs, enqueued) == Tick(old(ledger), old(jobs), due[..i], failing)
      {
        assert due[..i + 1][..i] == due[..i];
        var claimed := Claim(due[i].key);
        if claimed && due[i] !in failing {
          jobs := jobs + [due[i]];
          enqueued := enqueued + 1;
        }
      }
      assert due[..|due|] == due;
      DetectorsMayFilter(f, old(ledger), old(jobs), failing, old(ledger), old(ledger), old(ledger));
      TickClaimsAll(old(ledger), old(jobs), AllItems(f), failing);
    }
  }

  // ---------------------------------------------------------------- many workers

  /** An open tick: items left, keys inserted but not yet committed, jobs staged with
      them, and keys whose enqueue failed. */
  datatype Open = Open(todo: seq<Due>, mine: set<Key>, staged: seq<Due>, failed: set<Key>)

  /** Committed rows, the committed keys whose enqueue failed, and the open ticks. */
  datatype World = World(ledger: Ledger, jobs: seq<Due>, failed: set<Key>, ticks: map<Id, Open>)

  datatype Step =
    | Begin(worker: Id, due: seq<Due>)
    | Process(worker: Id, enqueueFails: bool)
    | Commit(worker: Id)
    | Crash(worker: Id)

  const EMPTY := World({}, [], {}, map[])

  /** Another open transaction holds the key: the insert waits for it. */
  predicate Blocked(w: World, worker: Id, key: Key) {
    exists v :: v in w.ticks && v != worker && key in w.ticks[v].mine
  }

  predicate Enabled(w: World, s: Step) {
    match s
    case Begin(worker, _) => worker !in w.ticks
    case Process(worker, _) =>
      worker in w.ticks && w.ticks[worker].todo != [] && !Blocked(w, worker, w.ticks[worker].todo[0].key)
    case Commit(worker) => worker in w.ticks && w.ticks[worker].todo == []
    case Crash(worker) => worker in w.ticks
  }

  function Processed(t: Open, ledger: Ledger, enqueueFails: bool): Open
    requires t.todo != []
  {
    var item, rest := t.todo[0], t.(todo := t.todo[1..]);
    if item.key in ledger || item.key in t.mine then rest
    else if enqueueFails then rest.(mine := t.mine + {item.key}, failed := t.failed + {item.key})
    else rest.(mine := t.mine + {item.key}, staged := t.staged + [item])
  }

  function Apply(w: World, s: Step): World
    requires Enabled(w, s)
  {
    match s
    case Begin(worker, due) => w.(ticks := w.ticks[worker := Open(due, {}, [], {})])
    case Process(worker, enqueueFails) =>
      w.(ticks := w.ticks[worker := Processed(w.ticks[worker], w.ledger, enqueueFails)])
    case Commit(worker) =>
      var t := w.ticks[worker];
      World(w.ledger + t.mine, w.jobs + t.staged, w.failed + t.failed, w.ticks - {worker})
    case Crash(worker) => w.(ticks := w.ticks - {worker})
  }

  ghost predicate Moves(w: World, s: Step, w': World) {
    Enabled(w, s) && w' == Apply(w, s)
  }

  ghost predicate IsPath(worlds: seq<World>, steps: seq<Step>) {
    && |worlds| == |steps| + 1
    && forall i :: 0 <= i < |steps| ==> Moves(worlds[i], steps[i], worlds[i + 1])
  }

  ghost predicate IsRun(worlds: seq<World>, steps: seq<Step>) {
    IsPath(worlds, steps) && worlds[0] == EMPTY
  }

  predicate HasJob(jobs: seq<Due>, k: Key) {
    exists i :: 0 <= i < |jobs| && jobs[i].key == k
  }

  /** One job per key that did not fail, none for a key that did. */
  ghost predicate Accounted(keys: set<Key>, jobs: seq<Due>, failed: set<Key>) {
    && (forall i, j :: 0 <= i < j < |jobs| ==> jobs[i].key != jobs[j].key)
    && failed <= keys
    && (forall i :: 0 <= i < |jobs| ==> jobs[i].key in keys && jobs[i].key !in failed)
    && (forall k {:trigger HasJob(jobs, k)} :: k in keys && k !in failed ==> HasJob(jobs, k))
  }

  ghost predicate OncePerKey(w: World) {
    && Accounted(w.ledger, w.jobs, w.failed)
    && (forall v :: v in w.ticks ==>
          Accounted(w.ticks[v].mine, w.ticks[v].staged, w.ticks[v].failed) && w.ticks[v].mine !! w.ledger)
    && (forall u, v :: u in w.ticks && v in w.ticks && u != v ==> w.ticks[u].mine !! w.ticks[v].mine)
  }

  lemma AccountedUnion(a: set<Key>, jobs: seq<Due>, fa: set<Key>, b: set<Key>, more: seq<Due>, fb: set<Key>)
    requires Accounted(a, jobs, fa) && Accounted(b, more, fb) && a !! b
    ensures Accounted(a + b, jobs + more, fa + fb)
  {
    forall k | k in a + b && k !in fa + fb
      ensures HasJob(jobs + more, k)
    {
      if k in a {
        assert HasJob(jobs, k);
        var i :| 0 <= i < |jobs| && jobs[i].key == k;
        assert (jobs + more)[i].key == k;
      } else {
        assert HasJob(more, k);
        var i :| 0 <= i < |more| && more[i].key == k;
        assert (jobs + more)[|jobs| + i].key == k;
      }
    }
  }

  lemma ProcessKeepsAccounts(t: Open, ledger: Ledger, enqueueFails: bool)
    requires t.todo != [] && Accounted(t.mine, t.staged, t.failed) && t.mine !! ledger
    ensures var u := Processed(t, ledger, enqueueFails);
      && Accounted(u.mine, u.staged, u.failed) && u.mine !! ledger && u.mine <= t.mine + {t.todo[0].key}
      && (t.todo[0].key in ledger ==> u.mine == t.mine)
  {
    var item := t.todo[0];
    if item.key !in ledger && item.key !in t.mine {
      if enqueueFails {
        assert Accounted({item.key}, [], {item.key});
        AccountedUnion(t.mine, t.staged, t.failed, {item.key}, [], {item.key});
        assert t.staged + [] == t.staged;
      } else {
        assert [item][0].key == item.key;
        assert HasJob([item], item.key);
        AccountedUnion(t.mine, t.staged, t.failed, {item.key}, [item], {});
        assert t.failed + {} == t.failed;
      }
    }
  }

  lemma StepKeepsOncePerKey(w: World, s: Step)
    requires OncePerKey(w) && Enabled(w, s)
    ensures OncePerKey(Apply(w, s))
  {
    match s
    case Begin(_, _) =>
    case Crash(_) =>
    case Process(worker, enqueueFails) =>
      ProcessKeepsAccounts(w.ticks[worker], w.ledger, enqueueFails);
      assert forall v :: v in w.ticks && v != worker ==> w.ticks[worker].todo[0].key !in w.ticks[v].mine;
    case Commit(worker) =>
      var t := w.ticks[worker];
      AccountedUnion(w.ledger, w.jobs, w.failed, t.mine, t.staged, t.failed);
  }

  lemma {:induction false} RunKeepsOncePerKey(worlds: seq<World>, steps: seq<Step>, n: nat)
    requires IsRun(worlds, steps) && n <= |steps|
    ensures OncePerKey(worlds[n])
  {
    if n > 0 {
      RunKeepsOncePerKey(worlds, steps, n - 1);
      assert Moves(worlds[n - 1], steps[n - 1], worlds[n]);
      StepKeepsOncePerKey(worlds[n - 1], steps[n - 1]);
    }
  }

  /** Across any interleaving of ticks, commits and crashes of several workers: at most
      one job is ever enqueued per (task, scope, period), and exactly one for every
      committed claim whose enqueue did not fail. */
  lemma OneJobPerPeriod(worlds: seq<World>, steps: seq<Step>, n: nat)
    requires IsRun(worlds, steps) && n <= |steps|
    ensures var w := worlds[n];
      && (forall i, j :: 0 <= i < j < |w.jobs| ==> w.jobs[i].key != w.jobs[j].key)
      && (forall k :: k in w.ledger ==> (HasJob(w.jobs, k) <==> k !in w.failed))
  {
    RunKeepsOncePerKey(worlds, steps, n);
  }

  /** A key once in the ledger is there in every later world. */
  lemma {:induction false} LedgerOnlyGrows(worlds: seq<World>, steps: seq<Step>, k: nat, n: nat)
    requires IsRun(worlds, steps) && k <= n <= |steps|
    ensures worlds[k].ledger <= worlds[n].ledger
  {
    if k < n {
      LedgerOnlyGrows(worlds, steps, k, n - 1);
      assert Moves(worlds[n - 1], steps[n - 1], worlds[n]);
    }
  }

  /** So the pre-filter stays invisible while other workers commit: an item whose key some
      earlier read showed as claimed never waits for anybody, and processing it does
      nothing but drop it. */
  lemma FilteredItemsAreSkipped(worlds: seq<World>, steps: seq<Step>, k: nat, n: nat, worker: Id, enqueueFails: bool)
    requires IsRun(worlds, steps) && k <= n <= |steps|
    requires worker in worlds[n].ticks && worlds[n].ticks[worker].todo != []
    requires worlds[n].ticks[worker].todo[0].key in worlds[k].ledger
    ensures Enabled(worlds[n], Process(worker, enqueueFails))
    ensures var w, t := worlds[n], worlds[n].ticks[worker];
      Apply(w, Process(worker, enqueueFails)) == w.(ticks := w.ticks[worker := t.(todo := t.todo[1..])])
  {
    LedgerOnlyGrows(worlds, steps, k, n);
    RunKeepsOncePerKey(worlds, steps, n);
    var key := worlds[n].ticks[worker].todo[0].key;
    forall v | v in worlds[n].ticks
      ensures key !in worlds[n].ticks[v].mine
    {
      assert worlds[n].ticks[v].mine !! worlds[n].ledger;
    }
  }

  // ---------------------------------------------------------------- one tick as a path

  lemma PathPrepends(w: World, s: Step, worlds: seq<World>, steps: seq<Step>)
    requires IsPath(worlds, steps) && Moves(w, s, worlds[0])
    ensures IsPath([w] + worlds, [s] + steps)
  {
    var more, longer := [w] + worlds, [s] + steps;
    forall i | 0 <= i < |longer|
      ensures Moves(more[i], longer[i], more[i + 1])
    {
      if i > 0 { assert Moves(worlds[i - 1], steps[i - 1], worlds[i]); }
    }
  }

  /** The worker has processed the first k items and nobody else has a tick open. */
  ghost predicate MidTick(w: World, before: World, worker: Id, due: seq<Due>, k: nat, failing: set<Due>)
    requires k <= |due|
  {
    && w.ticks.Keys == {worker} && w.ticks[worker].todo == due[k..]
    && w.ledger == before.ledger && w.jobs == before.jobs
    && var t := w.ticks[worker];
       TickResult(w.ledger + t.mine, w.jobs + t.staged, |t.staged|)
         == Tick(before.ledger, before.jobs, due[..k], failing)
  }

  lemma ProcessOne(w: World, before: World, worker: Id, due: seq<Due>, k: nat, failing: set<Due>) returns (w': World)
    requires k < |due| && MidTick(w, before, worker, due, k, failing)
    ensures Moves(w, Process(worker, due[k] in failing), w')
    ensures MidTick(w', before, worker, due, k + 1, failing)
  {
    var t := w.ticks[worker];
    assert due[..k + 1][..k] == due[..k];
    w' := Apply(w, Process(worker, due[k] in failing));
    var t' := w'.ticks[worker];
    if due[k].key in w.ledger || due[k].key in t.mine {
      assert t' == t.(todo := due[k + 1..]);
    } else {
      assert w.ledger + t'.mine == (w.ledger + t.mine) + {due[k].key};
      assert due[k] !in failing ==> w.jobs + t'.staged == (w.jobs + t.staged) + [due[k]];
    }
  }

  lemma {:induction false} ProcessRest(w: World, before: World, worker: Id, due: seq<Due>, k: nat, failing: set<Due>)
    returns (worlds: seq<World>, steps: seq<Step>)
    requires k <= |due| && MidTick(w, before, worker, due, k, failing)
    ensures IsPath(worlds, steps) && worlds[0] == w
    ensures var last := worlds[|steps|];
      && last.ticks == map[] && |before.jobs| <= |last.jobs|
      && TickResult(last.ledger, last.jobs, |last.jobs| - |before.jobs|)
         == Tick(before.ledger, before.jobs, due, failing)
    decreases |due| - k
  {
    if k == |due| {
      assert due[..k] == due;
      worlds, steps := [w, Apply(w, Commit(worker))], [Commit(worker)];
    } else {
      var w' := ProcessOne(w, before, worker, due, k, failing);
      worlds, steps := ProcessRest(w', before, worker, due, k + 1, failing);
      PathPrepends(w, Process(worker, due[k] in failing), worlds, steps);
      worlds, steps := [w] + worlds, [Process(worker, due[k] in failing)] + steps;
    }
  }

  /** One worker's `scheduler_tick`, while nobody else has one open, is a path of protocol
      steps: begin, process each item in turn, commit. So what holds in every run holds of
      the tables that method writes. */
  lemma TickIsAPath(w: World, worker: Id, due: seq<Due>, failing: set<Due>)
    returns (worlds: seq<World>, steps: seq<Step>)
    requires w.ticks == map[]
    ensures IsPath(worlds, steps) && worlds[0] == w
    ensures var last := worlds[|steps|];
      && last.ticks == map[] && |w.jobs| <= |last.jobs|
      && TickResult(last.ledger, last.jobs, |last.jobs| - |w.jobs|) == Tick(w.ledger, w.jobs, due, failing)
  {
    var begun := Apply(w, Begin(worker, due));
    assert w.ledger + {} == w.ledger && w.jobs + [] == w.jobs && due[..0] == [] && due[0..] == due;
    worlds, steps := ProcessRest(begun, w, worker, due, 0, failing);
    PathPrepends(w, Begin(worker, due), worlds, steps);
    worlds, steps := [w] + worlds, [Begin(worker, due)] + steps;
  }
}
