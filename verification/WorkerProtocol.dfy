/** Many workers over one job table: every interleaving of claims, results, reaps,
    crashes and passing time. */
module WorkerProtocol {
  import opened Basics
  import opened JobQueue

  datatype Config = Config(maxAttempts: nat, staleSeconds: nat, batch: nat)

  datatype Event =
    | Claimed(jobs: set<Id>, at: int)
    | Requeued(job: Id, at: int, attempts: nat)

  /** A worker's hold on a job: when it claimed it, and the row as it last loaded it. */
  datatype Hold = Hold(since: int, seen: Job)

  /** A hold runs from the claim's commit to the worker's own result. `claims` and
      `reaps` count per job. */
  datatype World = World(now: int, jobs: Jobs, held: map<(Id, Id), Hold>,
                         claims: map<Id, nat>, reaps: map<Id, nat>, log: seq<Event>)

  datatype Outcome = Success | Error(message: string) | NoHandler(message: string)

  /** `Start` is the moment a claimed job's turn comes and its row is loaded again. */
  datatype Step =
    | Advance(to: int)
    | Enqueue(job: Id, kind: Id)
    | Reap
    | ClaimJobs(worker: Id, chosen: set<Id>)
    | Start(worker: Id, begun: Id)
    | Finish(worker: Id, done: Id, outcome: Outcome)
    | Crash(worker: Id)

  function Count(m: map<Id, nat>, i: Id): nat {
    if i in m then m[i] else 0
  }

  function Bump(m: map<Id, nat>, ids: set<Id>): map<Id, nat> {
    map i | i in m.Keys + ids :: Count(m, i) + if i in ids then 1 else 0
  }

  function StaleJobs(c: Config, w: World): set<Id> {
    set i | i in w.jobs && IsStale(w.jobs[i], w.now, c.staleSeconds)
  }

  /** The pairs a worker holds. */
  function HeldBy(w: World, worker: Id): set<(Id, Id)> {
    set h | h in w.held && h.0 == worker
  }

  function Pairs(worker: Id, chosen: set<Id>): (hs: set<(Id, Id)>)
    ensures forall h :: h in hs <==> h.0 == worker && h.1 in chosen
  {
    set i | i in chosen :: (worker, i)
  }

  predicate Enabled(c: Config, w: World, s: Step) {
    match s
    case Advance(to) => w.now <= to
    case Enqueue(job, _) => job !in w.jobs
    case Reap => true
    case ClaimJobs(worker, chosen) =>
      chosen <= Due(w.jobs, w.now) && |chosen| <= c.batch && HeldBy(w, worker) == {}
    case Start(worker, begun) => (worker, begun) in w.held && begun in w.jobs
    case Finish(worker, done, _) =>
      (worker, done) in w.held && done in w.jobs && w.held[(worker, done)].seen.attempts >= 1
    case Crash(_) => true
  }

  /** What a worker makes of the row it loaded. */
  function ResultOf(c: Config, j: Job, outcome: Outcome, now: int): Job
    requires j.attempts >= 1
  {
    match outcome
    case Success => Succeed(j, now)
    case Error(message) => Fail(j, now, c.maxAttempts, message)
    case NoHandler(message) => FailTerminally(j, now, message)
  }

  /** Only the columns that differ from what was loaded are written. */
  function Merged(row: Job, seen: Job, result: Job): Job {
    row.(status := if result.status != seen.status then result.status else row.status,
         runAfter := if result.runAfter != seen.runAfter then result.runAfter else row.runAfter,
         error := if result.error != seen.error then result.error else row.error,
         updatedAt := if result.(updatedAt := seen.updatedAt) != seen then result.updatedAt else row.updatedAt)
  }

  function Requeues(c: Config, seen: Job, outcome: Outcome): bool {
    outcome.Error? && seen.attempts < c.maxAttempts
  }

  function Apply(c: Config, w: World, s: Step): World
    requires Enabled(c, w, s)
  {
    match s
    case Advance(to) => w.(now := to)
    case Enqueue(job, kind) =>
      w.(jobs := w.jobs[job := Job(kind, Queued, 0, None, w.now, w.now, None)])
    case Reap =>
      w.(jobs := Reaped(w.jobs, w.now, c.staleSeconds), reaps := Bump(w.reaps, StaleJobs(c, w)))
    case ClaimJobs(worker, chosen) =>
      w.(jobs := ClaimAll(w.jobs, chosen, w.now),
         held := w.held + (map h | h in Pairs(worker, chosen) :: Hold(w.now, Claim(w.jobs[h.1], w.now))),
         claims := Bump(w.claims, chosen),
         log := w.log + [Claimed(chosen, w.now)])
    case Start(worker, begun) =>
      w.(held := w.held[(worker, begun) := w.held[(worker, begun)].(seen := w.jobs[begun])])
    case Finish(worker, done, outcome) =>
      var seen := w.held[(worker, done)].seen;
      w.(jobs := w.jobs[done := Merged(w.jobs[done], seen, ResultOf(c, seen, outcome, w.now))],
         held := w.held - {(worker, done)},
         log := w.log + if Requeues(c, seen, outcome) then [Requeued(done, w.now, seen.attempts)] else [])
    case Crash(worker) => w.(held := w.held - HeldBy(w, worker))
  }

  const EMPTY := World(0, map[], map[], map[], map[], [])

  ghost predicate Moves(c: Config, w: World, s: Step, w': World) {
    Enabled(c, w, s) && w' == Apply(c, w, s)
  }

  ghost predicate IsPath(c: Config, worlds: seq<World>, steps: seq<Step>) {
    && |worlds| == |steps| + 1
    && forall i :: 0 <= i < |steps| ==> Moves(c, worlds[i], steps[i], worlds[i + 1])
  }

  ghost predicate IsRun(c: Config, worlds: seq<World>, steps: seq<Step>) {
    IsPath(c, worlds, steps) && worlds[0] == EMPTY
  }

  // ---------------------------------------------------------------- attempts are bounded

  /** Everybody who holds job i. */
  function Holders(w: World, i: Id): set<(Id, Id)> {
    set h | h in w.held && h.1 == i
  }

  /** The holders whose failure would still send job i back to the queue. */
  function Retriers(c: Config, w: World, i: Id): set<(Id, Id)> {
    set h | h in w.held && h.1 == i && w.held[h].seen.attempts < c.maxAttempts
  }

  function Waiting(w: World, i: Id): nat
    requires i in w.jobs
  {
    if w.jobs[i].status == Queued then 1 else 0
  }

  /** Each reap adds at most one holder, and each holder at most one further claim. */
  ghost predicate JobBounded(c: Config, w: World, i: Id)
    requires i in w.jobs
  {
    var j := w.jobs[i];
    && j.attempts == Count(w.claims, i)
    && (forall h :: h in w.held && h.1 == i ==> 1 <= w.held[h].seen.attempts <= j.attempts)
    && |Holders(w, i)| + Waiting(w, i) <= 1 + Count(w.reaps, i)
    && j.attempts + Waiting(w, i) + |Retriers(c, w, i)| <= Max(1, c.maxAttempts) + Count(w.reaps, i)
  }

  ghost predicate Bounded(c: Config, w: World) {
    && w.claims.Keys <= w.jobs.Keys && w.reaps.Keys <= w.jobs.Keys
    && (forall h :: h in w.held ==> h.1 in w.jobs)
    && forall i :: i in w.jobs ==> JobBounded(c, w, i)
  }

  lemma RetriersAreHolders(c: Config, w: World, i: Id)
    ensures |Retriers(c, w, i)| <= |Holders(w, i)|
  {
    SubsetSize(Retriers(c, w, i), Holders(w, i));
  }

  /** A job whose row kept its attempts and whose holders became fewer or loaded newer
      rows stays bounded. */
  lemma FewerHoldersStayBounded(c: Config, w: World, w': World, i: Id)
    requires i in w.jobs && JobBounded(c, w, i) && i in w'.jobs
    requires w'.jobs[i].attempts == w.jobs[i].attempts && Waiting(w', i) <= Waiting(w, i)
    requires Count(w'.claims, i) == Count(w.claims, i) && Count(w'.reaps, i) == Count(w.reaps, i)
    requires forall h :: h in w'.held && h.1 == i ==>
      h in w.held && w.held[h].seen.attempts <= w'.held[h].seen.attempts <= w.jobs[i].attempts
    ensures JobBounded(c, w', i)
  {
    SubsetSize(Holders(w', i), Holders(w, i));
    SubsetSize(Retriers(c, w', i), Retriers(c, w, i));
  }

  lemma SameHolders(c: Config, w: World, w': World, i: Id)
    requires forall h: (Id, Id) :: h.1 == i ==> (h in w'.held <==> h in w.held)
    requires forall h :: h in w.held && h.1 == i ==> w'.held[h] == w.held[h]
    ensures Holders(w', i) == Holders(w, i) && Retriers(c, w', i) == Retriers(c, w, i)
  {
  }

  lemma ClaimTakesDueRows(c: Config, w: World, worker: Id, chosen: set<Id>, i: Id)
    requires Enabled(c, w, ClaimJobs(worker, chosen)) && i in chosen
    ensures i in w.jobs && IsDue(w.jobs[i], w.now)
  {
    assert i in Due(w.jobs, w.now);
  }

  /** w' differs from w in one more hold on job i. */
  ghost predicate GainsHolder(w: World, w': World, worker: Id, i: Id) {
    && (worker, i) !in w.held && (worker, i) in w'.held
    && (forall h :: h in w.held && h.1 == i ==> h in w'.held && w'.held[h] == w.held[h])
    && (forall h :: h in w'.held && h.1 == i && h.0 != worker ==> h in w.held)
  }

  lemma OneMoreHolder(w: World, w': World, worker: Id, i: Id)
    requires GainsHolder(w, w', worker, i)
    ensures |Holders(w', i)| == |Holders(w, i)| + 1
  {
    assert Holders(w', i) == Holders(w, i) + {(worker, i)};
  }

  lemma OneMoreRetrier(c: Config, w: World, w': World, worker: Id, i: Id)
    requires GainsHolder(w, w', worker, i)
    ensures |Retriers(c, w', i)|
      == |Retriers(c, w, i)| + if w'.held[(worker, i)].seen.attempts < c.maxAttempts then 1 else 0
  {
    if w'.held[(worker, i)].seen.attempts < c.maxAttempts {
      assert Retriers(c, w', i) == Retriers(c, w, i) + {(worker, i)};
    } else {
      assert Retriers(c, w', i) == Retriers(c, w, i);
    }
  }

  lemma OneFewerHolder(c: Config, w: World, w': World, worker: Id, i: Id)
    requires (worker, i) in w.held && w'.held == w.held - {(worker, i)}
    ensures |Holders(w', i)| == |Holders(w, i)| - 1
    ensures |Retriers(c, w', i)|
      == |Retriers(c, w, i)| - if w.held[(worker, i)].seen.attempts < c.maxAttempts then 1 else 0
  {
    assert Holders(w', i) == Holders(w, i) - {(worker, i)};
    assert Retriers(c, w', i) == Retriers(c, w, i) - {(worker, i)};
  }

  lemma ReapKeepsJobBounded(c: Config, w: World, i: Id)
    requires i in w.jobs && JobBounded(c, w, i)
    ensures JobBounded(c, Apply(c, w, Reap), i)
  {
    SameHolders(c, w, Apply(c, w, Reap), i);
  }

  /** Who holds what after a claim. */
  lemma ClaimHolds(c: Config, w: World, worker: Id, chosen: set<Id>, h: (Id, Id))
    requires Enabled(c, w, ClaimJobs(worker, chosen))
    ensures var w' := Apply(c, w, ClaimJobs(worker, chosen));
      if h.0 == worker && h.1 in chosen then
        h !in w.held && h in w'.held && w'.held[h] == Hold(w.now, Claim(w.jobs[h.1], w.now))
      else (h in w'.held <==> h in w.held) && (h in w.held ==> w'.held[h] == w.held[h])
  {
    assert h.0 == worker ==> h !in HeldBy(w, worker);
  }

  lemma ClaimedJobIsBounded(c: Config, w: World, w': World, worker: Id, i: Id)
    requires i in w.jobs && JobBounded(c, w, i) && w.jobs[i].status == Queued
    requires i in w'.jobs && w'.jobs[i].status == Running && w'.jobs[i].attempts == w.jobs[i].attempts + 1
    requires GainsHolder(w, w', worker, i) && w'.held[(worker, i)].seen == w'.jobs[i]
    requires Count(w'.claims, i) == Count(w.claims, i) + 1 && Count(w'.reaps, i) == Count(w.reaps, i)
    ensures JobBounded(c, w', i)
  {
    OneMoreHolder(w, w', worker, i);
    OneMoreRetrier(c, w, w', worker, i);
    RetriersAreHolders(c, w, i);
  }

  lemma ClaimGainsHolder(c: Config, w: World, worker: Id, chosen: set<Id>, i: Id)
    requires Enabled(c, w, ClaimJobs(worker, chosen)) && i in chosen
    ensures var w' := Apply(c, w, ClaimJobs(worker, chosen));
      GainsHolder(w, w', worker, i) && w'.held[(worker, i)].seen == w'.jobs[i]
  {
    assert i in Due(w.jobs, w.now);
    ClaimHolds(c, w, worker, chosen, (worker, i));
    forall h | h in w.held
      ensures h.0 != worker
    {
      assert h !in HeldBy(w, worker);
    }
  }

  lemma ClaimBoundsChosen(c: Config, w: World, worker: Id, chosen: set<Id>, i: Id)
    requires i in w.jobs && JobBounded(c, w, i) && Enabled(c, w, ClaimJobs(worker, chosen)) && i in chosen
    ensures JobBounded(c, Apply(c, w, ClaimJobs(worker, chosen)), i)
  {
    ClaimTakesDueRows(c, w, worker, chosen, i);
    ClaimGainsHolder(c, w, worker, chosen, i);
    ClaimedJobIsBounded(c, w, Apply(c, w, ClaimJobs(worker, chosen)), worker, i);
  }

  lemma ClaimBoundsOthers(c: Config, w: World, worker: Id, chosen: set<Id>, i: Id)
    requires i in w.jobs && JobBounded(c, w, i) && Enabled(c, w, ClaimJobs(worker, chosen)) && i !in chosen
    ensures JobBounded(c, Apply(c, w, ClaimJobs(worker, chosen)), i)
  {
    var w' := Apply(c, w, ClaimJobs(worker, chosen));
    forall h | h in w'.held && h.1 == i
      ensures h in w.held && w'.held[h] == w.held[h]
    {
      ClaimHolds(c, w, worker, chosen, h);
    }
    FewerHoldersStayBounded(c, w, w', i);
  }

  lemma FinishKeepsJobBounded(c: Config, w: World, worker: Id, done: Id, outcome: Outcome, i: Id)
    requires i in w.jobs && JobBounded(c, w, i) && Enabled(c, w, Finish(worker, done, outcome))
    ensures JobBounded(c, Apply(c, w, Finish(worker, done, outcome)), i)
  {
    var w' := Apply(c, w, Finish(worker, done, outcome));
    if i == done {
      OneFewerHolder(c, w, w', worker, i);
    } else {
      SameHolders(c, w, w', i);
    }
  }

  lemma EnqueuedIsBounded(c: Config, w: World, job: Id, kind: Id)
    requires Bounded(c, w) && job !in w.jobs
    ensures JobBounded(c, Apply(c, w, Enqueue(job, kind)), job)
  {
    var w' := Apply(c, w, Enqueue(job, kind));
    assert Holders(w', job) == {} && Retriers(c, w', job) == {};
  }

  lemma QuietKeepsJobBounded(c: Config, w: World, s: Step, i: Id)
    requires i in w.jobs && JobBounded(c, w, i) && Enabled(c, w, s)
    requires s.Advance? || s.Start? || s.Crash? || s.Enqueue?
    ensures JobBounded(c, Apply(c, w, s), i)
  {
    FewerHoldersStayBounded(c, w, Apply(c, w, s), i);
  }

  lemma StepKeepsJobBounded(c: Config, w: World, s: Step, i: Id)
    requires Bounded(c, w) && Enabled(c, w, s) && i in Apply(c, w, s).jobs
    ensures JobBounded(c, Apply(c, w, s), i)
  {
    if i in w.jobs {
      assert JobBounded(c, w, i);
      match s
      case Reap => ReapKeepsJobBounded(c, w, i);
      case ClaimJobs(worker, chosen) =>
        if i in chosen {
          ClaimBoundsChosen(c, w, worker, chosen, i);
        } else {
          ClaimBoundsOthers(c, w, worker, chosen, i);
        }
      case Finish(worker, done, outcome) => FinishKeepsJobBounded(c, w, worker, done, outcome, i);
      case _ => QuietKeepsJobBounded(c, w, s, i);
    } else {
      assert s.Enqueue? && s.job == i;
      EnqueuedIsBounded(c, w, i, s.kind);
    }
  }

  lemma StepKeepsBounded(c: Config, w: World, s: Step)
    requires Bounded(c, w) && Enabled(c, w, s)
    ensures Bounded(c, Apply(c, w, s))
  {
    forall i | i in Apply(c, w, s).jobs
      ensures JobBounded(c, Apply(c, w, s), i)
    {
      StepKeepsJobBounded(c, w, s, i);
    }
    if s.ClaimJobs? {
      assert s.chosen <= w.jobs.Keys;
    }
  }

  lemma {:induction false} RunIsBounded(c: Config, worlds: seq<World>, steps: seq<Step>, n: nat)
    requires IsRun(c, worlds, steps) && n <= |steps|
    ensures Bounded(c, worlds[n])
  {
    if n > 0 {
      RunIsBounded(c, worlds, steps, n - 1);
      assert Moves(c, worlds[n - 1], steps[n - 1], worlds[n]);
      StepKeepsBounded(c, worlds[n - 1], steps[n - 1]);
    }
  }

  lemma {:induction false} NoReapsNoCount(c: Config, worlds: seq<World>, steps: seq<Step>, n: nat)
    requires IsRun(c, worlds, steps) && Reap !in steps && n <= |steps|
    ensures worlds[n].reaps == map[]
  {
    if n > 0 {
      NoReapsNoCount(c, worlds, steps, n - 1);
      assert Moves(c, worlds[n - 1], steps[n - 1], worlds[n]);
      assert steps[n - 1] in steps;
    }
  }

  /** In every run, late workers included, a job's `attempts` is its number of claims and
      never exceeds the configured maximum by more than the number of times it was reaped; so a
      job that no reap took back runs at most the maximum number of times. */
  lemma AttemptsAreBounded(c: Config, worlds: seq<World>, steps: seq<Step>, n: nat, i: Id)
    requires IsRun(c, worlds, steps) && n <= |steps| && i in worlds[n].jobs
    ensures var w := worlds[n];
      && w.jobs[i].attempts == Count(w.claims, i)
      && w.jobs[i].attempts <= Max(1, c.maxAttempts) + Count(w.reaps, i)
      && (Count(w.reaps, i) == 0 && c.maxAttempts >= 1 ==> Count(w.claims, i) <= c.maxAttempts)
      && (Reap !in steps ==> Count(w.reaps, i) == 0)
  {
    RunIsBounded(c, worlds, steps, n);
    assert JobBounded(c, worlds[n], i);
    if Reap !in steps {
      NoReapsNoCount(c, worlds, steps, n);
    }
  }

  // ---------------------------------------------------------------- one holder at a time

  /** Nobody has held a job for longer than the stale window. */
  ghost predicate Timely(c: Config, w: World) {
    forall h :: h in w.held ==> w.now - w.held[h].since <= c.staleSeconds
  }

  /** Workers report in time, as far as the reaps can tell. */
  ghost predicate TimelyReaps(c: Config, worlds: seq<World>, steps: seq<Step>) {
    forall i :: 0 <= i < |steps| && i < |worlds| && steps[i] == Reap ==> Timely(c, worlds[i])
  }

  /** The row is running and is what its holder loaded, stamped by the holder's claim. */
  ghost predicate IsHolders(w: World, h: (Id, Id))
    requires h in w.held
  {
    && h.1 in w.jobs && w.jobs[h.1] == w.held[h].seen && w.jobs[h.1].updatedAt == w.held[h].since
    && w.jobs[h.1].status == Running && w.jobs[h.1].attempts >= 1
    && (w.jobs[h.1].runAfter.Some? ==> w.jobs[h.1].runAfter.value <= w.now)
  }

  /** Every held job is its holder's alone. */
  ghost predicate Exclusive(w: World) {
    && (forall h :: h in w.held ==> IsHolders(w, h))
    && (forall a, b :: a in w.held && b in w.held && a.1 == b.1 ==> a.0 == b.0)
  }

  predicate IsTerminal(j: Job) {
    j.status == Succeeded || j.status == Failed
  }

  ghost predicate KeepsTerminal(w: World, w': World) {
    forall i :: i in w.jobs && IsTerminal(w.jobs[i]) ==> i in w'.jobs && w'.jobs[i] == w.jobs[i]
  }

  /** A reap leaves every held job with its holder exactly when nobody is late. */
  lemma ReapIsSafeIffTimely(c: Config, w: World)
    requires Exclusive(w)
    ensures Exclusive(Apply(c, w, Reap)) <==> Timely(c, w)
    ensures KeepsTerminal(w, Apply(c, w, Reap))
  {
    var w' := Apply(c, w, Reap);
    if Timely(c, w) {
      forall h | h in w.held
        ensures IsHolders(w', h)
      {
        assert IsHolders(w, h);
      }
    } else {
      var h :| h in w.held && w.now - w.held[h].since > c.staleSeconds;
      assert IsHolders(w, h);
      assert w'.jobs[h.1].status == Queued;
      assert !IsHolders(w', h);
    }
  }

  /** Only its one holder reports a job, and then nobody holds it. */
  lemma FinishKeepsExclusive(c: Config, w: World, worker: Id, done: Id, outcome: Outcome)
    requires Exclusive(w) && Enabled(c, w, Finish(worker, done, outcome))
    ensures var w' := Apply(c, w, Finish(worker, done, outcome)); Exclusive(w') && KeepsTerminal(w, w')
  {
    var w' := Apply(c, w, Finish(worker, done, outcome));
    assert IsHolders(w, (worker, done));
    forall h | h in w'.held
      ensures h in w.held && h.1 != done && IsHolders(w', h)
    {
      assert IsHolders(w, h);
    }
  }

  lemma ClaimKeepsHolder(c: Config, w: World, worker: Id, chosen: set<Id>, h: (Id, Id))
    requires Exclusive(w) && Enabled(c, w, ClaimJobs(worker, chosen))
    requires h in Apply(c, w, ClaimJobs(worker, chosen)).held
    ensures if h.1 in chosen then h.0 == worker else h in w.held
    ensures IsHolders(Apply(c, w, ClaimJobs(worker, chosen)), h)
  {
    ClaimHolds(c, w, worker, chosen, h);
    assert h in w.held ==> IsHolders(w, h);
    if h.1 in chosen {
      ClaimTakesDueRows(c, w, worker, chosen, h.1);
    }
  }

  lemma ClaimKeepsTerminal(c: Config, w: World, worker: Id, chosen: set<Id>, i: Id)
    requires Enabled(c, w, ClaimJobs(worker, chosen)) && i in w.jobs && IsTerminal(w.jobs[i])
    ensures i in Apply(c, w, ClaimJobs(worker, chosen)).jobs
    ensures Apply(c, w, ClaimJobs(worker, chosen)).jobs[i] == w.jobs[i]
  {
    if i in chosen {
      ClaimTakesDueRows(c, w, worker, chosen, i);
    }
  }

  lemma ClaimersAreAlone(c: Config, w: World, worker: Id, chosen: set<Id>)
    requires Exclusive(w) && Enabled(c, w, ClaimJobs(worker, chosen))
    ensures Exclusive(Apply(c, w, ClaimJobs(worker, chosen)))
  {
    var w' := Apply(c, w, ClaimJobs(worker, chosen));
    forall h | h in w'.held
      ensures if h.1 in chosen then h.0 == worker else h in w.held
      ensures IsHolders(w', h)
    {
      ClaimKeepsHolder(c, w, worker, chosen, h);
    }
  }

  /** The claim takes only queued rows, which nobody holds. */
  lemma ClaimKeepsExclusive(c: Config, w: World, worker: Id, chosen: set<Id>)
    requires Exclusive(w) && Enabled(c, w, ClaimJobs(worker, chosen))
    ensures Exclusive(Apply(c, w, ClaimJobs(worker, chosen)))
    ensures KeepsTerminal(w, Apply(c, w, ClaimJobs(worker, chosen)))
  {
    ClaimersAreAlone(c, w, worker, chosen);
    forall i | i in w.jobs && IsTerminal(w.jobs[i])
      ensures i in Apply(c, w, ClaimJobs(worker, chosen)).jobs
      ensures Apply(c, w, ClaimJobs(worker, chosen)).jobs[i] == w.jobs[i]
    {
      ClaimKeepsTerminal(c, w, worker, chosen, i);
    }
  }

  lemma QuietKeepsExclusive(w: World, w': World)
    requires Exclusive(w) && w'.held.Keys <= w.held.Keys && w.now <= w'.now
    requires forall h :: h in w'.held ==> w'.held[h] == w.held[h]
    requires forall i :: i in w.jobs ==> i in w'.jobs && w'.jobs[i] == w.jobs[i]
    ensures Exclusive(w') && KeepsTerminal(w, w')
  {
    forall h | h in w'.held
      ensures IsHolders(w', h)
    {
      assert IsHolders(w, h);
    }
  }

  /** Nothing but a reap can take a job from its holder. */
  lemma StepKeepsExclusive(c: Config, w: World, s: Step)
    requires Exclusive(w) && Enabled(c, w, s) && (s == Reap ==> Timely(c, w))
    ensures Exclusive(Apply(c, w, s)) && KeepsTerminal(w, Apply(c, w, s))
  {
    match s
    case ClaimJobs(worker, chosen) => ClaimKeepsExclusive(c, w, worker, chosen);
    case Finish(worker, done, outcome) => FinishKeepsExclusive(c, w, worker, done, outcome);
    case Reap => ReapIsSafeIffTimely(c, w);
    case Start(worker, begun) =>
      assert IsHolders(w, (worker, begun));
      QuietKeepsExclusive(w, Apply(c, w, s));
    case _ => QuietKeepsExclusive(w, Apply(c, w, s));
  }

  lemma {:induction false} TimelyRunIsExclusive(c: Config, worlds: seq<World>, steps: seq<Step>, n: nat)
    requires IsRun(c, worlds, steps) && TimelyReaps(c, worlds, steps) && n <= |steps|
    ensures Exclusive(worlds[n])
  {
    if n > 0 {
      TimelyRunIsExclusive(c, worlds, steps, n - 1);
      assert Moves(c, worlds[n - 1], steps[n - 1], worlds[n]);
      StepKeepsExclusive(c, worlds[n - 1], steps[n - 1]);
    }
  }

  /** Over a whole run, every held job stays its holder's alone if and only if no reap
      finds a worker past the stale window. */
  lemma ExclusiveIffTimely(c: Config, worlds: seq<World>, steps: seq<Step>)
    requires IsRun(c, worlds, steps)
    ensures (forall n :: 0 <= n <= |steps| ==> Exclusive(worlds[n])) <==> TimelyReaps(c, worlds, steps)
  {
    if TimelyReaps(c, worlds, steps) {
      forall n | 0 <= n <= |steps|
        ensures Exclusive(worlds[n])
      {
        TimelyRunIsExclusive(c, worlds, steps, n);
      }
    }
    if forall n :: 0 <= n <= |steps| ==> Exclusive(worlds[n]) {
      forall i | 0 <= i < |steps| && steps[i] == Reap
        ensures Timely(c, worlds[i])
      {
        assert Moves(c, worlds[i], steps[i], worlds[i + 1]);
        assert Exclusive(worlds[i]) && Exclusive(worlds[i + 1]);
        ReapIsSafeIffTimely(c, worlds[i]);
      }
    }
  }

  /** When no reap finds a late worker, no job ever has two holders. */
  lemma NoJobHasTwoHolders(c: Config, worlds: seq<World>, steps: seq<Step>, n: nat, i: Id, one: Id, two: Id)
    requires IsRun(c, worlds, steps) && TimelyReaps(c, worlds, steps) && n <= |steps|
    requires (one, i) in worlds[n].held && (two, i) in worlds[n].held
    ensures one == two
  {
    TimelyRunIsExclusive(c, worlds, steps, n);
  }

  lemma TimelyStepKeepsTerminal(c: Config, worlds: seq<World>, steps: seq<Step>, n: nat)
    requires IsRun(c, worlds, steps) && TimelyReaps(c, worlds, steps) && n < |steps|
    ensures KeepsTerminal(worlds[n], worlds[n + 1])
  {
    TimelyRunIsExclusive(c, worlds, steps, n);
    assert Moves(c, worlds[n], steps[n], worlds[n + 1]);
    StepKeepsExclusive(c, worlds[n], steps[n]);
  }

  /** ... and a job that succeeded or failed is never touched again. */
  lemma {:induction false} TerminalIsForever(c: Config, worlds: seq<World>, steps: seq<Step>, k: nat, n: nat, i: Id)
    requires IsRun(c, worlds, steps) && TimelyReaps(c, worlds, steps) && k <= n <= |steps|
    requires i in worlds[k].jobs && IsTerminal(worlds[k].jobs[i])
    ensures i in worlds[n].jobs && worlds[n].jobs[i] == worlds[k].jobs[i]
  {
    if k < n {
      TerminalIsForever(c, worlds, steps, k, n - 1, i);
      TimelyStepKeepsTerminal(c, worlds, steps, n - 1);
    }
  }

  // ---------------------------------------------------------------- retries wait

  /** Every logged requeue of a job is still honoured by its row. */
  ghost predicate Honoured(w: World, e: Event) {
    e.Requeued? ==>
      && e.job in w.jobs && 1 <= e.attempts <= w.jobs[e.job].attempts && e.at <= w.now
      && w.jobs[e.job].runAfter.Some?
      && e.at + Backoff(e.attempts) <= w.jobs[e.job].runAfter.value
  }

  /** f, logged after e, respects e's delay. */
  ghost predicate Spaced(e: Event, f: Event) {
    e.Requeued? ==>
      && e.attempts >= 1
      && (f.Claimed? && e.job in f.jobs ==> f.at >= e.at + Backoff(e.attempts))
      && (f.Requeued? && e.job == f.job ==> f.attempts >= e.attempts)
  }

  ghost predicate Waits(w: World) {
    && (forall k :: 0 <= k < |w.log| ==> Honoured(w, w.log[k]))
    && (forall k, l :: 0 <= k < l < |w.log| ==> Spaced(w.log[k], w.log[l]))
  }

  /** An event that respects everything logged so far may be appended. */
  lemma AppendSpaced(w: World, f: Event, w': World)
    requires Waits(w) && w'.log == w.log + [f]
    requires forall k :: 0 <= k < |w.log| ==> Honoured(w', w.log[k]) && Spaced(w.log[k], f)
    requires Honoured(w', f)
    ensures Waits(w')
  {
    forall k, l | 0 <= k < l < |w'.log|
      ensures Spaced(w'.log[k], w'.log[l])
    {
      if l < |w.log| {
        assert Spaced(w.log[k], w.log[l]);
      } else {
        assert Spaced(w.log[k], f);
      }
    }
    forall k | 0 <= k < |w'.log|
      ensures Honoured(w', w'.log[k])
    {
      if k < |w.log| { assert Honoured(w', w.log[k]); }
    }
  }

  lemma ClaimKeepsWaits(c: Config, w: World, worker: Id, chosen: set<Id>)
    requires Waits(w) && Enabled(c, w, ClaimJobs(worker, chosen))
    ensures Waits(Apply(c, w, ClaimJobs(worker, chosen)))
  {
    var w' := Apply(c, w, ClaimJobs(worker, chosen));
    var f := Claimed(chosen, w.now);
    forall k | 0 <= k < |w.log|
      ensures Honoured(w', w.log[k]) && Spaced(w.log[k], f)
    {
      var e := w.log[k];
      assert Honoured(w, e);
      if e.Requeued? && e.job in chosen {
        ClaimTakesDueRows(c, w, worker, chosen, e.job);
      }
    }
    AppendSpaced(w, f, w');
  }

  /** A worker whose loaded row is still current writes its whole result. */
  lemma MergedIsResult(c: Config, j: Job, outcome: Outcome, now: int)
    requires j.status == Running && j.attempts >= 1
    ensures Merged(j, j, ResultOf(c, j, outcome, now)) == ResultOf(c, j, outcome, now)
  {
  }

  /** A new result keeps every earlier promise: time and attempts only grow. */
  lemma FinishHonours(c: Config, w: World, done: Id, outcome: Outcome, w': World, e: Event)
    requires Honoured(w, e) && done in w.jobs && w.jobs[done].attempts >= 1 && w'.now == w.now
    requires w'.jobs == w.jobs[done := ResultOf(c, w.jobs[done], outcome, w.now)]
    ensures Honoured(w', e)
  {
    if e.Requeued? && e.job == done {
      BackoffGrowsWithinBounds(e.attempts, w.jobs[done].attempts);
    }
  }

  lemma FinishKeepsWaits(c: Config, w: World, worker: Id, done: Id, outcome: Outcome)
    requires Waits(w) && Exclusive(w) && Enabled(c, w, Finish(worker, done, outcome))
    ensures Waits(Apply(c, w, Finish(worker, done, outcome)))
  {
    var w' := Apply(c, w, Finish(worker, done, outcome));
    var j := w.jobs[done];
    assert IsHolders(w, (worker, done));
    MergedIsResult(c, j, outcome, w.now);
    forall k | 0 <= k < |w.log|
      ensures Honoured(w', w.log[k])
    {
      FinishHonours(c, w, done, outcome, w', w.log[k]);
    }
    if Requeues(c, j, outcome) {
      var f := Requeued(done, w.now, j.attempts);
      forall k | 0 <= k < |w.log|
        ensures Spaced(w.log[k], f)
      {
        assert Honoured(w, w.log[k]);
      }
      AppendSpaced(w, f, w');
    }
  }

  lemma QuietKeepsWaits(w: World, w': World)
    requires Waits(w) && w'.log == w.log && w.now <= w'.now
    requires forall i :: i in w.jobs ==>
      i in w'.jobs && w'.jobs[i].attempts == w.jobs[i].attempts && w'.jobs[i].runAfter == w.jobs[i].runAfter
    ensures Waits(w')
  {
    forall k | 0 <= k < |w.log|
      ensures Honoured(w', w'.log[k])
    {
      assert Honoured(w, w.log[k]);
    }
  }

  lemma StepKeepsWaits(c: Config, w: World, s: Step)
    requires Waits(w) && Exclusive(w) && Enabled(c, w, s)
    ensures Waits(Apply(c, w, s))
  {
    match s
    case ClaimJobs(worker, chosen) => ClaimKeepsWaits(c, w, worker, chosen);
    case Finish(worker, done, outcome) => FinishKeepsWaits(c, w, worker, done, outcome);
    case _ => QuietKeepsWaits(w, Apply(c, w, s));
  }

  lemma {:induction false} TimelyRunWaits(c: Config, worlds: seq<World>, steps: seq<Step>, n: nat)
    requires IsRun(c, worlds, steps) && TimelyReaps(c, worlds, steps) && n <= |steps|
    ensures Waits(worlds[n])
  {
    if n > 0 {
      TimelyRunWaits(c, worlds, steps, n - 1);
      TimelyRunIsExclusive(c, worlds, steps, n - 1);
      assert Moves(c, worlds[n - 1], steps[n - 1], worlds[n]);
      StepKeepsWaits(c, worlds[n - 1], steps[n - 1]);
    }
  }

  /** When no reap finds a late worker, a job requeued after its a-th claim is not
      claimed again before the a-th delay has passed, and successive delays of one job
      never get shorter; all lie between 30 and 3600 seconds. */
  lemma RetriesWaitTheirDelay(c: Config, worlds: seq<World>, steps: seq<Step>, n: nat, k: nat, l: nat)
    requires IsRun(c, worlds, steps) && TimelyReaps(c, worlds, steps) && n <= |steps|
    requires k < l < |worlds[n].log| && worlds[n].log[k].Requeued?
    ensures var e, f := worlds[n].log[k], worlds[n].log[l];
      && e.attempts >= 1 && 30 <= Backoff(e.attempts) <= 3600
      && (f.Claimed? && e.job in f.jobs ==> f.at >= e.at + Backoff(e.attempts))
      && (f.Requeued? && f.job == e.job ==> f.attempts >= 1 && Backoff(e.attempts) <= Backoff(f.attempts))
  {
    TimelyRunWaits(c, worlds, steps, n);
    var e, f := worlds[n].log[k], worlds[n].log[l];
    assert Spaced(e, f);
    BackoffGrowsWithinBounds(e.attempts, e.attempts);
    if f.Requeued? && f.job == e.job {
      BackoffGrowsWithinBounds(e.attempts, f.attempts);
    }
  }

  // ---------------------------------------------------------------- late workers

  predicate IsLate(c: Config, w: World, worker: Id, i: Id) {
    (worker, i) in w.held && w.now - w.held[(worker, i)].since > c.staleSeconds
  }

  /** Worker b has claimed job i while a still holds it, having loaded row j. */
  ghost predicate IsShared(w: World, a: Id, b: Id, i: Id, j: Job) {
    && a != b && (a, i) in w.held && (b, i) in w.held && HeldBy(w, b) == {(b, i)}
    && w.held[(a, i)].seen == j && j.status == Running && j.attempts >= 1
    && (j.runAfter.Some? ==> j.runAfter.value <= w.now)
    && i in w.jobs && w.jobs[i] == j.(attempts := j.attempts + 1, updatedAt := w.now)
    && w.held[(b, i)].seen == w.jobs[i]
  }

  lemma OnlyClaimed(c: Config, w: World, b: Id, i: Id)
    requires Enabled(c, w, ClaimJobs(b, {i}))
    ensures HeldBy(Apply(c, w, ClaimJobs(b, {i})), b) == {(b, i)}
  {
    var w' := Apply(c, w, ClaimJobs(b, {i}));
    forall h | h in HeldBy(w', b)
      ensures h == (b, i)
    {
      ClaimHolds(c, w, b, {i}, h);
      assert h !in HeldBy(w, b);
    }
    ClaimHolds(c, w, b, {i}, (b, i));
  }

  /** After a reap, an idle worker b can claim the job worker a still holds if and only
      if a is past the stale window; then the job has two holders. */
  lemma ReclaimableIffLate(c: Config, w: World, a: Id, b: Id, i: Id)
    requires Exclusive(w) && (a, i) in w.held && a != b && HeldBy(w, b) == {} && c.batch >= 1
    ensures i in w.jobs
    ensures Enabled(c, Apply(c, w, Reap), ClaimJobs(b, {i})) <==> IsLate(c, w, a, i)
    ensures IsLate(c, w, a, i) ==>
      var two := Apply(c, Apply(c, w, Reap), ClaimJobs(b, {i}));
      IsShared(two, a, b, i, w.jobs[i]) && two.now == w.now && two.log == w.log + [Claimed({i}, w.now)]
  {
    var w1 := Apply(c, w, Reap);
    assert IsHolders(w, (a, i));
    assert HeldBy(w1, b) == HeldBy(w, b);
    assert |{i}| == 1;
    if IsLate(c, w, a, i) {
      assert i in Due(w1.jobs, w1.now);
      ClaimHolds(c, w1, b, {i}, (a, i));
      ClaimHolds(c, w1, b, {i}, (b, i));
      OnlyClaimed(c, w1, b, i);
    } else {
      assert i !in Due(w1.jobs, w1.now);
    }
  }

  /** When b succeeds and a then fails, the success is undone. */
  lemma SharedSuccessIsUndone(c: Config, w: World, a: Id, b: Id, i: Id, j: Job, message: string)
    returns (done: World, undone: World)
    requires IsShared(w, a, b, i, j)
    ensures Moves(c, w, Finish(b, i, Success), done) && i in done.jobs && done.jobs[i].status == Succeeded
    ensures Moves(c, done, Finish(a, i, Error(message)), undone) && i in undone.jobs
    ensures undone.jobs[i].status == if j.attempts < c.maxAttempts then Queued else Failed
  {
    done := Apply(c, w, Finish(b, i, Success));
    undone := Apply(c, done, Finish(a, i, Error(message)));
  }

  /** From any world in which worker a is late with job i: a reap and one claim give the
      job a second holder, and when that one succeeds and a then fails, the success is
      undone. So neither promise survives any overrun. */
  lemma OverrunUndoesSuccess(c: Config, w: World, a: Id, b: Id, i: Id, message: string)
    returns (two: World, done: World, undone: World)
    requires Exclusive(w) && IsLate(c, w, a, i) && a != b && HeldBy(w, b) == {} && c.batch >= 1
    ensures Moves(c, Apply(c, w, Reap), ClaimJobs(b, {i}), two)
    ensures (a, i) in two.held && (b, i) in two.held
    ensures Moves(c, two, Finish(b, i, Success), done) && i in done.jobs && done.jobs[i].status == Succeeded
    ensures Moves(c, done, Finish(a, i, Error(message)), undone) && i in undone.jobs
    ensures i in w.jobs && undone.jobs[i].status == if w.jobs[i].attempts < c.maxAttempts then Queued else Failed
  {
    ReclaimableIffLate(c, w, a, b, i);
    two := Apply(c, Apply(c, w, Reap), ClaimJobs(b, {i}));
    done, undone := SharedSuccessIsUndone(c, two, a, b, i, w.jobs[i], message);
  }

  /** The next delay is longer up to the seventh attempt only. */
  lemma DelaysGrowUpToSeventh(n: nat)
    requires n >= 1
    ensures Backoff(n) < Backoff(n + 1) <==> n <= 7
  {
    BackoffCapsFromEighth(n);
    BackoffCapsFromEighth(n + 1);
    assert Pow2(6) == 64;
    assert n < 7 ==> Pow2(n) == 2 * Pow2(n - 1);
  }

  /** One moment's two requeues of job i, the second after fewer attempts. */
  ghost predicate LogsShrinkingDelays(before: World, after: World, i: Id, n: nat) {
    after.log == before.log + [Requeued(i, before.now, n + 1), Requeued(i, before.now, n)]
  }

  /** When both holders fail, b first, the row keeps a's shorter delay. */
  lemma SharedFailuresKeepTheShorterDelay(c: Config, w: World, a: Id, b: Id, i: Id, j: Job, message: string)
    returns (failed: World, both: World)
    requires IsShared(w, a, b, i, j) && j.attempts + 1 < c.maxAttempts
    ensures Moves(c, w, Finish(b, i, Error(message)), failed)
    ensures Moves(c, failed, Finish(a, i, Error(message)), both)
    ensures i in both.jobs && both.jobs[i].status == Queued
    ensures both.jobs[i].runAfter == Some(w.now + Backoff(j.attempts))
    ensures LogsShrinkingDelays(w, both, i, j.attempts)
  {
    BackoffGrowsWithinBounds(j.attempts, j.attempts);
    failed := Apply(c, w, Finish(b, i, Error(message)));
    both := Apply(c, failed, Finish(a, i, Error(message)));
  }

  /** The late worker counts with the attempts n it loaded: when both holders fail, b
      first, b asks for the delay of attempt n + 1, but the job is due after the delay of
      attempt n already, and the logged attempts go down. */
  lemma OverrunCutsTheWait(c: Config, w: World, a: Id, b: Id, i: Id, message: string)
    returns (two: World, failed: World, both: World)
    requires Exclusive(w) && IsLate(c, w, a, i) && a != b && HeldBy(w, b) == {} && c.batch >= 1
    requires i in w.jobs && w.jobs[i].attempts + 1 < c.maxAttempts
    ensures w.jobs[i].attempts >= 1
    ensures Moves(c, Apply(c, w, Reap), ClaimJobs(b, {i}), two)
    ensures Moves(c, two, Finish(b, i, Error(message)), failed)
    ensures Moves(c, failed, Finish(a, i, Error(message)), both)
    ensures LogsShrinkingDelays(two, both, i, w.jobs[i].attempts)
    ensures i in both.jobs && IsDue(both.jobs[i], w.now + Backoff(w.jobs[i].attempts))
  {
    assert IsHolders(w, (a, i));
    ReclaimableIffLate(c, w, a, b, i);
    two := Apply(c, Apply(c, w, Reap), ClaimJobs(b, {i}));
    failed, both := SharedFailuresKeepTheShorterDelay(c, two, a, b, i, w.jobs[i], message);
  }

  lemma PathGrows(c: Config, worlds: seq<World>, steps: seq<Step>, s: Step, w: World)
    requires IsPath(c, worlds, steps) && Moves(c, worlds[|steps|], s, w)
    ensures IsPath(c, worlds + [w], steps + [s])
  {
    var more, longer := worlds + [w], steps + [s];
    forall i | 0 <= i < |longer|
      ensures Moves(c, more[i], longer[i], more[i + 1])
    {
      if i < |steps| { assert Moves(c, worlds[i], steps[i], worlds[i + 1]); }
    }
  }

  lemma FreshJobIsClaimed(c: Config, w: World, a: Id, i: Id)
    requires i in w.jobs && IsDue(w.jobs[i], w.now) && w.held == map[] && c.batch >= 1
    ensures Enabled(c, w, ClaimJobs(a, {i}))
    ensures var w' := Apply(c, w, ClaimJobs(a, {i}));
      && w'.now == w.now && (a, i) in w'.held && w'.held[(a, i)].since == w.now
      && i in w'.jobs && w'.jobs[i].attempts == w.jobs[i].attempts + 1
      && forall b :: b != a ==> HeldBy(w', b) == {}
  {
    assert i in Due(w.jobs, w.now) && |{i}| == 1 && HeldBy(w, a) == {};
    ClaimHolds(c, w, a, {i}, (a, i));
  }

  lemma LateFirstClaim(c: Config) returns (w1: World, w2: World, w3: World)
    requires c.batch >= 1
    ensures Moves(c, EMPTY, Enqueue(0, 9), w1) && Moves(c, w1, ClaimJobs(1, {0}), w2)
    ensures Moves(c, w2, Advance(c.staleSeconds + 1), w3)
    ensures IsLate(c, w3, 1, 0) && HeldBy(w3, 2) == {} && 0 in w3.jobs && w3.jobs[0].attempts == 1
    ensures Exclusive(w3)
  {
    assert Exclusive(EMPTY);
    w1 := Apply(c, EMPTY, Enqueue(0, 9));
    FreshJobIsClaimed(c, w1, 1, 0);
    w2 := Apply(c, w1, ClaimJobs(1, {0}));
    w3 := Apply(c, w2, Advance(c.staleSeconds + 1));
    assert HeldBy(w3, 2) == HeldBy(w2, 2);
    StepKeepsExclusive(c, EMPTY, Enqueue(0, 9));
    StepKeepsExclusive(c, w1, ClaimJobs(1, {0}));
    StepKeepsExclusive(c, w2, Advance(c.staleSeconds + 1));
  }

  /** Worlds with a late worker are reached under every configuration that claims at all. */
  lemma OverrunIsReachable(c: Config) returns (worlds: seq<World>, steps: seq<Step>)
    requires c.batch >= 1
    ensures IsRun(c, worlds, steps) && |steps| == 3 && Exclusive(worlds[3])
    ensures IsLate(c, worlds[3], 1, 0) && HeldBy(worlds[3], 2) == {}
    ensures 0 in worlds[3].jobs && worlds[3].jobs[0].attempts == 1
  {
    var w1, w2, w3 := LateFirstClaim(c);
    PathGrows(c, [EMPTY], [], Enqueue(0, 9), w1);
    PathGrows(c, [EMPTY] + [w1], [] + [Enqueue(0, 9)], ClaimJobs(1, {0}), w2);
    worlds := [EMPTY] + [w1] + [w2];
    steps := [] + [Enqueue(0, 9)] + [ClaimJobs(1, {0})];
    PathGrows(c, worlds, steps, Advance(c.staleSeconds + 1), w3);
    worlds, steps := worlds + [w3], steps + [Advance(c.staleSeconds + 1)];
  }

  // ---------------------------------------------------------------- one worker's batch

  function OutcomeOf(kind: Id, handled: set<Id>, r: Result<(), string>): Outcome {
    if kind !in handled then NoHandler("no handler")
    else match r
      case Ok(_) => Success
      case Err(message) => Error(message)
  }

  /** What is known between two jobs of a batch: the first k are done, the others are held
      as they were claimed. */
  ghost predicate MidBatch(c: Config, w: World, worker: Id, ran: seq<Id>, k: nat, base: Jobs, now: int,
                           handled: set<Id>, outcome: Id -> Result<(), string>, clock: Id -> int)
    requires k <= |ran|
  {
    && w.jobs == RanAll(base, Elements(ran), Elements(ran[..k]), now, c.maxAttempts, handled, outcome, clock)
    && (forall l :: k <= l < |ran| ==> (worker, ran[l]) in w.held)
    && (forall l :: k <= l < |ran| ==> w.now <= clock(ran[l]))
  }

  lemma RunOneJob(c: Config, w: World, worker: Id, ran: seq<Id>, k: nat, base: Jobs, now: int,
                  handled: set<Id>, outcome: Id -> Result<(), string>, clock: Id -> int)
    returns (w1: World, w2: World, w3: World)
    requires Distinct(ran) && k < |ran| && Elements(ran) <= base.Keys
    requires MidBatch(c, w, worker, ran, k, base, now, handled, outcome, clock)
    requires forall l, m :: 0 <= l < m < |ran| ==> clock(ran[l]) <= clock(ran[m])
    ensures var i := ran[k];
      && Moves(c, w, Start(worker, i), w1) && Moves(c, w1, Advance(clock(i)), w2)
      && i in base && Moves(c, w2, Finish(worker, i, OutcomeOf(base[i].kind, handled, outcome(i))), w3)
    ensures MidBatch(c, w3, worker, ran, k + 1, base, now, handled, outcome, clock)
  {
    var i := ran[k];
    RanOneMore(base, ran, k, now, c.maxAttempts, handled, outcome, clock);
    var j := w.jobs[i];
    MergedIsResult(c, j, OutcomeOf(j.kind, handled, outcome(i)), clock(i));
    w1 := Apply(c, w, Start(worker, i));
    w2 := Apply(c, w1, Advance(clock(i)));
    w3 := Apply(c, w2, Finish(worker, i, OutcomeOf(j.kind, handled, outcome(i))));
  }

  lemma PathPrepends(c: Config, w: World, s: Step, worlds: seq<World>, steps: seq<Step>)
    requires IsPath(c, worlds, steps) && Moves(c, w, s, worlds[0])
    ensures IsPath(c, [w] + worlds, [s] + steps)
  {
    var more, longer := [w] + worlds, [s] + steps;
    forall i | 0 <= i < |longer|
      ensures Moves(c, more[i], longer[i], more[i + 1])
    {
      if i > 0 { assert Moves(c, worlds[i - 1], steps[i - 1], worlds[i]); }
    }
  }

  lemma {:induction false} RunRest(c: Config, w: World, worker: Id, ran: seq<Id>, k: nat, base: Jobs, now: int,
                                   handled: set<Id>, outcome: Id -> Result<(), string>, clock: Id -> int)
    returns (worlds: seq<World>, steps: seq<Step>)
    requires Distinct(ran) && k <= |ran| && Elements(ran) <= base.Keys
    requires MidBatch(c, w, worker, ran, k, base, now, handled, outcome, clock)
    requires forall l, m :: 0 <= l < m < |ran| ==> clock(ran[l]) <= clock(ran[m])
    ensures IsPath(c, worlds, steps) && worlds[0] == w
    ensures MidBatch(c, worlds[|steps|], worker, ran, |ran|, base, now, handled, outcome, clock)
    decreases |ran| - k
  {
    if k == |ran| {
      worlds, steps := [w], [];
    } else {
      var w1, w2, w3 := RunOneJob(c, w, worker, ran, k, base, now, handled, outcome, clock);
      worlds, steps := RunRest(c, w3, worker, ran, k + 1, base, now, handled, outcome, clock);
      var done := Finish(worker, ran[k], OutcomeOf(base[ran[k]].kind, handled, outcome(ran[k])));
      PathPrepends(c, w2, done, worlds, steps);
      PathPrepends(c, w1, Advance(clock(ran[k])), [w2] + worlds, [done] + steps);
      PathPrepends(c, w, Start(worker, ran[k]), [w1] + ([w2] + worlds), [Advance(clock(ran[k]))] + ([done] + steps));
      worlds := [w] + ([w1] + ([w2] + worlds));
      steps := [Start(worker, ran[k])] + ([Advance(clock(ran[k]))] + ([done] + steps));
    }
  }

  lemma NoneRan(jobs: Jobs, ran: seq<Id>, now: int, maxAttempts: nat, handled: set<Id>,
                outcome: Id -> Result<(), string>, clock: Id -> int)
    ensures RanAll(jobs, Elements(ran), Elements(ran[..0]), now, maxAttempts, handled, outcome, clock)
      == ClaimAll(jobs, Elements(ran), now)
  {
    assert Elements(ran[..0]) == {};
  }

  lemma BatchBegins(c: Config, w: World, worker: Id, ran: seq<Id>, now: int,
                    handled: set<Id>, outcome: Id -> Result<(), string>, clock: Id -> int)
    returns (w': World)
    requires Elements(ran) <= Due(w.jobs, w.now) && |Elements(ran)| <= c.batch && HeldBy(w, worker) == {}
    requires w.now == now && forall l :: 0 <= l < |ran| ==> now <= clock(ran[l])
    ensures Moves(c, w, ClaimJobs(worker, Elements(ran)), w')
    ensures Elements(ran) <= w.jobs.Keys
    ensures MidBatch(c, w', worker, ran, 0, w.jobs, now, handled, outcome, clock)
  {
    w' := Apply(c, w, ClaimJobs(worker, Elements(ran)));
    NoneRan(w.jobs, ran, now, c.maxAttempts, handled, outcome, clock);
    forall l | 0 <= l < |ran|
      ensures (worker, ran[l]) in w'.held
    {
      assert ran[l] in Elements(ran);
      ClaimHolds(c, w, worker, Elements(ran), (worker, ran[l]));
    }
  }

  lemma BatchIsPrepared(c: Config, w: World, worker: Id, reapAt: int, now: int)
    returns (w1: World, w2: World, w3: World)
    requires w.now <= reapAt <= now
    ensures Moves(c, w, Advance(reapAt), w1) && Moves(c, w1, Reap, w2) && Moves(c, w2, Advance(now), w3)
    ensures w3.jobs == Reaped(w.jobs, reapAt, c.staleSeconds) && w3.now == now
    ensures HeldBy(w3, worker) == HeldBy(w, worker)
  {
    w1 := Apply(c, w, Advance(reapAt));
    w2 := Apply(c, w1, Reap);
    w3 := Apply(c, w2, Advance(now));
  }

  lemma FourThenRest(c: Config, w: World, w1: World, w2: World, w3: World, reapAt: int, now: int,
                     worker: Id, chosen: set<Id>, rest: seq<World>, more: seq<Step>)
    returns (worlds: seq<World>, steps: seq<Step>)
    requires Moves(c, w, Advance(reapAt), w1) && Moves(c, w1, Reap, w2) && Moves(c, w2, Advance(now), w3)
    requires IsPath(c, rest, more) && Moves(c, w3, ClaimJobs(worker, chosen), rest[0])
    ensures IsPath(c, worlds, steps) && worlds[0] == w && worlds[|steps|] == rest[|more|]
  {
    PathPrepends(c, w3, ClaimJobs(worker, chosen), rest, more);
    worlds, steps := [w3] + rest, [ClaimJobs(worker, chosen)] + more;
    PathPrepends(c, w2, Advance(now), worlds, steps);
    worlds, steps := [w2] + worlds, [Advance(now)] + steps;
    PathPrepends(c, w1, Reap, worlds, steps);
    worlds, steps := [w1] + worlds, [Reap] + steps;
    PathPrepends(c, w, Advance(reapAt), worlds, steps);
    worlds, steps := [w] + worlds, [Advance(reapAt)] + steps;
  }

  /** One worker's `run_once`, while nobody else moves, is a path of protocol steps: reap,
      claim, then start and finish each job of the batch in turn. So what holds in every
      run holds of the tables that method writes. */
  lemma RunOnceIsAPath(c: Config, w: World, worker: Id, reapAt: int, now: int, locked: set<Id>, ran: seq<Id>,
                       handled: set<Id>, outcome: Id -> Result<(), string>, clock: Id -> int)
    returns (worlds: seq<World>, steps: seq<Step>)
    requires w.now <= reapAt <= now && HeldBy(w, worker) == {}
    requires var reaped := Reaped(w.jobs, reapAt, c.staleSeconds);
      IsOldestBatch(reaped, Due(reaped, now) - locked, c.batch, ran)
    requires forall l :: 0 <= l < |ran| ==> now <= clock(ran[l])
    requires forall l, m :: 0 <= l < m < |ran| ==> clock(ran[l]) <= clock(ran[m])
    ensures IsPath(c, worlds, steps) && worlds[0] == w
    ensures worlds[|steps|].jobs
      == RanAll(Reaped(w.jobs, reapAt, c.staleSeconds), Elements(ran), Elements(ran), now, c.maxAttempts, handled,
                outcome, clock)
  {
    var w1, w2, w3 := BatchIsPrepared(c, w, worker, reapAt, now);
    DistinctSize(ran);
    var w4 := BatchBegins(c, w3, worker, ran, now, handled, outcome, clock);
    var rest, more := RunRest(c, w4, worker, ran, 0, w3.jobs, now, handled, outcome, clock);
    assert ran[..|ran|] == ran;
    worlds, steps := FourThenRest(c, w, w1, w2, w3, reapAt, now, worker, Elements(ran), rest, more);
  }
}
