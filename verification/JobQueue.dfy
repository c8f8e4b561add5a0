/** The job table as one worker updates it: reap, claim a batch, run it, and record
    each result with retry and capped exponential backoff. */
module JobQueue {
  import opened Basics

  datatype Status = Queued | Running | Succeeded | Failed

  datatype Job = Job(kind: Id, status: Status, attempts: nat, runAfter: Option<int>,
                     createdAt: int, updatedAt: int, error: Option<string>)

  type Jobs = map<Id, Job>

  // ---------------------------------------------------------------- backoff

  function Pow2(n: nat): nat {
    if n == 0 then 1 else 2 * Pow2(n - 1)
  }

  /** Seconds to wait after the attempts-th claim failed. */
  function Backoff(attempts: nat): nat
    requires attempts >= 1
  {
    Min(30 * Pow2(attempts - 1), 3600)
  }

  /** Delays lie between 30 seconds and an hour and never get shorter. */
  lemma {:induction false} BackoffGrowsWithinBounds(a: nat, b: nat)
    requires 1 <= a <= b
    ensures 30 <= Backoff(a) <= Backoff(b) <= 3600
    decreases b
  {
    if a < b {
      BackoffGrowsWithinBounds(a, b - 1);
    } else if a > 1 {
      BackoffGrowsWithinBounds(a - 1, a - 1);
    }
  }

  /** The delay doubles up to the seventh attempt; from the eighth on it is an hour. */
  lemma {:induction false} BackoffCapsFromEighth(a: nat)
    requires a >= 1
    ensures a <= 7 ==> Backoff(a) == 30 * Pow2(a - 1)
    ensures a >= 8 ==> Backoff(a) == 3600
  {
    assert Pow2(1) == 2 && Pow2(2) == 4 && Pow2(3) == 8;
    assert Pow2(4) == 16 && Pow2(5) == 32 && Pow2(6) == 64 && Pow2(7) == 128;
    if a > 8 { BackoffGrowsWithinBounds(8, a); }
  }

  /** The delays one by one: 30 seconds after the first attempt, an hour from the eighth on. */
  lemma BackoffTable(a: nat)
    requires a >= 1
    ensures Backoff(a) == match a
      case 1 => 30
      case 2 => 60
      case 3 => 120
      case 4 => 240
      case 5 => 480
      case 6 => 960
      case 7 => 1920
      case _ => 3600
  {
    BackoffCapsFromEighth(a);
    assert Pow2(1) == 2 && Pow2(2) == 4 && Pow2(3) == 8 && Pow2(4) == 16 && Pow2(5) == 32 && Pow2(6) == 64;
  }

  // ---------------------------------------------------------------- effects on rows

  predicate IsStale(j: Job, now: int, staleSeconds: nat) {
    j.status == Running && j.updatedAt < now - staleSeconds
  }

  function Reaped(jobs: Jobs, now: int, staleSeconds: nat): Jobs {
    map i | i in jobs ::
      if IsStale(jobs[i], now, staleSeconds) then jobs[i].(status := Queued, updatedAt := now) else jobs[i]
  }

  predicate IsDue(j: Job, now: int) {
    j.status == Queued && (j.runAfter.Some? ==> j.runAfter.value <= now)
  }

  function Due(jobs: Jobs, now: int): set<Id> {
    set i | i in jobs && IsDue(jobs[i], now)
  }

  function Claim(j: Job, now: int): Job {
    j.(status := Running, attempts := j.attempts + 1, updatedAt := now)
  }

  function ClaimAll(jobs: Jobs, chosen: set<Id>, now: int): Jobs {
    map i | i in jobs :: if i in chosen then Claim(jobs[i], now) else jobs[i]
  }

  function Succeed(j: Job, now: int): Job {
    j.(status := Succeeded, error := None, updatedAt := now)
  }

  /** Retry later while attempts remain, otherwise give up. */
  function Fail(j: Job, now: int, maxAttempts: nat, message: string): Job
    requires j.attempts >= 1
  {
    if j.attempts < maxAttempts then
      j.(status := Queued, runAfter := Some(now + Backoff(j.attempts)), error := Some(message), updatedAt := now)
    else
      j.(status := Failed, error := Some(message), updatedAt := now)
  }

  function FailTerminally(j: Job, now: int, message: string): Job {
    j.(status := Failed, error := Some(message), updatedAt := now)
  }

  /** What running one claimed job leaves behind. A kind nobody handles fails outright. */
  function Finished(j: Job, handled: set<Id>, outcome: Result<(), string>, now: int, maxAttempts: nat): Job
    requires j.attempts >= 1
  {
    if j.kind !in handled then FailTerminally(j, now, "no handler")
    else match outcome
      case Ok(_) => Succeed(j, now)
      case Err(message) => Fail(j, now, maxAttempts, message)
  }

  /** `picked` runs oldest first and nothing in `left` is older than any of it. */
  ghost predicate OldestFirst(jobs: Jobs, picked: seq<Id>, left: set<Id>)
    requires left <= jobs.Keys && Elements(picked) <= jobs.Keys
  {
    && Distinct(picked) && left !! Elements(picked)
    && (forall i, j :: 0 <= i < j < |picked| ==> jobs[picked[i]].createdAt <= jobs[picked[j]].createdAt)
    && (forall i, f :: 0 <= i < |picked| && f in left ==> jobs[picked[i]].createdAt <= jobs[f].createdAt)
  }

  /** `picked` is the oldest-first prefix, at most `batch` long, of the free rows. */
  ghost predicate IsOldestBatch(jobs: Jobs, free: set<Id>, batch: nat, picked: seq<Id>)
    requires free <= jobs.Keys
  {
    && Elements(picked) <= free && |picked| == Min(batch, |free|)
    && OldestFirst(jobs, picked, free - Elements(picked))
  }

  lemma PickNext(jobs: Jobs, picked: seq<Id>, left: set<Id>, next: Id)
    requires left <= jobs.Keys && Elements(picked) <= jobs.Keys && OldestFirst(jobs, picked, left)
    requires next in left && forall f :: f in left ==> jobs[next].createdAt <= jobs[f].createdAt
    ensures left - {next} + Elements(picked + [next]) == left + Elements(picked)
    ensures OldestFirst(jobs, picked + [next], left - {next})
  {
    assert forall i :: 0 <= i < |picked| ==> picked[i] in Elements(picked);
    assert Elements(picked + [next]) == Elements(picked) + {next};
  }

  lemma Complement(free: set<Id>, left: set<Id>, taken: set<Id>)
    requires left + taken == free && left !! taken
    ensures left == free - taken
  {
  }

  /** The rows after `claimed` were claimed and `done` of them were run. */
  function RanAll(jobs: Jobs, claimed: set<Id>, done: set<Id>, now: int, maxAttempts: nat, handled: set<Id>,
                  outcome: Id -> Result<(), string>, clock: Id -> int): Jobs
  {
    map i | i in jobs ::
      if i !in claimed then jobs[i]
      else if i !in done then Claim(jobs[i], now)
      else Finished(Claim(jobs[i], now), handled, outcome(i), clock(i), maxAttempts)
  }

  /** Running the k-th claimed job changes its row only. */
  lemma RanOneMore(jobs: Jobs, claimed: seq<Id>, k: nat, now: int, maxAttempts: nat, handled: set<Id>,
                   outcome: Id -> Result<(), string>, clock: Id -> int)
    requires Distinct(claimed) && k < |claimed| && Elements(claimed) <= jobs.Keys
    ensures var id := claimed[k];
      var before := RanAll(jobs, Elements(claimed), Elements(claimed[..k]), now, maxAttempts, handled, outcome, clock);
      && id in jobs && id in before && before[id] == Claim(jobs[id], now)
      && RanAll(jobs, Elements(claimed), Elements(claimed[..k + 1]), now, maxAttempts, handled, outcome, clock)
         == before[id := Finished(before[id], handled, outcome(id), clock(id), maxAttempts)]
  {
    var id := claimed[k];
    assert id in Elements(claimed) && id !in claimed[..k];
    assert claimed[..k + 1] == claimed[..k] + [id];
    assert Elements(claimed[..k + 1]) == Elements(claimed[..k]) + {id};
  }

  /** A row the claim may take: queued, or running past the stale window; not due later; free. */
  predicate IsTakeable(j: Job, staleSeconds: nat, reapAt: int, now: int) {
    && (j.status == Queued || (j.status == Running && j.updatedAt < reapAt - staleSeconds))
    && (j.runAfter.Some? ==> j.runAfter.value <= now)
  }

  /** The claim in terms of the rows: at most `batch` free rows that may be taken, none left while
      there is room, none younger than one left; each is running now with one attempt more. Of
      the others only stale ones changed, back to queued. */
  ghost predicate ClaimsDueRows(before: Jobs, after: Jobs, claimed: seq<Id>, batch: nat, staleSeconds: nat,
                                reapAt: int, now: int, locked: set<Id>) {
    && |claimed| <= batch && after.Keys == before.Keys
    && (forall i :: i in claimed ==>
          && i in before && i !in locked && IsTakeable(before[i], staleSeconds, reapAt, now)
          && after[i] == before[i].(status := Running, attempts := before[i].attempts + 1, updatedAt := now))
    && (forall f :: f in before && f !in claimed && f !in locked && IsTakeable(before[f], staleSeconds, reapAt, now) ==>
          |claimed| == batch && forall i :: i in claimed ==> before[i].createdAt <= before[f].createdAt)
    && (forall i :: i in before && i !in claimed ==>
          after[i] == if before[i].status == Running && before[i].updatedAt < reapAt - staleSeconds
                      then before[i].(status := Queued, updatedAt := reapAt) else before[i])
  }

  lemma OldestAreTakenFirst(jobs: Jobs, free: set<Id>, batch: nat, picked: seq<Id>, f: Id)
    requires free <= jobs.Keys && IsOldestBatch(jobs, free, batch, picked) && f in free && f !in picked
    ensures |picked| == batch && forall i :: i in picked ==> jobs[i].createdAt <= jobs[f].createdAt
  {
    assert f in free - Elements(picked);
    if |picked| == |free| {
      DistinctSize(picked);
      SubsetSize(Elements(picked), free);
    }
  }

  lemma FreeMeansTakeable(jobs: Jobs, staleSeconds: nat, reapAt: int, now: int, locked: set<Id>, i: Id)
    ensures i in Due(Reaped(jobs, reapAt, staleSeconds), now) - locked
      <==> i in jobs && i !in locked && IsTakeable(jobs[i], staleSeconds, reapAt, now)
  {
  }

  lemma LeftAreYounger(jobs: Jobs, claimed: seq<Id>, batch: nat, staleSeconds: nat, reapAt: int, now: int,
                       locked: set<Id>, f: Id)
    requires var reaped := Reaped(jobs, reapAt, staleSeconds);
      IsOldestBatch(reaped, Due(reaped, now) - locked, batch, claimed)
    requires f in jobs && f !in claimed && f !in locked && IsTakeable(jobs[f], staleSeconds, reapAt, now)
    ensures |claimed| == batch
    ensures forall i :: i in claimed ==> i in jobs && jobs[i].createdAt <= jobs[f].createdAt
  {
    var reaped := Reaped(jobs, reapAt, staleSeconds);
    FreeMeansTakeable(jobs, staleSeconds, reapAt, now, locked, f);
    OldestAreTakenFirst(reaped, Due(reaped, now) - locked, batch, claimed, f);
    forall i | i in claimed
      ensures i in jobs && reaped[i].createdAt == jobs[i].createdAt
    {
      assert i in Elements(claimed);
    }
  }

  lemma ClaimedRow(jobs: Jobs, claimed: seq<Id>, batch: nat, staleSeconds: nat, reapAt: int, now: int,
                   locked: set<Id>, i: Id)
    requires var reaped := Reaped(jobs, reapAt, staleSeconds);
      IsOldestBatch(reaped, Due(reaped, now) - locked, batch, claimed)
    requires i in claimed
    ensures i in jobs && i !in locked && IsTakeable(jobs[i], staleSeconds, reapAt, now)
    ensures ClaimAll(Reaped(jobs, reapAt, staleSeconds), Elements(claimed), now)[i]
      == jobs[i].(status := Running, attempts := jobs[i].attempts + 1, updatedAt := now)
  {
    assert i in Elements(claimed);
    FreeMeansTakeable(jobs, staleSeconds, reapAt, now, locked, i);
  }

  lemma ClaimedAreDue(before: Jobs, after: Jobs, claimed: seq<Id>, batch: nat, staleSeconds: nat,
                      reapAt: int, now: int, locked: set<Id>)
    requires var reaped := Reaped(before, reapAt, staleSeconds);
      && IsOldestBatch(reaped, Due(reaped, now) - locked, batch, claimed)
      && after == ClaimAll(reaped, Elements(claimed), now)
    ensures ClaimsDueRows(before, after, claimed, batch, staleSeconds, reapAt, now, locked)
  {
    forall i | i in claimed
      ensures i in before && i !in locked && IsTakeable(before[i], staleSeconds, reapAt, now)
      ensures after[i] == before[i].(status := Running, attempts := before[i].attempts + 1, updatedAt := now)
    {
      ClaimedRow(before, claimed, batch, staleSeconds, reapAt, now, locked, i);
    }
    forall f | f in before && f !in claimed && f !in locked && IsTakeable(before[f], staleSeconds, reapAt, now)
      ensures |claimed| == batch && forall i :: i in claimed ==> before[i].createdAt <= before[f].createdAt
    {
      LeftAreYounger(before, claimed, batch, staleSeconds, reapAt, now, locked, f);
    }
    assert forall i :: i !in claimed ==> i !in Elements(claimed);
  }

  class Queue {
    var jobs: Jobs

    method ReapStale(now: int, staleSeconds: nat) returns (n: nat)
      modifies this
      ensures jobs.Keys == old(jobs).Keys
      ensures forall i :: i in old(jobs) ==>
        jobs[i] == if old(jobs)[i].status == Running && old(jobs)[i].updatedAt < now - staleSeconds
                   then old(jobs)[i].(status := Queued, updatedAt := now) else old(jobs)[i]
      ensures n == |set i | i in old(jobs) && IsStale(old(jobs)[i], now, staleSeconds)|
    {
      n := |set i | i in jobs && IsStale(jobs[i], now, staleSeconds)|;
      jobs := Reaped(jobs, now, staleSeconds);
    }

    /** The oldest of the free rows. */
    method Oldest(free: set<Id>) returns (oldest: Id)
      requires free != {} && free <= jobs.Keys
      ensures oldest in free && forall f :: f in free ==> jobs[oldest].createdAt <= jobs[f].createdAt
    {
      oldest :| oldest in free;
      var rest := free - {oldest};
      while rest != {}
        invariant oldest in free && rest <= free
        invariant forall f :: f in free - rest ==> jobs[oldest].createdAt <= jobs[f].createdAt
      {
        var f :| f in rest;
        rest := rest - {f};
        if jobs[f].createdAt < jobs[oldest].createdAt { oldest := f; }
      }
    }

    /** The oldest free rows first, at most `batch` of them. */
    method PickOldest(free: set<Id>, batch: nat) returns (picked: seq<Id>)
      requires free <= jobs.Keys
      ensures IsOldestBatch(jobs, free, batch, picked)
    {
      var left := free;
      picked := [];
      while |picked| < batch && left != {}
        invariant left + Elements(picked) == free
        invariant OldestFirst(jobs, picked, left)
        invariant |left| + |picked| == |free| && |picked| <= batch
        decreases left
      {
        var next := Oldest(left);
        PickNext(jobs, picked, left, next);
        picked := picked + [next];
        left := left - {next};
      }
      Complement(free, left, Elements(picked));
    }

    method MarkRunning(claimed: seq<Id>, now: int)
      requires Distinct(claimed) && Elements(claimed) <= jobs.Keys
      modifies this
      ensures jobs == ClaimAll(old(jobs), Elements(claimed), now)
    {
      for i := 0 to |claimed|
        invariant jobs == ClaimAll(old(jobs), Elements(claimed[..i]), now)
      {
        var id := claimed[i];
        assert Elements(claimed[..i + 1]) == Elements(claimed[..i]) + {id};
        assert id !in claimed[..i] && id in Elements(claimed);
        jobs := jobs[id := jobs[id].(status := Running, attempts := jobs[id].attempts + 1, updatedAt := now)];
      }
      assert claimed[..|claimed|] == claimed;
    }

    /** Re-queue stale rows, then take the oldest due rows that no other transaction
        has locked, and publish the claim. */
    method ClaimBatch(batch: nat, staleSeconds: nat, reapAt: int, now: int, locked: set<Id>)
      returns (claimed: seq<Id>)
      modifies this
      ensures var reaped := Reaped(old(jobs), reapAt, staleSeconds);
        && IsOldestBatch(reaped, Due(reaped, now) - locked, batch, claimed)
        && jobs == ClaimAll(reaped, Elements(claimed), now)
      ensures ClaimsDueRows(old(jobs), jobs, claimed, batch, staleSeconds, reapAt, now, locked)
    {
      var _ := ReapStale(reapAt, staleSeconds);
      assert jobs == Reaped(old(jobs), reapAt, staleSeconds);
      claimed := PickOldest(Due(jobs, now) - locked, batch);
      MarkRunning(claimed, now);
      ClaimedAreDue(old(jobs), jobs, claimed, batch, staleSeconds, reapAt, now, locked);
    }

    method FinalizeSuccess(id: Id, now: int)
      requires id in jobs
      modifies this
      ensures jobs.Keys == old(jobs).Keys && forall i :: i in jobs && i != id ==> jobs[i] == old(jobs)[i]
      ensures jobs[id].status == Succeeded && jobs[id].error == None && jobs[id].updatedAt == now
      ensures jobs[id].attempts == old(jobs)[id].attempts && jobs[id].runAfter == old(jobs)[id].runAfter
      ensures jobs[id].kind == old(jobs)[id].kind && jobs[id].createdAt == old(jobs)[id].createdAt
    {
      jobs := jobs[id := jobs[id].(status := Succeeded, error := None, updatedAt := now)];
    }

    method FinalizeFailure(id: Id, now: int, maxAttempts: nat, message: string)
      requires id in jobs && jobs[id].attempts >= 1
      modifies this
      ensures jobs == old(jobs)[id := Fail(old(jobs)[id], now, maxAttempts, message)]
      ensures var before := old(jobs)[id];
        && jobs[id].kind == before.kind && jobs[id].attempts == before.attempts
        && jobs[id].createdAt == before.createdAt && jobs[id].updatedAt == now && jobs[id].error == Some(message)
        && jobs[id].status == (if before.attempts < maxAttempts then Queued else Failed)
        && jobs[id].runAfter
           == if before.attempts < maxAttempts then Some(now + Backoff(before.attempts)) else before.runAfter
    {
      var row := jobs[id].(error := Some(message), updatedAt := now);
      if row.attempts < maxAttempts {
        row := row.(status := Queued);
        row := row.(runAfter := Some(now + Backoff(row.attempts)));
      } else {
        row := row.(status := Failed);
      }
      jobs := jobs[id := row];
    }

    method FinalizeTerminalFailure(id: Id, now: int, message: string)
      requires id in jobs
      modifies this
      ensures jobs.Keys == old(jobs).Keys && forall i :: i in jobs && i != id ==> jobs[i] == old(jobs)[i]
      ensures jobs[id].status == Failed && jobs[id].error == Some(message) && jobs[id].updatedAt == now
      ensures jobs[id].attempts == old(jobs)[id].attempts && jobs[id].runAfter == old(jobs)[id].runAfter
      ensures jobs[id].kind == old(jobs)[id].kind && jobs[id].createdAt == old(jobs)[id].createdAt
    {
      jobs := jobs[id := jobs[id].(error := Some(message), status := Failed, updatedAt := now)];
    }

    /** Run one claimed job and record its result. */
    method RunJob(id: Id, now: int, maxAttempts: nat, handled: set<Id>, outcome: Result<(), string>)
      requires id in jobs && jobs[id].attempts >= 1
      modifies this
      ensures jobs == old(jobs)[id := Finished(old(jobs)[id], handled, outcome, now, maxAttempts)]
      ensures jobs[id].status ==
        if old(jobs)[id].kind !in handled then Failed
        else if outcome.Ok? then Succeeded
        else if old(jobs)[id].attempts < maxAttempts then Queued else Failed
    {
      if jobs[id].kind !in handled {
        FinalizeTerminalFailure(id, now, "no handler");
      } else {
        match outcome
        case Err(message) => FinalizeFailure(id, now, maxAttempts, message);
        case Ok(_) => FinalizeSuccess(id, now);
      }
    }

    /** Claim one batch and run each job in turn; one bad job does not stop the rest.
        `outcome` and `clock` give what each handler does and when it ends. */
    method RunOnce(batch: nat, staleSeconds: nat, maxAttempts: nat, reapAt: int, now: int, locked: set<Id>,
                   handled: set<Id>, outcome: Id -> Result<(), string>, clock: Id -> int)
      returns (count: nat, ghost ran: seq<Id>)
      modifies this
      ensures var reaped := Reaped(old(jobs), reapAt, staleSeconds);
        && IsOldestBatch(reaped, Due(reaped, now) - locked, batch, ran) && count == |ran|
        && jobs == RanAll(reaped, Elements(ran), Elements(ran), now, maxAttempts, handled, outcome, clock)
    {
      var claimed := ClaimBatch(batch, staleSeconds, reapAt, now, locked);
      ghost var reaped := Reaped(old(jobs), reapAt, staleSeconds);
      for k := 0 to |claimed|
        invariant jobs == RanAll(reaped, Elements(claimed), Elements(claimed[..k]), now, maxAttempts, handled,
                                 outcome, clock)
      {
        var id := claimed[k];
        RanOneMore(reaped, claimed, k, now, maxAttempts, handled, outcome, clock);
        RunJob(id, clock(id), maxAttempts, handled, outcome(id));
      }
      assert claimed[..|claimed|] == claimed;
      count, ran := |claimed|, claimed;
    }
  }
}
