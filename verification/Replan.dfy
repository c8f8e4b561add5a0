/** Drift detection and the re-planner: base slips, their cascade downstream, the
    proposed changes, and what applying them achieves. */
module Replan {
  import opened Basics
  import opened Graphs
  import opened RoadmapTables
  import opened TopoSort

  const REPLAN_BUFFER_DAYS := 7

  type Milestones = map<Id, Milestone>
  type Shifts = map<Id, nat>

  // ---------------------------------------------------------------- specification

  predicate IsLate(m: Milestone, today: int) {
    m.due.Some? && m.due.value < today && m.status != Done
  }

  /** The milestones `detect_drift` reports. */
  function Drift(ms: Milestones, today: int): (late: set<Id>)
    ensures forall m :: m in late <==> m in ms && ms[m].due.Some? && ms[m].due.value < today && ms[m].status != Done
  {
    set m | m in ms && IsLate(ms[m], today)
  }

  /** A late milestone must slip to a week from today; anything else stays put. */
  function BaseShift(m: Milestone, today: int): nat {
    if IsLate(m, today) then Max(0, today + REPLAN_BUFFER_DAYS - m.due.value) else 0
  }

  function BaseShifts(ms: Milestones, today: int): Shifts {
    map m | m in ms :: BaseShift(ms[m], today)
  }

  /** Milestone b is upstream of milestone a when some task of a depends on some task
      of b and the two milestones differ. */
  function Precedence(t: Tables, r: Id): Edges {
    set e | e in t.deps && InRoadmap(t, r, e.0) && InRoadmap(t, r, e.1)
            && t.tasks[e.0].milestone != t.tasks[e.1].milestone
      :: (t.tasks[e.0].milestone, t.tasks[e.1].milestone)
  }

  function MilestonesOf(t: Tables, r: Id): Milestones {
    map m | m in t.milestones && OwnsMilestone(t, r, m) :: t.milestones[m]
  }

  /** A slip that m itself or something upstream of m actually has. */
  ghost predicate DrivenBy(g: Edges, base: Shifts, m: Id, s: nat) {
    exists u :: u in base && Reaches(g, m, u) && base[u] == s
  }

  /** What the cascade promises on any graph, whatever order nodes and predecessor
      sets are walked in: nothing moves less than its own slip, every shift is some
      upstream milestone's slip, and a downstream moves at least as far as its
      upstream unless the two lie on a common cycle. */
  ghost predicate IsCascade(g: Edges, base: Shifts, shift: Shifts) {
    && shift.Keys == base.Keys
    && (forall m :: m in base ==> base[m] <= shift[m])
    && (forall m {:trigger DrivenBy(g, base, m, shift[m])} :: m in base ==>
          DrivenBy(g, base, m, shift[m]))
    && (forall d, u :: (d, u) in g && d in base && u in base ==>
          shift[u] <= shift[d] || Reaches(g, u, d))
  }

  /** The stored explanation tells the truth about what moved the milestone. */
  ghost predicate Explains(ms: Milestones, g: Edges, today: int, shift: Shifts, c: Change)
    requires c.milestone in ms && c.milestone in shift
  {
    var own, s := BaseShift(ms[c.milestone], today), shift[c.milestone];
    match c.reason
    case Overdue(days) => own == s && days > 0 && c.oldDue + days == today
    case OverdueAndPushed(days, moved, driver) =>
      && 0 < own < s && moved == s && days > 0 && c.oldDue + days == today
      && (c.milestone, driver) in g && driver in shift && shift[driver] == s
    case Pushed(moved, driver) =>
      && own == 0 && moved == s
      && (c.milestone, driver) in g && driver in shift && shift[driver] == s
  }

  ghost predicate NobodyTwice(changes: seq<Change>) {
    forall j, k :: 0 <= j < k < |changes| ==> changes[j].milestone != changes[k].milestone
  }

  predicate Proposes(changes: seq<Change>, m: Id) {
    exists c :: c in changes && c.milestone == m
  }

  /** One change for every dated milestone with a positive shift, and no other. */
  ghost predicate ListsShifts(ms: Milestones, g: Edges, today: int, shift: Shifts, changes: seq<Change>) {
    && shift.Keys == ms.Keys
    && NobodyTwice(changes)
    && (forall c :: c in changes ==>
          && c.milestone in ms && ms[c.milestone].due == Some(c.oldDue)
          && shift[c.milestone] > 0 && c.newDue == c.oldDue + shift[c.milestone]
          && Explains(ms, g, today, shift, c))
    && (forall m {:trigger Proposes(changes, m)} ::
          m in ms && shift[m] > 0 && ms[m].due.Some? ==> Proposes(changes, m))
  }

  /** A proposal `compute_replan` may return. */
  ghost predicate IsProposal(ms: Milestones, g: Edges, today: int, changes: seq<Change>) {
    exists shift :: IsCascade(g, BaseShifts(ms, today), shift) && ListsShifts(ms, g, today, shift, changes)
  }

  /** The proposed change of m. Change ids are milestone ids, so there is at most one. */
  function ChangeOf(changes: seq<Change>, m: Id): (c: Option<Change>)
    ensures c.Some? ==> c.value in changes && c.value.milestone == m
    ensures c.None? <==> !Proposes(changes, m)
  {
    if changes == [] then None
    else if changes[|changes| - 1].milestone == m then Some(changes[|changes| - 1])
    else
      var c := ChangeOf(changes[..|changes| - 1], m);
      assert changes == changes[..|changes| - 1] + [changes[|changes| - 1]];
      c
  }

  function Moved(m: Milestone, c: Change, now: int): Milestone {
    m.(due := Some(c.newDue), replanned := Some((now, c.reason)))
  }

  /** The milestones after applying the chosen change ids. */
  function AfterReplan(ms: Milestones, changes: seq<Change>, ids: set<Id>, now: int): Milestones {
    map m | m in ms ::
      var c := ChangeOf(changes, m);
      if m in ids && c.Some? then Moved(ms[m], c.value, now) else ms[m]
  }

  // ---------------------------------------------------------------- what it achieves

  /** No edge of the path closes a cycle. */
  ghost predicate CycleFree(g: Edges, p: seq<Id>) {
    forall i :: 0 <= i < |p| - 1 ==> !Reaches(g, p[i + 1], p[i])
  }

  /** On any graph: a slip travels down every path that no cycle touches. */
  lemma {:induction false} SlipTravelsDown(g: Edges, base: Shifts, shift: Shifts, p: seq<Id>)
    requires IsCascade(g, base, shift) && IsPath(g, p) && CycleFree(g, p)
    requires forall i :: 0 <= i < |p| ==> p[i] in base
    ensures base[p[|p| - 1]] <= shift[p[0]]
  {
    if |p| > 1 {
      PathTail(g, p);
      SlipTravelsDown(g, base, shift, p[1..]);
    }
  }

  lemma {:induction false} PathInside(g: Edges, s: set<Id>, p: seq<Id>)
    requires IsPath(g, p) && p[0] in s && ClosedUnder(g, s)
    ensures forall i :: 0 <= i < |p| ==> p[i] in s
  {
    if |p| > 1 {
      PathTail(g, p);
      PathInside(g, s, p[1..]);
      forall i | 0 <= i < |p|
        ensures p[i] in s
      {
        if i > 0 { assert p[i] == p[1..][i - 1]; }
      }
    }
  }

  /** On an acyclic graph the shift is exactly the largest base slip over the milestone
      and everything upstream of it, so it does not depend on any iteration order. */
  lemma ShiftIsLargestUpstreamSlip(g: Edges, base: Shifts, shift: Shifts, m: Id)
    requires IsCascade(g, base, shift) && Acyclic(g) && m in base && ClosedUnder(g, base.Keys)
    ensures DrivenBy(g, base, m, shift[m])
    ensures forall u :: u in base && Reaches(g, m, u) ==> base[u] <= shift[m]
  {
    forall u | u in base && Reaches(g, m, u)
      ensures base[u] <= shift[m]
    {
      var p :| Joins(g, m, u, p);
      PathInside(g, base.Keys, p);
      forall i | 0 <= i < |p| - 1
        ensures !Reaches(g, p[i + 1], p[i])
      {
        assert Step(g, p, i);
      }
      SlipTravelsDown(g, base, shift, p);
    }
  }

  lemma AcyclicCascadeAtMost(g: Edges, base: Shifts, one: Shifts, two: Shifts, m: Id)
    requires IsCascade(g, base, one) && IsCascade(g, base, two)
    requires Acyclic(g) && ClosedUnder(g, base.Keys) && m in base
    ensures one[m] <= two[m]
  {
    assert DrivenBy(g, base, m, one[m]);
    ShiftIsLargestUpstreamSlip(g, base, two, m);
  }

  /** Two cascades of one acyclic graph agree, so proposals do too. */
  lemma AcyclicCascadeIsUnique(g: Edges, base: Shifts, one: Shifts, two: Shifts)
    requires IsCascade(g, base, one) && IsCascade(g, base, two)
    requires Acyclic(g) && ClosedUnder(g, base.Keys)
    ensures one == two
  {
    forall m | m in base
      ensures one[m] == two[m]
    {
      AcyclicCascadeAtMost(g, base, one, two, m);
      AcyclicCascadeAtMost(g, base, two, one, m);
    }
  }

  /** Each dated milestone moves later by exactly its shift. */
  lemma AppliedMovesByShift(ms: Milestones, g: Edges, today: int, shift: Shifts, changes: seq<Change>,
                            ids: set<Id>, now: int, m: Id)
    requires ListsShifts(ms, g, today, shift, changes)
    requires forall c :: c in changes ==> c.milestone in ids
    requires m in ms && ms[m].due.Some?
    ensures AfterReplan(ms, changes, ids, now)[m].due == Some(ms[m].due.value + shift[m])
  {
    if shift[m] > 0 {
      assert Proposes(changes, m);
    }
  }

  lemma AppliedIsNotLate(ms: Milestones, g: Edges, today: int, shift: Shifts, changes: seq<Change>,
                         ids: set<Id>, now: int, m: Id)
    requires IsCascade(g, BaseShifts(ms, today), shift) && ListsShifts(ms, g, today, shift, changes)
    requires (forall c :: c in changes ==> c.milestone in ids) && m in ms
    ensures !IsLate(AfterReplan(ms, changes, ids, now)[m], today)
  {
    if ms[m].due.Some? {
      AppliedMovesByShift(ms, g, today, shift, changes, ids, now, m);
      assert BaseShifts(ms, today)[m] <= shift[m];
    }
  }

  lemma NoSlipDrivesNothing(g: Edges, base: Shifts, m: Id, s: nat)
    requires DrivenBy(g, base, m, s)
    requires forall u :: u in base ==> base[u] == 0
    ensures s == 0
  {
  }

  lemma NothingMoves(ms: Milestones, g: Edges, today: int, shift: Shifts, changes: seq<Change>)
    requires forall m :: m in ms ==> BaseShift(ms[m], today) == 0
    requires IsCascade(g, BaseShifts(ms, today), shift) && ListsShifts(ms, g, today, shift, changes)
    ensures changes == []
  {
    if changes != [] {
      var c := changes[0];
      assert c in changes;
      NoSlipDrivesNothing(g, BaseShifts(ms, today), c.milestone, shift[c.milestone]);
    }
  }

  lemma StandingStillIsACascade(g: Edges, base: Shifts)
    requires forall m :: m in base ==> base[m] == 0
    ensures IsCascade(g, base, base)
  {
    forall m | m in base
      ensures DrivenBy(g, base, m, base[m])
    {
      ReachesSelf(g, m);
    }
  }

  lemma NothingLateNothingProposed(ms: Milestones, g: Edges, today: int, changes: seq<Change>)
    requires forall m :: m in ms ==> BaseShift(ms[m], today) == 0
    ensures IsProposal(ms, g, today, changes) <==> changes == []
  {
    var base := BaseShifts(ms, today);
    if IsProposal(ms, g, today, changes) {
      var shift :| IsCascade(g, base, shift) && ListsShifts(ms, g, today, shift, changes);
      NothingMoves(ms, g, today, shift, changes);
    }
    if changes == [] {
      StandingStillIsACascade(g, base);
      assert ListsShifts(ms, g, today, base, changes);
    }
  }

  /** Applying every proposed change leaves nothing late and nothing more to propose,
      on any graph. */
  lemma ApplyingAllIsAFixpoint(ms: Milestones, g: Edges, today: int, changes: seq<Change>,
                               ids: set<Id>, now: int, again: seq<Change>)
    requires IsProposal(ms, g, today, changes)
    requires forall c :: c in changes ==> c.milestone in ids
    ensures var after := AfterReplan(ms, changes, ids, now);
      Drift(after, today) == {} && (IsProposal(after, g, today, again) <==> again == [])
  {
    var after := AfterReplan(ms, changes, ids, now);
    var shift :| IsCascade(g, BaseShifts(ms, today), shift) && ListsShifts(ms, g, today, shift, changes);
    forall m | m in after
      ensures !IsLate(after[m], today) && BaseShift(after[m], today) == 0
    {
      AppliedIsNotLate(ms, g, today, shift, changes, ids, now, m);
    }
    NothingLateNothingProposed(after, g, today, again);
  }

  /** Applying a whole proposal never narrows the gap between two dated milestones
      along a precedence edge, except between milestones on a common cycle. */
  lemma GapNeverShrinks(ms: Milestones, g: Edges, today: int, changes: seq<Change>,
                        ids: set<Id>, now: int, d: Id, u: Id)
    requires IsProposal(ms, g, today, changes)
    requires forall c :: c in changes ==> c.milestone in ids
    requires (d, u) in g && d in ms && u in ms && ms[d].due.Some? && ms[u].due.Some?
    requires !Reaches(g, u, d)
    ensures var after := AfterReplan(ms, changes, ids, now);
      && after[d].due.Some? && after[u].due.Some?
      && after[d].due.value - after[u].due.value >= ms[d].due.value - ms[u].due.value
  {
    var shift :| IsCascade(g, BaseShifts(ms, today), shift) && ListsShifts(ms, g, today, shift, changes);
    AppliedMovesByShift(ms, g, today, shift, changes, ids, now, d);
    AppliedMovesByShift(ms, g, today, shift, changes, ids, now, u);
  }

  // ---------------------------------------------------------------- in terms of the rows

  /** m is past its date, not done, and needs so many days to come a week after today. */
  predicate NeedsDays(ms: Milestones, m: Id, today: int, days: int) {
    && m in ms && ms[m].due.Some? && ms[m].due.value < today && ms[m].status != Done
    && days == today + 7 - ms[m].due.value
  }

  /** Some milestone that m is or waits for, directly or not, needs exactly these days. */
  ghost predicate SomeoneNeeds(ms: Milestones, g: Edges, m: Id, today: int, days: int) {
    exists u :: Reaches(g, m, u) && NeedsDays(ms, u, today, days)
  }

  /** What the change does to the date and why, read off the milestone's own row. */
  ghost predicate TellsWhy(ms: Milestones, g: Edges, today: int, c: Change) {
    && c.milestone in ms && ms[c.milestone].due == Some(c.oldDue)
    && var late := c.oldDue < today && ms[c.milestone].status != Done;
       match c.reason
       case Overdue(days) => late && days == today - c.oldDue && c.newDue == today + 7
       case OverdueAndPushed(days, moved, driver) =>
         && late && days == today - c.oldDue && c.newDue > today + 7
         && moved == c.newDue - c.oldDue && (c.milestone, driver) in g
       case Pushed(moved, driver) =>
         !late && moved == c.newDue - c.oldDue > 0 && (c.milestone, driver) in g
  }

  lemma SlipIsNeeded(ms: Milestones, g: Edges, m: Id, today: int, s: nat)
    requires DrivenBy(g, BaseShifts(ms, today), m, s) && s > 0
    ensures SomeoneNeeds(ms, g, m, today, s)
  {
    var u :| u in ms && Reaches(g, m, u) && BaseShifts(ms, today)[u] == s;
    assert NeedsDays(ms, u, today, s);
  }

  lemma ListedIsNeeded(ms: Milestones, g: Edges, today: int, shift: Shifts, changes: seq<Change>, c: Change)
    requires IsCascade(g, BaseShifts(ms, today), shift) && ListsShifts(ms, g, today, shift, changes) && c in changes
    ensures TellsWhy(ms, g, today, c) && SomeoneNeeds(ms, g, c.milestone, today, c.newDue - c.oldDue)
  {
    SlipIsNeeded(ms, g, c.milestone, today, shift[c.milestone]);
  }

  lemma LateIsProposed(ms: Milestones, g: Edges, today: int, shift: Shifts, changes: seq<Change>, m: Id, days: int)
    requires IsCascade(g, BaseShifts(ms, today), shift) && ListsShifts(ms, g, today, shift, changes)
    requires NeedsDays(ms, m, today, days)
    ensures exists c :: c in changes && c.milestone == m && c.newDue >= today + 7
  {
    assert BaseShifts(ms, today)[m] <= shift[m];
    assert Proposes(changes, m);
    var c :| c in changes && c.milestone == m;
    assert c.newDue >= today + 7;
  }

  /** Every move is the number of days some late milestone at or above needs to reach a week
      from today, every late milestone is moved at least that far, and the reasons are true. */
  ghost predicate MovesOnlyTheLate(ms: Milestones, g: Edges, today: int, changes: seq<Change>) {
    && (forall c :: c in changes ==>
          TellsWhy(ms, g, today, c) && SomeoneNeeds(ms, g, c.milestone, today, c.newDue - c.oldDue))
    && (forall m, days {:trigger NeedsDays(ms, m, today, days)} :: NeedsDays(ms, m, today, days) ==>
          exists c :: c in changes && c.milestone == m && c.newDue >= today + 7)
  }

  lemma ProposalMovesOnlyTheLate(ms: Milestones, g: Edges, today: int, changes: seq<Change>)
    requires IsProposal(ms, g, today, changes)
    ensures MovesOnlyTheLate(ms, g, today, changes)
  {
    var shift :| IsCascade(g, BaseShifts(ms, today), shift) && ListsShifts(ms, g, today, shift, changes);
    forall c | c in changes
      ensures TellsWhy(ms, g, today, c) && SomeoneNeeds(ms, g, c.milestone, today, c.newDue - c.oldDue)
    {
      ListedIsNeeded(ms, g, today, shift, changes, c);
    }
    forall m, days | NeedsDays(ms, m, today, days)
      ensures exists c :: c in changes && c.milestone == m && c.newDue >= today + 7
    {
      LateIsProposed(ms, g, today, shift, changes, m, days);
    }
  }

  // ---------------------------------------------------------------- the algorithm

  /** The largest of m's own slip and the shifts its predecessors already have, and the
      predecessor that supplied it, if any did. */
  method LargestShift(m: Id, preds: Predecessors, own: nat, shift: Shifts)
    returns (s: nat, winner: Option<Id>)
    ensures own <= s
    ensures forall u :: u in PredsOf(preds, m) && u in shift ==> shift[u] <= s
    ensures winner.None? ==> s == own
    ensures winner.Some? ==>
      winner.value in PredsOf(preds, m) && winner.value in shift && shift[winner.value] == s && own < s
  {
    s, winner := own, None;
    var rest := PredsOf(preds, m);
    while rest != {}
      invariant rest <= PredsOf(preds, m)
      invariant own <= s
      invariant forall u :: u in PredsOf(preds, m) && u !in rest && u in shift ==> shift[u] <= s
      invariant winner.None? ==> s == own
      invariant winner.Some? ==>
        winner.value in PredsOf(preds, m) && winner.value in shift && shift[winner.value] == s && own < s
    {
      var up :| up in rest;
      rest := rest - {up};
      if (if up in shift then shift[up] else 0) > s {
        s := shift[up];
        winner := Some(up);
      }
    }
  }

  /** m took the largest value on offer when its turn came. */
  ghost predicate TakesLargest(earlier: seq<Id>, preds: Predecessors, base: Shifts, shift: Shifts,
                               winner: map<Id, Option<Id>>, m: Id)
    requires m in base
  {
    && m in shift && m in winner
    && base[m] <= shift[m]
    && (forall u :: u in PredsOf(preds, m) && u in earlier ==> u in shift && shift[u] <= shift[m])
    && match winner[m] {
         case None => shift[m] == base[m]
         case Some(w) =>
           w in PredsOf(preds, m) && w in earlier && w in shift && shift[w] == shift[m] && base[m] < shift[m]
       }
  }

  ghost predicate AllTakeLargest(order: seq<Id>, preds: Predecessors, base: Shifts, shift: Shifts,
                                 winner: map<Id, Option<Id>>)
    requires forall m :: m in order ==> m in base
  {
    forall i {:trigger TakesLargest(order[..i], preds, base, shift, winner, order[i])} ::
      0 <= i < |order| ==> TakesLargest(order[..i], preds, base, shift, winner, order[i])
  }

  /** Giving the next milestone its shift disturbs nobody before it. */
  lemma NextTakesLargest(order: seq<Id>, m: Id, preds: Predecessors, base: Shifts, shift: Shifts,
                         winner: map<Id, Option<Id>>, s: nat, w: Option<Id>)
    requires (forall k :: k in order ==> k in base) && m in base && m !in order
    requires AllTakeLargest(order, preds, base, shift, winner)
    requires TakesLargest(order, preds, base, shift[m := s], winner[m := w], m)
    ensures AllTakeLargest(order + [m], preds, base, shift[m := s], winner[m := w])
  {
    var longer := order + [m];
    forall k | 0 <= k < |longer|
      ensures TakesLargest(longer[..k], preds, base, shift[m := s], winner[m := w], longer[k])
    {
      if k < |order| {
        assert longer[..k] == order[..k] && longer[k] == order[k];
        assert TakesLargest(order[..k], preds, base, shift, winner, order[k]);
      } else {
        assert longer[..k] == order;
      }
    }
  }

  lemma PrefixGrows(order: seq<Id>, i: nat)
    requires Distinct(order) && i < |order|
    ensures order[..i + 1] == order[..i] + [order[i]] && order[i] !in order[..i]
    ensures Elements(order[..i + 1]) == Elements(order[..i]) + {order[i]}
  {
    assert order[..i + 1] == order[..i] + [order[i]];
  }

  lemma TurnTakesLargest(earlier: seq<Id>, preds: Predecessors, base: Shifts, shift: Shifts,
                         winner: map<Id, Option<Id>>, m: Id, s: nat, w: Option<Id>)
    requires m in base && m !in earlier && shift.Keys == Elements(earlier)
    requires base[m] <= s && forall u :: u in PredsOf(preds, m) && u in shift ==> shift[u] <= s
    requires w.None? ==> s == base[m]
    requires w.Some? ==> w.value in PredsOf(preds, m) && w.value in shift && shift[w.value] == s && base[m] < s
    ensures TakesLargest(earlier, preds, base, shift[m := s], winner[m := w], m)
  {
    forall u | u in earlier
      ensures u in shift && u != m
    {
      assert u in Elements(earlier);
    }
  }

  lemma OneMoreTurn(order: seq<Id>, i: nat, preds: Predecessors, base: Shifts, shift: Shifts,
                    winner: map<Id, Option<Id>>, s: nat, w: Option<Id>)
    requires Distinct(order) && (forall m :: m in order ==> m in base) && i < |order|
    requires shift.Keys == Elements(order[..i]) && winner.Keys == Elements(order[..i])
    requires AllTakeLargest(order[..i], preds, base, shift, winner)
    requires base[order[i]] <= s && forall u :: u in PredsOf(preds, order[i]) && u in shift ==> shift[u] <= s
    requires w.None? ==> s == base[order[i]]
    requires w.Some? ==>
      w.value in PredsOf(preds, order[i]) && w.value in shift && shift[w.value] == s && base[order[i]] < s
    ensures shift[order[i] := s].Keys == winner[order[i] := w].Keys == Elements(order[..i + 1])
    ensures AllTakeLargest(order[..i + 1], preds, base, shift[order[i] := s], winner[order[i] := w])
  {
    PrefixGrows(order, i);
    TurnTakesLargest(order[..i], preds, base, shift, winner, order[i], s, w);
    NextTakesLargest(order[..i], order[i], preds, base, shift, winner, s, w);
  }

  /** Fill in the shifts along the sorted order. */
  method Propagate(order: seq<Id>, preds: Predecessors, base: Shifts)
    returns (shift: Shifts, winner: map<Id, Option<Id>>)
    requires Distinct(order) && forall m :: m in order ==> m in base
    ensures shift.Keys == Elements(order) && winner.Keys == Elements(order)
    ensures AllTakeLargest(order, preds, base, shift, winner)
  {
    shift, winner := map[], map[];
    for i := 0 to |order|
      invariant shift.Keys == Elements(order[..i]) && winner.Keys == Elements(order[..i])
      invariant AllTakeLargest(order[..i], preds, base, shift, winner)
    {
      var m := order[i];
      var s, w := LargestShift(m, preds, base[m], shift);
      OneMoreTurn(order, i, preds, base, shift, winner, s, w);
      shift := shift[m := s];
      winner := winner[m := w];
    }
    assert order[..|order|] == order;
  }

  lemma IndexIn(s: seq<Id>, x: Id) returns (i: nat)
    requires x in Elements(s)
    ensures i < |s| && s[i] == x
  {
    i :| i < |s| && s[i] == x;
  }

  lemma PropagatedFromEarlier(order: seq<Id>, preds: Predecessors, base: Shifts, shift: Shifts,
                              winner: map<Id, Option<Id>>, i: nat, u: Id)
    requires i < |order| && forall m :: m in order ==> m in base && m in shift
    requires AllTakeLargest(order, preds, base, shift, winner)
    requires u in order[..i] && u in shift && (order[i], u) in TopoSort.EdgesOf(preds)
    ensures shift[u] <= shift[order[i]]
  {
    assert TakesLargest(order[..i], preds, base, shift, winner, order[i]);
    assert u in PredsOf(preds, order[i]);
  }

  lemma PropagatedFollowsEdges(order: seq<Id>, preds: Predecessors, base: Shifts, shift: Shifts,
                               winner: map<Id, Option<Id>>)
    requires UpstreamFirst(TopoSort.EdgesOf(preds), order)
    requires Elements(order) == base.Keys
    requires forall m :: m in order ==> m in base && m in shift
    requires AllTakeLargest(order, preds, base, shift, winner)
    ensures forall d, u :: (d, u) in TopoSort.EdgesOf(preds) && d in base && u in base ==>
      d in shift && u in shift && (shift[u] <= shift[d] || Reaches(TopoSort.EdgesOf(preds), u, d))
  {
    var g := TopoSort.EdgesOf(preds);
    forall d, u | (d, u) in g && d in base && u in base
      ensures d in shift && u in shift && (shift[u] <= shift[d] || Reaches(g, u, d))
    {
      var i := IndexIn(order, d);
      var j := IndexIn(order, u);
      assert (order[i], u) in g;
      if u in order[..i] {
        PropagatedFromEarlier(order, preds, base, shift, winner, i, u);
      }
    }
  }

  lemma {:induction false} PropagatedIsDriven(order: seq<Id>, preds: Predecessors, base: Shifts,
                                              shift: Shifts, winner: map<Id, Option<Id>>, i: nat)
    requires i < |order| && forall m :: m in order ==> m in base && m in shift
    requires AllTakeLargest(order, preds, base, shift, winner)
    ensures base[order[i]] <= shift[order[i]]
    ensures DrivenBy(TopoSort.EdgesOf(preds), base, order[i], shift[order[i]])
    decreases i
  {
    var g := TopoSort.EdgesOf(preds);
    var m := order[i];
    assert TakesLargest(order[..i], preds, base, shift, winner, m);
    if winner[m].None? {
      ReachesSelf(g, m);
    } else {
      var w := winner[m].value;
      var k :| 0 <= k < i && order[k] == w;
      PropagatedIsDriven(order, preds, base, shift, winner, k);
      var u :| u in base && Reaches(g, w, u) && base[u] == shift[w];
      assert (m, w) in g;
      ReachesEdge(g, m, w);
      ReachesTrans(g, m, w, u);
    }
  }

  /** Propagating along an upstream-first order is a cascade. */
  lemma PropagationCascades(order: seq<Id>, preds: Predecessors, base: Shifts, shift: Shifts,
                            winner: map<Id, Option<Id>>)
    requires UpstreamFirst(TopoSort.EdgesOf(preds), order)
    requires Elements(order) == base.Keys && shift.Keys == base.Keys
    requires forall m :: m in order ==> m in base && m in shift
    requires AllTakeLargest(order, preds, base, shift, winner)
    ensures IsCascade(TopoSort.EdgesOf(preds), base, shift)
  {
    forall m | m in base
      ensures base[m] <= shift[m] && DrivenBy(TopoSort.EdgesOf(preds), base, m, shift[m])
    {
      var i := IndexIn(order, m);
      PropagatedIsDriven(order, preds, base, shift, winner, i);
    }
    PropagatedFollowsEdges(order, preds, base, shift, winner);
  }

  /** The change of one milestone that moves, with its reason. */
  function ChangeFor(m: Id, ghost earlier: seq<Id>, preds: Predecessors, ms: Milestones, today: int,
                     shift: Shifts, winner: map<Id, Option<Id>>): (c: Change)
    requires m in ms && ms[m].due.Some? && m in shift && shift[m] > 0
    requires TakesLargest(earlier, preds, BaseShifts(ms, today), shift, winner, m)
    ensures c.milestone == m && ms[m].due == Some(c.oldDue) && c.newDue == c.oldDue + shift[m]
    ensures Explains(ms, TopoSort.EdgesOf(preds), today, shift, c)
  {
    var due := ms[m].due.value;
    var reason :=
      if winner[m].None? then Overdue(today - due)
      else if BaseShift(ms[m], today) > 0 then OverdueAndPushed(today - due, shift[m], winner[m].value)
      else Pushed(shift[m], winner[m].value);
    Change(m, due, due + shift[m], reason)
  }

  ghost predicate IsPropagation(order: seq<Id>, preds: Predecessors, ms: Milestones, today: int,
                                shift: Shifts, winner: map<Id, Option<Id>>) {
    && Distinct(order) && Elements(order) == ms.Keys && shift.Keys == ms.Keys
    && (forall m :: m in order ==> m in ms)
    && AllTakeLargest(order, preds, BaseShifts(ms, today), shift, winner)
  }

  /** One change per dated milestone that moves among the first n of the sorted order. */
  ghost function ChangesOf(order: seq<Id>, preds: Predecessors, ms: Milestones, today: int,
                           shift: Shifts, winner: map<Id, Option<Id>>, n: nat): seq<Change>
    requires IsPropagation(order, preds, ms, today, shift, winner) && n <= |order|
  {
    if n == 0 then []
    else
      var m := order[n - 1];
      assert TakesLargest(order[..n - 1], preds, BaseShifts(ms, today), shift, winner, m);
      ChangesOf(order, preds, ms, today, shift, winner, n - 1) +
        if shift[m] > 0 && ms[m].due.Some? then [ChangeFor(m, order[..n - 1], preds, ms, today, shift, winner)]
        else []
  }

  method ListChanges(order: seq<Id>, preds: Predecessors, ms: Milestones, today: int,
                     shift: Shifts, winner: map<Id, Option<Id>>) returns (changes: seq<Change>)
    requires IsPropagation(order, preds, ms, today, shift, winner)
    ensures changes == ChangesOf(order, preds, ms, today, shift, winner, |order|)
  {
    changes := [];
    for i := 0 to |order|
      invariant changes == ChangesOf(order, preds, ms, today, shift, winner, i)
    {
      var m := order[i];
      assert TakesLargest(order[..i], preds, BaseShifts(ms, today), shift, winner, m);
      if shift[m] > 0 && ms[m].due.Some? {
        changes := changes + [ChangeFor(m, order[..i], preds, ms, today, shift, winner)];
      } else {
        assert changes + [] == changes;
      }
    }
  }

  lemma ProposesMore(changes: seq<Change>, c: Change)
    ensures Proposes(changes + [c], c.milestone)
    ensures forall m {:trigger Proposes(changes + [c], m)} ::
      Proposes(changes, m) ==> Proposes(changes + [c], m)
  {
    assert c in changes + [c];
    forall m | Proposes(changes, m)
      ensures Proposes(changes + [c], m)
    {
      var d :| d in changes && d.milestone == m;
      assert d in changes + [c];
    }
  }

  /** Each change is that of one of the first n milestones, and says what it should. */
  ghost predicate IsChangeOf(order: seq<Id>, preds: Predecessors, ms: Milestones, today: int,
                             shift: Shifts, n: nat, c: Change)
    requires n <= |order| && shift.Keys == ms.Keys && forall m :: m in order ==> m in ms
  {
    && c.milestone in order[..n] && ms[c.milestone].due == Some(c.oldDue)
    && shift[c.milestone] > 0 && c.newDue == c.oldDue + shift[c.milestone]
    && Explains(ms, TopoSort.EdgesOf(preds), today, shift, c)
  }

  lemma {:induction false} ChangesAreRight(order: seq<Id>, preds: Predecessors, ms: Milestones, today: int,
                                           shift: Shifts, winner: map<Id, Option<Id>>, n: nat, c: Change)
    requires IsPropagation(order, preds, ms, today, shift, winner) && n <= |order|
    requires c in ChangesOf(order, preds, ms, today, shift, winner, n)
    ensures IsChangeOf(order, preds, ms, today, shift, n, c)
  {
    var before := ChangesOf(order, preds, ms, today, shift, winner, n - 1);
    assert order[..n] == order[..n - 1] + [order[n - 1]];
    if c in before {
      ChangesAreRight(order, preds, ms, today, shift, winner, n - 1, c);
    }
  }

  lemma {:induction false} ChangesAreDistinct(order: seq<Id>, preds: Predecessors, ms: Milestones, today: int,
                                              shift: Shifts, winner: map<Id, Option<Id>>, n: nat)
    requires IsPropagation(order, preds, ms, today, shift, winner) && n <= |order|
    ensures NobodyTwice(ChangesOf(order, preds, ms, today, shift, winner, n))
  {
    if n > 0 {
      var before, m := ChangesOf(order, preds, ms, today, shift, winner, n - 1), order[n - 1];
      ChangesAreDistinct(order, preds, ms, today, shift, winner, n - 1);
      assert TakesLargest(order[..n - 1], preds, BaseShifts(ms, today), shift, winner, m);
      forall j | 0 <= j < |before|
        ensures before[j].milestone != m
      {
        ChangesAreRight(order, preds, ms, today, shift, winner, n - 1, before[j]);
      }
      assert NobodyTwice(before);
      if shift[m] > 0 && ms[m].due.Some? {
        var c := ChangeFor(m, order[..n - 1], preds, ms, today, shift, winner);
        assert NobodyTwice(before + [c]);
      } else {
        assert before + [] == before;
      }
    }
  }

  lemma {:induction false} ChangesMissNobody(order: seq<Id>, preds: Predecessors, ms: Milestones, today: int,
                                             shift: Shifts, winner: map<Id, Option<Id>>, n: nat, k: nat)
    requires IsPropagation(order, preds, ms, today, shift, winner) && k < n <= |order|
    requires shift[order[k]] > 0 && ms[order[k]].due.Some?
    ensures Proposes(ChangesOf(order, preds, ms, today, shift, winner, n), order[k])
  {
    var before, m := ChangesOf(order, preds, ms, today, shift, winner, n - 1), order[n - 1];
    assert TakesLargest(order[..n - 1], preds, BaseShifts(ms, today), shift, winner, m);
    if k < n - 1 {
      ChangesMissNobody(order, preds, ms, today, shift, winner, n - 1, k);
    }
    if shift[m] > 0 && ms[m].due.Some? {
      ProposesMore(before, ChangeFor(m, order[..n - 1], preds, ms, today, shift, winner));
    } else {
      assert ChangesOf(order, preds, ms, today, shift, winner, n) == before;
    }
  }

  lemma ChangesListShifts(order: seq<Id>, preds: Predecessors, ms: Milestones, today: int,
                          shift: Shifts, winner: map<Id, Option<Id>>)
    requires IsPropagation(order, preds, ms, today, shift, winner)
    ensures ListsShifts(ms, TopoSort.EdgesOf(preds), today, shift,
                        ChangesOf(order, preds, ms, today, shift, winner, |order|))
  {
    var changes := ChangesOf(order, preds, ms, today, shift, winner, |order|);
    ChangesAreDistinct(order, preds, ms, today, shift, winner, |order|);
    forall c | c in changes
      ensures IsChangeOf(order, preds, ms, today, shift, |order|, c)
    {
      ChangesAreRight(order, preds, ms, today, shift, winner, |order|, c);
    }
    forall m | m in ms && shift[m] > 0 && ms[m].due.Some?
      ensures Proposes(changes, m)
    {
      var k := IndexIn(order, m);
      ChangesMissNobody(order, preds, ms, today, shift, winner, |order|, k);
    }
  }

  lemma {:induction false} LargestExists(ups: set<Id>, own: nat, shift: Shifts) returns (s: nat, w: Option<Id>)
    requires ups <= shift.Keys
    ensures own <= s && forall u :: u in ups ==> shift[u] <= s
    ensures if w.None? then s == own else w.value in ups && shift[w.value] == s && own < s
    decreases ups
  {
    s, w := own, None;
    if ups != {} {
      var up :| up in ups;
      s, w := LargestExists(ups - {up}, own, shift);
      if shift[up] > s {
        s, w := shift[up], Some(up);
      }
    }
  }

  /** Shifts can be filled in along any order. */
  lemma {:induction false} PropagationExists(order: seq<Id>, preds: Predecessors, base: Shifts)
    returns (shift: Shifts, winner: map<Id, Option<Id>>)
    requires Distinct(order) && forall m :: m in order ==> m in base
    ensures shift.Keys == Elements(order) && winner.Keys == Elements(order)
    ensures AllTakeLargest(order, preds, base, shift, winner)
  {
    if order == [] {
      shift, winner := map[], map[];
    } else {
      var init, m := order[..|order| - 1], order[|order| - 1];
      shift, winner := PropagationExists(init, preds, base);
      var s, w := LargestExists(PredsOf(preds, m) * Elements(init), base[m], shift);
      assert order == init + [m] && m !in init;
      TurnTakesLargest(init, preds, base, shift, winner, m, s, w);
      NextTakesLargest(init, m, preds, base, shift, winner, s, w);
      shift, winner := shift[m := s], winner[m := w];
    }
  }

  /** The changes that come out when the milestones are iterated as `nodes` and their
      predecessor sets as `walk`, with the shifts and winners filled in along the sort. */
  ghost predicate Returns(ms: Milestones, preds: Predecessors, today: int, nodes: seq<Id>, walk: Walk,
                          shift: Shifts, winner: map<Id, Option<Id>>, changes: seq<Change>) {
    && Distinct(nodes) && Elements(nodes) == ms.Keys && IsWalk(preds, walk)
    && IsPropagation(Sorted(walk, nodes), preds, ms, today, shift, winner)
    && changes == ChangesOf(Sorted(walk, nodes), preds, ms, today, shift, winner, |Sorted(walk, nodes)|)
  }

  /** `compute_replan` returns these changes for some order of iteration. */
  ghost predicate MayReturn(ms: Milestones, preds: Predecessors, today: int, changes: seq<Change>) {
    exists nodes, walk, shift, winner :: Returns(ms, preds, today, nodes, walk, shift, winner, changes)
  }

  /** Whatever is returned is a proposal of the specification. */
  lemma MayReturnIsProposal(ms: Milestones, preds: Predecessors, today: int, changes: seq<Change>)
    requires ClosedUnder(TopoSort.EdgesOf(preds), ms.Keys) && MayReturn(ms, preds, today, changes)
    ensures IsProposal(ms, TopoSort.EdgesOf(preds), today, changes)
  {
    var nodes, walk, shift, winner :| Returns(ms, preds, today, nodes, walk, shift, winner, changes);
    var order := Sorted(walk, nodes);
    SortedIsUpstreamOrder(preds, walk, nodes);
    PropagationCascades(order, preds, BaseShifts(ms, today), shift, winner);
    ChangesListShifts(order, preds, ms, today, shift, winner);
  }

  /** Something is returned for every order of iteration. */
  lemma SomethingIsReturned(ms: Milestones, preds: Predecessors, today: int, nodes: seq<Id>, walk: Walk)
    returns (shift: Shifts, winner: map<Id, Option<Id>>, changes: seq<Change>)
    requires ClosedUnder(TopoSort.EdgesOf(preds), ms.Keys)
    requires Distinct(nodes) && Elements(nodes) == ms.Keys && IsWalk(preds, walk)
    ensures Returns(ms, preds, today, nodes, walk, shift, winner, changes)
    ensures MayReturn(ms, preds, today, changes)
  {
    var order := Sorted(walk, nodes);
    SortedIsUpstreamOrder(preds, walk, nodes);
    ListsExactlyTheNodes(TopoSort.EdgesOf(preds), ms.Keys, order);
    assert forall m :: m in order ==> m in Elements(order);
    shift, winner := PropagationExists(order, preds, BaseShifts(ms, today));
    changes := ChangesOf(order, preds, ms, today, shift, winner, |order|);
    assert Returns(ms, preds, today, nodes, walk, shift, winner, changes);
  }

  method ComputeReplan(ms: Milestones, preds: Predecessors, today: int) returns (changes: seq<Change>)
    requires ClosedUnder(TopoSort.EdgesOf(preds), ms.Keys)
    ensures MayReturn(ms, preds, today, changes)
    ensures IsProposal(ms, TopoSort.EdgesOf(preds), today, changes)
    ensures MovesOnlyTheLate(ms, TopoSort.EdgesOf(preds), today, changes)
  {
    var base := BaseShifts(ms, today);
    var nodes := ListOf(ms.Keys);
    var order, walk := Toposort(nodes, preds);
    ListsExactlyTheNodes(TopoSort.EdgesOf(preds), ms.Keys, order);
    var shift, winner := Propagate(order, preds, base);
    changes := ListChanges(order, preds, ms, today, shift, winner);
    assert Returns(ms, preds, today, nodes, walk, shift, winner, changes);
    MayReturnIsProposal(ms, preds, today, changes);
    ProposalMovesOnlyTheLate(ms, TopoSort.EdgesOf(preds), today, changes);
  }

  // ---------------------------------------------------------------- when gaps may shrink

  /** The slip of u alone, carried to everything downstream that u does not reach. */
  ghost function CarriedSlip(g: Edges, u: Id, x: Id): nat {
    if x == u || (Reaches(g, x, u) && !Reaches(g, u, x)) then 17 else 0
  }

  lemma CarriedSlipFollowsEdge(g: Edges, u: Id, a: Id, b: Id)
    requires (a, b) in g
    ensures CarriedSlip(g, u, b) <= CarriedSlip(g, u, a) || Reaches(g, b, a)
  {
    if CarriedSlip(g, u, b) == 17 && CarriedSlip(g, u, a) == 0 {
      ReachesSelf(g, u);
      ReachesEdge(g, a, b);
      ReachesTrans(g, a, b, u);
      ReachesTrans(g, b, u, a);
    }
  }

  lemma CarriedSlipIsDriven(g: Edges, nodes: set<Id>, u: Id, base: Shifts, x: Id)
    requires u in nodes && x in nodes && base == map y | y in nodes :: if y == u then 17 else 0
    ensures base[x] <= CarriedSlip(g, u, x) && DrivenBy(g, base, x, CarriedSlip(g, u, x))
  {
    ReachesSelf(g, x);
    if CarriedSlip(g, u, x) == 17 {
      assert base[u] == 17 && Reaches(g, x, u);
    }
  }

  lemma OneSlipCascade(g: Edges, nodes: set<Id>, u: Id, base: Shifts) returns (shift: Shifts)
    requires u in nodes && base == map x | x in nodes :: if x == u then 17 else 0
    ensures IsCascade(g, base, shift)
    ensures shift == map x | x in nodes :: CarriedSlip(g, u, x)
  {
    shift := map x | x in nodes :: CarriedSlip(g, u, x);
    forall m | m in base
      ensures base[m] <= shift[m] && DrivenBy(g, base, m, shift[m])
    {
      CarriedSlipIsDriven(g, nodes, u, base, m);
    }
    forall a, b | (a, b) in g && a in base && b in base
      ensures shift[b] <= shift[a] || Reaches(g, b, a)
    {
      CarriedSlipFollowsEdge(g, u, a, b);
    }
  }

  /** Whenever two milestones of an edge differ in how far they move, the upstream moves
      less, unless the edge closes a cycle; and on a cycle a cascade exists in which the
      upstream moves more. */
  lemma UpstreamMovesLessIffNoCycle(g: Edges, nodes: set<Id>, d: Id, u: Id)
    requires (d, u) in g && d in nodes && u in nodes && d != u
    ensures (forall base: Shifts, shift: Shifts {:trigger IsCascade(g, base, shift)} ::
               base.Keys == nodes && IsCascade(g, base, shift) ==> shift[u] <= shift[d])
      <==> !Reaches(g, u, d)
  {
    if Reaches(g, u, d) {
      var base := map x | x in nodes :: if x == u then 17 else 0;
      var shift := OneSlipCascade(g, nodes, u, base);
      assert shift[d] == 0 && shift[u] == 17;
    }
  }

  /** When only the k-th milestone is late, nothing before it moves, and it moves by its
      own slip. */
  lemma {:induction false} StillBefore(order: seq<Id>, preds: Predecessors, base: Shifts, shift: Shifts,
                                       winner: map<Id, Option<Id>>, k: nat, i: nat)
    requires i <= k < |order| && forall m :: m in order ==> m in base
    requires AllTakeLargest(order, preds, base, shift, winner)
    requires forall j :: 0 <= j < k ==> base[order[j]] == 0
    ensures order[i] in shift && shift[order[i]] == base[order[i]]
    decreases i
  {
    assert TakesLargest(order[..i], preds, base, shift, winner, order[i]);
    if winner[order[i]].Some? {
      var j :| 0 <= j < i && order[..i][j] == winner[order[i]].value;
      StillBefore(order, preds, base, shift, winner, k, j);
    }
  }

  /** When u alone is late and the milestones are iterated from u on, then whatever is
      returned moves u by its slip and leaves everything u reaches where it is. */
  lemma OnlyFirstMoves(ms: Milestones, preds: Predecessors, today: int, nodes: seq<Id>, walk: Walk,
                       shift: Shifts, winner: map<Id, Option<Id>>, changes: seq<Change>, d: Id)
    requires Returns(ms, preds, today, nodes, walk, shift, winner, changes) && nodes != []
    requires forall m :: m in ms && m != nodes[0] ==> BaseShift(ms[m], today) == 0
    requires d != nodes[0] && Reaches(TopoSort.EdgesOf(preds), nodes[0], d)
    ensures nodes[0] in ms && nodes[0] in shift && shift[nodes[0]] == BaseShift(ms[nodes[0]], today)
    ensures d in shift && shift[d] == 0
  {
    var order, base := Sorted(walk, nodes), BaseShifts(ms, today);
    var k := FirstComesAfterItsUpstream(preds, walk, nodes);
    assert nodes[0] in Elements(nodes);
    var i := IndexIn(order[..k], d);
    forall j | 0 <= j < k
      ensures base[order[j]] == 0
    {
      assert order[j] != order[k];
    }
    StillBefore(order, preds, base, shift, winner, k, i);
    StillBefore(order, preds, base, shift, winner, k, k);
    assert d in Elements(order);
  }

  /** Applying these changes moves the date of m, if it has one, by so many days. */
  ghost predicate MovesBy(ms: Milestones, changes: seq<Change>, ids: set<Id>, now: int, m: Id, days: int)
    requires m in ms
  {
    ms[m].due.Some? ==> AfterReplan(ms, changes, ids, now)[m].due == Some(ms[m].due.value + days)
  }

  lemma ListedMovesBy(ms: Milestones, g: Edges, today: int, shift: Shifts, changes: seq<Change>,
                      ids: set<Id>, now: int, m: Id, days: nat)
    requires ListsShifts(ms, g, today, shift, changes) && forall c :: c in changes ==> c.milestone in ids
    requires m in ms && shift[m] == days
    ensures MovesBy(ms, changes, ids, now, m, days)
  {
    if ms[m].due.Some? {
      AppliedMovesByShift(ms, g, today, shift, changes, ids, now, m);
    }
  }

  lemma ReturnedListsShifts(ms: Milestones, preds: Predecessors, today: int, nodes: seq<Id>, walk: Walk,
                            shift: Shifts, winner: map<Id, Option<Id>>, changes: seq<Change>)
    requires Returns(ms, preds, today, nodes, walk, shift, winner, changes)
    ensures ListsShifts(ms, TopoSort.EdgesOf(preds), today, shift, changes)
  {
    ChangesListShifts(Sorted(walk, nodes), preds, ms, today, shift, winner);
  }

  /** So applying it whole narrows the gap between u and everything u reaches by u's slip. */
  lemma CycleNarrowsTheGap(ms: Milestones, preds: Predecessors, today: int, nodes: seq<Id>, walk: Walk,
                           shift: Shifts, winner: map<Id, Option<Id>>, changes: seq<Change>, d: Id,
                           ids: set<Id>, now: int)
    requires Returns(ms, preds, today, nodes, walk, shift, winner, changes) && nodes != []
    requires forall m :: m in ms && m != nodes[0] ==> BaseShift(ms[m], today) == 0
    requires d in ms && d != nodes[0] && Reaches(TopoSort.EdgesOf(preds), nodes[0], d)
    requires nodes[0] in ms && forall c :: c in changes ==> c.milestone in ids
    ensures MovesBy(ms, changes, ids, now, d, 0)
    ensures MovesBy(ms, changes, ids, now, nodes[0], BaseShift(ms[nodes[0]], today))
  {
    OnlyFirstMoves(ms, preds, today, nodes, walk, shift, winner, changes, d);
    ReturnedListsShifts(ms, preds, today, nodes, walk, shift, winner, changes);
    var u, g := nodes[0], TopoSort.EdgesOf(preds);
    ListedMovesBy(ms, g, today, shift, changes, ids, now, d, 0);
    ListedMovesBy(ms, g, today, shift, changes, ids, now, u, BaseShift(ms[u], today));
  }

  /** Applied whole, these changes move u by its slip and leave d where it is. */
  ghost predicate MovesOnlyUpstream(ms: Milestones, today: int, changes: seq<Change>, d: Id, u: Id)
    requires d in ms && u in ms
  {
    forall ids: set<Id>, now {:trigger MovesBy(ms, changes, ids, now, d, 0)} ::
      (forall c :: c in changes ==> c.milestone in ids) ==>
      MovesBy(ms, changes, ids, now, d, 0) && MovesBy(ms, changes, ids, now, u, BaseShift(ms[u], today))
  }

  /** For every edge (d, u) on a cycle, whenever u alone is late, changes may be returned that
      move u by its slip and d not at all. */
  lemma CycleCanNarrowAGap(ms: Milestones, preds: Predecessors, today: int, d: Id, u: Id)
    returns (changes: seq<Change>)
    requires ClosedUnder(TopoSort.EdgesOf(preds), ms.Keys) && d in ms && u in ms && d != u
    requires Reaches(TopoSort.EdgesOf(preds), u, d)
    requires forall m :: m in ms && m != u ==> BaseShift(ms[m], today) == 0
    ensures MayReturn(ms, preds, today, changes)
    ensures MovesOnlyUpstream(ms, today, changes, d, u)
  {
    var rest := SomeOrder(ms.Keys - {u});
    var nodes := [u] + rest;
    assert Elements(nodes) == {u} + Elements(rest);
    assert Distinct(nodes) by {
      assert forall i :: 0 <= i < |rest| ==> rest[i] in Elements(rest);
    }
    var walk := WalkExists(preds);
    var shift, winner;
    shift, winner, changes := SomethingIsReturned(ms, preds, today, nodes, walk);
    forall ids: set<Id>, now | forall c :: c in changes ==> c.milestone in ids
      ensures MovesBy(ms, changes, ids, now, d, 0) && MovesBy(ms, changes, ids, now, u, BaseShift(ms[u], today))
    {
      CycleNarrowsTheGap(ms, preds, today, nodes, walk, shift, winner, changes, d, ids, now);
    }
  }

  /** Applying these changes leaves at least as many days between u and d as before. */
  ghost predicate KeepsGap(ms: Milestones, changes: seq<Change>, ids: set<Id>, now: int, d: Id, u: Id)
    requires d in ms && u in ms
  {
    ms[d].due.Some? && ms[u].due.Some? ==>
      var after := AfterReplan(ms, changes, ids, now);
      && after[d].due.Some? && after[u].due.Some?
      && after[d].due.value - after[u].due.value >= ms[d].due.value - ms[u].due.value
  }

  /** Whatever `compute_replan` returns for milestones with these ids, applied whole on any
      day, keeps the gap. */
  ghost predicate GapIsSafe(preds: Predecessors, nodes: set<Id>, d: Id, u: Id)
    requires d in nodes && u in nodes
  {
    forall ms: Milestones, today, changes: seq<Change>, ids: set<Id>, now
      {:trigger MayReturn(ms, preds, today, changes), KeepsGap(ms, changes, ids, now, d, u)} ::
      ms.Keys == nodes && MayReturn(ms, preds, today, changes) && (forall c :: c in changes ==> c.milestone in ids)
      ==> KeepsGap(ms, changes, ids, now, d, u)
  }

  /** All milestones are due on day 200, except that u is due on day 90. */
  function LateOnly(nodes: set<Id>, u: Id): Milestones {
    map m | m in nodes :: Milestone(0, Some(if m == u then 90 else 200), Todo, 0, None)
  }

  lemma LaterUpstreamNarrowsGap(ms: Milestones, changes: seq<Change>, ids: set<Id>, now: int, d: Id, u: Id, days: nat)
    requires d in ms && u in ms && ms[d].due.Some? && ms[u].due.Some? && days > 0
    requires MovesBy(ms, changes, ids, now, d, 0) && MovesBy(ms, changes, ids, now, u, days)
    ensures !KeepsGap(ms, changes, ids, now, d, u)
  {
  }

  lemma CycleIsUnsafe(preds: Predecessors, nodes: set<Id>, d: Id, u: Id)
    requires ClosedUnder(TopoSort.EdgesOf(preds), nodes) && d in nodes && u in nodes && d != u
    requires Reaches(TopoSort.EdgesOf(preds), u, d)
    ensures !GapIsSafe(preds, nodes, d, u)
  {
    var ms := LateOnly(nodes, u);
    assert ms.Keys == nodes;
    var changes := CycleCanNarrowAGap(ms, preds, 100, d, u);
    var ids := set c | c in changes :: c.milestone;
    assert MovesBy(ms, changes, ids, 0, d, 0);
    LaterUpstreamNarrowsGap(ms, changes, ids, 0, d, u, 17);
  }

  lemma NoCycleKeepsGap(ms: Milestones, g: Edges, today: int, changes: seq<Change>, ids: set<Id>, now: int,
                        d: Id, u: Id)
    requires IsProposal(ms, g, today, changes) && forall c :: c in changes ==> c.milestone in ids
    requires (d, u) in g && d in ms && u in ms && !Reaches(g, u, d)
    ensures KeepsGap(ms, changes, ids, now, d, u)
  {
    if ms[d].due.Some? && ms[u].due.Some? {
      GapNeverShrinks(ms, g, today, changes, ids, now, d, u);
    }
  }

  /** The gap along a precedence edge is safe from everything `compute_replan` returns if and
      only if the edge lies on no cycle. */
  lemma GapIsSafeIffNoCycle(preds: Predecessors, nodes: set<Id>, d: Id, u: Id)
    requires ClosedUnder(TopoSort.EdgesOf(preds), nodes)
    requires (d, u) in TopoSort.EdgesOf(preds) && d in nodes && u in nodes && d != u
    ensures GapIsSafe(preds, nodes, d, u) <==> !Reaches(TopoSort.EdgesOf(preds), u, d)
  {
    var g := TopoSort.EdgesOf(preds);
    if Reaches(g, u, d) {
      CycleIsUnsafe(preds, nodes, d, u);
    } else {
      forall ms: Milestones, today, changes: seq<Change>, ids: set<Id>, now |
        ms.Keys == nodes && MayReturn(ms, preds, today, changes) && forall c :: c in changes ==> c.milestone in ids
        ensures KeepsGap(ms, changes, ids, now, d, u)
      {
        MayReturnIsProposal(ms, preds, today, changes);
        NoCycleKeepsGap(ms, g, today, changes, ids, now, d, u);
      }
    }
  }
}
