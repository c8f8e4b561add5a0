/** Health-score recommendations: rank the triggered catalogue entries, reconcile the
    stored rows with them, and let users accept or dismiss in between. */
module Recommendations {
  import opened Basics

  const DEFAULT_SCORE := 50

  datatype Status = Pending | Accepted | Dismissed

  datatype Entry = Entry(key: string, triggersBelow: int, lift: int)

  /** A scored dimension with its weight and its catalogue entries. */
  datatype Dimension = Dimension(name: string, weight: real, entries: seq<Entry>)

  type Catalog = seq<Dimension>
  type Scores = map<string, int>

  /** An entry whose dimension scores below its trigger; `rank` is the weighted gap. */
  datatype Candidate = Candidate(rank: real, dim: string, entry: Entry)

  datatype Row = Row(id: Id, dim: string, lift: int, status: Status, priority: nat)

  /** One row per key. */
  type Rows = map<string, Row>

  // ---------------------------------------------------------------- candidates

  function Pairs(d: Dimension, entries: seq<Entry>): seq<(Dimension, Entry)> {
    seq(|entries|, j requires 0 <= j < |entries| => (d, entries[j]))
  }

  /** Every entry with its dimension, in catalogue order. */
  function Flat(cat: Catalog): seq<(Dimension, Entry)> {
    if cat == [] then []
    else Flat(cat[..|cat| - 1]) + Pairs(cat[|cat| - 1], cat[|cat| - 1].entries)
  }

  ghost predicate DistinctKeys(cat: Catalog) {
    var all := Flat(cat);
    forall i, j :: 0 <= i < j < |all| ==> all[i].1.key != all[j].1.key
  }

  function ScoreOf(scores: Scores, dim: string): int {
    if dim in scores then scores[dim] else DEFAULT_SCORE
  }

  predicate IsLow(scores: Scores, p: (Dimension, Entry)) {
    ScoreOf(scores, p.0.name) < p.1.triggersBelow
  }

  function CandidateFor(scores: Scores, p: (Dimension, Entry)): Candidate {
    Candidate((p.1.triggersBelow - ScoreOf(scores, p.0.name)) as real * p.0.weight, p.0.name, p.1)
  }

  function Triggered(all: seq<(Dimension, Entry)>, scores: Scores): seq<Candidate> {
    if all == [] then []
    else
      var p := all[|all| - 1];
      Triggered(all[..|all| - 1], scores) + if IsLow(scores, p) then [CandidateFor(scores, p)] else []
  }

  function KeysOf(cs: seq<Candidate>): set<string> {
    set c | c in cs :: c.entry.key
  }

  ghost predicate KeysDistinct(cs: seq<Candidate>) {
    forall i, j :: 0 <= i < j < |cs| ==> cs[i].entry.key != cs[j].entry.key
  }

  ghost function LowKeys(all: seq<(Dimension, Entry)>, scores: Scores): set<string> {
    set p | p in all && IsLow(scores, p) :: p.1.key
  }

  /** The keys of the entries that score below their trigger. */
  ghost function TriggeredKeys(cat: Catalog, scores: Scores): set<string> {
    LowKeys(Flat(cat), scores)
  }

  lemma KeysOfAppend(cs: seq<Candidate>, c: Candidate)
    ensures KeysOf(cs + [c]) == KeysOf(cs) + {c.entry.key}
  {
  }

  lemma {:induction false} CandidatesHaveLowKeys(all: seq<(Dimension, Entry)>, scores: Scores)
    ensures KeysOf(Triggered(all, scores)) == LowKeys(all, scores)
  {
    if all != [] {
      var init, last := all[..|all| - 1], all[|all| - 1];
      CandidatesHaveLowKeys(init, scores);
      assert all == init + [last];
      assert LowKeys(all, scores) == LowKeys(init, scores) + if IsLow(scores, last) then {last.1.key} else {};
      KeysOfAppend(Triggered(init, scores), CandidateFor(scores, last));
    } else {
      assert KeysOf(Triggered(all, scores)) == {};
    }
  }

  lemma LastKeyIsNew(all: seq<(Dimension, Entry)>, scores: Scores)
    requires all != [] && forall i, j :: 0 <= i < j < |all| ==> all[i].1.key != all[j].1.key
    ensures all[|all| - 1].1.key !in LowKeys(all[..|all| - 1], scores)
  {
  }

  lemma AppendKeepsKeysDistinct(cs: seq<Candidate>, c: Candidate)
    requires KeysDistinct(cs) && c.entry.key !in KeysOf(cs)
    ensures KeysDistinct(cs + [c])
  {
    forall i | 0 <= i < |cs|
      ensures cs[i].entry.key != c.entry.key
    {
      assert cs[i] in cs;
    }
  }

  /** The candidates have distinct keys, exactly those that score below their trigger. */
  lemma {:induction false} CandidatesAreTheTriggered(all: seq<(Dimension, Entry)>, scores: Scores)
    requires forall i, j :: 0 <= i < j < |all| ==> all[i].1.key != all[j].1.key
    ensures KeysDistinct(Triggered(all, scores))
    ensures KeysOf(Triggered(all, scores)) == LowKeys(all, scores)
  {
    CandidatesHaveLowKeys(all, scores);
    if all != [] {
      var init, last := all[..|all| - 1], all[|all| - 1];
      CandidatesAreTheTriggered(init, scores);
      LastKeyIsNew(all, scores);
      AppendKeepsKeysDistinct(Triggered(init, scores), CandidateFor(scores, last));
    }
  }

  // ---------------------------------------------------------------- ranking

  predicate AtLeast(a: Candidate, b: Candidate) {
    a.rank > b.rank || (a.rank == b.rank && a.entry.lift >= b.entry.lift)
  }

  /** Where c goes: behind everything that is at least as good. */
  function Slot(c: Candidate, sorted: seq<Candidate>): (p: nat)
    ensures p <= |sorted|
    ensures forall i :: p <= i < |sorted| ==> !AtLeast(sorted[i], c)
    ensures p > 0 ==> AtLeast(sorted[p - 1], c)
  {
    if sorted == [] then 0
    else if AtLeast(sorted[|sorted| - 1], c) then |sorted|
    else Slot(c, sorted[..|sorted| - 1])
  }

  function Insert(c: Candidate, sorted: seq<Candidate>): seq<Candidate> {
    sorted[..Slot(c, sorted)] + [c] + sorted[Slot(c, sorted)..]
  }

  /** The stable descending sort by (weighted gap, lift). */
  function Ranked(cs: seq<Candidate>): seq<Candidate> {
    if cs == [] then [] else Insert(cs[|cs| - 1], Ranked(cs[..|cs| - 1]))
  }

  ghost predicate Descending(cs: seq<Candidate>) {
    forall i, j :: 0 <= i < j < |cs| ==> AtLeast(cs[i], cs[j])
  }

  ghost predicate Precedes(cs: seq<Candidate>, a: Candidate, b: Candidate) {
    exists i, j :: 0 <= i < j < |cs| && cs[i] == a && cs[j] == b
  }

  /** Where position i of a list ends up after inserting c. */
  function Shifted(c: Candidate, sorted: seq<Candidate>, i: nat): nat {
    if i < Slot(c, sorted) then i else i + 1
  }

  lemma InsertAt(c: Candidate, sorted: seq<Candidate>)
    ensures var out := Insert(c, sorted);
      && |out| == |sorted| + 1 && out[Slot(c, sorted)] == c
      && (forall i :: 0 <= i < |sorted| ==> out[Shifted(c, sorted, i)] == sorted[i])
  {
  }

  lemma InsertAdds(c: Candidate, sorted: seq<Candidate>)
    ensures multiset(Insert(c, sorted)) == multiset(sorted) + multiset{c}
  {
    var p := Slot(c, sorted);
    assert sorted == sorted[..p] + sorted[p..];
  }

  lemma AtLeastIsTransitive(a: Candidate, b: Candidate, c: Candidate)
    requires AtLeast(a, b) && AtLeast(b, c)
    ensures AtLeast(a, c)
  {
  }

  lemma GoodOnesStayAhead(c: Candidate, sorted: seq<Candidate>, i: nat)
    requires Descending(sorted) && i < Slot(c, sorted)
    ensures AtLeast(sorted[i], c)
  {
    var p := Slot(c, sorted);
    if i < p - 1 {
      AtLeastIsTransitive(sorted[i], sorted[p - 1], c);
    }
  }

  lemma InsertedPairInOrder(c: Candidate, sorted: seq<Candidate>, i: nat, j: nat)
    requires Descending(sorted) && i < j <= |sorted|
    ensures AtLeast(Insert(c, sorted)[i], Insert(c, sorted)[j])
  {
    var p := Slot(c, sorted);
    if i == p {
      assert !AtLeast(sorted[j - 1], c);
    } else if j == p {
      GoodOnesStayAhead(c, sorted, i);
    }
  }

  lemma InsertIsSorted(c: Candidate, sorted: seq<Candidate>)
    requires Descending(sorted)
    ensures Descending(Insert(c, sorted))
  {
    var p, out := Slot(c, sorted), Insert(c, sorted);
    forall i, j | 0 <= i < j < |out|
      ensures AtLeast(out[i], out[j])
    {
      InsertedPairInOrder(c, sorted, i, j);
    }
  }

  lemma {:induction false} RankedIsSorted(cs: seq<Candidate>)
    ensures Descending(Ranked(cs)) && multiset(Ranked(cs)) == multiset(cs)
  {
    if cs != [] {
      var init, last := cs[..|cs| - 1], cs[|cs| - 1];
      RankedIsSorted(init);
      InsertIsSorted(last, Ranked(init));
      InsertAdds(last, Ranked(init));
      assert cs == init + [last];
    }
  }

  lemma RankedHas(cs: seq<Candidate>, i: nat)
    requires i < |cs|
    ensures cs[i] in Ranked(cs)
  {
    RankedIsSorted(cs);
    assert cs[i] in multiset(Ranked(cs));
  }

  lemma InsertKeepsPrecedes(c: Candidate, sorted: seq<Candidate>, a: Candidate, b: Candidate)
    requires Precedes(sorted, a, b)
    ensures Precedes(Insert(c, sorted), a, b)
  {
    var p, q :| 0 <= p < q < |sorted| && sorted[p] == a && sorted[q] == b;
    var out := Insert(c, sorted);
    InsertAt(c, sorted);
    assert out[Shifted(c, sorted, p)] == a && out[Shifted(c, sorted, q)] == b;
  }

  lemma InsertComesRight(c: Candidate, sorted: seq<Candidate>, a: Candidate)
    requires Descending(sorted) && a in sorted
    ensures if AtLeast(a, c) then Precedes(Insert(c, sorted), a, c) else Precedes(Insert(c, sorted), c, a)
  {
    var p :| 0 <= p < |sorted| && sorted[p] == a;
    var out := Insert(c, sorted);
    InsertAt(c, sorted);
    assert out[Shifted(c, sorted, p)] == a && out[Slot(c, sorted)] == c;
    if p < Slot(c, sorted) {
      GoodOnesStayAhead(c, sorted, p);
    }
  }

  /** The ranking is determined: of two candidates the better comes first, and of two
      equally good ones the one listed first in the catalogue. */
  lemma {:induction false} RankingIsStable(cs: seq<Candidate>, i: nat, j: nat)
    requires i < j < |cs|
    ensures if AtLeast(cs[i], cs[j]) then Precedes(Ranked(cs), cs[i], cs[j]) else Precedes(Ranked(cs), cs[j], cs[i])
  {
    var init, last := cs[..|cs| - 1], cs[|cs| - 1];
    RankedIsSorted(init);
    if j < |cs| - 1 {
      RankingIsStable(init, i, j);
      if AtLeast(cs[i], cs[j]) {
        InsertKeepsPrecedes(last, Ranked(init), cs[i], cs[j]);
      } else {
        InsertKeepsPrecedes(last, Ranked(init), cs[j], cs[i]);
      }
    } else {
      RankedHas(init, i);
      InsertComesRight(last, Ranked(init), cs[i]);
    }
  }

  lemma SameElementsSameKeys(cs: seq<Candidate>, ds: seq<Candidate>)
    requires multiset(cs) == multiset(ds)
    ensures KeysOf(cs) == KeysOf(ds)
  {
    forall c
      ensures c in cs <==> c in ds
    {
      assert c in cs <==> c in multiset(cs);
      assert c in ds <==> c in multiset(ds);
    }
  }

  lemma InsertKeepsKeysDistinct(c: Candidate, sorted: seq<Candidate>)
    requires KeysDistinct(sorted) && c.entry.key !in KeysOf(sorted)
    ensures KeysDistinct(Insert(c, sorted))
  {
    forall i | 0 <= i < |sorted|
      ensures sorted[i].entry.key != c.entry.key
    {
      assert sorted[i] in sorted;
    }
  }

  lemma {:induction false} RankedKeysAreDistinct(cs: seq<Candidate>)
    requires KeysDistinct(cs)
    ensures KeysDistinct(Ranked(cs)) && KeysOf(Ranked(cs)) == KeysOf(cs)
  {
    RankedIsSorted(cs);
    SameElementsSameKeys(Ranked(cs), cs);
    if cs != [] {
      var init, last := cs[..|cs| - 1], cs[|cs| - 1];
      RankedKeysAreDistinct(init);
      forall i | 0 <= i < |init|
        ensures init[i].entry.key != last.entry.key
      {
        assert cs[i] == init[i];
      }
      assert last.entry.key !in KeysOf(init);
      InsertKeepsKeysDistinct(last, Ranked(init));
    }
  }

  // ---------------------------------------------------------------- reconcile

  function Position(ranked: seq<Candidate>, key: string): (p: nat)
    requires key in KeysOf(ranked)
    ensures p < |ranked| && ranked[p].entry.key == key
  {
    var last := ranked[|ranked| - 1];
    if last.entry.key == key then |ranked| - 1
    else
      assert ranked == ranked[..|ranked| - 1] + [last];
      Position(ranked[..|ranked| - 1], key)
  }

  /** Without the pending rows that are no longer candidates. */
  function Kept(rows: Rows, keys: set<string>): Rows {
    map k | k in rows && (rows[k].status != Pending || k in keys) :: rows[k]
  }

  function RowAfter(rows: Rows, ranked: seq<Candidate>, next: Id, key: string): Row
    requires key in rows || key in KeysOf(ranked)
  {
    if key !in KeysOf(ranked) then rows[key]
    else
      var p := Position(ranked, key);
      if key !in rows then Row(next + p, ranked[p].dim, ranked[p].entry.lift, Pending, p + 1)
      else if rows[key].status == Dismissed then rows[key]
      else rows[key].(priority := p + 1, lift := ranked[p].entry.lift)
  }

  function Applied(rows: Rows, ranked: seq<Candidate>, next: Id): Rows {
    map k | k in rows.Keys + KeysOf(ranked) :: RowAfter(rows, ranked, next, k)
  }

  /** The stored rows brought in line with a ranking. */
  function Aligned(rows: Rows, ranked: seq<Candidate>, next: Id): Rows {
    Applied(Kept(rows, KeysOf(ranked)), ranked, next)
  }

  function Ranking(cat: Catalog, scores: Scores): seq<Candidate> {
    Ranked(Triggered(Flat(cat), scores))
  }

  function Reconciled(cat: Catalog, rows: Rows, scores: Scores, next: Id): Rows {
    Aligned(rows, Ranking(cat, scores), next)
  }

  lemma RankingHasTheTriggeredKeys(cat: Catalog, scores: Scores)
    requires DistinctKeys(cat)
    ensures KeysOf(Ranking(cat, scores)) == TriggeredKeys(cat, scores)
    ensures KeysDistinct(Ranking(cat, scores)) && Descending(Ranking(cat, scores))
    ensures |Ranking(cat, scores)| == |Triggered(Flat(cat), scores)|
  {
    var cs := Triggered(Flat(cat), scores);
    CandidatesAreTheTriggered(Flat(cat), scores);
    RankedKeysAreDistinct(cs);
    RankedIsSorted(cs);
    assert |multiset(cs)| == |multiset(Ranked(cs))|;
  }

  predicate IsPendingIn(rows: Rows, key: string) {
    key in rows && rows[key].status == Pending
  }

  function KeysWith(rows: Rows, status: Status): set<string> {
    set k | k in rows && rows[k].status == status
  }

  lemma RankingIsDescending(cat: Catalog, scores: Scores)
    ensures Descending(Ranking(cat, scores))
  {
    RankedIsSorted(Triggered(Flat(cat), scores));
  }

  /** What aligning does to one key. */
  lemma AlignedAt(rows: Rows, ranked: seq<Candidate>, next: Id, k: string)
    ensures var after := Aligned(rows, ranked, next);
      && (k in after <==> k in KeysOf(ranked) || (k in rows && rows[k].status != Pending))
      && (k in after && k in rows ==>
            && after[k].status == rows[k].status && after[k].id == rows[k].id)
      && (k in after && k !in rows ==> after[k].status == Pending)
      && (k in KeysOf(ranked) && (k in rows ==> rows[k].status != Dismissed) ==>
            && after[k].priority == Position(ranked, k) + 1
            && after[k].lift == ranked[Position(ranked, k)].entry.lift)
  {
  }

  lemma AlignedStatuses(rows: Rows, ranked: seq<Candidate>, next: Id)
    ensures var after := Aligned(rows, ranked, next);
      && KeysWith(after, Pending) == KeysOf(ranked) - KeysWith(rows, Accepted) - KeysWith(rows, Dismissed)
      && KeysWith(after, Accepted) == KeysWith(rows, Accepted)
      && KeysWith(after, Dismissed) == KeysWith(rows, Dismissed)
  {
    var after := Aligned(rows, ranked, next);
    forall k
      ensures k in KeysWith(after, Pending) <==>
        k in KeysOf(ranked) && k !in KeysWith(rows, Accepted) && k !in KeysWith(rows, Dismissed)
      ensures k in KeysWith(after, Accepted) <==> k in KeysWith(rows, Accepted)
      ensures k in KeysWith(after, Dismissed) <==> k in KeysWith(rows, Dismissed)
    {
      AlignedAt(rows, ranked, next, k);
    }
  }

  /** Afterwards the pending keys are exactly the triggered ones that nobody accepted or
      dismissed, whatever was stored before; the resolved rows are the same. */
  lemma PendingAreTheTriggered(cat: Catalog, rows: Rows, scores: Scores, next: Id)
    requires DistinctKeys(cat)
    ensures var after := Reconciled(cat, rows, scores, next);
      && KeysWith(after, Pending) == TriggeredKeys(cat, scores) - KeysWith(rows, Accepted) - KeysWith(rows, Dismissed)
      && KeysWith(after, Accepted) == KeysWith(rows, Accepted)
      && KeysWith(after, Dismissed) == KeysWith(rows, Dismissed)
  {
    RankingHasTheTriggeredKeys(cat, scores);
    AlignedStatuses(rows, Ranking(cat, scores), next);
  }

  /** Two rows whose priorities are their places in the ranking: the smaller number never
      belongs to the worse candidate, and equal numbers to one row only. */
  ghost predicate AreRanked(rows: Rows, ranked: seq<Candidate>, a: string, b: string) {
    && a in rows && b in rows
    && 1 <= rows[a].priority <= |ranked| && 1 <= rows[b].priority <= |ranked|
    && var ca, cb := ranked[rows[a].priority - 1], ranked[rows[b].priority - 1];
       && ca.entry.key == a && rows[a].lift == ca.entry.lift
       && (rows[a].priority < rows[b].priority ==> AtLeast(ca, cb))
       && (rows[a].priority == rows[b].priority ==> a == b)
  }

  lemma PendingHasItsPlace(rows: Rows, ranked: seq<Candidate>, next: Id, k: string)
    requires IsPendingIn(Aligned(rows, ranked, next), k)
    ensures var after := Aligned(rows, ranked, next);
      && 1 <= after[k].priority <= |ranked|
      && ranked[after[k].priority - 1].entry.key == k
      && after[k].lift == ranked[after[k].priority - 1].entry.lift
  {
    AlignedAt(rows, ranked, next, k);
  }

  lemma PlacesAreOrdered(rows: Rows, ranked: seq<Candidate>, next: Id, a: string, b: string)
    requires Descending(ranked)
    requires IsPendingIn(Aligned(rows, ranked, next), a) && IsPendingIn(Aligned(rows, ranked, next), b)
    ensures AreRanked(Aligned(rows, ranked, next), ranked, a, b)
  {
    PendingHasItsPlace(rows, ranked, next, a);
    PendingHasItsPlace(rows, ranked, next, b);
  }

  /** Pending rows carry their place in the ranking and the catalogue's lift: a smaller
      priority number never belongs to a worse candidate, and no two are equal. */
  lemma PrioritiesFollowTheRanking(cat: Catalog, rows: Rows, scores: Scores, next: Id, a: string, b: string)
    requires IsPendingIn(Reconciled(cat, rows, scores, next), a)
    requires IsPendingIn(Reconciled(cat, rows, scores, next), b)
    ensures AreRanked(Reconciled(cat, rows, scores, next), Ranking(cat, scores), a, b)
  {
    RankingIsDescending(cat, scores);
    PlacesAreOrdered(rows, Ranking(cat, scores), next, a, b);
  }

  // ---------------------------------------------------------------- in terms of catalogue and scores

  /** How far the dimension is below the entry's trigger, weighted; an unscored one counts 50. */
  function Gap(scores: Scores, d: Dimension, e: Entry): real {
    (e.triggersBelow - if d.name in scores then scores[d.name] else 50) as real * d.weight
  }

  lemma GapIsItsRank(scores: Scores, d: Dimension, e: Entry)
    ensures CandidateFor(scores, (d, e)) == Candidate(Gap(scores, d, e), d.name, e)
  {
    assert ScoreOf(scores, d.name) == if d.name in scores then scores[d.name] else 50;
  }

  lemma {:induction false} FlatHas(cat: Catalog, d: Dimension, e: Entry)
    ensures (d, e) in Flat(cat) <==> d in cat && e in d.entries
  {
    if cat != [] {
      var init, last := cat[..|cat| - 1], cat[|cat| - 1];
      FlatHas(init, d, e);
      assert cat == init + [last];
      if d == last && e in d.entries {
        var j :| 0 <= j < |d.entries| && d.entries[j] == e;
        assert Pairs(d, d.entries)[j] == (d, e);
      }
    }
  }

  lemma {:induction false} LowOnesAreCandidates(all: seq<(Dimension, Entry)>, scores: Scores, p: (Dimension, Entry))
    requires p in all && IsLow(scores, p)
    ensures CandidateFor(scores, p) in Triggered(all, scores)
  {
    var init, last := all[..|all| - 1], all[|all| - 1];
    assert all == init + [last];
    if p in init { LowOnesAreCandidates(init, scores, p); }
  }

  /** The place of an entry in the ranking holds its own candidate. */
  lemma RankedAtItsKey(cat: Catalog, scores: Scores, d: Dimension, e: Entry, k: nat)
    requires DistinctKeys(cat) && d in cat && e in d.entries && IsLow(scores, (d, e))
    requires k < |Ranking(cat, scores)| && Ranking(cat, scores)[k].entry.key == e.key
    ensures Ranking(cat, scores)[k] == CandidateFor(scores, (d, e))
  {
    var cs, ranked := Triggered(Flat(cat), scores), Ranking(cat, scores);
    FlatHas(cat, d, e);
    LowOnesAreCandidates(Flat(cat), scores, (d, e));
    var i :| 0 <= i < |cs| && cs[i] == CandidateFor(scores, (d, e));
    RankedHas(cs, i);
    var j :| 0 <= j < |ranked| && ranked[j] == CandidateFor(scores, (d, e));
    RankingHasTheTriggeredKeys(cat, scores);
    assert j == k;
  }

  lemma OneEntryPerKey(all: seq<(Dimension, Entry)>, p: (Dimension, Entry), q: (Dimension, Entry))
    requires forall i, j :: 0 <= i < j < |all| ==> all[i].1.key != all[j].1.key
    requires p in all && q in all && p.1.key == q.1.key
    ensures p == q
  {
    var i :| 0 <= i < |all| && all[i] == p;
    var j :| 0 <= j < |all| && all[j] == q;
    assert i == j;
  }

  /** An entry is pending afterwards exactly when its dimension scores below its trigger, 50
      standing in for no score, and nobody has accepted or dismissed it. */
  lemma PendingExactly(cat: Catalog, rows: Rows, scores: Scores, next: Id, d: Dimension, e: Entry)
    requires DistinctKeys(cat) && d in cat && e in d.entries
    ensures IsPendingIn(Reconciled(cat, rows, scores, next), e.key) <==>
      && (if d.name in scores then scores[d.name] else 50) < e.triggersBelow
      && (e.key in rows ==> rows[e.key].status == Pending)
  {
    var all, after := Flat(cat), Reconciled(cat, rows, scores, next);
    PendingAreTheTriggered(cat, rows, scores, next);
    FlatHas(cat, d, e);
    assert IsPendingIn(after, e.key) <==> e.key in KeysWith(after, Pending);
    assert e.key in TriggeredKeys(cat, scores) <==> IsLow(scores, (d, e)) by {
      if e.key in TriggeredKeys(cat, scores) {
        var p :| p in all && IsLow(scores, p) && p.1.key == e.key;
        OneEntryPerKey(all, p, (d, e));
      }
    }
  }

  lemma PlaceOfPending(cat: Catalog, rows: Rows, scores: Scores, next: Id, ranked: seq<Candidate>,
                       d: Dimension, e: Entry) returns (p: nat)
    requires DistinctKeys(cat) && d in cat && e in d.entries && ranked == Ranking(cat, scores)
    requires IsPendingIn(Aligned(rows, ranked, next), e.key) && IsLow(scores, (d, e))
    ensures p < |ranked| && ranked[p] == CandidateFor(scores, (d, e))
    ensures Aligned(rows, ranked, next)[e.key].priority == p + 1
  {
    PendingHasItsPlace(rows, ranked, next, e.key);
    p := Aligned(rows, ranked, next)[e.key].priority - 1;
    RankedAtItsKey(cat, scores, d, e, p);
  }

  lemma BetterComesFirst(ranked: seq<Candidate>, p: nat, q: nat)
    requires Descending(ranked) && p < |ranked| && q < |ranked|
    requires ranked[p].rank > ranked[q].rank
      || (ranked[p].rank == ranked[q].rank && ranked[p].entry.lift > ranked[q].entry.lift)
    ensures p < q
  {
  }

  /** Of two pending entries the one with the larger weighted gap has the smaller priority
      number; with equal gaps, the one with the larger lift. */
  lemma LargerGapComesFirst(cat: Catalog, rows: Rows, scores: Scores, next: Id,
                            d: Dimension, e: Entry, d': Dimension, e': Entry)
    requires DistinctKeys(cat) && d in cat && e in d.entries && d' in cat && e' in d'.entries
    requires IsPendingIn(Reconciled(cat, rows, scores, next), e.key)
    requires IsPendingIn(Reconciled(cat, rows, scores, next), e'.key)
    requires Gap(scores, d, e) > Gap(scores, d', e')
      || (Gap(scores, d, e) == Gap(scores, d', e') && e.lift > e'.lift)
    ensures var after := Reconciled(cat, rows, scores, next); after[e.key].priority < after[e'.key].priority
  {
    PendingExactly(cat, rows, scores, next, d, e);
    PendingExactly(cat, rows, scores, next, d', e');
    RankingIsDescending(cat, scores);
    var ranked := Ranking(cat, scores);
    var p := PlaceOfPending(cat, rows, scores, next, ranked, d, e);
    var q := PlaceOfPending(cat, rows, scores, next, ranked, d', e');
    GapIsItsRank(scores, d, e);
    GapIsItsRank(scores, d', e');
    BetterComesFirst(ranked, p, q);
  }

  lemma AligningTwice(rows: Rows, ranked: seq<Candidate>, next: Id, later: Id)
    ensures Aligned(Aligned(rows, ranked, next), ranked, later) == Aligned(rows, ranked, next)
  {
    var after := Aligned(rows, ranked, next);
    assert Kept(after, KeysOf(ranked)) == after;
    assert KeysOf(ranked) <= after.Keys;
  }

  /** A second run with the same scores changes nothing. */
  lemma SecondRunChangesNothing(cat: Catalog, rows: Rows, scores: Scores, next: Id, later: Id)
    ensures var after := Reconciled(cat, rows, scores, next);
      Reconciled(cat, after, scores, later) == after
  {
    AligningTwice(rows, Ranking(cat, scores), next, later);
  }

  /** What is pending, how it is ranked and what it promises depends on the scores and on
      which keys were resolved, on nothing else that happened before. */
  lemma HistoryDoesNotMatter(cat: Catalog, rows: Rows, other: Rows, scores: Scores, next: Id, later: Id, key: string)
    requires KeysWith(rows, Accepted) + KeysWith(rows, Dismissed)
      == KeysWith(other, Accepted) + KeysWith(other, Dismissed)
    ensures var a, b := Reconciled(cat, rows, scores, next), Reconciled(cat, other, scores, later);
      && (key in KeysWith(a, Pending) <==> key in KeysWith(b, Pending))
      && (key in KeysWith(a, Pending) ==> a[key].priority == b[key].priority && a[key].lift == b[key].lift)
  {
    var ranked := Ranking(cat, scores);
    AlignedStatuses(rows, ranked, next);
    AlignedStatuses(other, ranked, later);
    AlignedAt(rows, ranked, next, key);
    AlignedAt(other, ranked, later, key);
    assert key in KeysWith(rows, Accepted) + KeysWith(rows, Dismissed)
      <==> key in KeysWith(other, Accepted) + KeysWith(other, Dismissed);
  }

  // ---------------------------------------------------------------- runs

  datatype World = World(rows: Rows, next: Id)

  datatype Step =
    | Generate(scores: Scores)
    | Resolve(id: Id, target: Status)

  /** Pending becomes the target; anything resolved is left alone. */
  function Resolved(rows: Rows, id: Id, target: Status): Rows {
    map k | k in rows :: if rows[k].id == id && rows[k].status == Pending then rows[k].(status := target) else rows[k]
  }

  function Apply(cat: Catalog, w: World, s: Step): World {
    match s
    case Generate(scores) => World(Reconciled(cat, w.rows, scores, w.next), w.next + |Ranking(cat, scores)|)
    case Resolve(id, target) => w.(rows := Resolved(w.rows, id, target))
  }

  ghost predicate IsRun(cat: Catalog, worlds: seq<World>, steps: seq<Step>) {
    && |worlds| == |steps| + 1 && worlds[0] == World(map[], 0)
    && forall i :: 0 <= i < |steps| ==> worlds[i + 1] == Apply(cat, worlds[i], steps[i])
  }

  ghost predicate DistinctRowIds(w: World) {
    && (forall k :: k in w.rows ==> w.rows[k].id < w.next)
    && forall k, l :: k in w.rows && l in w.rows && w.rows[k].id == w.rows[l].id ==> k == l
  }

  lemma AligningKeepsRowIds(w: World, ranked: seq<Candidate>)
    requires DistinctRowIds(w)
    ensures DistinctRowIds(World(Aligned(w.rows, ranked, w.next), w.next + |ranked|))
  {
    var after := Aligned(w.rows, ranked, w.next);
    forall k | k in after
      ensures if k in w.rows then after[k].id == w.rows[k].id
              else k in KeysOf(ranked) && after[k].id == w.next + Position(ranked, k)
    {
      AlignedAt(w.rows, ranked, w.next, k);
    }
  }

  lemma StepKeepsRowIds(cat: Catalog, w: World, s: Step)
    requires DistinctRowIds(w)
    ensures DistinctRowIds(Apply(cat, w, s))
  {
    if s.Generate? {
      AligningKeepsRowIds(w, Ranking(cat, s.scores));
    }
  }

  lemma {:induction false} RowIdsStayDistinct(cat: Catalog, worlds: seq<World>, steps: seq<Step>, n: nat)
    requires IsRun(cat, worlds, steps) && n <= |steps|
    ensures DistinctRowIds(worlds[n])
  {
    if n > 0 {
      RowIdsStayDistinct(cat, worlds, steps, n - 1);
      StepKeepsRowIds(cat, worlds[n - 1], steps[n - 1]);
      assert worlds[n] == Apply(cat, worlds[n - 1], steps[n - 1]);
    }
  }

  /** No run of re-scorings and user decisions, in any order, alters or drops a
      recommendation somebody has accepted or dismissed. */
  lemma {:induction false} ResolvedIsForever(cat: Catalog, worlds: seq<World>, steps: seq<Step>,
                                             m: nat, n: nat, key: string)
    requires IsRun(cat, worlds, steps) && m <= n <= |steps|
    requires key in worlds[m].rows && worlds[m].rows[key].status != Pending
    ensures key in worlds[n].rows
    ensures worlds[n].rows[key].status == worlds[m].rows[key].status
    ensures worlds[n].rows[key].id == worlds[m].rows[key].id
  {
    if m < n {
      ResolvedIsForever(cat, worlds, steps, m, n - 1, key);
      assert worlds[n] == Apply(cat, worlds[n - 1], steps[n - 1]);
    }
  }

  // ---------------------------------------------------------------- the service

  /** Insert or refresh the row of one ranked candidate. */
  function Written(rows: Rows, c: Candidate, p: nat, next: Id): Rows {
    if c.entry.key !in rows then rows[c.entry.key := Row(next + p, c.dim, c.entry.lift, Pending, p + 1)]
    else if rows[c.entry.key].status == Dismissed then rows
    else rows[c.entry.key := rows[c.entry.key].(priority := p + 1, lift := c.entry.lift)]
  }

  lemma RowAfterOneMore(rows: Rows, ranked: seq<Candidate>, c: Candidate, next: Id, k: string)
    requires k in rows.Keys + KeysOf(ranked) && k != c.entry.key
    ensures KeysOf(ranked + [c]) == KeysOf(ranked) + {c.entry.key}
    ensures RowAfter(rows, ranked + [c], next, k) == RowAfter(rows, ranked, next, k)
  {
    KeysOfAppend(ranked, c);
    assert (ranked + [c])[..|ranked|] == ranked;
  }

  lemma OnlyItsRowChanges(rows: Rows, ranked: seq<Candidate>, c: Candidate, next: Id)
    requires c.entry.key !in KeysOf(ranked)
    ensures c.entry.key in KeysOf(ranked + [c])
    ensures Applied(rows, ranked + [c], next)
      == Applied(rows, ranked, next)[c.entry.key := RowAfter(rows, ranked + [c], next, c.entry.key)]
  {
    var before, after := Applied(rows, ranked, next), Applied(rows, ranked + [c], next);
    KeysOfAppend(ranked, c);
    assert after.Keys == before.Keys + {c.entry.key};
    forall k | k in after && k != c.entry.key
      ensures after[k] == before[k]
    {
      RowAfterOneMore(rows, ranked, c, next, k);
    }
    OneKeyDiffers(before, after, c.entry.key);
  }

  lemma AppliedOneMore(rows: Rows, ranked: seq<Candidate>, c: Candidate, next: Id)
    requires c.entry.key !in KeysOf(ranked)
    ensures Applied(rows, ranked + [c], next) == Written(Applied(rows, ranked, next), c, |ranked|, next)
  {
    KeysOfAppend(ranked, c);
    OnlyItsRowChanges(rows, ranked, c, next);
    assert Position(ranked + [c], c.entry.key) == |ranked|;
  }

  lemma {:induction false} TriggeredConcat(a: seq<(Dimension, Entry)>, b: seq<(Dimension, Entry)>, scores: Scores)
    ensures Triggered(a + b, scores) == Triggered(a, scores) + Triggered(b, scores)
  {
    if b == [] {
      assert a + b == a;
    } else {
      TriggeredConcat(a, b[..|b| - 1], scores);
      assert (a + b)[..|a + b| - 1] == a + b[..|b| - 1];
    }
  }

  datatype Refusal = NotFound | AlreadyResolved

  /** Row by row: a missing key is inserted as pending, a dismissed one left alone, any
      other keeps its id, dimension and status; all other keys are untouched. */
  ghost predicate WritesOneRow(before: Rows, after: Rows, c: Candidate, p: nat, next: Id) {
    var key := c.entry.key;
    && after.Keys == before.Keys + {key}
    && (forall k :: k in before && k != key ==> after[k] == before[k])
    && if key !in before then after[key] == Row(next + p, c.dim, c.entry.lift, Pending, p + 1)
       else
         && after[key].id == before[key].id && after[key].dim == before[key].dim
         && after[key].status == before[key].status
         && if before[key].status == Dismissed then after[key] == before[key]
            else after[key].priority == p + 1 && after[key].lift == c.entry.lift
  }

  lemma OneRowIsWritten(before: Rows, after: Rows, c: Candidate, p: nat, next: Id)
    requires WritesOneRow(before, after, c, p, next)
    ensures after == Written(before, c, p, next)
  {
    OneKeyDiffers(before, after, c.entry.key);
  }

  class RecommendationStore {
    const cat: Catalog
    var rows: Rows
    var next: Id

    ghost function View(): World
      reads this
    {
      World(rows, next)
    }

    constructor (cat: Catalog)
      ensures this.cat == cat && View() == World(map[], 0)
    {
      this.cat := cat;
      rows, next := map[], 0;
    }

    static method FromDimension(d: Dimension, scores: Scores) returns (candidates: seq<Candidate>)
      ensures candidates == Triggered(Pairs(d, d.entries), scores)
    {
      var score := ScoreOf(scores, d.name);
      candidates := [];
      for j := 0 to |d.entries|
        invariant candidates == Triggered(Pairs(d, d.entries)[..j], scores)
      {
        var e := d.entries[j];
        ghost var seen := Pairs(d, d.entries)[..j + 1];
        assert seen[..j] == Pairs(d, d.entries)[..j] && seen[j] == (d, e);
        assert Triggered(seen, scores)
          == Triggered(seen[..j], scores) + if IsLow(scores, (d, e)) then [CandidateFor(scores, (d, e))] else [];
        if score < e.triggersBelow {
          candidates := candidates + [Candidate((e.triggersBelow - score) as real * d.weight, d.name, e)];
          assert candidates[|candidates| - 1] == CandidateFor(scores, (d, e));
        } else {
          assert candidates + [] == candidates;
        }
        assert candidates == Triggered(seen, scores);
      }
      assert Pairs(d, d.entries)[..|d.entries|] == Pairs(d, d.entries);
    }

    /** The weak dimensions' entries, with their weighted gaps. */
    method CollectCandidates(scores: Scores) returns (candidates: seq<Candidate>)
      ensures candidates == Triggered(Flat(cat), scores)
    {
      candidates := [];
      for i := 0 to |cat|
        invariant candidates == Triggered(Flat(cat[..i]), scores)
      {
        assert cat[..i + 1][..i] == cat[..i];
        TriggeredConcat(Flat(cat[..i]), Pairs(cat[i], cat[i].entries), scores);
        var more := FromDimension(cat[i], scores);
        candidates := candidates + more;
      }
      assert cat[..|cat|] == cat;
    }

    method WriteRow(c: Candidate, p: nat)
      modifies this`rows
      ensures WritesOneRow(old(rows), rows, c, p, next)
    {
      var key := c.entry.key;
      if key !in rows {
        rows := rows[key := Row(next + p, c.dim, c.entry.lift, Pending, p + 1)];
      } else if rows[key].status != Dismissed {
        rows := rows[key := rows[key].(priority := p + 1, lift := c.entry.lift)];
      }
    }

    /** Insert or refresh the ranked candidates one at a time. */
    method WriteRows(ranked: seq<Candidate>)
      requires KeysDistinct(ranked)
      modifies this`rows
      ensures rows == Applied(old(rows), ranked, next)
    {
      assert rows == Applied(old(rows), [], next);
      for p := 0 to |ranked|
        invariant rows == Applied(old(rows), ranked[..p], next)
      {
        assert ranked[..p + 1] == ranked[..p] + [ranked[p]];
        AppliedOneMore(old(rows), ranked[..p], ranked[p], next);
        ghost var before := rows;
        WriteRow(ranked[p], p);
        OneRowIsWritten(before, rows, ranked[p], p, next);
      }
      assert ranked[..|ranked|] == ranked;
    }

    method GenerateRecommendations(scores: Scores)
      requires DistinctKeys(cat)
      modifies this
      ensures View() == Apply(cat, old(View()), Generate(scores))
    {
      var candidates := CollectCandidates(scores);
      var ranked := Ranked(candidates);
      RankingHasTheTriggeredKeys(cat, scores);
      rows := Kept(rows, KeysOf(ranked));
      WriteRows(ranked);
      next := next + |ranked|;
    }

    /** Accept or dismiss. */
    method ResolveRecommendation(id: Id, target: Status) returns (answer: Result<Row, Refusal>)
      requires DistinctRowIds(View())
      modifies this`rows
      ensures View() == Apply(cat, old(View()), Resolve(id, target))
      ensures answer == Err(NotFound) <==> forall k :: k in old(rows) ==> old(rows)[k].id != id
      ensures forall k :: k in old(rows) && old(rows)[k].id == id ==>
        && (answer.Ok? <==> old(rows)[k].status == target || old(rows)[k].status == Pending)
        && (answer.Ok? ==> answer.value == rows[k] && rows[k].status == target)
    {
      var found := set k | k in rows && rows[k].id == id;
      if found == {} {
        assert forall k :: k in rows ==> k !in found;
        return Err(NotFound);
      }
      var key :| key in found;
      if rows[key].status == target {
        return Ok(rows[key]);
      }
      if rows[key].status != Pending {
        return Err(AlreadyResolved);
      }
      rows := rows[key := rows[key].(status := target)];
      answer := Ok(rows[key]);
    }
  }
}
