/** The adaptive questionnaire: its condition language, the next-question walk, answer
    validation and the scorer. */
module Questionnaire {
  import opened Basics

  /** An answer or a startup field as it arrives in JSON. */
  datatype Value = Text(text: string) | Whole(n: int) | Fraction(x: real) | Choices(choices: seq<string>)

  /** Equality as Python compares values: 5 and 5.0 are equal. */
  predicate Same(a: Value, b: Value) {
    match (a, b)
    case (Whole(n), Fraction(x)) => n as real == x
    case (Fraction(x), Whole(n)) => n as real == x
    case _ => a == b
  }

  type Answers = map<string, Value>
  type Startup = map<string, Value>

  /** A `show_if` node. There is no negation. */
  datatype Cond =
    | All(parts: seq<Cond>)
    | AnyOf(parts: seq<Cond>)
    | FieldIn(field: string, options: seq<Value>)
    | FieldEq(field: string, eq: Option<Value>)
    | AnswerIn(key: string, options: seq<Value>)
    | AnswerEq(key: string, eq: Option<Value>)
    | Always

  predicate OneOf(v: Value, options: seq<Value>) {
    exists o :: o in options && Same(v, o)
  }

  predicate Holds(c: Cond, answers: Answers, startup: Startup)
    decreases c
  {
    match c
    case All(parts) => forall i :: 0 <= i < |parts| ==> Holds(parts[i], answers, startup)
    case AnyOf(parts) => exists i :: 0 <= i < |parts| && Holds(parts[i], answers, startup)
    case FieldIn(field, options) => field in startup && OneOf(startup[field], options)
    case FieldEq(field, eq) =>
      if field in startup then eq.Some? && Same(startup[field], eq.value) else eq.None?
    case AnswerIn(key, options) => key in answers && OneOf(answers[key], options)
    case AnswerEq(key, eq) => key in answers && eq.Some? && Same(answers[key], eq.value)
    case Always => true
  }

  datatype Dimension = Product | Market | Money | Legal | Team
  datatype QType = SingleChoice | MultiChoice | Scale1to5 | NumericCurrency | ShortText

  datatype Question = Question(key: string, dimension: Dimension, qtype: QType, maxPoints: nat,
                               points: map<string, nat>, options: seq<string>, showIf: Option<Cond>)

  type Bank = seq<Question>

  predicate IsApplicable(q: Question, answers: Answers, startup: Startup) {
    q.showIf.None? || Holds(q.showIf.value, answers, startup)
  }

  predicate IsOpen(q: Question, answers: Answers, startup: Startup) {
    q.key !in answers && IsApplicable(q, answers, startup)
  }

  /** Question i is open and none before it is. */
  predicate IsNext(bank: Bank, answers: Answers, startup: Startup, i: nat)
    requires i < |bank|
  {
    IsOpen(bank[i], answers, startup) && forall j :: 0 <= j < i ==> !IsOpen(bank[j], answers, startup)
  }

  /** Nothing applicable is left unanswered. */
  predicate IsComplete(bank: Bank, answers: Answers, startup: Startup) {
    forall q :: q in bank && IsApplicable(q, answers, startup) ==> q.key in answers
  }

  /** The first question not yet answered whose condition holds. */
  function NextQuestion(bank: Bank, answers: Answers, startup: Startup): (q: Option<Question>)
    ensures q.Some? ==>
      exists i :: 0 <= i < |bank| && q.value == bank[i] && IsNext(bank, answers, startup, i)
    ensures q.None? <==> IsComplete(bank, answers, startup)
  {
    if bank == [] then None
    else if bank[0].key !in answers && IsApplicable(bank[0], answers, startup) then
      assert bank[0] in bank;
      assert IsNext(bank, answers, startup, 0);
      Some(bank[0])
    else
      var q := NextQuestion(bank[1..], answers, startup);
      assert forall p :: p in bank <==> p == bank[0] || p in bank[1..];
      assert forall i {:trigger IsNext(bank[1..], answers, startup, i)} ::
        0 <= i < |bank| - 1 && IsNext(bank[1..], answers, startup, i) ==>
          bank[1..][i] == bank[i + 1] && IsNext(bank, answers, startup, i + 1);
      q
  }

  predicate IsSpace(c: char) {
    c in " \t\n\r"
  }

  predicate ValidAnswer(q: Question, v: Value) {
    match q.qtype
    case SingleChoice => v.Text? && v.text in q.options
    case MultiChoice => v.Choices? && v.choices != [] && forall c :: c in v.choices ==> c in q.options
    case Scale1to5 => v.Whole? && 1 <= v.n <= 5
    case NumericCurrency => (v.Whole? && v.n >= 0) || (v.Fraction? && v.x >= 0.0)
    case ShortText => v.Text? && exists c :: c in v.text && !IsSpace(c)
  }

  // ---------------------------------------------------------------- monotonicity

  ghost predicate Extends(a: Answers, b: Answers) {
    forall k :: k in a ==> k in b && b[k] == a[k]
  }

  /** More answers never make a condition false. */
  lemma {:induction false} HoldsIsMonotone(c: Cond, a: Answers, b: Answers, startup: Startup)
    requires Extends(a, b) && Holds(c, a, startup)
    ensures Holds(c, b, startup)
    decreases c
  {
    match c
    case All(parts) =>
      forall i | 0 <= i < |parts|
        ensures Holds(parts[i], b, startup)
      {
        HoldsIsMonotone(parts[i], a, b, startup);
      }
    case AnyOf(parts) =>
      var i :| 0 <= i < |parts| && Holds(parts[i], a, startup);
      HoldsIsMonotone(parts[i], a, b, startup);
    case _ =>
  }

  /** So a question once applicable stays applicable. */
  lemma ApplicableIsMonotone(q: Question, a: Answers, b: Answers, startup: Startup)
    requires Extends(a, b) && IsApplicable(q, a, startup)
    ensures IsApplicable(q, b, startup)
  {
    if q.showIf.Some? {
      HoldsIsMonotone(q.showIf.value, a, b, startup);
    }
  }

  // ---------------------------------------------------------------- what conditions mean

  /** Values compare like an equivalence, whole numbers and fractions by their value. */
  lemma SameIsEquivalence(a: Value, b: Value, c: Value, n: int, x: real)
    ensures Same(a, a) && (Same(a, b) ==> Same(b, a)) && (Same(a, b) && Same(b, c) ==> Same(a, c))
    ensures Same(Whole(n), Fraction(x)) <==> n as real == x
    ensures Same(a, b) ==> a == b || (a.Whole? && b.Fraction?) || (a.Fraction? && b.Whole?)
  {
  }

  /** `all` is conjunction and `any` disjunction. */
  lemma ConditionsCombine(c: Cond, cs: seq<Cond>, answers: Answers, startup: Startup)
    ensures Holds(All([]), answers, startup) && !Holds(AnyOf([]), answers, startup)
    ensures Holds(All(cs + [c]), answers, startup) <==> Holds(All(cs), answers, startup) && Holds(c, answers, startup)
    ensures Holds(AnyOf(cs + [c]), answers, startup)
      <==> Holds(AnyOf(cs), answers, startup) || Holds(c, answers, startup)
  {
    var more := cs + [c];
    assert more[|cs|] == c && forall i :: 0 <= i < |cs| ==> more[i] == cs[i];
  }

  /** `in` is `eq` to one of the options; nothing equals a missing answer, and only a missing
      `eq` equals a missing field. */
  lemma LeafConditions(name: string, v: Value, options: seq<Value>, answers: Answers, startup: Startup)
    ensures Holds(AnswerEq(name, Some(v)), answers, startup) <==> name in answers && Same(answers[name], v)
    ensures Holds(AnswerIn(name, options), answers, startup)
      <==> exists o :: o in options && Holds(AnswerEq(name, Some(o)), answers, startup)
    ensures Holds(FieldEq(name, Some(v)), answers, startup) <==> name in startup && Same(startup[name], v)
    ensures Holds(FieldEq(name, None), answers, startup) <==> name !in startup
    ensures Holds(FieldIn(name, options), answers, startup)
      <==> exists o :: o in options && Holds(FieldEq(name, Some(o)), answers, startup)
  {
  }

  /** The condition looks at this answer. */
  predicate Mentions(c: Cond, key: string) {
    match c
    case All(parts) => exists i :: 0 <= i < |parts| && Mentions(parts[i], key)
    case AnyOf(parts) => exists i :: 0 <= i < |parts| && Mentions(parts[i], key)
    case AnswerIn(k, _) => k == key
    case AnswerEq(k, _) => k == key
    case _ => false
  }

  lemma {:induction false} UnmentionedDoesNotMatter(c: Cond, a: Answers, key: string, v: Value, startup: Startup)
    requires !Mentions(c, key)
    ensures Holds(c, a[key := v], startup) <==> Holds(c, a, startup)
    decreases c
  {
    match c
    case All(parts) =>
      forall i | 0 <= i < |parts|
        ensures Holds(parts[i], a[key := v], startup) <==> Holds(parts[i], a, startup)
      {
        UnmentionedDoesNotMatter(parts[i], a, key, v, startup);
      }
    case AnyOf(parts) =>
      forall i | 0 <= i < |parts|
        ensures Holds(parts[i], a[key := v], startup) <==> Holds(parts[i], a, startup)
      {
        UnmentionedDoesNotMatter(parts[i], a, key, v, startup);
      }
    case _ =>
  }

  // ---------------------------------------------------------------- scoring

  function PointsFor(points: map<string, nat>, choice: string): nat {
    if choice in points then points[choice] else 0
  }

  function SumPoints(points: map<string, nat>, choices: seq<string>): nat {
    if choices == [] then 0
    else
      SumPoints(points, choices[..|choices| - 1]) + PointsFor(points, choices[|choices| - 1])
  }

  function Points(q: Question, v: Value): nat
    requires ValidAnswer(q, v)
  {
    match q.qtype
    case Scale1to5 => v.n
    case SingleChoice => PointsFor(q.points, v.text)
    case MultiChoice => Min(SumPoints(q.points, v.choices), q.maxPoints)
    case _ => 0
  }

  ghost predicate AllValid(bank: Bank, answers: Answers) {
    forall q :: q in bank && q.key in answers ==> ValidAnswer(q, answers[q.key])
  }

  /** The question carries points and the scorer's filter lets it through. */
  predicate Scores(q: Question, dim: Dimension, answers: Answers, startup: Startup) {
    q.dimension == dim && q.maxPoints > 0 && q.key in answers && IsApplicable(q, answers, startup)
  }

  /** Points earned and points available over a set of questions that count. */
  ghost function Earned(bank: Bank, counts: Question -> bool, answers: Answers): nat
    requires forall q :: q in bank && counts(q) ==> q.key in answers && ValidAnswer(q, answers[q.key])
  {
    if bank == [] then 0
    else
      var q := bank[|bank| - 1];
      Earned(bank[..|bank| - 1], counts, answers) + if counts(q) then Points(q, answers[q.key]) else 0
  }

  ghost function Available(bank: Bank, counts: Question -> bool): nat {
    if bank == [] then 0
    else
      var q := bank[|bank| - 1];
      Available(bank[..|bank| - 1], counts) + if counts(q) then q.maxPoints else 0
  }

  lemma ShareFits(earned: nat, available: nat)
    requires available > 0
    ensures earned <= available ==> RoundDiv(100 * earned, available) <= 100
  {
    if earned <= available {
      RoundDivMonotone(100 * earned, 100 * available, available);
      RoundDivIsNearestEven(100 * available, available, 100);
    }
  }

  /** A dimension's share of its available points, in per cent; 50 when nothing counts. */
  function Share(earned: nat, available: nat): (pct: nat)
    ensures pct <= 100
    ensures available == 0 ==> pct == 50
    ensures 0 < available <= earned ==> pct == 100
    ensures earned < available ==> IsRoundingOf(pct, 100 * earned, available)
  {
    if available == 0 then 50
    else
      RoundDivIsNearestEven(100 * earned, available, RoundDiv(100 * earned, available));
      ShareFits(earned, available);
      if available <= earned then
        RoundDivMonotone(100 * available, 100 * earned, available);
        RoundDivIsNearestEven(100 * available, available, 100);
        Min(100, RoundDiv(100 * earned, available))
      else Min(100, RoundDiv(100 * earned, available))
  }

  ghost function EarnedIn(bank: Bank, dim: Dimension, answers: Answers, startup: Startup): nat
    requires AllValid(bank, answers)
  {
    Earned(bank, (q: Question) => Scores(q, dim, answers, startup), answers)
  }

  ghost function AvailableIn(bank: Bank, dim: Dimension, answers: Answers, startup: Startup): nat {
    Available(bank, (q: Question) => Scores(q, dim, answers, startup))
  }

  ghost function DimensionScore(bank: Bank, dim: Dimension, answers: Answers, startup: Startup): nat
    requires AllValid(bank, answers)
  {
    Share(EarnedIn(bank, dim, answers, startup), AvailableIn(bank, dim, answers, startup))
  }

  /** The same score without the applicability filter: every answered question counts. */
  ghost function UnfilteredScore(bank: Bank, dim: Dimension, answers: Answers): nat
    requires AllValid(bank, answers)
  {
    var counts := (q: Question) => q.dimension == dim && q.maxPoints > 0 && q.key in answers;
    Share(Earned(bank, counts, answers), Available(bank, counts))
  }

  datatype Score = Score(product: nat, market: nat, money: nat, legal: nat, team: nat, overall: nat)

  function OverallOf(product: nat, market: nat, money: nat, legal: nat, team: nat): nat {
    RoundDiv(product + market + money + legal + team, 5)
  }

  ghost function ScoreOf(bank: Bank, answers: Answers, startup: Startup): Score
    requires AllValid(bank, answers)
  {
    var p, m := DimensionScore(bank, Product, answers, startup), DimensionScore(bank, Market, answers, startup);
    var o, l := DimensionScore(bank, Money, answers, startup), DimensionScore(bank, Legal, answers, startup);
    var t := DimensionScore(bank, Team, answers, startup);
    Score(p, m, o, l, t, OverallOf(p, m, o, l, t))
  }

  method ScoreOneDimension(bank: Bank, dim: Dimension, answers: Answers, startup: Startup) returns (pct: nat)
    requires AllValid(bank, answers)
    ensures pct == DimensionScore(bank, dim, answers, startup) && pct <= 100
  {
    ghost var counts := (q: Question) => Scores(q, dim, answers, startup);
    var earned, maxSum := 0, 0;
    for i := 0 to |bank|
      invariant earned == Earned(bank[..i], counts, answers) && maxSum == Available(bank[..i], counts)
    {
      assert bank[..i + 1][..i] == bank[..i];
      var q := bank[i];
      assert q in bank;
      if q.dimension != dim { continue; }
      if q.maxPoints <= 0 { continue; }
      if q.key !in answers || !IsApplicable(q, answers, startup) { continue; }
      earned := earned + Points(q, answers[q.key]);
      maxSum := maxSum + q.maxPoints;
    }
    assert bank[..|bank|] == bank;
    pct := if maxSum != 0 then RoundDiv(100 * earned, maxSum) else 50;
    pct := Min(100, Max(0, pct));
  }

  lemma OverallIsAPercentage(p: nat, m: nat, o: nat, l: nat, t: nat)
    requires p <= 100 && m <= 100 && o <= 100 && l <= 100 && t <= 100
    ensures OverallOf(p, m, o, l, t) <= 100
  {
    RoundDivMonotone(p + m + o + l + t, 500, 5);
  }

  method ScoreAnswers(bank: Bank, answers: Answers, startup: Startup) returns (score: Score)
    requires AllValid(bank, answers)
    ensures score == ScoreOf(bank, answers, startup) && score.overall <= 100
    ensures IsRoundingOf(score.overall, score.product + score.market + score.money + score.legal + score.team, 5)
  {
    var p := ScoreOneDimension(bank, Product, answers, startup);
    var m := ScoreOneDimension(bank, Market, answers, startup);
    var o := ScoreOneDimension(bank, Money, answers, startup);
    var l := ScoreOneDimension(bank, Legal, answers, startup);
    var t := ScoreOneDimension(bank, Team, answers, startup);
    OverallIsAPercentage(p, m, o, l, t);
    RoundDivIsNearestEven(p + m + o + l + t, 5, OverallOf(p, m, o, l, t));
    score := Score(p, m, o, l, t, OverallOf(p, m, o, l, t));
  }

  lemma {:induction false} SameCountSameSums(bank: Bank, a: Question -> bool, b: Question -> bool, answers: Answers)
    requires forall q :: q in bank ==> a(q) == b(q)
    requires forall q :: q in bank && a(q) ==> q.key in answers && ValidAnswer(q, answers[q.key])
    ensures Earned(bank, a, answers) == Earned(bank, b, answers)
    ensures Available(bank, a) == Available(bank, b)
  {
    if bank != [] {
      assert bank[|bank| - 1] in bank;
      SameCountSameSums(bank[..|bank| - 1], a, b, answers);
    }
  }

  /** When every answered question is applicable, the filter drops nothing. */
  lemma FilterDropsNothing(bank: Bank, dim: Dimension, answers: Answers, startup: Startup)
    requires AllValid(bank, answers)
    requires forall q :: q in bank && q.key in answers ==> IsApplicable(q, answers, startup)
    ensures DimensionScore(bank, dim, answers, startup) == UnfilteredScore(bank, dim, answers)
  {
    var counts := (q: Question) => Scores(q, dim, answers, startup);
    var answered := (q: Question) => q.dimension == dim && q.maxPoints > 0 && q.key in answers;
    SameCountSameSums(bank, counts, answered, answers);
  }

  // ---------------------------------------------------------------- what answers earn

  /** Choices add up, each with the points listed for it. */
  lemma {:induction false} ChoicesAddUp(points: map<string, nat>, a: seq<string>, b: seq<string>, c: string)
    ensures SumPoints(points, a + b) == SumPoints(points, a) + SumPoints(points, b)
    ensures SumPoints(points, [c]) == if c in points then points[c] else 0
  {
    if b == [] {
      assert a + b == a;
    } else {
      ChoicesAddUp(points, a, b[..|b| - 1], c);
      assert (a + b)[..|a + b| - 1] == a + b[..|b| - 1];
    }
    assert [c][..0] == [];
  }

  /** One more question of the bank adds its maximum to what is available and its answer to what
      is earned, if it belongs to the dimension, carries points, is answered and applies; and
      nothing otherwise. A scale answer earns its value, a single choice the points listed for
      it, several choices their sum up to the maximum, other types nothing. */
  lemma OneMoreQuestion(bank: Bank, q: Question, dim: Dimension, answers: Answers, startup: Startup)
    requires AllValid(bank + [q], answers)
    ensures AllValid(bank, answers)
    ensures EarnedIn([], dim, answers, startup) == AvailableIn([], dim, answers, startup) == 0
    ensures
      var counts := q.dimension == dim && q.maxPoints > 0 && q.key in answers && IsApplicable(q, answers, startup);
      && AvailableIn(bank + [q], dim, answers, startup)
         == AvailableIn(bank, dim, answers, startup) + (if counts then q.maxPoints else 0)
      && EarnedIn(bank + [q], dim, answers, startup) == EarnedIn(bank, dim, answers, startup) +
           if !counts then 0
           else match q.qtype
             case Scale1to5 => answers[q.key].n
             case SingleChoice => if answers[q.key].text in q.points then q.points[answers[q.key].text] else 0
             case MultiChoice => Min(SumPoints(q.points, answers[q.key].choices), q.maxPoints)
             case NumericCurrency => 0
             case ShortText => 0
  {
    assert (bank + [q])[..|bank|] == bank && q in bank + [q];
  }

  /** The answer earns all the question has to give. */
  predicate IsBest(q: Question, v: Value) {
    match q.qtype
    case Scale1to5 => v.Whole? && v.n >= q.maxPoints
    case SingleChoice => v.Text? && v.text in q.points && q.points[v.text] >= q.maxPoints
    case MultiChoice => v.Choices? && SumPoints(q.points, v.choices) >= q.maxPoints
    case NumericCurrency => false
    case ShortText => false
  }

  lemma {:induction false} BestAnswersEarnAll(bank: Bank, dim: Dimension, answers: Answers, startup: Startup)
    requires AllValid(bank, answers)
    requires forall q :: q in bank && Scores(q, dim, answers, startup) ==> IsBest(q, answers[q.key])
    ensures EarnedIn(bank, dim, answers, startup) >= AvailableIn(bank, dim, answers, startup)
    ensures (exists q :: q in bank && Scores(q, dim, answers, startup)) ==> AvailableIn(bank, dim, answers, startup) > 0
    ensures (forall q :: q in bank ==> !Scores(q, dim, answers, startup)) ==>
      AvailableIn(bank, dim, answers, startup) == 0
  {
    if bank != [] {
      var init, q := bank[..|bank| - 1], bank[|bank| - 1];
      assert bank == init + [q] && q in bank;
      BestAnswersEarnAll(init, dim, answers, startup);
    }
  }

  /** Answering everything that counts as well as possible gives 100. */
  lemma BestAnswersGiveHundred(bank: Bank, dim: Dimension, answers: Answers, startup: Startup)
    requires AllValid(bank, answers)
    requires exists q :: q in bank && Scores(q, dim, answers, startup)
    requires forall q :: q in bank && Scores(q, dim, answers, startup) ==> IsBest(q, answers[q.key])
    ensures DimensionScore(bank, dim, answers, startup) == 100
  {
    BestAnswersEarnAll(bank, dim, answers, startup);
  }

  lemma ShareGrows(earned: nat, more: nat, available: nat)
    requires earned <= more
    ensures Share(earned, available) <= Share(more, available)
  {
    if available > 0 { RoundDivMonotone(100 * earned, 100 * more, available); }
  }

  lemma {:induction false} HigherScaleEarnsMore(bank: Bank, dim: Dimension, a: Answers, b: Answers, startup: Startup,
                                                key: string, n: int, m: int)
    requires n <= m && key in a && a[key] == Whole(n) && b == a[key := Whole(m)]
    requires AllValid(bank, a) && AllValid(bank, b)
    requires forall q :: q in bank ==> (IsApplicable(q, a, startup) <==> IsApplicable(q, b, startup))
    ensures AvailableIn(bank, dim, a, startup) == AvailableIn(bank, dim, b, startup)
    ensures EarnedIn(bank, dim, a, startup) <= EarnedIn(bank, dim, b, startup)
  {
    if bank != [] {
      var init, q := bank[..|bank| - 1], bank[|bank| - 1];
      assert bank == init + [q] && q in bank;
      HigherScaleEarnsMore(init, dim, a, b, startup, key, n, m);
      OneMoreQuestion(init, q, dim, a, startup);
      OneMoreQuestion(init, q, dim, b, startup);
    }
  }

  /** A higher answer to a question on a scale never lowers a score, when no condition of the
      bank looks at that answer. */
  lemma HigherScaleNeverLowers(bank: Bank, dim: Dimension, a: Answers, startup: Startup, key: string, n: int, m: int)
    requires n <= m && key in a && a[key] == Whole(n)
    requires AllValid(bank, a) && AllValid(bank, a[key := Whole(m)])
    requires forall q :: q in bank && q.showIf.Some? ==> !Mentions(q.showIf.value, key)
    ensures DimensionScore(bank, dim, a, startup) <= DimensionScore(bank, dim, a[key := Whole(m)], startup)
  {
    var b := a[key := Whole(m)];
    forall q | q in bank
      ensures IsApplicable(q, a, startup) <==> IsApplicable(q, b, startup)
    {
      if q.showIf.Some? { UnmentionedDoesNotMatter(q.showIf.value, a, key, Whole(m), startup); }
    }
    HigherScaleEarnsMore(bank, dim, a, b, startup, key, n, m);
    ShareGrows(EarnedIn(bank, dim, a, startup), EarnedIn(bank, dim, b, startup), AvailableIn(bank, dim, a, startup));
  }

  /** Two questions on a scale; the second is shown when the first has the top answer. */
  const FIRST := Question("a", Product, Scale1to5, 5, map[], [], None)
  const SECOND := Question("b", Product, Scale1to5, 5, map[], [], Some(AnswerEq("a", Some(Whole(5)))))

  lemma PairEarns(answers: Answers, startup: Startup, n: int)
    requires 1 <= n <= 5 && answers == map["a" := Whole(n), "b" := Whole(1)]
    ensures AllValid([FIRST, SECOND], answers)
    ensures EarnedIn([FIRST, SECOND], Product, answers, startup) == if n == 5 then 6 else n
    ensures AvailableIn([FIRST, SECOND], Product, answers, startup) == if n == 5 then 10 else 5
  {
    assert [] + [FIRST] == [FIRST] && [FIRST] + [SECOND] == [FIRST, SECOND];
    OneMoreQuestion([], FIRST, Product, answers, startup);
    OneMoreQuestion([FIRST], SECOND, Product, answers, startup);
  }

  /** Otherwise it can: the top answer may bring in a question that is answered badly. */
  lemma HigherScaleCanLower(low: Answers, startup: Startup)
    requires low == map["a" := Whole(4), "b" := Whole(1)]
    ensures var high := low["a" := Whole(5)];
      && AllValid([FIRST, SECOND], low) && AllValid([FIRST, SECOND], high)
      && DimensionScore([FIRST, SECOND], Product, low, startup) == 80
      && DimensionScore([FIRST, SECOND], Product, high, startup) == 60
  {
    var high := low["a" := Whole(5)];
    assert high == map["a" := Whole(5), "b" := Whole(1)];
    PairEarns(low, startup, 4);
    PairEarns(high, startup, 5);
  }
}
