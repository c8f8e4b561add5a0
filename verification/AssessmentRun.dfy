/** One assessment from start to completion, with any number of callers racing to
    complete it. */
module AssessmentRun {
  import opened Basics
  import opened Questionnaire

  datatype Refusal = NotInProgress | NotCurrentQuestion | InvalidAnswer

  /** `order` is the order the answer rows were inserted in; `waiting` holds the answers
      each racing completer has read; `announced` counts the follow-up jobs and event. */
  datatype Run = Run(completed: bool, answers: Answers, order: seq<string>,
                     results: seq<Score>, announced: nat, waiting: map<Id, Answers>)

  const START := Run(false, map[], [], [], 0, map[])

  datatype Step =
    | Submit(key: string, value: Value)
    | ReadToComplete(caller: Id)
    | ClaimCompletion(caller: Id)

  /** Submitting is accepted for the current question only, with a valid answer. */
  predicate Accepts(bank: Bank, startup: Startup, r: Run, key: string, value: Value) {
    && !r.completed
    && var q := NextQuestion(bank, r.answers, startup);
       q.Some? && q.value.key == key && ValidAnswer(q.value, value)
  }

  predicate IsCurrent(bank: Bank, startup: Startup, answers: Answers, key: string) {
    var q := NextQuestion(bank, answers, startup); q.Some? && q.value.key == key
  }

  function Answered(r: Run, key: string, value: Value): Run {
    r.(answers := r.answers[key := value], order := r.order + [key])
  }

  /** A completer goes on only when its read shows nothing missing. */
  function Read(bank: Bank, startup: Startup, r: Run, caller: Id): Run {
    if NextQuestion(bank, r.answers, startup).Some? then r
    else r.(waiting := r.waiting[caller := r.answers])
  }

  /** The conditional update: one caller finds the assessment in progress, scores what
      it read and announces it; the others change nothing. */
  ghost function Claimed(bank: Bank, startup: Startup, r: Run, caller: Id): Run
    requires caller in r.waiting && AllValid(bank, r.waiting[caller])
  {
    var rest := r.(waiting := r.waiting - {caller});
    if r.completed then rest
    else rest.(completed := true,
               results := r.results + [ScoreOf(bank, r.waiting[caller], startup)],
               announced := r.announced + 1)
  }

  ghost predicate Moves(bank: Bank, startup: Startup, r: Run, s: Step, r': Run) {
    match s
    case Submit(key, value) =>
      r' == if Accepts(bank, startup, r, key, value) then Answered(r, key, value) else r
    case ReadToComplete(caller) => r' == Read(bank, startup, r, caller)
    case ClaimCompletion(caller) =>
      caller in r.waiting && AllValid(bank, r.waiting[caller]) && r' == Claimed(bank, startup, r, caller)
  }

  ghost predicate IsRun(bank: Bank, startup: Startup, runs: seq<Run>, steps: seq<Step>) {
    && |runs| == |steps| + 1 && runs[0] == START
    && forall i :: 0 <= i < |steps| ==> Moves(bank, startup, runs[i], steps[i], runs[i + 1])
  }

  predicate DistinctKeys(bank: Bank) {
    forall i, j :: 0 <= i < j < |bank| ==> bank[i].key != bank[j].key
  }

  // ---------------------------------------------------------------- the invariant

  function Restrict(answers: Answers, keys: seq<string>): Answers {
    map k | k in answers && k in keys :: answers[k]
  }

  /** The i-th answer was given to a bank question that the earlier answers alone made
      applicable. */
  ghost predicate Grounded(bank: Bank, startup: Startup, answers: Answers, order: seq<string>, i: nat)
    requires i < |order|
  {
    exists q :: q in bank && q.key == order[i] && IsApplicable(q, Restrict(answers, order[..i]), startup)
  }

  ghost predicate Walked(bank: Bank, startup: Startup, r: Run) {
    && (forall i, j :: 0 <= i < j < |r.order| ==> r.order[i] != r.order[j])
    && (forall k :: k in r.answers <==> k in r.order)
    && (forall i {:trigger Grounded(bank, startup, r.answers, r.order, i)} :: 0 <= i < |r.order| ==>
          Grounded(bank, startup, r.answers, r.order, i))
    && AllValid(bank, r.answers)
  }

  ghost predicate Settled(bank: Bank, startup: Startup, r: Run) {
    && (forall c :: c in r.waiting ==> r.waiting[c] == r.answers && IsComplete(bank, r.answers, startup))
    && (r.completed ==>
          && IsComplete(bank, r.answers, startup) && AllValid(bank, r.answers)
          && r.results == [ScoreOf(bank, r.answers, startup)] && r.announced == 1)
    && (!r.completed ==> r.results == [] && r.announced == 0)
  }

  ghost predicate Invariant(bank: Bank, startup: Startup, r: Run) {
    Walked(bank, startup, r) && Settled(bank, startup, r)
  }

  lemma EarlierStayGrounded(bank: Bank, startup: Startup, r: Run, key: string, value: Value, i: nat)
    requires i < |r.order| && key !in r.order && Grounded(bank, startup, r.answers, r.order, i)
    ensures Grounded(bank, startup, r.answers[key := value], r.order + [key], i)
  {
    assert (r.order + [key])[..i] == r.order[..i];
    assert Restrict(r.answers[key := value], r.order[..i]) == Restrict(r.answers, r.order[..i]);
  }

  lemma NewestIsGrounded(bank: Bank, startup: Startup, r: Run, q: Question, value: Value)
    requires q in bank && q.key !in r.answers && IsApplicable(q, r.answers, startup)
    requires forall k :: k in r.answers <==> k in r.order
    ensures Grounded(bank, startup, r.answers[q.key := value], r.order + [q.key], |r.order|)
  {
    assert (r.order + [q.key])[..|r.order|] == r.order;
    assert Restrict(r.answers[q.key := value], r.order) == r.answers;
  }

  lemma KeysAreUnique(bank: Bank, p: Question, q: Question)
    requires DistinctKeys(bank) && p in bank && q in bank && p.key == q.key
    ensures p == q
  {
    var i :| 0 <= i < |bank| && bank[i] == p;
    var j :| 0 <= j < |bank| && bank[j] == q;
    assert i == j;
  }

  lemma NewAnswerIsValid(bank: Bank, answers: Answers, q: Question, value: Value)
    requires DistinctKeys(bank) && AllValid(bank, answers) && q in bank && ValidAnswer(q, value)
    ensures AllValid(bank, answers[q.key := value])
  {
    forall p | p in bank && p.key == q.key
      ensures p == q
    {
      KeysAreUnique(bank, p, q);
    }
  }

  lemma AnswerKeepsWalked(bank: Bank, startup: Startup, r: Run, key: string, value: Value)
    requires DistinctKeys(bank) && Walked(bank, startup, r) && Accepts(bank, startup, r, key, value)
    ensures Walked(bank, startup, Answered(r, key, value))
  {
    var r' := Answered(r, key, value);
    var q := NextQuestion(bank, r.answers, startup).value;
    NewestIsGrounded(bank, startup, r, q, value);
    forall i | 0 <= i < |r'.order|
      ensures Grounded(bank, startup, r'.answers, r'.order, i)
    {
      if i < |r.order| {
        assert Grounded(bank, startup, r.answers, r.order, i);
        EarlierStayGrounded(bank, startup, r, key, value, i);
      }
    }
    NewAnswerIsValid(bank, r.answers, q, value);
  }

  lemma SameAnswersStayWalked(bank: Bank, startup: Startup, r: Run, r': Run)
    requires Walked(bank, startup, r) && r'.answers == r.answers && r'.order == r.order
    ensures Walked(bank, startup, r')
  {
    forall i | 0 <= i < |r'.order|
      ensures Grounded(bank, startup, r'.answers, r'.order, i)
    {
      assert Grounded(bank, startup, r.answers, r.order, i);
    }
  }

  lemma StepKeepsInvariant(bank: Bank, startup: Startup, r: Run, s: Step, r': Run)
    requires DistinctKeys(bank) && Invariant(bank, startup, r) && Moves(bank, startup, r, s, r')
    ensures Invariant(bank, startup, r')
  {
    match s
    case Submit(key, value) =>
      if Accepts(bank, startup, r, key, value) {
        AnswerKeepsWalked(bank, startup, r, key, value);
        assert !IsComplete(bank, r.answers, startup);
      }
    case ReadToComplete(caller) => SameAnswersStayWalked(bank, startup, r, r');
    case ClaimCompletion(caller) => SameAnswersStayWalked(bank, startup, r, r');
  }

  lemma {:induction false} RunKeepsInvariant(bank: Bank, startup: Startup, runs: seq<Run>, steps: seq<Step>, n: nat)
    requires DistinctKeys(bank) && IsRun(bank, startup, runs, steps) && n <= |steps|
    ensures Invariant(bank, startup, runs[n])
  {
    if n > 0 {
      RunKeepsInvariant(bank, startup, runs, steps, n - 1);
      assert Moves(bank, startup, runs[n - 1], steps[n - 1], runs[n]);
      StepKeepsInvariant(bank, startup, runs[n - 1], steps[n - 1], runs[n]);
    }
  }

  // ---------------------------------------------------------------- theorems

  lemma {:induction false} BankKeyCount(bank: Bank)
    ensures |set q | q in bank :: q.key| <= |bank|
  {
    if bank != [] {
      var init, last := bank[..|bank| - 1], bank[|bank| - 1];
      BankKeyCount(init);
      assert bank == init + [last];
      assert (set q | q in bank :: q.key) == (set q | q in init :: q.key) + {last.key};
    } else {
      assert (set q | q in bank :: q.key) == {};
    }
  }

  lemma {:induction false} OrderFitsBank(bank: Bank, startup: Startup, r: Run, n: nat)
    requires Walked(bank, startup, r) && n <= |r.order|
    ensures |r.order| <= |bank|
  {
    var keys := set q | q in bank :: q.key;
    BankKeyCount(bank);
    var answered := Elements(r.order);
    forall k | k in answered
      ensures k in keys
    {
      var i :| 0 <= i < |r.order| && r.order[i] == k;
      assert Grounded(bank, startup, r.answers, r.order, i);
    }
    SubsetSize(answered, keys);
    DistinctSize(r.order);
  }

  /** At every moment of every run, whatever was answered is still applicable, and no
      more answers were given than the bank has questions. */
  lemma AnsweredStaysApplicable(bank: Bank, startup: Startup, runs: seq<Run>, steps: seq<Step>, n: nat)
    requires DistinctKeys(bank) && IsRun(bank, startup, runs, steps) && n <= |steps|
    ensures var r := runs[n];
      && (forall q :: q in bank && q.key in r.answers ==> IsApplicable(q, r.answers, startup))
      && |r.order| <= |bank|
  {
    RunKeepsInvariant(bank, startup, runs, steps, n);
    var r := runs[n];
    forall q | q in bank && q.key in r.answers
      ensures IsApplicable(q, r.answers, startup)
    {
      var i :| 0 <= i < |r.order| && r.order[i] == q.key;
      assert Grounded(bank, startup, r.answers, r.order, i);
      var p :| p in bank && p.key == r.order[i] && IsApplicable(p, Restrict(r.answers, r.order[..i]), startup);
      KeysAreUnique(bank, p, q);
      ApplicableIsMonotone(q, Restrict(r.answers, r.order[..i]), r.answers, startup);
    }
    OrderFitsBank(bank, startup, r, |r.order|);
  }

  /** Once completed, a question is answered if and only if it is applicable; the
      scorer's filter then drops nothing, and the result was written and announced
      exactly once, however many callers raced. */
  lemma CompletionIsExact(bank: Bank, startup: Startup, runs: seq<Run>, steps: seq<Step>, n: nat)
    requires DistinctKeys(bank) && IsRun(bank, startup, runs, steps) && n <= |steps| && runs[n].completed
    ensures var r := runs[n];
      && AllValid(bank, r.answers)
      && (forall q :: q in bank ==> (q.key in r.answers <==> IsApplicable(q, r.answers, startup)))
      && (forall dim :: DimensionScore(bank, dim, r.answers, startup) == UnfilteredScore(bank, dim, r.answers))
      && r.results == [ScoreOf(bank, r.answers, startup)] && r.announced == 1
  {
    RunKeepsInvariant(bank, startup, runs, steps, n);
    AnsweredStaysApplicable(bank, startup, runs, steps, n);
    forall dim
      ensures DimensionScore(bank, dim, runs[n].answers, startup)
              == UnfilteredScore(bank, dim, runs[n].answers)
    {
      FilterDropsNothing(bank, dim, runs[n].answers, startup);
    }
  }

  /** The finished answers are the least closed set: any complete answer map that gives
      the same values on shared questions contains all of them. */
  lemma {:induction false} FinalAnswersAreLeast(bank: Bank, startup: Startup, r: Run, other: Answers, n: nat)
    requires DistinctKeys(bank) && Walked(bank, startup, r) && n <= |r.order|
    requires IsComplete(bank, other, startup)
    requires forall k :: k in r.answers && k in other ==> other[k] == r.answers[k]
    ensures forall i :: 0 <= i < n ==> r.order[i] in other
    ensures n == |r.order| ==> Extends(r.answers, other)
  {
    if n > 0 {
      FinalAnswersAreLeast(bank, startup, r, other, n - 1);
      var k := n - 1;
      assert Grounded(bank, startup, r.answers, r.order, k);
      var q :| q in bank && q.key == r.order[k] && IsApplicable(q, Restrict(r.answers, r.order[..k]), startup);
      ApplicableIsMonotone(q, Restrict(r.answers, r.order[..k]), other, startup);
    }
  }

  /** The value suits the type of question. */
  ghost predicate Suits(q: Question, v: Value) {
    match q.qtype
    case SingleChoice => exists i :: 0 <= i < |q.options| && v == Text(q.options[i])
    case MultiChoice => v.Choices? && |v.choices| > 0 && Elements(v.choices) <= Elements(q.options)
    case Scale1to5 => v in {Whole(1), Whole(2), Whole(3), Whole(4), Whole(5)}
    case NumericCurrency => (v.Whole? && v.n as real >= 0.0) || (v.Fraction? && v.x >= 0.0)
    case ShortText => v.Text? && exists i :: 0 <= i < |v.text| && v.text[i] !in {' ', '\t', '\n', '\r'}
  }

  lemma FourBlanks(c: char)
    ensures IsSpace(c) <==> c in {' ', '\t', '\n', '\r'}
  {
    var blanks := " \t\n\r";
    assert blanks[0] == ' ' && blanks[1] == '\t' && blanks[2] == '\n' && blanks[3] == '\r';
  }

  lemma ValidSuits(q: Question, v: Value)
    ensures ValidAnswer(q, v) <==> Suits(q, v)
  {
    match q.qtype
    case SingleChoice =>
    case MultiChoice =>
      assert v.Choices? ==> forall c :: c in v.choices <==> c in Elements(v.choices);
      assert forall c :: c in q.options <==> c in Elements(q.options);
    case Scale1to5 =>
    case NumericCurrency =>
    case ShortText =>
      if ValidAnswer(q, v) {
        var c :| c in v.text && !IsSpace(c);
        FourBlanks(c);
        var i :| 0 <= i < |v.text| && v.text[i] == c;
      }
      if Suits(q, v) {
        var i :| 0 <= i < |v.text| && v.text[i] !in {' ', '\t', '\n', '\r'};
        FourBlanks(v.text[i]);
        assert v.text[i] in v.text;
      }
  }

  /** An answer is accepted exactly while the assessment is in progress, for the first open
      question, with a value that suits it. */
  lemma AcceptsExactly(bank: Bank, startup: Startup, r: Run, key: string, value: Value)
    ensures Accepts(bank, startup, r, key, value) <==>
      !r.completed &&
      exists i :: 0 <= i < |bank| && IsNext(bank, r.answers, startup, i) && bank[i].key == key && Suits(bank[i], value)
  {
    var q := NextQuestion(bank, r.answers, startup);
    if q.Some? {
      ValidSuits(q.value, value);
      var i :| 0 <= i < |bank| && q.value == bank[i] && IsNext(bank, r.answers, startup, i);
      forall j | 0 <= j < |bank| && IsNext(bank, r.answers, startup, j)
        ensures j == i
      {
      }
    }
  }

  /** In every run every stored answer suits its question. */
  lemma StoredAnswersSuit(bank: Bank, startup: Startup, runs: seq<Run>, steps: seq<Step>, n: nat, q: Question)
    requires DistinctKeys(bank) && IsRun(bank, startup, runs, steps) && n <= |steps|
    requires q in bank && q.key in runs[n].answers
    ensures Suits(q, runs[n].answers[q.key])
  {
    RunKeepsInvariant(bank, startup, runs, steps, n);
    ValidSuits(q, runs[n].answers[q.key]);
  }

  // ---------------------------------------------------------------- the service

  class Assessment {
    const bank: Bank
    const startup: Startup
    var completed: bool
    var answers: Answers
    var results: seq<Score>
    var announced: nat
    ghost var order: seq<string>
    var waiting: map<Id, Answers>

    ghost function View(): Run
      reads this
    {
      Run(completed, answers, order, results, announced, waiting)
    }

    constructor (bank: Bank, startup: Startup)
      requires DistinctKeys(bank)
      ensures this.bank == bank && this.startup == startup && View() == START
    {
      this.bank, this.startup := bank, startup;
      completed, answers, results, announced, waiting, order := false, map[], [], 0, map[], [];
    }

    /** Accept an answer to the current question and hand out the next one. */
    method SubmitAnswer(key: string, value: Value) returns (answer: Result<Option<Question>, Refusal>)
      modifies this
      ensures Moves(bank, startup, old(View()), Submit(key, value), View())
      ensures match answer
        case Ok(next) =>
          Accepts(bank, startup, old(View()), key, value) && next == NextQuestion(bank, answers, startup)
        case Err(refusal) =>
          && !Accepts(bank, startup, old(View()), key, value)
          && (refusal == NotInProgress <==> old(completed))
          && (refusal == InvalidAnswer ==> IsCurrent(bank, startup, old(answers), key))
          && (refusal == NotCurrentQuestion ==> !IsCurrent(bank, startup, old(answers), key))
    {
      if completed {
        return Err(NotInProgress);
      }
      var current := NextQuestion(bank, answers, startup);
      if current.None? || current.value.key != key {
        return Err(NotCurrentQuestion);
      }
      if !ValidAnswer(current.value, value) {
        return Err(InvalidAnswer);
      }
      answers := answers[key := value];
      order := order + [key];
      answer := Ok(NextQuestion(bank, answers, startup));
    }

    /** The first half of completing: read the answers, refuse if one is missing. */
    method ReadAnswers(caller: Id) returns (missing: Option<Question>)
      modifies this
      ensures Moves(bank, startup, old(View()), ReadToComplete(caller), View())
      ensures missing == NextQuestion(bank, old(answers), startup)
      ensures missing.None? ==> caller in waiting && waiting[caller] == old(answers)
    {
      missing := NextQuestion(bank, answers, startup);
      if missing.None? {
        waiting := waiting[caller := answers];
      }
    }

    /** The second half: claim the transition; only the winner scores and announces. */
    method ClaimAndScore(caller: Id) returns (result: Score, claimed: bool)
      requires caller in waiting && Invariant(bank, startup, View())
      modifies this
      ensures Moves(bank, startup, old(View()), Step.ClaimCompletion(caller), View())
      ensures claimed <==> !old(completed)
      ensures completed && results == [result] && result == ScoreOf(bank, answers, startup)
    {
      var read := waiting[caller];
      waiting := waiting - {caller};
      claimed := !completed;
      if !claimed {
        result := results[0];
        return;
      }
      completed := true;
      result := ScoreAnswers(bank, read, startup);
      results := results + [result];
      announced := announced + 1;
    }
  }
}
