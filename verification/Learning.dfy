/** Lesson completion: enrolment, the course percentage, and certificates, with any
    number of callers interleaved. Enrolling looks the row up and inserts it under a
    unique key; everything after that runs while holding the enrolment row. */
module Learning {
  import opened Basics

  /** A member of a startup. */
  datatype Who = Who(startup: Id, user: Id)

  /** The lessons of each course, and the course of each lesson. */
  datatype Catalog = Catalog(courses: map<Id, seq<Id>>, courseOf: map<Id, Id>)

  ghost predicate WellFormed(cat: Catalog) {
    && (forall c, i :: c in cat.courses && 0 <= i < |cat.courses[c]| ==>
          cat.courses[c][i] in cat.courseOf && cat.courseOf[cat.courses[c][i]] == c)
    && (forall l :: l in cat.courseOf ==> cat.courseOf[l] in cat.courses && l in cat.courses[cat.courseOf[l]])
    && (forall c, i, j :: c in cat.courses && 0 <= i < j < |cat.courses[c]| ==>
          cat.courses[c][i] != cat.courses[c][j])
  }

  datatype Enrollment = Enrollment(progress: nat, completedAt: Option<int>)

  /** How far a caller of `complete_lesson` has come. */
  datatype Phase =
    | Looked(who: Who, lesson: Id, found: bool)
    | Enrolled(who: Who, lesson: Id)

  datatype World = World(lessons: set<(Who, Id)>, enrollments: map<(Who, Id), Enrollment>,
                         certificates: seq<(Who, Id)>, callers: map<Id, Phase>)

  const EMPTY := World({}, map[], [], map[])

  function DoneIn(cat: Catalog, lessons: set<(Who, Id)>, who: Who, course: Id): set<Id>
    requires course in cat.courses
  {
    set l | l in cat.courses[course] && (who, l) in lessons
  }

  /** The course percentage, counted afresh. */
  function CourseProgress(cat: Catalog, lessons: set<(Who, Id)>, who: Who, course: Id): nat
    requires course in cat.courses
  {
    if cat.courses[course] == [] then 0
    else Percent(|DoneIn(cat, lessons, who, course)|, |cat.courses[course]|)
  }

  datatype Step =
    | Enroll(who: Who, course: Id)
    | Look(caller: Id, who: Who, lesson: Id)
    | Insert(caller: Id)
    | Complete(caller: Id, now: int)

  predicate Enabled(cat: Catalog, w: World, s: Step) {
    match s
    case Enroll(_, course) => course in cat.courses
    case Look(_, _, lesson) => lesson in cat.courseOf
    case Insert(caller) => caller in w.callers && w.callers[caller].Looked?
    case Complete(caller, _) => caller in w.callers && w.callers[caller].Enrolled?
  }

  /** Insert under the unique key: a caller who lost the race finds the winner's row. */
  function Ensured(w: World, who: Who, course: Id): World {
    if (who, course) in w.enrollments then w
    else w.(enrollments := w.enrollments[(who, course) := Enrollment(0, None)])
  }

  /** The locked part: record the lesson, recount, and certify on first reaching 100. */
  function Completed(cat: Catalog, w: World, who: Who, lesson: Id, now: int): World
    requires lesson in cat.courseOf && cat.courseOf[lesson] in cat.courses
    requires (who, cat.courseOf[lesson]) in w.enrollments
  {
    var course := cat.courseOf[lesson];
    var lessons := w.lessons + {(who, lesson)};
    var progress := CourseProgress(cat, lessons, who, course);
    var e := w.enrollments[(who, course)];
    var certify := progress == 100 && e.completedAt.None?;
    w.(lessons := lessons,
       enrollments :=
         w.enrollments[(who, course) := Enrollment(progress, if certify then Some(now) else e.completedAt)],
       certificates := w.certificates + if certify then [(who, course)] else [])
  }

  ghost predicate Moves(cat: Catalog, w: World, s: Step, w': World) {
    Enabled(cat, w, s) &&
    match s
    case Enroll(who, course) => w' == Ensured(w, who, course)
    case Look(caller, who, lesson) =>
      w' == w.(callers := w.callers[caller := Looked(who, lesson, (who, cat.courseOf[lesson]) in w.enrollments)])
    case Insert(caller) =>
      var p := w.callers[caller];
      && p.lesson in cat.courseOf
      && w' == (if p.found then w else Ensured(w, p.who, cat.courseOf[p.lesson]))
                 .(callers := w.callers[caller := Enrolled(p.who, p.lesson)])
    case Complete(caller, now) =>
      var p := w.callers[caller];
      && p.lesson in cat.courseOf && cat.courseOf[p.lesson] in cat.courses
      && (p.who, cat.courseOf[p.lesson]) in w.enrollments
      && w' == Completed(cat, w, p.who, p.lesson, now).(callers := w.callers - {caller})
  }

  ghost predicate IsRun(cat: Catalog, worlds: seq<World>, steps: seq<Step>) {
    && |worlds| == |steps| + 1 && worlds[0] == EMPTY
    && forall i :: 0 <= i < |steps| ==> Moves(cat, worlds[i], steps[i], worlds[i + 1])
  }

  // ---------------------------------------------------------------- the invariant

  /** Stored percentages equal the recount, and completion is exactly 100. */
  ghost predicate RolledUp(cat: Catalog, w: World) {
    forall who, c :: (who, c) in w.enrollments ==>
      && c in cat.courses
      && w.enrollments[(who, c)].progress == CourseProgress(cat, w.lessons, who, c)
      && (w.enrollments[(who, c)].completedAt.Some? <==> w.enrollments[(who, c)].progress == 100)
  }

  /** Only enrolled members have completed lessons, and a caller past the insert has an
      enrolment to lock. */
  ghost predicate EnrolledFirst(cat: Catalog, w: World) {
    && (forall who, l :: (who, l) in w.lessons ==> l in cat.courseOf && (who, cat.courseOf[l]) in w.enrollments)
    && (forall k :: k in w.callers ==>
          var p := w.callers[k];
          && p.lesson in cat.courseOf
          && (p.Enrolled? || p.found ==> (p.who, cat.courseOf[p.lesson]) in w.enrollments))
  }

  ghost predicate HasCompleted(w: World, who: Who, course: Id) {
    (who, course) in w.enrollments && w.enrollments[(who, course)].completedAt.Some?
  }

  ghost predicate CertifiedOnce(w: World) {
    forall who, c :: multiset(w.certificates)[(who, c)] == if HasCompleted(w, who, c) then 1 else 0
  }

  ghost predicate Sound(cat: Catalog, w: World) {
    RolledUp(cat, w) && EnrolledFirst(cat, w) && CertifiedOnce(w)
  }

  lemma DoneFitsCourse(cat: Catalog, lessons: set<(Who, Id)>, who: Who, course: Id)
    requires WellFormed(cat) && course in cat.courses
    ensures |DoneIn(cat, lessons, who, course)| <= |cat.courses[course]|
    ensures |DoneIn(cat, lessons, who, course)| == |cat.courses[course]| <==>
      forall l :: l in cat.courses[course] ==> (who, l) in lessons
  {
    var all := Elements(cat.courses[course]);
    var done := DoneIn(cat, lessons, who, course);
    DistinctSize(cat.courses[course]);
    SubsetSize(done, all);
    if forall l :: l in cat.courses[course] ==> (who, l) in lessons {
      assert done == all;
    } else {
      var l :| l in cat.courses[course] && (who, l) !in lessons;
      assert l in all && l !in done;
    }
  }

  /** One lesson more never lowers a percentage, and touches its own course only. */
  lemma OneMoreLesson(cat: Catalog, lessons: set<(Who, Id)>, who: Who, lesson: Id, other: Who, course: Id)
    requires WellFormed(cat) && course in cat.courses && lesson in cat.courseOf
    ensures var more := lessons + {(who, lesson)};
      && CourseProgress(cat, lessons, other, course) <= CourseProgress(cat, more, other, course) <= 100
      && (other != who || course != cat.courseOf[lesson] ==>
            CourseProgress(cat, lessons, other, course) == CourseProgress(cat, more, other, course))
  {
    var more := lessons + {(who, lesson)};
    var before, after := DoneIn(cat, lessons, other, course), DoneIn(cat, more, other, course);
    DoneFitsCourse(cat, more, other, course);
    SubsetSize(before, after);
    if cat.courses[course] != [] {
      PercentMonotone(|before|, |after|, |cat.courses[course]|);
    }
    if other != who || course != cat.courseOf[lesson] {
      assert before == after;
    }
  }

  lemma NothingDoneIsZero(cat: Catalog, lessons: set<(Who, Id)>, who: Who, course: Id)
    requires course in cat.courses && DoneIn(cat, lessons, who, course) == {}
    ensures CourseProgress(cat, lessons, who, course) == 0
  {
  }

  lemma EnsuringKeepsSound(cat: Catalog, w: World, who: Who, course: Id)
    requires WellFormed(cat) && Sound(cat, w) && course in cat.courses
    ensures Sound(cat, Ensured(w, who, course))
  {
    if (who, course) !in w.enrollments {
      assert DoneIn(cat, w.lessons, who, course) == {};
      NothingDoneIsZero(cat, w.lessons, who, course);
    }
  }

  lemma CompletingKeepsRolledUp(cat: Catalog, w: World, who: Who, lesson: Id, now: int)
    requires WellFormed(cat) && Sound(cat, w) && lesson in cat.courseOf
    requires (who, cat.courseOf[lesson]) in w.enrollments
    ensures RolledUp(cat, Completed(cat, w, who, lesson, now))
  {
    var w' := Completed(cat, w, who, lesson, now);
    forall o, c | (o, c) in w'.enrollments
      ensures c in cat.courses
      ensures w'.enrollments[(o, c)].progress == CourseProgress(cat, w'.lessons, o, c)
      ensures w'.enrollments[(o, c)].completedAt.Some? <==> w'.enrollments[(o, c)].progress == 100
    {
      assert (o, c) in w.enrollments;
      OneMoreLesson(cat, w.lessons, who, lesson, o, c);
    }
  }

  lemma CompletingKeepsCertifiedOnce(cat: Catalog, w: World, who: Who, lesson: Id, now: int)
    requires WellFormed(cat) && Sound(cat, w) && lesson in cat.courseOf
    requires (who, cat.courseOf[lesson]) in w.enrollments
    ensures CertifiedOnce(Completed(cat, w, who, lesson, now))
  {
    var w' := Completed(cat, w, who, lesson, now);
    forall o, c
      ensures multiset(w'.certificates)[(o, c)] == if HasCompleted(w', o, c) then 1 else 0
    {
      assert multiset(w.certificates)[(o, c)] == if HasCompleted(w, o, c) then 1 else 0;
    }
  }

  lemma CompletingKeepsSound(cat: Catalog, w: World, who: Who, lesson: Id, now: int)
    requires WellFormed(cat) && Sound(cat, w) && lesson in cat.courseOf
    requires (who, cat.courseOf[lesson]) in w.enrollments
    ensures Sound(cat, Completed(cat, w, who, lesson, now))
  {
    CompletingKeepsRolledUp(cat, w, who, lesson, now);
    CompletingKeepsCertifiedOnce(cat, w, who, lesson, now);
  }

  /** What a caller is waiting for does not touch the tables. */
  lemma CallersDoNotMatter(cat: Catalog, w: World, w': World)
    requires Sound(cat, w) && w' == w.(callers := w'.callers) && EnrolledFirst(cat, w')
    ensures Sound(cat, w')
  {
    forall who, c
      ensures multiset(w'.certificates)[(who, c)] == if HasCompleted(w', who, c) then 1 else 0
    {
      assert multiset(w.certificates)[(who, c)] == if HasCompleted(w, who, c) then 1 else 0;
    }
  }

  lemma StepKeepsSound(cat: Catalog, w: World, s: Step, w': World)
    requires WellFormed(cat) && Sound(cat, w) && Moves(cat, w, s, w')
    ensures Sound(cat, w')
  {
    match s
    case Enroll(who, course) => EnsuringKeepsSound(cat, w, who, course);
    case Look(caller, who, lesson) => CallersDoNotMatter(cat, w, w');
    case Insert(caller) =>
      var p := w.callers[caller];
      EnsuringKeepsSound(cat, w, p.who, cat.courseOf[p.lesson]);
      CallersDoNotMatter(cat, if p.found then w else Ensured(w, p.who, cat.courseOf[p.lesson]), w');
    case Complete(caller, now) =>
      var p := w.callers[caller];
      CompletingKeepsSound(cat, w, p.who, p.lesson, now);
      CallersDoNotMatter(cat, Completed(cat, w, p.who, p.lesson, now), w');
  }

  lemma {:induction false} RunIsSound(cat: Catalog, worlds: seq<World>, steps: seq<Step>, n: nat)
    requires WellFormed(cat) && IsRun(cat, worlds, steps) && n <= |steps|
    ensures Sound(cat, worlds[n])
  {
    if n > 0 {
      RunIsSound(cat, worlds, steps, n - 1);
      assert Moves(cat, worlds[n - 1], steps[n - 1], worlds[n]);
      StepKeepsSound(cat, worlds[n - 1], steps[n - 1], worlds[n]);
    }
  }

  // ---------------------------------------------------------------- theorems

  /** The stored percentage, read off the rows: the share of the course's lessons the member has
      completed, rounded to the nearest integer with ties to even, and 0 without lessons; it is
      100 exactly when `completed_at` is set. */
  ghost predicate ShowsLessonShare(cat: Catalog, lessons: set<(Who, Id)>, e: Enrollment, who: Who, course: Id)
    requires course in cat.courses
  {
    var done := set l | l in cat.courses[course] && (who, l) in lessons;
    && (if cat.courses[course] == [] then e.progress == 0
        else IsRoundingOf(e.progress, 100 * |done|, |cat.courses[course]|))
    && (e.completedAt.Some? <==> e.progress == 100)
  }

  lemma RecountShowsLessonShare(cat: Catalog, lessons: set<(Who, Id)>, e: Enrollment, who: Who, course: Id)
    requires course in cat.courses && e.progress == CourseProgress(cat, lessons, who, course)
    requires e.completedAt.Some? <==> e.progress == 100
    ensures ShowsLessonShare(cat, lessons, e, who, course)
  {
    var done := DoneIn(cat, lessons, who, course);
    if cat.courses[course] != [] { PercentIsRounded(|done|, |cat.courses[course]|); }
    assert done == set l | l in cat.courses[course] && (who, l) in lessons;
  }

  /** At every moment of every run: the stored percentage is the recount, and a member
      has one certificate for a course when `completed_at` is set and none otherwise. */
  lemma ProgressIsTheRecount(cat: Catalog, worlds: seq<World>, steps: seq<Step>, n: nat, who: Who, course: Id)
    requires WellFormed(cat) && IsRun(cat, worlds, steps) && n <= |steps|
    ensures var w := worlds[n];
      && ((who, course) in w.enrollments ==>
            && course in cat.courses
            && w.enrollments[(who, course)].progress == CourseProgress(cat, w.lessons, who, course)
            && ShowsLessonShare(cat, w.lessons, w.enrollments[(who, course)], who, course))
      && multiset(w.certificates)[(who, course)] == if HasCompleted(w, who, course) then 1 else 0
  {
    RunIsSound(cat, worlds, steps, n);
    var w := worlds[n];
    if (who, course) in w.enrollments {
      RecountShowsLessonShare(cat, w.lessons, w.enrollments[(who, course)], who, course);
    }
  }

  /** No step lowers a percentage, unsets a completion, or drops an enrolment. */
  lemma ProgressNeverDecreases(cat: Catalog, worlds: seq<World>, steps: seq<Step>, n: nat, who: Who, course: Id)
    requires WellFormed(cat) && IsRun(cat, worlds, steps) && n < |steps|
    requires (who, course) in worlds[n].enrollments
    ensures (who, course) in worlds[n + 1].enrollments
    ensures worlds[n].enrollments[(who, course)].progress <= worlds[n + 1].enrollments[(who, course)].progress
    ensures worlds[n].enrollments[(who, course)].completedAt.Some? ==>
      worlds[n + 1].enrollments[(who, course)].completedAt == worlds[n].enrollments[(who, course)].completedAt
  {
    RunIsSound(cat, worlds, steps, n);
    assert Moves(cat, worlds[n], steps[n], worlds[n + 1]);
    if steps[n].Complete? {
      var p := worlds[n].callers[steps[n].caller];
      OneMoreLesson(cat, worlds[n].lessons, p.who, p.lesson, who, course);
    }
  }

  /** Exactly when a course reads 100: when at most one lesson in two hundred is missing. */
  lemma FullExactlyWhen(cat: Catalog, lessons: set<(Who, Id)>, who: Who, course: Id)
    requires WellFormed(cat) && course in cat.courses
    ensures var n, done := |cat.courses[course]|, |DoneIn(cat, lessons, who, course)|;
      CourseProgress(cat, lessons, who, course) == 100 <==> n > 0 && 200 * (n - done) <= n
  {
    DoneFitsCourse(cat, lessons, who, course);
    if cat.courses[course] != [] {
      PercentIsFullIff(|DoneIn(cat, lessons, who, course)|, |cat.courses[course]|);
    }
  }

  /** So in every run, a certificate for a course of 1 to 199 lessons means that every
      one of them is completed, and completing the last one issues it. */
  lemma CertificateMeansAllLessons(cat: Catalog, worlds: seq<World>, steps: seq<Step>, n: nat, who: Who, course: Id)
    requires WellFormed(cat) && IsRun(cat, worlds, steps) && n <= |steps|
    requires course in cat.courses && 1 <= |cat.courses[course]| <= 199
    requires (who, course) in worlds[n].enrollments
    ensures (who, course) in worlds[n].certificates <==>
      forall l :: l in cat.courses[course] ==> (who, l) in worlds[n].lessons
  {
    RunIsSound(cat, worlds, steps, n);
    FullExactlyWhen(cat, worlds[n].lessons, who, course);
    DoneFitsCourse(cat, worlds[n].lessons, who, course);
    assert multiset(worlds[n].certificates)[(who, course)] == if HasCompleted(worlds[n], who, course) then 1 else 0;
  }

  /** With two hundred lessons the last one is not needed: 199 of 200 reads 100. */
  lemma OneMissingOfTwoHundred(cat: Catalog, lessons: set<(Who, Id)>, who: Who, course: Id)
    requires WellFormed(cat) && course in cat.courses && |cat.courses[course]| == 200
    requires |DoneIn(cat, lessons, who, course)| == 199
    ensures CourseProgress(cat, lessons, who, course) == 100
    ensures !forall l :: l in cat.courses[course] ==> (who, l) in lessons
  {
    FullExactlyWhen(cat, lessons, who, course);
    DoneFitsCourse(cat, lessons, who, course);
  }

  ghost predicate AllDone(cat: Catalog, lessons: set<(Who, Id)>, who: Who, course: Id)
    requires course in cat.courses
  {
    forall l :: l in cat.courses[course] ==> (who, l) in lessons
  }

  /** Reading 100 means that every lesson is completed, whatever was completed, if and only
      if the course has fewer than two hundred lessons. */
  lemma HundredMeansAllIffUnderTwoHundred(cat: Catalog, who: Who, course: Id)
    requires WellFormed(cat) && course in cat.courses
    ensures (forall lessons {:trigger CourseProgress(cat, lessons, who, course)} ::
               CourseProgress(cat, lessons, who, course) == 100 ==> AllDone(cat, lessons, who, course))
      <==> |cat.courses[course]| < 200
  {
    var n := |cat.courses[course]|;
    if n < 200 {
      forall lessons | CourseProgress(cat, lessons, who, course) == 100
        ensures AllDone(cat, lessons, who, course)
      {
        FullExactlyWhen(cat, lessons, who, course);
        DoneFitsCourse(cat, lessons, who, course);
      }
    } else {
      var missing := cat.courses[course][0];
      var lessons := set l | l in cat.courses[course] && l != missing :: (who, l);
      assert DoneIn(cat, lessons, who, course) == Elements(cat.courses[course]) - {missing};
      DistinctSize(cat.courses[course]);
      FullExactlyWhen(cat, lessons, who, course);
      assert missing in cat.courses[course] && (who, missing) !in lessons;
      assert !AllDone(cat, lessons, who, course);
    }
  }

  /** Completing a lesson again changes nothing at all. */
  lemma RepeatChangesNothing(cat: Catalog, w: World, who: Who, lesson: Id, now: int)
    requires WellFormed(cat) && Sound(cat, w) && (who, lesson) in w.lessons
    ensures lesson in cat.courseOf && (who, cat.courseOf[lesson]) in w.enrollments
    ensures Completed(cat, w, who, lesson, now) == w
  {
    assert w.lessons + {(who, lesson)} == w.lessons;
  }

  // ---------------------------------------------------------------- the service

  datatype Refusal = NotFound

  class LearningStore {
    const cat: Catalog
    var lessons: set<(Who, Id)>
    var enrollments: map<(Who, Id), Enrollment>
    var certificates: seq<(Who, Id)>
    var callers: map<Id, Phase>

    ghost function View(): World
      reads this
    {
      World(lessons, enrollments, certificates, callers)
    }

    constructor (cat: Catalog)
      ensures this.cat == cat && View() == EMPTY
    {
      this.cat := cat;
      lessons, enrollments, certificates, callers := {}, map[], [], map[];
    }

    /** Fetch or create, for a caller who runs it alone. */
    method GetOrCreateEnrollment(who: Who, course: Id) returns (answer: Result<bool, Refusal>)
      modifies this`enrollments
      ensures answer.Ok? <==> course in cat.courses
      ensures View() == if answer.Ok? then Ensured(old(View()), who, course) else old(View())
      ensures answer.Ok? ==> (answer.value <==> (who, course) !in old(enrollments))
    {
      if course !in cat.courses {
        return Err(NotFound);
      }
      if (who, course) in enrollments {
        return Ok(false);
      }
      enrollments := enrollments[(who, course) := Enrollment(0, None)];
      answer := Ok(true);
    }

    method RecordLesson(who: Who, lesson: Id)
      modifies this`lessons
      ensures lessons == old(lessons) + {(who, lesson)}
    {
      if (who, lesson) in lessons {
        assert lessons + {(who, lesson)} == lessons;
        return;
      }
      lessons := lessons + {(who, lesson)};
    }

    /** The locked section of `complete_lesson`, after enrolling. */
    method RollUp(who: Who, lesson: Id, now: int) returns (certified: bool)
      requires lesson in cat.courseOf && cat.courseOf[lesson] in cat.courses
      requires (who, cat.courseOf[lesson]) in enrollments
      modifies this`lessons, this`enrollments, this`certificates
      ensures View() == Completed(cat, old(View()), who, lesson, now)
      ensures lessons == old(lessons) + {(who, lesson)}
      ensures certified ==> enrollments[(who, cat.courseOf[lesson])].completedAt == Some(now)
      ensures certificates == old(certificates) + if certified then [(who, cat.courseOf[lesson])] else []
      ensures certified <==> |certificates| == |old(certificates)| + 1
    {
      var course := cat.courseOf[lesson];
      RecordLesson(who, lesson);
      var e := enrollments[(who, course)].(progress := CourseProgress(cat, lessons, who, course));
      certified := e.progress == 100 && e.completedAt.None?;
      if certified {
        e := e.(completedAt := Some(now));
        certificates := certificates + [(who, course)];
      } else {
        assert certificates + [] == certificates;
      }
      enrollments := enrollments[(who, course) := e];
    }

    /** One caller completing a lesson alone. */
    method CompleteLesson(who: Who, lesson: Id, now: int) returns (answer: Result<(Enrollment, bool), Refusal>)
      requires WellFormed(cat) && Sound(cat, View())
      modifies this
      ensures Sound(cat, View())
      ensures answer.Err? <==> lesson !in cat.courseOf
      ensures answer.Err? ==> View() == old(View())
      ensures answer.Ok? ==>
        var course := cat.courseOf[lesson];
        && View() == Completed(cat, Ensured(old(View()), who, course), who, lesson, now)
        && answer.value.0 == enrollments[(who, course)]
        && (answer.value.1 <==> HasCompleted(View(), who, course) && !HasCompleted(old(View()), who, course))
    {
      if lesson !in cat.courseOf {
        return Err(NotFound);
      }
      var course := cat.courseOf[lesson];
      ghost var before := View();
      var created := GetOrCreateEnrollment(who, course);
      EnsuringKeepsSound(cat, before, who, course);
      CompletingKeepsSound(cat, View(), who, lesson, now);
      var certified := RollUp(who, lesson, now);
      answer := Ok((enrollments[(who, course)], certified));
    }
  }
}
