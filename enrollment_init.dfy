/**
 * Sample-data generation for a teacher's courses
 * (service/EnrollmentInitializationService.java). Every `java.util.Random`
 * draw is an input; the clock reading is an input too.
 */
module EnrollmentInitialization {
  import opened Nullable
  import opened Enrollments

  const SecondsPerDay: int := 86400

  /** `LocalDateTime.now().minusDays(days)` as seconds since the epoch. */
  function DaysBefore(now: int, days: nat): int {
    now - days * SecondsPerDay
  }

  /**
   * The draws made for one completed lesson, in the order the source makes them:
   * `nextInt(30)`, `nextInt(15)`, `nextInt(40)`, `nextInt(3)`, `nextInt(60)`.
   */
  datatype LessonDraw = LessonDraw(
    startedDaysAgo: nat,
    completedDaysAgo: nat,
    scoreAbove60: nat,
    extraAttempts: nat,
    minutesAbove15: nat)

  predicate LessonDrawInRange(d: LessonDraw) {
    d.startedDaysAgo < 30 && d.completedDaysAgo < 15 && d.scoreAbove60 < 40
    && d.extraAttempts < 3 && d.minutesAbove15 < 60
  }

  /**
   * The draws made for one enrolment: `nextInt(total + 1)` completed lessons, one
   * `LessonDraw` per completed lesson, `nextDouble() < 0.1` for the at-risk coin,
   * then `nextInt(90)`, `nextInt(7)` and `nextInt(15)` for the dates and the streak.
   */
  datatype EnrollmentDraws = EnrollmentDraws(
    completed: nat,
    lessons: seq<LessonDraw>,
    atRisk: bool,
    enrolledDaysAgo: nat,
    lastActivityDaysAgo: nat,
    streak: nat)

  predicate DrawsInRange(d: EnrollmentDraws, totalLessons: nat) {
    d.completed <= totalLessons && d.completed <= |d.lessons|
    && (forall i :: 0 <= i < |d.lessons| ==> LessonDrawInRange(d.lessons[i]))
    && d.enrolledDaysAgo < 90 && d.lastActivityDaysAgo < 7 && d.streak < 15
  }

  /** The progress entry built for the lesson `lessonId` from its draws. */
  function CompletedLesson(lessonId: string, d: LessonDraw, now: int): (p: LessonProgress)
    ensures LessonDrawInRange(d) ==>
      60 <= p.quizScore < 100 && 1 <= p.attempts <= 3 && 15 <= p.timeSpent < 75
  {
    LessonProgress(lessonId, true, 100,
      Some(DaysBefore(now, d.startedDaysAgo)), Some(DaysBefore(now, d.completedDaysAgo)),
      d.scoreAbove60 + 60, d.extraAttempts + 1, d.minutesAbove15 + 15)
  }

  /** The progress entries for the first `n` lessons of the course, in course order. */
  function CompletedLessons(lessons: seq<string>, draws: seq<LessonDraw>, now: int, n: nat): (ps: seq<LessonProgress>)
    requires n <= |lessons| && n <= |draws|
    ensures |ps| == n
    ensures forall i :: 0 <= i < n ==> ps[i] == CompletedLesson(lessons[i], draws[i], now)
  {
    if n == 0 then [] else CompletedLessons(lessons, draws, now, n - 1) + [CompletedLesson(lessons[n - 1], draws[n - 1], now)]
  }

  function Scores(ps: seq<LessonProgress>): (xs: seq<int>)
    ensures |xs| == |ps| && forall i :: 0 <= i < |ps| ==> xs[i] == ps[i].quizScore
  {
    if ps == [] then [] else [ps[0].quizScore] + Scores(ps[1..])
  }

  function Attempts(ps: seq<LessonProgress>): (xs: seq<int>)
    ensures |xs| == |ps| && forall i :: 0 <= i < |ps| ==> xs[i] == ps[i].attempts
  {
    if ps == [] then [] else [ps[0].attempts] + Attempts(ps[1..])
  }

  function TimesSpent(ps: seq<LessonProgress>): (xs: seq<int>)
    ensures |xs| == |ps| && forall i :: 0 <= i < |ps| ==> xs[i] == ps[i].timeSpent
  {
    if ps == [] then [] else [ps[0].timeSpent] + TimesSpent(ps[1..])
  }

  /** `IntStream.sum()` */
  function Sum(xs: seq<int>): int {
    if xs == [] then 0 else xs[0] + Sum(xs[1..])
  }

  /** Every element between `lo` and `hi` puts the sum between `|xs| * lo` and `|xs| * hi`. */
  lemma {:induction false} SumBetween(xs: seq<int>, lo: int, hi: int)
    requires forall i :: 0 <= i < |xs| ==> lo <= xs[i] <= hi
    ensures |xs| * lo <= Sum(xs) <= |xs| * hi
  {
    if xs != [] {
      SumBetween(xs[1..], lo, hi);
    }
  }

  /** `IntStream.max().orElse(0)` */
  function MaxOrZero(xs: seq<int>): (m: int)
    ensures xs == [] ==> m == 0
    ensures forall i :: 0 <= i < |xs| ==> xs[i] <= m
    ensures xs != [] ==> m in xs
  {
    if xs == [] then 0
    else if |xs| == 1 then xs[0]
    else
      var rest := MaxOrZero(xs[1..]);
      if xs[0] >= rest then xs[0] else rest
  }

  /** `IntStream.average().orElse(0.0)` */
  function Average(xs: seq<int>): real {
    if xs == [] then 0.0 else Sum(xs) as real / |xs| as real
  }

  /** The mean of scores that all lie in `lo..hi` lies in `lo..hi` too. */
  lemma AverageBetween(xs: seq<int>, lo: int, hi: int)
    requires xs != []
    requires forall i :: 0 <= i < |xs| ==> lo <= xs[i] <= hi
    ensures lo as real <= Average(xs) <= hi as real
  {
    SumBetween(xs, lo, hi);
    QuotientBetween(Sum(xs) as real, |xs| as real, lo as real, hi as real);
  }

  lemma QuotientBetween(s: real, n: real, lo: real, hi: real)
    requires n > 0.0 && n * lo <= s <= n * hi
    ensures lo <= s / n <= hi
  {
  }

  /** The status chosen before `updateProgress` runs. */
  function InitialStatus(progress: int, atRisk: bool): string {
    if progress == 100 then "completed"
    else if progress > 0 then (if atRisk then "at-risk" else "active")
    else "active"
  }

  /** The enrolment as the builder assembles it, before `updateProgress`. */
  function BuiltEnrollment(studentId: string, courseId: string, teacherId: string,
                           lessons: seq<string>, d: EnrollmentDraws, now: int): EnrollmentDoc
    requires lessons != [] && DrawsInRange(d, |lessons|)
  {
    var ps := CompletedLessons(lessons, d.lessons, now, d.completed);
    var progress := ProgressPercent(d.completed, |lessons|);
    var stats := QuizStats(d.completed, d.completed, Average(Scores(ps)), MaxOrZero(Scores(ps)), Sum(Attempts(ps)));
    EnrollmentDoc(studentId, courseId, teacherId, DaysBefore(now, d.enrolledDaysAgo),
      progress, InitialStatus(progress, d.atRisk), None, d.completed, |lessons|,
      Some(DaysBefore(now, d.lastActivityDaysAgo)), None, ps, Some(stats), d.streak, Sum(TimesSpent(ps)))
  }

  /** The document `createEnrollment` saves: the built enrolment after `updateProgress`. */
  function GeneratedEnrollment(studentId: string, courseId: string, teacherId: string,
                               lessons: seq<string>, d: EnrollmentDraws, now: int): EnrollmentDoc
    requires lessons != [] && DrawsInRange(d, |lessons|)
  {
    AfterUpdateProgress(BuiltEnrollment(studentId, courseId, teacherId, lessons, d, now), now)
  }

  /** A generated enrolment belongs to the student, the course and the teacher it was made for. */
  lemma GeneratedKeys(studentId: string, courseId: string, teacherId: string,
                      lessons: seq<string>, d: EnrollmentDraws, now: int)
    requires lessons != [] && DrawsInRange(d, |lessons|)
    ensures var e := GeneratedEnrollment(studentId, courseId, teacherId, lessons, d, now);
      e.studentId == studentId && e.courseId == courseId && e.teacherId == teacherId
  {
  }

  /**
   * The at-risk coin never survives: a generated enrolment is "completed" exactly when
   * every lesson was drawn as completed, and "active" otherwise.
   */
  lemma GeneratedStatus(studentId: string, courseId: string, teacherId: string,
                        lessons: seq<string>, d: EnrollmentDraws, now: int)
    requires lessons != [] && DrawsInRange(d, |lessons|)
    ensures var e := GeneratedEnrollment(studentId, courseId, teacherId, lessons, d, now);
      && (e.status == "completed" <==> d.completed == |lessons|)
      && (e.status == "active" <==> d.completed < |lessons|)
      && (e.completedDate.Some? <==> d.completed == |lessons|)
      && 0 <= e.progress <= 100
  {
    ProgressBounds(d.completed, |lessons|);
    UpdateProgressOutcome(BuiltEnrollment(studentId, courseId, teacherId, lessons, d, now), now);
  }

  /**
   * A generated enrolment has a grade exactly when at least one lesson was completed:
   * every drawn quiz score is at least 60, so the average is positive, and the grade
   * is at least "D".
   */
  lemma GeneratedGrade(studentId: string, courseId: string, teacherId: string,
                       lessons: seq<string>, d: EnrollmentDraws, now: int)
    requires lessons != [] && DrawsInRange(d, |lessons|)
    ensures var e := GeneratedEnrollment(studentId, courseId, teacherId, lessons, d, now);
      && (e.grade.Some? <==> d.completed > 0)
      && (e.grade.Some? ==> e.grade.value != "F")
  {
    var ps := CompletedLessons(lessons, d.lessons, now, d.completed);
    var xs := Scores(ps);
    if d.completed > 0 {
      forall i | 0 <= i < |xs| ensures 60 <= xs[i] <= 99 {
        assert xs[i] == CompletedLesson(lessons[i], d.lessons[i], now).quizScore;
      }
      AverageBetween(xs, 60, 99);
    }
  }

  /**
   * The quiz statistics of a generated enrolment: one quiz per completed lesson, the
   * best score is the highest lesson score, and the attempts and minutes add up to
   * between one and three attempts and 15 to 74 minutes per lesson.
   */
  lemma GeneratedQuizStats(studentId: string, courseId: string, teacherId: string,
                           lessons: seq<string>, d: EnrollmentDraws, now: int)
    requires lessons != [] && DrawsInRange(d, |lessons|)
    ensures var e := GeneratedEnrollment(studentId, courseId, teacherId, lessons, d, now);
      && e.quizStats.Some?
      && e.quizStats.value.totalQuizzes == e.quizStats.value.completedQuizzes == d.completed
      && |e.lessonProgress| == d.completed
      && (forall i :: 0 <= i < d.completed ==>
            e.lessonProgress[i].lessonId == lessons[i] && e.lessonProgress[i].quizScore <= e.quizStats.value.bestScore)
      && (d.completed > 0 ==> 60 <= e.quizStats.value.bestScore < 100)
      && d.completed <= e.quizStats.value.totalAttempts <= 3 * d.completed
      && 15 * d.completed <= e.totalTimeSpent <= 74 * d.completed
  {
    var b := BuiltEnrollment(studentId, courseId, teacherId, lessons, d, now);
    UpdateProgressKeeps(b, now);
    CompletedLessonsTotals(lessons, d.lessons, now, d.completed);
  }

  /** The attempts and minutes of `n` completed lessons add up to one to three attempts and 15 to 74 minutes each. */
  lemma CompletedLessonsTotals(lessons: seq<string>, draws: seq<LessonDraw>, now: int, n: nat)
    requires n <= |lessons| && n <= |draws|
    requires forall i :: 0 <= i < |draws| ==> LessonDrawInRange(draws[i])
    ensures var ps := CompletedLessons(lessons, draws, now, n);
      && n <= Sum(Attempts(ps)) <= 3 * n
      && 15 * n <= Sum(TimesSpent(ps)) <= 74 * n
  {
    var ps := CompletedLessons(lessons, draws, now, n);
    forall i | 0 <= i < |ps|
      ensures 1 <= Attempts(ps)[i] <= 3 && 15 <= TimesSpent(ps)[i] <= 74
    {
      assert ps[i] == CompletedLesson(lessons[i], draws[i], now);
    }
    SumBetween(Attempts(ps), 1, 3);
    SumBetween(TimesSpent(ps), 15, 74);
  }


  /**
   * `createEnrollment`: nothing happens when the student is already enrolled in the
   * course or the course has no lessons; otherwise the generated enrolment is saved.
   * `lessons` is the course's lesson ids, module by module in module order and, within
   * a module, in lesson order.
   */
  method CreateEnrollment(repo: EnrollmentRepository, studentId: string, courseId: string,
                          teacherId: string, lessons: seq<string>, d: EnrollmentDraws, now: int)
    requires repo.Valid()
    requires lessons != [] ==> DrawsInRange(d, |lessons|)
    modifies repo
    ensures repo.Valid()
    ensures IsEnrolled(old(repo.docs), studentId, courseId) || lessons == [] ==> repo.docs == old(repo.docs)
    ensures !IsEnrolled(old(repo.docs), studentId, courseId) && lessons != [] ==>
      repo.docs == old(repo.docs) + [GeneratedEnrollment(studentId, courseId, teacherId, lessons, d, now)]
  {
    if IsEnrolled(repo.docs, studentId, courseId) {
      return;
    }
    var total := |lessons|;
    if total == 0 {
      return;
    }
    var completed := d.completed;
    var progress := ProgressPercent(completed, total);
    var ps: seq<LessonProgress> := [];
    var i := 0;
    while i < completed && i < |lessons|
      invariant 0 <= i <= completed
      invariant ps == CompletedLessons(lessons, d.lessons, now, i)
    {
      ps := ps + [CompletedLesson(lessons[i], d.lessons[i], now)];
      i := i + 1;
    }
    var stats := QuizStats(completed, completed, Average(Scores(ps)), MaxOrZero(Scores(ps)), Sum(Attempts(ps)));
    var status := InitialStatus(progress, d.atRisk);
    var e := new Enrollment(studentId, courseId, teacherId, DaysBefore(now, d.enrolledDaysAgo),
      progress, status, completed, total, Some(DaysBefore(now, d.lastActivityDaysAgo)),
      ps, Some(stats), d.streak, Sum(TimesSpent(ps)));
    e.UpdateProgress(now);
    repo.Insert(e.Doc());
  }

  /**
   * `after` extends `before` with enrolments only, each for `teacherId`, one of the
   * `students` and one of the first `firstCourses` courses.
   */
  ghost predicate AddedEnrollments(before: seq<EnrollmentDoc>, after: seq<EnrollmentDoc>, teacherId: string,
                                   students: seq<string>, courses: seq<string>, firstCourses: nat) {
    |before| <= |after| && after[..|before|] == before
    && forall k :: |before| <= k < |after| ==>
      after[k].teacherId == teacherId && after[k].studentId in students
      && after[k].courseId in courses[..Min(firstCourses, |courses|)]
  }

  /** The inner loop of `createSampleEnrollments`: one user, the first `selected` courses. */
  method EnrollInFirstCourses(repo: EnrollmentRepository, teacherId: string, student: string,
                              courses: seq<string>, selected: nat, lessonsOf: seq<seq<string>>,
                              draws: seq<EnrollmentDraws>, now: int)
    requires repo.Valid()
    requires |lessonsOf| == |courses| && selected <= |courses| && |draws| >= selected
    requires forall j :: 0 <= j < selected && lessonsOf[j] != [] ==> DrawsInRange(draws[j], |lessonsOf[j]|)
    modifies repo
    ensures repo.Valid()
    ensures AddedEnrollments(old(repo.docs), repo.docs, teacherId, [student], courses, selected)
    ensures forall j :: 0 <= j < selected && lessonsOf[j] != [] ==> IsEnrolled(repo.docs, student, courses[j])
  {
    ghost var before := repo.docs;
    var j := 0;
    while j < selected
      invariant 0 <= j <= selected
      invariant repo.Valid()
      invariant AddedEnrollments(before, repo.docs, teacherId, [student], courses, j)
      invariant forall j' :: 0 <= j' < j && lessonsOf[j'] != [] ==> IsEnrolled(repo.docs, student, courses[j'])
    {
      ghost var mid := repo.docs;
      CreateEnrollment(repo, student, courses[j], teacherId, lessonsOf[j], draws[j], now);
      EnrolledStaysEnrolled(mid, repo.docs);
      if repo.docs != mid {
        GeneratedKeys(student, courses[j], teacherId, lessonsOf[j], draws[j], now);
      }
      AddedOne(before, mid, repo.docs, teacherId, student, courses, j);
      j := j + 1;
    }
  }

  /**
   * `createSampleEnrollments`: the first ten users are each enrolled in the first
   * 1 to 3 of the teacher's courses (`nextInt(3) + 1`, drawn per user in
   * `courseCounts`). `lessonsOf[j]` is the lesson list of `courses[j]` and
   * `draws[i][j]` the draws for user `i` and course `j`.
   */
  method CreateSampleEnrollments(repo: EnrollmentRepository, teacherId: string, courses: seq<string>,
                                 users: seq<string>, lessonsOf: seq<seq<string>>, courseCounts: seq<nat>,
                                 draws: seq<seq<EnrollmentDraws>>, now: int)
    requires repo.Valid()
    requires |lessonsOf| == |courses|
    requires |courseCounts| >= |users| && |draws| >= |users|
    requires forall i :: 0 <= i < |users| ==> |draws[i]| >= |courses|
    requires forall i, j :: 0 <= i < |users| && 0 <= j < |courses| && lessonsOf[j] != [] ==>
      DrawsInRange(draws[i][j], |lessonsOf[j]|)
    modifies repo
    ensures repo.Valid()
    ensures AddedEnrollments(old(repo.docs), repo.docs, teacherId, users[..Min(10, |users|)], courses, 3)
    ensures forall i, j :: 0 <= i < Min(10, |users|) && 0 <= j < Min(courseCounts[i] % 3 + 1, |courses|) ==>
      (lessonsOf[j] != [] ==> IsEnrolled(repo.docs, users[i], courses[j]))
  {
    if courses == [] {
      return;
    }
    var students := users[..Min(10, |users|)];
    if students == [] {
      return;
    }
    ghost var before := repo.docs;
    var i := 0;
    while i < |students|
      invariant 0 <= i <= |students|
      invariant repo.Valid()
      invariant AddedEnrollments(before, repo.docs, teacherId, students, courses, 3)
      invariant forall i', j :: 0 <= i' < i && 0 <= j < Min(courseCounts[i'] % 3 + 1, |courses|) ==>
        (lessonsOf[j] != [] ==> IsEnrolled(repo.docs, users[i'], courses[j]))
    {
      var numCourses := courseCounts[i] % 3 + 1;
      var selected := Min(numCourses, |courses|);
      ghost var mid := repo.docs;
      EnrollInFirstCourses(repo, teacherId, students[i], courses, selected, lessonsOf, draws[i], now);
      EnrolledStaysEnrolled(mid, repo.docs);
      AddedCompose(before, mid, repo.docs, teacherId, students, courses, i, selected);
      i := i + 1;
    }
  }

  lemma AddedOne(before: seq<EnrollmentDoc>, mid: seq<EnrollmentDoc>, after: seq<EnrollmentDoc>,
                 teacherId: string, student: string, courses: seq<string>, j: nat)
    requires j < |courses|
    requires AddedEnrollments(before, mid, teacherId, [student], courses, j)
    requires after == mid || (|after| == |mid| + 1 && after[..|mid|] == mid
      && after[|mid|].teacherId == teacherId && after[|mid|].studentId == student
      && after[|mid|].courseId == courses[j])
    ensures AddedEnrollments(before, after, teacherId, [student], courses, j + 1)
  {
    assert courses[..Min(j + 1, |courses|)] == courses[..j] + [courses[j]];
    if after != mid {
      assert after[..|before|] == mid[..|before|];
      forall k | |before| <= k < |after|
        ensures after[k].teacherId == teacherId && after[k].studentId in [student]
          && after[k].courseId in courses[..Min(j + 1, |courses|)]
      {
        if k < |mid| {
          assert after[k] == mid[k];
        }
      }
    }
  }

  lemma AddedCompose(before: seq<EnrollmentDoc>, mid: seq<EnrollmentDoc>, after: seq<EnrollmentDoc>,
                     teacherId: string, students: seq<string>, courses: seq<string>, i: nat, selected: nat)
    requires i < |students| && selected <= 3
    requires AddedEnrollments(before, mid, teacherId, students, courses, 3)
    requires AddedEnrollments(mid, after, teacherId, [students[i]], courses, selected)
    ensures AddedEnrollments(before, after, teacherId, students, courses, 3)
  {
    forall k | |before| <= k < |after|
      ensures after[k].teacherId == teacherId && after[k].studentId in students
        && after[k].courseId in courses[..Min(3, |courses|)]
    {
      if k < |mid| {
        assert after[k] == mid[k];
      } else {
        var c := after[k].courseId;
        var j :| 0 <= j < Min(selected, |courses|) && courses[..Min(selected, |courses|)][j] == c;
        assert courses[..Min(3, |courses|)][j] == c;
      }
    }
  }

  function Min(a: int, b: int): int {
    if a <= b then a else b
  }

  /** Appending documents keeps every existing enrolment. */
  lemma EnrolledStaysEnrolled(before: seq<EnrollmentDoc>, after: seq<EnrollmentDoc>)
    requires |before| <= |after| && after[..|before|] == before
    ensures forall s, c :: IsEnrolled(before, s, c) ==> IsEnrolled(after, s, c)
  {
    forall s, c | IsEnrolled(before, s, c) ensures IsEnrolled(after, s, c) {
      var k :| 0 <= k < |before| && before[k].studentId == s && before[k].courseId == c;
      assert after[k] == before[k];
    }
  }
}
