/**
 * A student's enrolment in a course: progress percentage, status, letter grade and
 * the per-lesson and quiz statistics behind them, as stored in the `enrollments`
 * collection (model/Enrollment.java).
 */
module Enrollments {
  import opened Nullable

  /** Progress on one lesson. Times are seconds since the epoch. */
  datatype LessonProgress = LessonProgress(
    lessonId: string,
    completed: bool,
    progress: int,
    startedAt: Option<int>,
    completedAt: Option<int>,
    quizScore: int,
    attempts: int,
    timeSpent: int)

  datatype QuizStats = QuizStats(
    totalQuizzes: int,
    completedQuizzes: int,
    averageScore: real,
    bestScore: int,
    totalAttempts: int)

  /** `new QuizStats()`: every counter zero. */
  const NewQuizStats: QuizStats := QuizStats(0, 0, 0.0, 0, 0)

  /** The stored document. The Mongo id and the certificate id play no part in the logic. */
  datatype EnrollmentDoc = EnrollmentDoc(
    studentId: string,
    courseId: string,
    teacherId: string,
    enrolledDate: int,
    progress: int,
    status: string,
    grade: Option<string>,
    completedLessons: int,
    totalLessons: int,
    lastActivity: Option<int>,
    completedDate: Option<int>,
    lessonProgress: seq<LessonProgress>,
    quizStats: Option<QuizStats>,
    currentStreak: int,
    totalTimeSpent: int)

  /** Java's `/` on `int`, which truncates toward zero. */
  function JavaDiv(a: int, b: int): (q: int)
    requires b > 0
    ensures a >= 0 ==> q == a / b
    ensures a < 0 ==> q == -((-a) / b)
  {
    if a >= 0 then a / b else -((-a) / b)
  }

  /** `completedLessons * 100 / totalLessons` */
  function ProgressPercent(completed: int, total: int): (p: int)
    requires total > 0
    ensures completed >= 0 ==> p * total <= completed * 100 < (p + 1) * total
    ensures completed == total ==> p == 100
    ensures completed <= 0 ==> p <= 0
  {
    JavaDiv(completed * 100, total)
  }

  /**
   * With a completed count between zero and the total, the percentage lies in 0..100,
   * reaches 100 exactly when every lesson is done, and stays 0 while fewer than one
   * lesson in a hundred is done.
   */
  lemma ProgressBounds(completed: int, total: int)
    requires 0 <= completed <= total && total > 0
    ensures 0 <= ProgressPercent(completed, total) <= 100
    ensures ProgressPercent(completed, total) == 100 <==> completed == total
    ensures ProgressPercent(completed, total) == 0 <==> completed * 100 < total
  {
    assert ProgressPercent(completed, total) == (completed * 100) / total;
    QuotientFacts(completed * 100, total);
  }

  lemma QuotientFacts(n: int, d: int)
    requires d > 0 && 0 <= n <= 100 * d
    ensures 0 <= n / d <= 100
    ensures n / d == 100 <==> n == 100 * d
    ensures n / d == 0 <==> n < d
  {
    var q := n / d;
    DivBounds(n, d, q);
    if q < 0 {
      MulLeq(q, -1, d);
    }
    if q > 100 {
      MulLeq(101, q, d);
    }
    if q < 100 {
      MulLeq(q, 99, d);
    }
    if q >= 1 {
      MulLeq(1, q, d);
    }
  }

  lemma MulLeq(a: int, b: int, c: int)
    requires a <= b && c >= 0
    ensures a * c <= b * c
  {
    assert b * c - a * c == (b - a) * c;
  }

  lemma DivBounds(n: int, d: int, q: int)
    requires d > 0 && q == n / d
    ensures q * d <= n < q * d + d
  {
  }

  /** The lower bounds of the grade bands, ascending, and the letter of each band ("F" below the first). */
  const GradeThresholds: seq<real> := [60.0, 65.0, 70.0, 75.0, 80.0, 85.0, 90.0, 95.0]
  const GradeLetters: seq<string> := ["F", "D", "D+", "C", "C+", "B", "B+", "A", "A+"]

  /** How many of the thresholds `score` reaches. */
  function Reached(thresholds: seq<real>, score: real): (n: nat)
    ensures n <= |thresholds|
  {
    if thresholds == [] then 0
    else (if thresholds[0] <= score then 1 else 0) + Reached(thresholds[1..], score)
  }

  /** The grade band of a score: the number of thresholds it reaches. */
  function GradeBand(score: real): (n: nat)
    ensures n < |GradeLetters|
  {
    Reached(GradeThresholds, score)
  }

  /**
   * `calculateGrade`: the first threshold, from the top, that the score reaches names
   * the letter; below 60 the grade is "F". Its result is the letter of the score's band.
   */
  function CalculateGrade(score: real): (g: string)
    ensures g == GradeLetters[GradeBand(score)]
    ensures g == "F" <==> score < 60.0
  {
    assert Reached([95.0], score) == if score >= 95.0 then 1 else 0;
    assert Reached([90.0, 95.0], score) == (if score >= 90.0 then 1 else 0) + Reached([95.0], score);
    assert Reached([85.0, 90.0, 95.0], score)
      == (if score >= 85.0 then 1 else 0) + Reached([90.0, 95.0], score);
    assert Reached([80.0, 85.0, 90.0, 95.0], score)
      == (if score >= 80.0 then 1 else 0) + Reached([85.0, 90.0, 95.0], score);
    assert Reached([75.0, 80.0, 85.0, 90.0, 95.0], score)
      == (if score >= 75.0 then 1 else 0) + Reached([80.0, 85.0, 90.0, 95.0], score);
    assert Reached([70.0, 75.0, 80.0, 85.0, 90.0, 95.0], score)
      == (if score >= 70.0 then 1 else 0) + Reached([75.0, 80.0, 85.0, 90.0, 95.0], score);
    assert Reached([65.0, 70.0, 75.0, 80.0, 85.0, 90.0, 95.0], score)
      == (if score >= 65.0 then 1 else 0) + Reached([70.0, 75.0, 80.0, 85.0, 90.0, 95.0], score);
    assert GradeBand(score)
      == (if score >= 60.0 then 1 else 0) + Reached([65.0, 70.0, 75.0, 80.0, 85.0, 90.0, 95.0], score);
    if score >= 95.0 then "A+"
    else if score >= 90.0 then "A"
    else if score >= 85.0 then "B+"
    else if score >= 80.0 then "B"
    else if score >= 75.0 then "C+"
    else if score >= 70.0 then "C"
    else if score >= 65.0 then "D+"
    else if score >= 60.0 then "D"
    else "F"
  }

  lemma {:induction false} ReachedMonotone(thresholds: seq<real>, a: real, b: real)
    requires a <= b
    ensures Reached(thresholds, a) <= Reached(thresholds, b)
  {
    if thresholds != [] {
      ReachedMonotone(thresholds[1..], a, b);
    }
  }

  /** A higher average never earns a lower grade. */
  lemma GradeMonotone(a: real, b: real)
    requires a <= b
    ensures GradeBand(a) <= GradeBand(b)
  {
    ReachedMonotone(GradeThresholds, a, b);
  }

  /**
   * `updateProgress` on a document: with lessons to count, recompute the percentage;
   * at 100 the enrolment is "completed" and stamped with the clock, above 0 it is
   * "active", at 0 the status is left alone. A positive average quiz score sets the grade.
   */
  function AfterUpdateProgress(e: EnrollmentDoc, now: int): (r: EnrollmentDoc)
    ensures r.(progress := e.progress, status := e.status, completedDate := e.completedDate, grade := e.grade) == e
    ensures e.totalLessons <= 0 ==>
      r.progress == e.progress && r.status == e.status && r.completedDate == e.completedDate
    ensures e.totalLessons > 0 ==> r.progress == ProgressPercent(e.completedLessons, e.totalLessons)
  {
    var e1 :=
      if e.totalLessons > 0 then
        var p := ProgressPercent(e.completedLessons, e.totalLessons);
        if p == 100 then e.(progress := p, status := "completed", completedDate := Some(now))
        else if p > 0 then e.(progress := p, status := "active")
        else e.(progress := p)
      else e;
    if e.quizStats.Some? && e.quizStats.value.averageScore > 0.0 then
      e1.(grade := Some(CalculateGrade(e.quizStats.value.averageScore)))
    else e1
  }

  /** `updateProgress` leaves the lesson progress, the quiz statistics and the time spent alone. */
  lemma UpdateProgressKeeps(e: EnrollmentDoc, now: int)
    ensures var r := AfterUpdateProgress(e, now);
      r.lessonProgress == e.lessonProgress && r.quizStats == e.quizStats && r.totalTimeSpent == e.totalTimeSpent
  {
  }

  /** What `updateProgress` means for a well-formed count of completed lessons. */
  lemma UpdateProgressOutcome(e: EnrollmentDoc, now: int)
    requires 0 <= e.completedLessons <= e.totalLessons && e.totalLessons > 0
    ensures var r := AfterUpdateProgress(e, now);
      && 0 <= r.progress <= 100
      && (e.completedLessons == e.totalLessons ==>
            r.progress == 100 && r.status == "completed" && r.completedDate == Some(now))
      && (e.completedLessons < e.totalLessons ==>
            r.completedDate == e.completedDate
            && r.status == (if r.progress > 0 then "active" else e.status))
      && r.lessonProgress == e.lessonProgress && r.quizStats == e.quizStats
  {
    ProgressBounds(e.completedLessons, e.totalLessons);
  }

  /**
   * The grade after `updateProgress`: recomputed from the average quiz score when there are
   * quiz statistics with a positive average, and otherwise the previous grade, possibly none.
   */
  lemma UpdateProgressGrade(e: EnrollmentDoc, now: int)
    ensures var r := AfterUpdateProgress(e, now);
      && (e.quizStats.Some? && e.quizStats.value.averageScore > 0.0 ==>
            r.grade == Some(CalculateGrade(e.quizStats.value.averageScore)))
      && (e.quizStats.None? || e.quizStats.value.averageScore <= 0.0 ==> r.grade == e.grade)
  {
  }

  /** Without lessons to count, `updateProgress` changes at most the grade. */
  lemma UpdateProgressWithoutLessons(e: EnrollmentDoc, now: int)
    requires e.totalLessons <= 0
    ensures AfterUpdateProgress(e, now).(grade := e.grade) == e
  {
  }

  /** Running `updateProgress` twice is running it once, with the later clock. */
  lemma UpdateProgressTwice(e: EnrollmentDoc, first: int, second: int)
    ensures AfterUpdateProgress(AfterUpdateProgress(e, first), second) == AfterUpdateProgress(e, second)
  {
    var once := AfterUpdateProgress(e, first);
    assert once.totalLessons == e.totalLessons && once.completedLessons == e.completedLessons;
    assert once.quizStats == e.quizStats;
    if e.totalLessons > 0 {
      var p := ProgressPercent(e.completedLessons, e.totalLessons);
      assert once.progress == p;
    }
  }

  /** The in-memory entity: `updateProgress` changes its fields in place. */
  class Enrollment {
    const studentId: string
    const courseId: string
    const teacherId: string
    const enrolledDate: int
    var progress: int
    var status: string
    var grade: Option<string>
    const completedLessons: int
    const totalLessons: int
    const lastActivity: Option<int>
    var completedDate: Option<int>
    const lessonProgress: seq<LessonProgress>
    const quizStats: Option<QuizStats>
    const currentStreak: int
    const totalTimeSpent: int

    /** The document `save` writes for this entity. */
    function Doc(): EnrollmentDoc
      reads this
    {
      EnrollmentDoc(studentId, courseId, teacherId, enrolledDate, progress, status, grade,
        completedLessons, totalLessons, lastActivity, completedDate, lessonProgress, quizStats,
        currentStreak, totalTimeSpent)
    }

    /** `Enrollment.builder()...build()`: the fields given, no grade and no completion date yet. */
    constructor (studentId: string, courseId: string, teacherId: string, enrolledDate: int,
                 progress: int, status: string, completedLessons: int, totalLessons: int,
                 lastActivity: Option<int>, lessonProgress: seq<LessonProgress>,
                 quizStats: Option<QuizStats>, currentStreak: int, totalTimeSpent: int)
      ensures Doc() == EnrollmentDoc(studentId, courseId, teacherId, enrolledDate, progress, status,
        None, completedLessons, totalLessons, lastActivity, None, lessonProgress, quizStats,
        currentStreak, totalTimeSpent)
    {
      this.studentId := studentId;
      this.courseId := courseId;
      this.teacherId := teacherId;
      this.enrolledDate := enrolledDate;
      this.progress := progress;
      this.status := status;
      this.grade := None;
      this.completedLessons := completedLessons;
      this.totalLessons := totalLessons;
      this.lastActivity := lastActivity;
      this.completedDate := None;
      this.lessonProgress := lessonProgress;
      this.quizStats := quizStats;
      this.currentStreak := currentStreak;
      this.totalTimeSpent := totalTimeSpent;
    }

    /** `updateProgress()`; `now` is the clock reading used for the completion date. */
    method UpdateProgress(now: int)
      modifies this
      ensures Doc() == AfterUpdateProgress(old(Doc()), now)
    {
      if totalLessons > 0 {
        progress := ProgressPercent(completedLessons, totalLessons);
        if progress == 100 {
          status := "completed";
          completedDate := Some(now);
        } else if progress > 0 {
          status := "active";
        }
      }
      if quizStats.Some? && quizStats.value.averageScore > 0.0 {
        grade := Some(CalculateGrade(quizStats.value.averageScore));
      }
    }
  }

  /** At most one enrolment per (student, course) pair. */
  predicate OnePerStudentAndCourse(docs: seq<EnrollmentDoc>) {
    forall i, j :: 0 <= i < j < |docs| ==>
      docs[i].studentId != docs[j].studentId || docs[i].courseId != docs[j].courseId
  }

  /** `findByStudentIdAndCourseId(...).isPresent()` */
  predicate IsEnrolled(docs: seq<EnrollmentDoc>, studentId: string, courseId: string) {
    exists i :: 0 <= i < |docs| && docs[i].studentId == studentId && docs[i].courseId == courseId
  }

  /** The `enrollments` collection. */
  class EnrollmentRepository {
    var docs: seq<EnrollmentDoc>

    ghost predicate Valid()
      reads this
    {
      OnePerStudentAndCourse(docs)
    }

    constructor ()
      ensures docs == [] && Valid()
    {
      docs := [];
    }

    /** `save` of a new document. */
    method Insert(doc: EnrollmentDoc)
      requires Valid() && !IsEnrolled(docs, doc.studentId, doc.courseId)
      modifies this
      ensures docs == old(docs) + [doc]
      ensures Valid()
      ensures IsEnrolled(docs, doc.studentId, doc.courseId)
    {
      docs := docs + [doc];
      assert docs[|docs| - 1] == doc;
    }
  }
}
