/**
 * What a teacher sees of the students enrolled in the teacher's courses: the list of
 * students (`getTeacherStudents`) and the integer statistics of one student
 * (`getStudentDetails`). The clock is a parameter.
 */
module TeacherReports {
  import opened Nullable
  import opened Responses
  import opened Tables
  import opened Enrollments
  import Users
  import Courses
  import Text
  import Sorting

  /** One course of a student, as the listing shows it. */
  datatype CourseEnrollment = CourseEnrollment(
    id: string, title: string, category: string, progress: int, grade: Option<string>,
    status: string, completedLessons: int, totalLessons: int, lastActivity: Option<int>)

  /** One student of the listing. The avatar is always missing. */
  datatype StudentEnrollment = StudentEnrollment(
    id: string, name: string, email: string, avatar: Option<string>, enrolledDate: int,
    courses: seq<CourseEnrollment>)

  /** `findByTeacherId` */
  function ByTeacher(teacherId: string): EnrollmentDoc -> bool {
    (e: EnrollmentDoc) => e.teacherId == teacherId
  }

  /** The enrolments of one student. */
  function OfStudent(studentId: string): EnrollmentDoc -> bool {
    (e: EnrollmentDoc) => e.studentId == studentId
  }

  /** The teacher's enrolments, in collection order. */
  function Mine(docs: seq<EnrollmentDoc>, teacherId: string): seq<EnrollmentDoc> {
    Filter(docs, ByTeacher(teacherId))
  }

  /**
   * The keys of `groupingBy(getStudentId)`: each student of `docs` once, in the order of the
   * student's first enrolment.
   */
  function StudentsOf(docs: seq<EnrollmentDoc>): (ids: seq<string>)
    ensures forall i, j :: 0 <= i < j < |ids| ==> ids[i] != ids[j]
    ensures forall s :: s in ids <==> exists e :: e in docs && e.studentId == s
  {
    if docs == [] then []
    else
      var init := docs[..|docs| - 1];
      var rest := StudentsOf(init);
      var s := docs[|docs| - 1].studentId;
      assert docs == init + [docs[|docs| - 1]];
      if s in rest then rest else rest + [s]
  }

  /**
   * The earliest enrolment date of a group, `now` standing in for an empty group (which
   * the listing never asks for).
   */
  function EnrolledDate(group: seq<EnrollmentDoc>, now: int): (d: int)
    ensures group == [] ==> d == now
    ensures group != [] ==> exists e :: e in group && e.enrolledDate == d
    ensures forall e :: e in group ==> d <= e.enrolledDate
  {
    if group == [] then now
    else if |group| == 1 then group[0].enrolledDate
    else
      var rest := EnrolledDate(group[1..], now);
      assert forall e :: e in group ==> e == group[0] || e in group[1..];
      if group[0].enrolledDate <= rest then group[0].enrolledDate else rest
  }

  /** The course line of an enrolment. */
  function CourseLine(c: Courses.Course, e: EnrollmentDoc): CourseEnrollment {
    CourseEnrollment(c.id, c.title, c.category, e.progress, e.grade, e.status,
                     e.completedLessons, e.totalLessons, e.lastActivity)
  }

  /** An enrolment whose course is still stored. */
  function HasCourse(courses: seq<Courses.Course>): EnrollmentDoc -> bool {
    (e: EnrollmentDoc) => Lookup(courses, Courses.CourseId, e.courseId).Some?
  }

  /** `line` shows the enrolment `e`. */
  predicate Shows(line: CourseEnrollment, e: EnrollmentDoc) {
    line.id == e.courseId && line.progress == e.progress && line.status == e.status && line.grade == e.grade
    && line.completedLessons == e.completedLessons && line.totalLessons == e.totalLessons
    && line.lastActivity == e.lastActivity
  }

  /**
   * The course lines of a student's enrolments, in order; an enrolment whose course is gone
   * is skipped.
   */
  function CourseLines(courses: seq<Courses.Course>, group: seq<EnrollmentDoc>): (r: seq<CourseEnrollment>)
    ensures |r| <= |group|
    ensures forall k :: 0 <= k < |r| ==> exists e :: e in group && Shows(r[k], e)
  {
    if group == [] then []
    else
      var init := group[..|group| - 1];
      var e := group[|group| - 1];
      var rest := CourseLines(courses, init);
      assert forall x :: x in init ==> x in group;
      match Lookup(courses, Courses.CourseId, e.courseId)
      case None => rest
      case Some(c) =>
        assert Shows(CourseLine(c, e), e);
        rest + [CourseLine(c, e)]
  }

  /** Exactly the enrolments whose course is still stored have a line. */
  lemma {:induction false} CourseLinesCount(courses: seq<Courses.Course>, group: seq<EnrollmentDoc>)
    ensures |CourseLines(courses, group)| == Count(group, HasCourse(courses))
  {
    if group != [] {
      var init := group[..|group| - 1];
      CourseLinesCount(courses, init);
      CourseLinesStep(courses, group);
      CountLast(group, HasCourse(courses));
    }
  }

  /** The last enrolment of a group adds one line exactly when its course is stored. */
  lemma CourseLinesStep(courses: seq<Courses.Course>, group: seq<EnrollmentDoc>)
    requires group != []
    ensures |CourseLines(courses, group)|
      == |CourseLines(courses, group[..|group| - 1])| + (if HasCourse(courses)(group[|group| - 1]) then 1 else 0)
  {
  }

  /** The inner loop of the listing: a student's course lines. */
  method CollectCourseLines(courses: seq<Courses.Course>, group: seq<EnrollmentDoc>) returns (lines: seq<CourseEnrollment>)
    ensures lines == CourseLines(courses, group)
  {
    lines := [];
    var k := 0;
    while k < |group|
      invariant 0 <= k <= |group|
      invariant lines == CourseLines(courses, group[..k])
    {
      assert group[..k + 1][..k] == group[..k];
      var found := Lookup(courses, Courses.CourseId, group[k].courseId);
      if found.Some? {
        lines := lines + [CourseLine(found.value, group[k])];
      }
      k := k + 1;
    }
    assert group[..|group|] == group;
  }

  /** The entry of student `s`, or none when the student's account is gone. */
  function Entry(users: seq<Users.User>, courses: seq<Courses.Course>, mine: seq<EnrollmentDoc>, s: string, now: int): (r: Option<StudentEnrollment>)
    ensures r.Some? <==> Lookup(users, Users.UserId, s).Some?
    ensures r.Some? ==> r.value.id == s
  {
    match Lookup(users, Users.UserId, s)
    case None => None
    case Some(u) =>
      var group := Filter(mine, OfStudent(s));
      Some(StudentEnrollment(u.id, u.Username(), u.email, None, EnrolledDate(group, now), CourseLines(courses, group)))
  }

  /** The values present in `xs`, in order. */
  function Present<T>(xs: seq<Option<T>>): (r: seq<T>)
    ensures |r| <= |xs|
    ensures forall k :: 0 <= k < |r| ==> exists i :: 0 <= i < |xs| && xs[i] == Some(r[k])
  {
    if xs == [] then []
    else
      var init := xs[..|xs| - 1];
      var rest := Present(init);
      assert forall i :: 0 <= i < |init| ==> init[i] == xs[i];
      if xs[|xs| - 1].Some? then rest + [xs[|xs| - 1].value] else rest
  }

  /** Every value present in `xs` is kept. */
  lemma {:induction false} PresentComplete<T>(xs: seq<Option<T>>, i: nat)
    requires i < |xs| && xs[i].Some?
    ensures xs[i].value in Present(xs)
  {
    var init := xs[..|xs| - 1];
    if i < |xs| - 1 {
      PresentComplete(init, i);
    }
  }

  /** Values that differ by `f` wherever they are present stay different by `f`. */
  lemma {:induction false} PresentDistinct<T>(xs: seq<Option<T>>, f: T -> string)
    requires forall i, j :: 0 <= i < j < |xs| && xs[i].Some? && xs[j].Some? ==> f(xs[i].value) != f(xs[j].value)
    ensures forall k, l :: 0 <= k < l < |Present(xs)| ==> f(Present(xs)[k]) != f(Present(xs)[l])
  {
    if xs != [] {
      var init := xs[..|xs| - 1];
      assert forall i :: 0 <= i < |init| ==> init[i] == xs[i];
      PresentDistinct(init, f);
      var rest := Present(init);
      var last := xs[|xs| - 1];
      if last.Some? {
        forall k | 0 <= k < |rest|
          ensures f(rest[k]) != f(last.value)
        {
          var i :| 0 <= i < |init| && init[i] == Some(rest[k]);
        }
        var r := Present(xs);
        assert r == rest + [last.value];
        forall k, l | 0 <= k < l < |r|
          ensures f(r[k]) != f(r[l])
        {
          if l == |rest| {
            assert r[k] == rest[k] && r[l] == last.value;
            assert f(rest[k]) != f(last.value);
          } else {
            assert r[k] == rest[k] && r[l] == rest[l];
            assert f(rest[k]) != f(rest[l]);
          }
        }
      }
    }
  }

  /** The entry of each student of `ids`, in that order. */
  function EntryList(users: seq<Users.User>, courses: seq<Courses.Course>, mine: seq<EnrollmentDoc>, ids: seq<string>, now: int)
    : (r: seq<Option<StudentEnrollment>>)
    ensures |r| == |ids|
    ensures forall i :: 0 <= i < |ids| ==> r[i] == Entry(users, courses, mine, ids[i], now)
  {
    seq(|ids|, i requires 0 <= i < |ids| => Entry(users, courses, mine, ids[i], now))
  }

  /** The entries of the students `ids`, in that order, before sorting. */
  function Entries(users: seq<Users.User>, courses: seq<Courses.Course>, mine: seq<EnrollmentDoc>, ids: seq<string>, now: int): seq<StudentEnrollment> {
    Present(EntryList(users, courses, mine, ids, now))
  }

  /** Every student of `ids` whose account exists has an entry. */
  lemma {:induction false} EntriesComplete(users: seq<Users.User>, courses: seq<Courses.Course>, mine: seq<EnrollmentDoc>, ids: seq<string>, now: int, s: string)
    requires s in ids && Entry(users, courses, mine, s, now).Some?
    ensures Entry(users, courses, mine, s, now).value in Entries(users, courses, mine, ids, now)
  {
    var i :| 0 <= i < |ids| && ids[i] == s;
    PresentComplete(EntryList(users, courses, mine, ids, now), i);
  }

  function EntryId(e: StudentEnrollment): string {
    e.id
  }

  /** Students listed once in `ids` have one entry each. */
  lemma {:induction false} EntriesDistinct(users: seq<Users.User>, courses: seq<Courses.Course>, mine: seq<EnrollmentDoc>, ids: seq<string>, now: int)
    requires forall i, j :: 0 <= i < j < |ids| ==> ids[i] != ids[j]
    ensures forall k, l :: 0 <= k < l < |Entries(users, courses, mine, ids, now)| ==>
      Entries(users, courses, mine, ids, now)[k].id != Entries(users, courses, mine, ids, now)[l].id
  {
    var xs := EntryList(users, courses, mine, ids, now);
    forall i, j | 0 <= i < j < |xs| && xs[i].Some? && xs[j].Some?
      ensures EntryId(xs[i].value) != EntryId(xs[j].value)
    {
      assert xs[i].value.id == ids[i] && xs[j].value.id == ids[j];
    }
    PresentDistinct(xs, EntryId);
    var r := Entries(users, courses, mine, ids, now);
    assert forall k :: 0 <= k < |r| ==> EntryId(r[k]) == r[k].id;
  }

  /** Each entry is the entry of one of the students `ids`. */
  lemma {:induction false} EntriesSound(users: seq<Users.User>, courses: seq<Courses.Course>, mine: seq<EnrollmentDoc>, ids: seq<string>, now: int, e: StudentEnrollment)
    requires e in Entries(users, courses, mine, ids, now)
    ensures e.id in ids && Entry(users, courses, mine, e.id, now) == Some(e)
  {
    var r := Entries(users, courses, mine, ids, now);
    var k :| 0 <= k < |r| && r[k] == e;
    var i :| 0 <= i < |ids| && EntryList(users, courses, mine, ids, now)[i] == Some(e);
  }

  /** `Comparator.comparing(getName)` */
  function ByName(a: StudentEnrollment, b: StudentEnrollment): bool {
    Text.LessEq(a.name, b.name)
  }

  lemma {:induction false} ByNameTotal()
    ensures Sorting.Total(ByName)
  {
    forall a: StudentEnrollment, b: StudentEnrollment
      ensures ByName(a, b) || ByName(b, a)
    {
      Text.LessEqTotal(a.name, b.name);
    }
  }

  /** The list `getTeacherStudents` returns: the entries sorted by name. */
  function TeacherStudents(users: seq<Users.User>, courses: seq<Courses.Course>, docs: seq<EnrollmentDoc>, teacherId: string, now: int): (r: seq<StudentEnrollment>)
    ensures Sorting.Sorted(r, ByName)
    ensures multiset(r) == multiset(Entries(users, courses, Mine(docs, teacherId), StudentsOf(Mine(docs, teacherId)), now))
  {
    ByNameTotal();
    var mine := Mine(docs, teacherId);
    Sorting.Sort(Entries(users, courses, mine, StudentsOf(mine), now), ByName)
  }

  /**
   * `getTeacherStudents`: the enrolments of the teacher grouped by student; for each student
   * whose account exists, an entry with the student's courses and earliest enrolment date;
   * the entries sorted by name.
   */
  method GetTeacherStudents(users: seq<Users.User>, courses: seq<Courses.Course>, docs: seq<EnrollmentDoc>, teacherId: string, now: int)
    returns (r: ApiResponse<seq<StudentEnrollment>>)
    ensures r == Success("Students retrieved successfully", TeacherStudents(users, courses, docs, teacherId, now))
  {
    var mine := Mine(docs, teacherId);
    var ids := StudentsOf(mine);
    var students: seq<StudentEnrollment> := [];
    var i := 0;
    while i < |ids|
      invariant 0 <= i <= |ids|
      invariant students == Entries(users, courses, mine, ids[..i], now)
    {
      EntriesStep(users, courses, mine, ids, i, now);
      var found := Lookup(users, Users.UserId, ids[i]);
      if found.Some? {
        var student := found.value;
        var group := Filter(mine, OfStudent(ids[i]));
        var lines := CollectCourseLines(courses, group);
        students := students + [StudentEnrollment(student.id, student.Username(), student.email, None, EnrolledDate(group, now), lines)];
      }
      i := i + 1;
    }
    assert ids[..|ids|] == ids;
    ByNameTotal();
    r := Success("Students retrieved successfully", Sorting.Sort(students, ByName));
  }

  /** One more student adds that student's entry, when there is one, to the entries. */
  lemma EntriesStep(users: seq<Users.User>, courses: seq<Courses.Course>, mine: seq<EnrollmentDoc>, ids: seq<string>, i: nat, now: int)
    requires i < |ids|
    ensures var e := Entry(users, courses, mine, ids[i], now);
      Entries(users, courses, mine, ids[..i + 1], now)
        == Entries(users, courses, mine, ids[..i], now) + (if e.Some? then [e.value] else [])
  {
    var xs := EntryList(users, courses, mine, ids[..i + 1], now);
    assert xs[..|xs| - 1] == EntryList(users, courses, mine, ids[..i], now);
  }

  /** `x` occurs at most once in a sequence of distinct elements. */
  lemma {:induction false} DistinctOccursOnce<T>(xs: seq<T>, x: T)
    requires forall i, j :: 0 <= i < j < |xs| ==> xs[i] != xs[j]
    ensures multiset(xs)[x] <= 1
  {
    if xs != [] {
      DistinctOccursOnce(xs[1..], x);
      assert xs == [xs[0]] + xs[1..];
      assert xs[0] !in xs[1..];
    }
  }

  /** An element found at two positions occurs at least twice. */
  lemma {:induction false} TwoPositions<T>(ys: seq<T>, k: nat, l: nat)
    requires k < l < |ys|
    ensures ys[k] == ys[l] ==> multiset(ys)[ys[k]] >= 2
  {
    assert ys == ys[..l] + [ys[l]] + ys[l + 1..];
    assert ys[k] in ys[..l];
  }

  /** In entries with distinct ids, two entries with the same id are the same entry. */
  lemma {:induction false} SameIdSameEntry(xs: seq<StudentEnrollment>, a: StudentEnrollment, b: StudentEnrollment)
    requires forall k, l :: 0 <= k < l < |xs| ==> xs[k].id != xs[l].id
    requires a in xs && b in xs
    ensures a.id == b.id ==> a == b
  {
    var p :| 0 <= p < |xs| && xs[p] == a;
    var q :| 0 <= q < |xs| && xs[q] == b;
    assert p < q || q < p || p == q;
  }

  /** Rearranging entries whose ids are distinct keeps the ids distinct. */
  lemma {:induction false} DistinctIdsPermuted(xs: seq<StudentEnrollment>, ys: seq<StudentEnrollment>)
    requires forall k, l :: 0 <= k < l < |xs| ==> xs[k].id != xs[l].id
    requires multiset(xs) == multiset(ys)
    ensures forall k, l :: 0 <= k < l < |ys| ==> ys[k].id != ys[l].id
  {
    forall k, l | 0 <= k < l < |ys|
      ensures ys[k].id != ys[l].id
    {
      assert ys[k] in multiset(xs) && ys[l] in multiset(xs);
      TwoPositions(ys, k, l);
      DistinctOccursOnce(xs, ys[k]);
      SameIdSameEntry(xs, ys[k], ys[l]);
    }
  }

  /**
   * A student listed to the teacher: the account exists, the entry shows its username
   * (which is the email) and email and no avatar, and the date is the student's earliest
   * enrolment in the teacher's courses.
   */
  predicate Describes(users: seq<Users.User>, mine: seq<EnrollmentDoc>, e: StudentEnrollment) {
    && Lookup(users, Users.UserId, e.id).Some?
    && e.name == Lookup(users, Users.UserId, e.id).value.Username()
    && e.email == Lookup(users, Users.UserId, e.id).value.email
    && e.avatar.None?
    && (exists d :: d in mine && d.studentId == e.id && d.enrolledDate == e.enrolledDate)
    && (forall d :: d in mine && d.studentId == e.id ==> e.enrolledDate <= d.enrolledDate)
  }

  /** Every entry of a student who enrolled with the teacher describes that student. */
  lemma {:induction false} EntryDescribes(users: seq<Users.User>, courses: seq<Courses.Course>, mine: seq<EnrollmentDoc>, s: string, now: int)
    requires s in StudentsOf(mine) && Entry(users, courses, mine, s, now).Some?
    ensures Entry(users, courses, mine, s, now).value.id == s
    ensures Describes(users, mine, Entry(users, courses, mine, s, now).value)
  {
    var group := Filter(mine, OfStudent(s));
    var d0 :| d0 in mine && d0.studentId == s;
    assert d0 in group;
    var e := Entry(users, courses, mine, s, now).value;
    forall d | d in mine && d.studentId == s
      ensures e.enrolledDate <= d.enrolledDate
    {
      assert d in group;
    }
  }

  /** Every listed entry describes a student enrolled with the teacher. */
  lemma {:induction false} ListedDescribes(users: seq<Users.User>, courses: seq<Courses.Course>, docs: seq<EnrollmentDoc>, teacherId: string, now: int, k: nat)
    requires k < |TeacherStudents(users, courses, docs, teacherId, now)|
    ensures Describes(users, Mine(docs, teacherId), TeacherStudents(users, courses, docs, teacherId, now)[k])
  {
    var mine := Mine(docs, teacherId);
    var unsorted := Entries(users, courses, mine, StudentsOf(mine), now);
    var e := TeacherStudents(users, courses, docs, teacherId, now)[k];
    assert e in multiset(unsorted);
    EntriesSound(users, courses, mine, StudentsOf(mine), now, e);
    EntryDescribes(users, courses, mine, e.id, now);
  }

  /** Every student enrolled with the teacher whose account exists is listed. */
  lemma {:induction false} EnrolledIsListed(users: seq<Users.User>, courses: seq<Courses.Course>, docs: seq<EnrollmentDoc>, teacherId: string, now: int, d: EnrollmentDoc)
    requires d in docs && d.teacherId == teacherId && Lookup(users, Users.UserId, d.studentId).Some?
    ensures var r := TeacherStudents(users, courses, docs, teacherId, now);
      exists k :: 0 <= k < |r| && r[k].id == d.studentId
  {
    var mine := Mine(docs, teacherId);
    var ids := StudentsOf(mine);
    var unsorted := Entries(users, courses, mine, ids, now);
    var r := TeacherStudents(users, courses, docs, teacherId, now);
    assert d in mine;
    assert d.studentId in ids;
    EntryDescribes(users, courses, mine, d.studentId, now);
    var e := Entry(users, courses, mine, d.studentId, now).value;
    EntriesComplete(users, courses, mine, ids, now, d.studentId);
    assert e in multiset(r);
    var k :| 0 <= k < |r| && r[k] == e;
  }

  /**
   * The listing holds exactly one entry per student with an enrolment in the teacher's
   * courses whose account exists, each describing that student, sorted by name.
   */
  lemma {:induction false} TeacherStudentsListing(users: seq<Users.User>, courses: seq<Courses.Course>, docs: seq<EnrollmentDoc>, teacherId: string, now: int)
    ensures var r := TeacherStudents(users, courses, docs, teacherId, now);
      && Sorting.Sorted(r, ByName)
      && (forall k :: 0 <= k < |r| ==> Describes(users, Mine(docs, teacherId), r[k]))
      && (forall k, l :: 0 <= k < l < |r| ==> r[k].id != r[l].id)
      && (forall d :: d in docs && d.teacherId == teacherId && Lookup(users, Users.UserId, d.studentId).Some? ==>
            exists k :: 0 <= k < |r| && r[k].id == d.studentId)
  {
    var mine := Mine(docs, teacherId);
    var r := TeacherStudents(users, courses, docs, teacherId, now);
    EntriesDistinct(users, courses, mine, StudentsOf(mine), now);
    DistinctIdsPermuted(Entries(users, courses, mine, StudentsOf(mine), now), r);
    forall k | 0 <= k < |r|
      ensures Describes(users, mine, r[k])
    {
      ListedDescribes(users, courses, docs, teacherId, now, k);
    }
    forall d | d in docs && d.teacherId == teacherId && Lookup(users, Users.UserId, d.studentId).Some?
      ensures exists k :: 0 <= k < |r| && r[k].id == d.studentId
    {
      EnrolledIsListed(users, courses, docs, teacherId, now, d);
    }
  }

  // ---------------------------------------------------------------------------
  // One student's details

  /** The integer statistics of a student's enrolments with a teacher. */
  datatype StudentStats = StudentStats(
    totalCourses: nat, completedCourses: nat, activeCourses: nat,
    totalLessonsCompleted: int, currentStreak: int)

  /** The details of a student; the per-course lesson listing is not part of this model. */
  datatype StudentDetails = StudentDetails(
    id: string, name: string, email: string, avatar: Option<string>, enrolledDate: int, stats: StudentStats)

  function WithStatus(status: string): EnrollmentDoc -> bool {
    (e: EnrollmentDoc) => e.status == status
  }

  /** The lessons completed over all enrolments (`mapToInt(...).sum()`). */
  function LessonsCompleted(es: seq<EnrollmentDoc>): int {
    if es == [] then 0 else es[0].completedLessons + LessonsCompleted(es[1..])
  }

  /** `mapToInt(getCurrentStreak).max().orElse(0)` */
  function LongestStreak(es: seq<EnrollmentDoc>): (m: int)
    ensures es == [] ==> m == 0
    ensures es != [] ==> exists e :: e in es && e.currentStreak == m
    ensures forall e :: e in es ==> e.currentStreak <= m
  {
    if es == [] then 0
    else if |es| == 1 then es[0].currentStreak
    else
      var rest := LongestStreak(es[1..]);
      assert forall e :: e in es ==> e == es[0] || e in es[1..];
      if es[0].currentStreak >= rest then es[0].currentStreak else rest
  }

  /**
   * The statistics: completed and active courses are counted apart, so together they are at
   * most all the courses; with no completed lessons at all, the total is zero.
   */
  function StatsOf(es: seq<EnrollmentDoc>): (s: StudentStats)
    ensures s.totalCourses == |es|
    ensures s.completedCourses == Count(es, WithStatus("completed"))
    ensures s.activeCourses == Count(es, WithStatus("active"))
    ensures s.completedCourses + s.activeCourses <= s.totalCourses
    ensures s.currentStreak == LongestStreak(es)
  {
    CountDisjoint(es, WithStatus("completed"), WithStatus("active"));
    StudentStats(|es|, Count(es, WithStatus("completed")), Count(es, WithStatus("active")),
                 LessonsCompleted(es), LongestStreak(es))
  }

  /** The lessons completed add up to no less than zero when no enrolment has a negative count. */
  lemma {:induction false} LessonsCompletedNonNegative(es: seq<EnrollmentDoc>)
    requires forall e :: e in es ==> e.completedLessons >= 0
    ensures LessonsCompleted(es) >= 0
    ensures forall e :: e in es ==> e.completedLessons <= LessonsCompleted(es)
  {
    if es != [] {
      LessonsCompletedNonNegative(es[1..]);
      assert forall e :: e in es ==> e == es[0] || e in es[1..];
    }
  }

  /** The student's enrolments in the teacher's courses. */
  function StudentEnrollments(docs: seq<EnrollmentDoc>, studentId: string, teacherId: string): seq<EnrollmentDoc> {
    Filter(Mine(docs, teacherId), OfStudent(studentId))
  }

  /**
   * `getStudentDetails`: an unknown student and a student without an enrolment in the
   * teacher's courses are refused, in that order; otherwise the student with the earliest
   * enrolment date and the statistics of those enrolments.
   */
  function GetStudentDetails(users: seq<Users.User>, docs: seq<EnrollmentDoc>, studentId: string, teacherId: string, now: int)
    : (r: ApiResponse<StudentDetails>)
    ensures Lookup(users, Users.UserId, studentId).None? ==> r == Failure("Student not found")
    ensures Lookup(users, Users.UserId, studentId).Some? && StudentEnrollments(docs, studentId, teacherId) == [] ==>
      r == Failure("Student is not enrolled in any of your courses")
    ensures r.success ==>
      var es := StudentEnrollments(docs, studentId, teacherId);
      var u := Lookup(users, Users.UserId, studentId).value;
      && r.data.Some? && es != []
      && r.data.value == StudentDetails(u.id, u.Username(), u.email, None, EnrolledDate(es, now), StatsOf(es))
      && r.message == "Student details retrieved successfully"
  {
    match Lookup(users, Users.UserId, studentId)
    case None => Failure("Student not found")
    case Some(u) =>
      var es := StudentEnrollments(docs, studentId, teacherId);
      if es == [] then Failure("Student is not enrolled in any of your courses")
      else Success("Student details retrieved successfully",
                   StudentDetails(u.id, u.Username(), u.email, None, EnrolledDate(es, now), StatsOf(es)))
  }

  /**
   * The details of a listed student agree with the listing: same name and email, same
   * earliest enrolment date, and one enrolment counted per course line at least.
   */
  lemma {:induction false} DetailsAgreeWithListing(users: seq<Users.User>, courses: seq<Courses.Course>, docs: seq<EnrollmentDoc>,
                                teacherId: string, now: int, k: nat)
    requires k < |TeacherStudents(users, courses, docs, teacherId, now)|
    ensures var e := TeacherStudents(users, courses, docs, teacherId, now)[k];
      var r := GetStudentDetails(users, docs, e.id, teacherId, now);
      && r.success && r.data.Some?
      && r.data.value.name == e.name && r.data.value.email == e.email
      && r.data.value.enrolledDate == e.enrolledDate
      && |e.courses| <= r.data.value.stats.totalCourses
  {
    var mine := Mine(docs, teacherId);
    var ids := StudentsOf(mine);
    var unsorted := Entries(users, courses, mine, ids, now);
    var e := TeacherStudents(users, courses, docs, teacherId, now)[k];
    assert e in multiset(unsorted);
    EntriesSound(users, courses, mine, ids, now, e);
    EntryDescribes(users, courses, mine, e.id, now);
    var es := StudentEnrollments(docs, e.id, teacherId);
    var d :| d in mine && d.studentId == e.id && d.enrolledDate == e.enrolledDate;
    assert d in es;
  }
}
