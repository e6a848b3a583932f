/**
 * Course management: a teacher creates, edits and deletes courses; students search the
 * published catalogue. The `courses` and `modules` collections are tables the operations
 * change; the new document id and the clock are parameters. A `CourseResponse` carries
 * every field of the course, so the model returns the course itself.
 */
module CourseService {
  import opened Nullable
  import opened Tables
  import opened Courses
  import Modules
  import Text

  /** The course form. Title, category, level and description are plain strings. */
  datatype CourseRequest = CourseRequest(
    title: string,
    category: string,
    level: string,
    description: string,
    instructor: Option<string>,
    instructorTitle: Option<string>,
    image: Option<string>,
    price: Option<real>,
    estimatedDuration: Option<string>,
    prerequisites: Option<seq<string>>,
    learningObjectives: Option<seq<string>>)

  /**
   * The course with every field of the form copied onto it. The id, owner, status,
   * enrolment and module counters and creation time are not part of the form.
   */
  function WithRequest(c: Course, req: CourseRequest): (d: Course)
    ensures d.title == req.title && d.category == req.category && d.level == req.level
    ensures d.description == req.description && d.instructor == req.instructor
    ensures d.instructorTitle == req.instructorTitle && d.image == req.image && d.price == req.price
    ensures d.estimatedDuration == req.estimatedDuration && d.prerequisites == req.prerequisites
    ensures d.learningObjectives == req.learningObjectives
    ensures d.id == c.id && d.teacherId == c.teacherId && d.status == c.status
    ensures d.students == c.students && d.modules == c.modules && d.createdAt == c.createdAt
  {
    c.(title := req.title, category := req.category, level := req.level, description := req.description,
       instructor := req.instructor, instructorTitle := req.instructorTitle, image := req.image,
       price := req.price, estimatedDuration := req.estimatedDuration,
       prerequisites := req.prerequisites, learningObjectives := req.learningObjectives)
  }

  /** Submitting the same form twice leaves the course as the first submission did. */
  lemma WithRequestIdempotent(c: Course, req: CourseRequest)
    ensures WithRequest(WithRequest(c, req), req) == WithRequest(c, req)
  {
  }

  /** A new course: a draft of `teacherId` with no students and no modules yet. */
  function NewCourse(id: string, req: CourseRequest, teacherId: string, now: int): (c: Course)
    ensures c.id == id && c.teacherId == teacherId && c.createdAt == now
    ensures c.status == "draft" && c.students == 0 && c.modules == 0
    ensures WithRequest(c, req) == c
  {
    Course(id, req.title, req.category, req.level, req.description, req.instructor, req.instructorTitle,
           req.image, req.price, req.estimatedDuration, req.prerequisites, req.learningObjectives,
           teacherId, "draft", 0, 0, now)
  }

  /** `createCourse`: the new course is appended and returned as saved. */
  method CreateCourse(courses: Table<Course>, req: CourseRequest, teacherId: string, newId: string, now: int)
    returns (saved: Course)
    requires UniqueKeys(courses.rows, CourseId)
    requires KeyIndex(courses.rows, CourseId, newId).None?
    modifies courses
    ensures UniqueKeys(courses.rows, CourseId)
    ensures saved == NewCourse(newId, req, teacherId, now)
    ensures courses.rows == old(courses.rows) + [saved]
  {
    saved := NewCourse(newId, req, teacherId, now);
    UpsertFresh(courses.rows, saved, CourseId);
    courses.Save(saved, CourseId);
  }

  /**
   * `updateCourse`: every form field is overwritten, null ones included; the status, the
   * counters, the owner and the creation time are kept. An unknown id throws (`None`).
   */
  method UpdateCourse(courses: Table<Course>, courseId: string, req: CourseRequest)
    returns (updated: Option<Course>)
    requires UniqueKeys(courses.rows, CourseId)
    modifies courses
    ensures UniqueKeys(courses.rows, CourseId)
    ensures KeyIndex(old(courses.rows), CourseId, courseId).None? ==>
      updated.None? && courses.rows == old(courses.rows)
    ensures KeyIndex(old(courses.rows), CourseId, courseId).Some? ==>
      var i := KeyIndex(old(courses.rows), CourseId, courseId).value;
      updated == Some(WithRequest(old(courses.rows)[i], req))
      && courses.rows == old(courses.rows)[i := updated.value]
  {
    var found := KeyIndex(courses.rows, CourseId, courseId);
    if found.None? {
      return None;
    }
    var i := found.value;
    var course := WithRequest(courses.rows[i], req);
    UpsertExisting(courses.rows, course, CourseId, i);
    courses.Save(course, CourseId);
    updated := Some(course);
  }

  /** The modules `deleteByCourseId` keeps. */
  function NotInCourse(courseId: string): Modules.Module -> bool {
    (m: Modules.Module) => m.courseId != courseId
  }

  /**
   * `deleteCourse`: first every module of the course, then the course itself. Modules of
   * other courses and the other courses stay, in their order.
   */
  method DeleteCourse(courses: Table<Course>, modules: Table<Modules.Module>, courseId: string)
    requires UniqueKeys(courses.rows, CourseId)
    modifies courses, modules
    ensures UniqueKeys(courses.rows, CourseId)
    ensures modules.rows == Filter(old(modules.rows), NotInCourse(courseId))
    ensures courses.rows == RemoveKey(old(courses.rows), CourseId, courseId)
    ensures Modules.CountInCourse(modules.rows, courseId) == 0
    ensures Lookup(courses.rows, CourseId, courseId).None?
    ensures forall k :: 0 <= k < |old(modules.rows)| && old(modules.rows)[k].courseId != courseId ==>
      old(modules.rows)[k] in modules.rows
  {
    modules.Retain(NotInCourse(courseId));
    courses.Delete(courseId, CourseId);
  }

  predicate IsPublished(c: Course) {
    c.status == "published"
  }

  /** A category or level filter is applied unless it is null, empty or exactly "all". */
  predicate FilterApplies(f: Option<string>) {
    f.Some? && f.value != "" && f.value != "all"
  }

  /** The text of the search term occurs, ignoring case, in the title, description or category. */
  predicate MentionsTerm(c: Course, term: string) {
    var t := Text.Lower(term);
    Text.Contains(Text.Lower(c.title), t) || Text.Contains(Text.Lower(c.description), t)
    || Text.Contains(Text.Lower(c.category), t)
  }

  /** The stream filter of `searchPublishedCourses`. */
  predicate SearchMatches(c: Course, term: Option<string>, category: Option<string>, level: Option<string>) {
    && (term.None? || term.value == [] || MentionsTerm(c, term.value))
    && (!FilterApplies(category) || Text.EqualsIgnoreCase(c.category, category.value))
    && (!FilterApplies(level) || Text.EqualsIgnoreCase(c.level, level.value))
  }

  function Matcher(term: Option<string>, category: Option<string>, level: Option<string>): Course -> bool {
    (c: Course) => SearchMatches(c, term, category, level)
  }

  /** `findByStatus("published")` */
  function Published(rows: seq<Course>): (r: seq<Course>)
    ensures Subsequence(r, rows)
    ensures forall k :: 0 <= k < |r| ==> IsPublished(r[k])
    ensures forall k :: 0 <= k < |rows| && IsPublished(rows[k]) ==> rows[k] in r
  {
    FilterIsSubsequence(rows, IsPublished);
    Filter(rows, IsPublished)
  }

  /**
   * `searchPublishedCourses`: the published courses that match the search, in table
   * order; a course is listed exactly when it is published and matches.
   */
  function SearchPublishedCourses(rows: seq<Course>, term: Option<string>, category: Option<string>, level: Option<string>)
    : (r: seq<Course>)
    ensures Subsequence(r, rows)
    ensures forall k :: 0 <= k < |r| ==> IsPublished(r[k]) && SearchMatches(r[k], term, category, level)
    ensures forall k :: 0 <= k < |rows| && IsPublished(rows[k]) && SearchMatches(rows[k], term, category, level) ==>
      rows[k] in r
  {
    var published := Published(rows);
    var r := Filter(published, Matcher(term, category, level));
    FilterIsSubsequence(published, Matcher(term, category, level));
    SubsequenceTransitive(r, published, rows);
    r
  }

  /** With no search term and no category or level filter, every published course is listed. */
  lemma NoFiltersListsAllPublished(rows: seq<Course>, term: Option<string>, category: Option<string>, level: Option<string>)
    requires term.None? || term.value == []
    requires !FilterApplies(category) && !FilterApplies(level)
    ensures SearchPublishedCourses(rows, term, category, level) == Published(rows)
  {
    FilterAll(Published(rows), Matcher(term, category, level));
  }

  lemma LowerIdempotent(s: string)
    ensures Text.Lower(Text.Lower(s)) == Text.Lower(s)
  {
  }

  /** The search term's case does not matter. */
  lemma TermCaseIgnored(rows: seq<Course>, term: string, category: Option<string>, level: Option<string>)
    ensures SearchPublishedCourses(rows, Some(Text.Lower(term)), category, level)
         == SearchPublishedCourses(rows, Some(term), category, level)
  {
    LowerIdempotent(term);
    var published := Published(rows);
    FilterAgreeing(published, Matcher(Some(Text.Lower(term)), category, level), Matcher(Some(term), category, level));
  }

  /**
   * `getCourseWithModules`: nothing for an unknown course or for a teacher who does not own
   * it; otherwise the course with its module counter replaced by the number of modules that
   * name it. The module list itself is computed and dropped by the source.
   */
  function GetCourseWithModules(courses: seq<Course>, modules: seq<Modules.Module>, courseId: string, teacherId: string)
    : (r: Option<Course>)
    ensures r.Some? <==> Lookup(courses, CourseId, courseId).Some? && Lookup(courses, CourseId, courseId).value.teacherId == teacherId
    ensures r.Some? ==> r.value == Lookup(courses, CourseId, courseId).value.(modules := Modules.CountInCourse(modules, courseId))
  {
    match Lookup(courses, CourseId, courseId)
    case None => None
    case Some(c) =>
      if c.teacherId != teacherId then None
      else Some(c.(modules := Modules.CountInCourse(modules, courseId)))
  }

  /**
   * `updateCourseModuleCount`: the course's counter becomes the number of its modules;
   * nothing happens for an unknown course.
   */
  method UpdateCourseModuleCount(courses: Table<Course>, modules: Table<Modules.Module>, courseId: string)
    requires UniqueKeys(courses.rows, CourseId)
    modifies courses
    ensures UniqueKeys(courses.rows, CourseId)
    ensures KeyIndex(old(courses.rows), CourseId, courseId).None? ==> courses.rows == old(courses.rows)
    ensures KeyIndex(old(courses.rows), CourseId, courseId).Some? ==>
      var i := KeyIndex(old(courses.rows), CourseId, courseId).value;
      courses.rows == old(courses.rows)[i := old(courses.rows)[i].(modules := Modules.CountInCourse(modules.rows, courseId))]
  {
    var found := KeyIndex(courses.rows, CourseId, courseId);
    if found.None? {
      return;
    }
    var i := found.value;
    var course := courses.rows[i].(modules := Modules.CountInCourse(modules.rows, courseId));
    UpsertExisting(courses.rows, course, CourseId, i);
    courses.Save(course, CourseId);
  }

  /**
   * Once the counter is synchronised, the stored course agrees with the one
   * `getCourseWithModules` shows its owner.
   */
  lemma SyncedCountMatchesView(rows: seq<Course>, modules: seq<Modules.Module>, i: nat)
    requires UniqueKeys(rows, CourseId) && i < |rows|
    ensures var c := rows[i];
      var synced := rows[i := c.(modules := Modules.CountInCourse(modules, c.id))];
      GetCourseWithModules(synced, modules, c.id, c.teacherId) == Some(synced[i])
  {
    var c := rows[i];
    var synced := rows[i := c.(modules := Modules.CountInCourse(modules, c.id))];
    assert UniqueKeys(synced, CourseId) by {
      forall a, b | 0 <= a < b < |synced|
        ensures CourseId(synced[a]) != CourseId(synced[b])
      {
        assert CourseId(synced[a]) == CourseId(rows[a]) && CourseId(synced[b]) == CourseId(rows[b]);
      }
    }
    var j := KeyIndex(synced, CourseId, c.id);
    assert CourseId(synced[i]) == c.id;
    assert j.Some?;
    assert !(j.value < i) && !(i < j.value);
  }
}
