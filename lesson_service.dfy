/**
 * Lesson management inside a module: create, edit, delete, reorder, publish, the public
 * read that counts a view, and the teacher's lesson statistics. The `courses`, `modules`
 * and `lessons` collections are tables; the new document id, the random quiz ids and the
 * clock are parameters. A `LessonResponse` carries the lesson's fields, so replies carry
 * the lesson.
 */
module LessonService {
  import opened Nullable
  import opened Tables
  import opened Responses
  import opened Lessons
  import Modules
  import Courses
  import Text
  import YouTube
  import Sorting

  /** A quiz as the client sends it; points and type may be left out. */
  datatype QuizRequest = QuizRequest(
    question: string,
    options: seq<string>,
    correctAnswer: int,
    explanation: Option<string>,
    points: Option<int>,
    quizType: Option<QuizType>)

  /** The lesson form of `createLesson`; the text fields are present. */
  datatype LessonRequest = LessonRequest(
    title: string,
    description: string,
    videoUrl: string,
    duration: string,
    order: int,
    coverImage: Option<string>,
    transcript: Option<string>,
    tags: Option<seq<string>>,
    difficulty: Option<string>,
    language: Option<string>,
    quizzes: Option<seq<QuizRequest>>)

  /** The form of `updateLesson`: every field may be left out (null). */
  datatype LessonUpdate = LessonUpdate(
    title: Option<string>,
    description: Option<string>,
    videoUrl: Option<string>,
    duration: Option<string>,
    order: Option<int>,
    status: Option<LessonStatus>,
    coverImage: Option<string>,
    transcript: Option<string>,
    tags: Option<seq<string>>,
    difficulty: Option<string>,
    language: Option<string>,
    quizzes: Option<seq<QuizRequest>>)

  /** `mapToQuiz`: the question and every option trimmed, one point and multiple choice by default. */
  function MapToQuiz(req: QuizRequest, id: string): (q: Quiz)
    ensures q.id == id && q.question == Text.Trim(req.question)
    ensures |q.options| == |req.options| && forall k :: 0 <= k < |q.options| ==> q.options[k] == Text.Trim(req.options[k])
    ensures q.correctAnswer == req.correctAnswer && q.explanation == req.explanation
    ensures q.points == (if req.points.Some? then req.points.value else 1)
    ensures q.quizType == (if req.quizType.Some? then req.quizType.value else MultipleChoice)
  {
    Quiz(id, Text.Trim(req.question), TrimAll(req.options), req.correctAnswer, req.explanation,
         req.points.OrElse(1), req.quizType.OrElse(MultipleChoice))
  }

  function TrimAll(xs: seq<string>): (r: seq<string>)
    ensures |r| == |xs| && forall k :: 0 <= k < |xs| ==> r[k] == Text.Trim(xs[k])
  {
    seq(|xs|, k requires 0 <= k < |xs| => Text.Trim(xs[k]))
  }

  /** A stored quiz sent back as it is. */
  function AsRequest(q: Quiz): QuizRequest {
    QuizRequest(q.question, q.options, q.correctAnswer, q.explanation, Some(q.points), Some(q.quizType))
  }

  /** A mapped quiz is already normal: mapping it again changes nothing. */
  lemma MapToQuizNormalises(req: QuizRequest, id: string)
    ensures MapToQuiz(AsRequest(MapToQuiz(req, id)), id) == MapToQuiz(req, id)
  {
    Text.TrimIdempotent(req.question);
    TrimAllIdempotent(req.options);
  }

  lemma TrimAllIdempotent(xs: seq<string>)
    ensures TrimAll(TrimAll(xs)) == TrimAll(xs)
  {
    forall k | 0 <= k < |xs|
      ensures TrimAll(TrimAll(xs))[k] == TrimAll(xs)[k]
    {
      Text.TrimIdempotent(xs[k]);
    }
  }

  /** The quizzes of a request, quiz `k` taking the random id `ids[k]`. */
  function MapQuizzes(reqs: seq<QuizRequest>, ids: seq<string>): (qs: seq<Quiz>)
    requires |ids| == |reqs|
    ensures |qs| == |reqs| && forall k :: 0 <= k < |reqs| ==> qs[k] == MapToQuiz(reqs[k], ids[k])
  {
    seq(|reqs|, k requires 0 <= k < |reqs| => MapToQuiz(reqs[k], ids[k]))
  }

  /** Enough random quiz ids for the quizzes a request holds. */
  predicate IdsFor(quizzes: Option<seq<QuizRequest>>, ids: seq<string>) {
    quizzes.Some? ==> |ids| == |quizzes.value|
  }

  function MappedQuizzes(quizzes: Option<seq<QuizRequest>>, ids: seq<string>): (r: Option<seq<Quiz>>)
    requires IdsFor(quizzes, ids)
    ensures r.None? <==> quizzes.None?
    ensures r.Some? ==> r.value == MapQuizzes(quizzes.value, ids)
  {
    if quizzes.Some? then Some(MapQuizzes(quizzes.value, ids)) else None
  }

  /**
   * The lesson `Lesson.builder()` makes for a request: a draft with its text fields
   * trimmed, placed in the module and course, unseen and active, with the thumbnail of the
   * address as the request gave it (before trimming).
   */
  function NewLesson(id: string, req: LessonRequest, moduleId: string, courseId: string, teacherId: string,
                     quizIds: seq<string>, now: int): (l: Lesson)
    requires IdsFor(req.quizzes, quizIds)
    ensures l.id == id && l.moduleId == moduleId && l.courseId == courseId && l.teacherId == teacherId
    ensures l.title == Text.Trim(req.title) && l.description == Text.Trim(req.description)
    ensures l.videoUrl == Text.Trim(req.videoUrl) && l.duration == Some(Text.Trim(req.duration))
    ensures l.order == req.order && l.status == Draft && l.views == Some(0) && l.isActive == Some(true)
    ensures l.videoThumbnail == YouTube.Thumbnail(req.videoUrl)
    ensures l.quizzes == MappedQuizzes(req.quizzes, quizIds)
    ensures l.createdAt == now && l.updatedAt.None?
  {
    Lesson(id, Text.Trim(req.title), Text.Trim(req.description), Text.Trim(req.videoUrl),
           Some(Text.Trim(req.duration)), req.order, moduleId, courseId, teacherId, Draft,
           MappedQuizzes(req.quizzes, quizIds), now, None, req.coverImage, req.transcript, req.tags,
           req.difficulty, Some(0), Some(true), YouTube.Thumbnail(req.videoUrl), req.language)
  }

  /** In no module do two lessons share a position. */
  predicate LessonOrdersDistinct(lessons: seq<Lesson>) {
    forall i, j :: 0 <= i < j < |lessons| && lessons[i].moduleId == lessons[j].moduleId ==>
      lessons[i].order != lessons[j].order
  }

  /** In no module do two lessons have titles that are equal ignoring case. */
  predicate TitlesDistinct(lessons: seq<Lesson>) {
    forall i, j :: 0 <= i < j < |lessons| && lessons[i].moduleId == lessons[j].moduleId ==>
      !Text.EqualsIgnoreCase(lessons[i].title, lessons[j].title)
  }

  /**
   * The title check of `createLesson` as written: the title is looked up as the request
   * gives it, while the lesson stores it trimmed.
   */
  predicate TitleAdmittedAsWritten(lessons: seq<Lesson>, moduleId: string, title: string)
    ensures TitleAdmittedAsWritten(lessons, moduleId, title) <==>
      forall k :: 0 <= k < |lessons| && lessons[k].moduleId == moduleId ==> !Text.EqualsIgnoreCase(lessons[k].title, title)
  {
    !TitleTaken(lessons, moduleId, title)
  }

  /** The title check looking up the title that is stored: the trimmed one. */
  predicate TitleAdmitted(lessons: seq<Lesson>, moduleId: string, title: string)
    ensures TitleAdmitted(lessons, moduleId, title) <==>
      forall k :: 0 <= k < |lessons| && lessons[k].moduleId == moduleId ==> !Text.EqualsIgnoreCase(lessons[k].title, Text.Trim(title))
    ensures Text.Trim(title) == title ==> (TitleAdmitted(lessons, moduleId, title) <==> TitleAdmittedAsWritten(lessons, moduleId, title))
  {
    !TitleTaken(lessons, moduleId, Text.Trim(title))
  }

  /**
   * A module holding "Intro" admits a new lesson titled "Intro " under the check as
   * written, and the module then holds two lessons titled "Intro".
   */
  lemma PaddedTitleSlipsThrough(l: Lesson)
    requires l.moduleId == "m" && l.title == "Intro"
    ensures TitlesDistinct([l]) && TitleAdmittedAsWritten([l], "m", "Intro ")
    ensures var added := l.(id := l.id + "'", title := Text.Trim("Intro "));
      !TitlesDistinct([l, added])
  {
    PaddedIntro();
    var added := l.(id := l.id + "'", title := Text.Trim("Intro "));
    assert [l, added][0].title == [l, added][1].title;
  }

  /** "Intro " differs from "Intro" even ignoring case, and trims to it. */
  lemma PaddedIntro()
    ensures Text.Lower("Intro") != Text.Lower("Intro ")
    ensures Text.Trim("Intro ") == "Intro"
  {
    assert |Text.Lower("Intro")| == 5 && |Text.Lower("Intro ")| == 6;
    var s := "Intro ";
    assert Text.KeptFrom(s, 0) == 0 by {
      assert !Text.IsTrimmable(s[0]);
    }
    assert Text.KeptUntil(s, 0, |s|) == 5 by {
      assert Text.IsTrimmable(s[5]) && !Text.IsTrimmable(s[4]);
    }
    assert s[0..5] == "Intro";
  }

  /** With the trimmed title looked up, adding a lesson keeps titles distinct in every module. */
  lemma AdmittedTitleKeepsTitlesDistinct(lessons: seq<Lesson>, x: Lesson, title: string)
    requires TitlesDistinct(lessons)
    requires TitleAdmitted(lessons, x.moduleId, title) && x.title == Text.Trim(title)
    ensures TitlesDistinct(lessons + [x])
  {
    var after := lessons + [x];
    forall i, j | 0 <= i < j < |after| && after[i].moduleId == after[j].moduleId
      ensures !Text.EqualsIgnoreCase(after[i].title, after[j].title)
    {
      if j == |lessons| {
        assert after[i] == lessons[i];
      }
    }
  }

  /** For a title without padding the check as written does keep titles distinct. */
  lemma AsWrittenSufficesForTrimmedTitles(lessons: seq<Lesson>, x: Lesson, title: string)
    requires TitlesDistinct(lessons) && Text.Trim(title) == title
    requires TitleAdmittedAsWritten(lessons, x.moduleId, title) && x.title == Text.Trim(title)
    ensures TitlesDistinct(lessons + [x])
  {
    AdmittedTitleKeepsTitlesDistinct(lessons, x, title);
  }

  /** The private `updateModuleLessonCount`: the module's lesson counter becomes the recount. */
  method RecountModuleLessons(modules: Table<Modules.Module>, lessons: Table<Lesson>, moduleId: string, now: int)
    requires UniqueKeys(modules.rows, Modules.ModuleId)
    modifies modules
    ensures UniqueKeys(modules.rows, Modules.ModuleId)
    ensures KeyIndex(old(modules.rows), Modules.ModuleId, moduleId).None? ==> modules.rows == old(modules.rows)
    ensures KeyIndex(old(modules.rows), Modules.ModuleId, moduleId).Some? ==>
      var i := KeyIndex(old(modules.rows), Modules.ModuleId, moduleId).value;
      modules.rows == old(modules.rows)[i := old(modules.rows)[i].(totalLessons := Some(CountInModule(lessons.rows, moduleId)), updatedAt := Some(now))]
  {
    var count := CountInModule(lessons.rows, moduleId);
    var found := KeyIndex(modules.rows, Modules.ModuleId, moduleId);
    if found.Some? {
      var i := found.value;
      var updated := modules.rows[i].(totalLessons := Some(count), updatedAt := Some(now));
      UpsertExisting(modules.rows, updated, Modules.ModuleId, i);
      modules.Save(updated, Modules.ModuleId);
    }
  }

  /**
   * `getPublishedLessonById`: an unknown or unpublished lesson is refused; otherwise the
   * stored lesson gains exactly one view and is returned.
   */
  method GetPublishedLessonById(lessons: Table<Lesson>, lessonId: string) returns (r: ApiResponse<Lesson>)
    requires UniqueKeys(lessons.rows, LessonId)
    modifies lessons
    ensures UniqueKeys(lessons.rows, LessonId)
    ensures KeyIndex(old(lessons.rows), LessonId, lessonId).None? ==>
      r == Failure("Lesson not found with ID: " + lessonId) && lessons.rows == old(lessons.rows)
    ensures KeyIndex(old(lessons.rows), LessonId, lessonId).Some? ==>
      var i := KeyIndex(old(lessons.rows), LessonId, lessonId).value;
      var l := old(lessons.rows)[i];
      && (l.status != Published ==> r == Failure("Lesson is not published") && lessons.rows == old(lessons.rows))
      && (l.status == Published ==>
            && lessons.rows == old(lessons.rows)[i := l.IncrementViews()]
            && r == Success("Lesson retrieved successfully", l.IncrementViews())
            && lessons.rows[i].views == Some(l.views.OrElse(0) + 1))
  {
    var found := KeyIndex(lessons.rows, LessonId, lessonId);
    if found.None? {
      return Failure("Lesson not found with ID: " + lessonId);
    }
    var i := found.value;
    var l := lessons.rows[i];
    if l.status != Published {
      return Failure("Lesson is not published");
    }
    var viewed := l.IncrementViews();
    UpsertExisting(lessons.rows, viewed, LessonId, i);
    lessons.Save(viewed, LessonId);
    r := Success("Lesson retrieved successfully", viewed);
  }

  /**
   * The saving half of `createLesson`: the lesson is appended and its module's lesson
   * counter recounted, which is one more than before.
   */
  method AddLesson(modules: Table<Modules.Module>, lessons: Table<Lesson>, l: Lesson, now: int)
    requires UniqueKeys(modules.rows, Modules.ModuleId) && UniqueKeys(lessons.rows, LessonId)
    requires KeyIndex(lessons.rows, LessonId, l.id).None?
    modifies modules, lessons
    ensures UniqueKeys(modules.rows, Modules.ModuleId) && UniqueKeys(lessons.rows, LessonId)
    ensures lessons.rows == old(lessons.rows) + [l]
    ensures CountInModule(lessons.rows, l.moduleId) == CountInModule(old(lessons.rows), l.moduleId) + 1
    ensures !OrderTaken(old(lessons.rows), l.moduleId, l.order) && LessonOrdersDistinct(old(lessons.rows)) ==>
      LessonOrdersDistinct(lessons.rows)
    ensures KeyIndex(old(modules.rows), Modules.ModuleId, l.moduleId).None? ==> modules.rows == old(modules.rows)
    ensures KeyIndex(old(modules.rows), Modules.ModuleId, l.moduleId).Some? ==>
      var i := KeyIndex(old(modules.rows), Modules.ModuleId, l.moduleId).value;
      modules.rows == old(modules.rows)[i := old(modules.rows)[i].(totalLessons := Some(CountInModule(lessons.rows, l.moduleId)), updatedAt := Some(now))]
  {
    if !OrderTaken(lessons.rows, l.moduleId, l.order) {
      AppendingKeepsLessonOrdersDistinct(lessons.rows, l);
    }
    UpsertFresh(lessons.rows, l, LessonId);
    CountAppend(lessons.rows, l, InModule(l.moduleId));
    lessons.Save(l, LessonId);
    RecountModuleLessons(modules, lessons, l.moduleId, now);
  }

  /**
   * The checks of `createLesson`, in their order: the message of the first one that fails,
   * nothing when the lesson is admitted. The title is looked up as the request spells it,
   * although it is stored trimmed (see `PaddedTitleSlipsThrough`).
   */
  function CreateRefusal(courses: seq<Courses.Course>, modules: seq<Modules.Module>, lessons: seq<Lesson>,
                         moduleId: string, req: LessonRequest, teacherId: string): (r: Option<string>)
    ensures Lookup(modules, Modules.ModuleId, moduleId).None? ==> r == Some("Module not found with ID: " + moduleId)
    ensures var m := Lookup(modules, Modules.ModuleId, moduleId);
      m.Some? ==>
        var c := Lookup(courses, Courses.CourseId, m.value.courseId);
        && (c.None? ==> r == Some("Course not found"))
        && (c.Some? && c.value.teacherId != teacherId ==> r == Some("You don't have permission to add lessons to this module"))
        && (c.Some? && c.value.teacherId == teacherId && !TitleAdmittedAsWritten(lessons, moduleId, req.title) ==>
              r == Some("A lesson with this title already exists in the module"))
        && (c.Some? && c.value.teacherId == teacherId && TitleAdmittedAsWritten(lessons, moduleId, req.title)
            && OrderTaken(lessons, moduleId, req.order) ==>
              r == Some("A lesson with this order already exists in the module"))
    ensures r.None? <==>
      && Lookup(modules, Modules.ModuleId, moduleId).Some?
      && Lookup(courses, Courses.CourseId, Lookup(modules, Modules.ModuleId, moduleId).value.courseId).Some?
      && Lookup(courses, Courses.CourseId, Lookup(modules, Modules.ModuleId, moduleId).value.courseId).value.teacherId == teacherId
      && TitleAdmittedAsWritten(lessons, moduleId, req.title)
      && !OrderTaken(lessons, moduleId, req.order)
  {
    var m := Lookup(modules, Modules.ModuleId, moduleId);
    if m.None? then Some("Module not found with ID: " + moduleId)
    else
      var course := Lookup(courses, Courses.CourseId, m.value.courseId);
      if course.None? then Some("Course not found")
      else if course.value.teacherId != teacherId then Some("You don't have permission to add lessons to this module")
      else if !TitleAdmittedAsWritten(lessons, moduleId, req.title) then Some("A lesson with this title already exists in the module")
      else if OrderTaken(lessons, moduleId, req.order) then Some("A lesson with this order already exists in the module")
      else None
  }

  /**
   * `createLesson`. A refused request saves nothing and answers with the refusal. An
   * admitted one adds the new draft lesson to the module's course and recounts the module's
   * lesson counter, which is one more than before. Positions stay distinct within a module.
   */
  method CreateLesson(courses: Table<Courses.Course>, modules: Table<Modules.Module>, lessons: Table<Lesson>,
                      moduleId: string, req: LessonRequest, teacherId: string, newId: string,
                      quizIds: seq<string>, now: int)
    returns (r: ApiResponse<Lesson>)
    requires UniqueKeys(modules.rows, Modules.ModuleId) && UniqueKeys(lessons.rows, LessonId)
    requires KeyIndex(lessons.rows, LessonId, newId).None?
    requires IdsFor(req.quizzes, quizIds)
    modifies modules, lessons
    ensures UniqueKeys(modules.rows, Modules.ModuleId) && UniqueKeys(lessons.rows, LessonId)
    ensures LessonOrdersDistinct(old(lessons.rows)) ==> LessonOrdersDistinct(lessons.rows)
    ensures TitlesDistinct(old(lessons.rows)) && Text.Trim(req.title) == req.title ==> TitlesDistinct(lessons.rows)
    ensures var refusal := CreateRefusal(old(courses.rows), old(modules.rows), old(lessons.rows), moduleId, req, teacherId);
      refusal.Some? ==>
        r == Failure(refusal.value) && modules.rows == old(modules.rows) && lessons.rows == old(lessons.rows)
    ensures CreateRefusal(old(courses.rows), old(modules.rows), old(lessons.rows), moduleId, req, teacherId).None? ==>
      var i := KeyIndex(old(modules.rows), Modules.ModuleId, moduleId).value;
      var m := old(modules.rows)[i];
      var l := NewLesson(newId, req, moduleId, m.courseId, teacherId, quizIds, now);
      && r == Success("Lesson created successfully", l)
      && lessons.rows == old(lessons.rows) + [l]
      && CountInModule(lessons.rows, moduleId) == CountInModule(old(lessons.rows), moduleId) + 1
      && modules.rows == old(modules.rows)[i := m.(totalLessons := Some(CountInModule(lessons.rows, moduleId)), updatedAt := Some(now))]
  {
    var refusal := CreateRefusal(courses.rows, modules.rows, lessons.rows, moduleId, req, teacherId);
    if refusal.Some? {
      return Failure(refusal.value);
    }
    var m := modules.rows[KeyIndex(modules.rows, Modules.ModuleId, moduleId).value];
    var l := NewLesson(newId, req, moduleId, m.courseId, teacherId, quizIds, now);
    if TitlesDistinct(lessons.rows) && Text.Trim(req.title) == req.title {
      AsWrittenSufficesForTrimmedTitles(lessons.rows, l, req.title);
    }
    AddLesson(modules, lessons, l, now);
    r := Success("Lesson created successfully", l);
  }

  /** Adding a lesson at a position its module does not use keeps positions distinct. */
  lemma AppendingKeepsLessonOrdersDistinct(rows: seq<Lesson>, x: Lesson)
    requires !OrderTaken(rows, x.moduleId, x.order)
    ensures LessonOrdersDistinct(rows) ==> LessonOrdersDistinct(rows + [x])
  {
    if LessonOrdersDistinct(rows) {
      var after := rows + [x];
      forall a, b | 0 <= a < b < |after| && after[a].moduleId == after[b].moduleId
        ensures after[a].order != after[b].order
      {
        assert after[a] == rows[a];
        if b == |rows| {
          assert !(rows[a].moduleId == x.moduleId && rows[a].order == x.order);
        }
      }
    }
  }

  /** A string field of an update that counts: present and not blank. */
  predicate Given(s: Option<string>) {
    s.Some? && !Text.IsBlank(s.value)
  }

  /**
   * The update's title clashes: it is given, differs from the lesson's own ignoring case, and
   * a lesson of the module has it. Both tests use the title as sent, untrimmed, although it is
   * stored trimmed (see `PaddedTitleSlipsThrough`).
   */
  predicate TitleClash(lessons: seq<Lesson>, l: Lesson, u: LessonUpdate)
    ensures !Given(u.title) ==> !TitleClash(lessons, l, u)
    ensures TitleClash(lessons, l, u) ==>
      exists k :: 0 <= k < |lessons| && lessons[k] != l && lessons[k].moduleId == l.moduleId
        && Text.EqualsIgnoreCase(lessons[k].title, u.title.value)
  {
    Given(u.title) && !Text.EqualsIgnoreCase(l.title, u.title.value) && TitleTaken(lessons, l.moduleId, u.title.value)
  }

  /** The update's position clashes: it is given, differs from the lesson's own, and the module uses it. */
  predicate LessonOrderClash(lessons: seq<Lesson>, l: Lesson, u: LessonUpdate) {
    u.order.Some? && l.order != u.order.value && OrderTaken(lessons, l.moduleId, u.order.value)
  }

  /**
   * The fields `updateLesson` sets. Title, description, address and duration count only
   * when present and not blank, and are stored trimmed; a new address also replaces the
   * thumbnail when it is a YouTube address. The other fields replace the stored ones when
   * present. The id, module, course, owner, views and times are kept.
   */
  function ApplyLessonUpdate(l: Lesson, u: LessonUpdate, quizIds: seq<string>): (r: Lesson)
    requires IdsFor(u.quizzes, quizIds)
    ensures r.title == TextField(l.title, u.title) && r.description == TextField(l.description, u.description)
    ensures r.videoUrl == TextField(l.videoUrl, u.videoUrl) && r.videoThumbnail == NewThumbnail(l.videoThumbnail, u.videoUrl)
    ensures r.duration == DurationField(l.duration, u.duration)
    ensures r.quizzes == QuizzesField(l.quizzes, u.quizzes, quizIds)
    ensures r.order == u.order.OrElse(l.order) && r.status == u.status.OrElse(l.status)
    ensures r.coverImage == u.coverImage.Or(l.coverImage) && r.transcript == u.transcript.Or(l.transcript)
    ensures r.tags == u.tags.Or(l.tags) && r.difficulty == u.difficulty.Or(l.difficulty)
    ensures r.language == u.language.Or(l.language)
    ensures r.id == l.id && r.moduleId == l.moduleId && r.courseId == l.courseId && r.teacherId == l.teacherId
    ensures r.views == l.views && r.isActive == l.isActive && r.createdAt == l.createdAt && r.updatedAt == l.updatedAt
  {
    l.(title := TextField(l.title, u.title), description := TextField(l.description, u.description),
       videoUrl := TextField(l.videoUrl, u.videoUrl), videoThumbnail := NewThumbnail(l.videoThumbnail, u.videoUrl),
       duration := DurationField(l.duration, u.duration), quizzes := QuizzesField(l.quizzes, u.quizzes, quizIds),
       order := u.order.OrElse(l.order), status := u.status.OrElse(l.status),
       coverImage := u.coverImage.Or(l.coverImage), transcript := u.transcript.Or(l.transcript),
       tags := u.tags.Or(l.tags), difficulty := u.difficulty.Or(l.difficulty), language := u.language.Or(l.language))
  }

  /** A text field of the update that counts replaces the stored one, trimmed. */
  function TextField(current: string, given: Option<string>): (r: string)
    ensures Given(given) ==> r == Text.Trim(given.value)
    ensures !Given(given) ==> r == current
  {
    if Given(given) then Text.Trim(given.value) else current
  }

  /** A duration of the update that counts replaces the stored one, trimmed. */
  function DurationField(current: Option<string>, given: Option<string>): (r: Option<string>)
    ensures Given(given) ==> r == Some(Text.Trim(given.value))
    ensures !Given(given) ==> r == current
  {
    if Given(given) then Some(Text.Trim(given.value)) else current
  }

  /** Quizzes of the update, when present, replace the stored ones, mapped with fresh ids. */
  function QuizzesField(current: Option<seq<Quiz>>, given: Option<seq<QuizRequest>>, ids: seq<string>): (r: Option<seq<Quiz>>)
    requires IdsFor(given, ids)
    ensures given.Some? ==> r == MappedQuizzes(given, ids)
    ensures given.None? ==> r == current
  {
    if given.Some? then MappedQuizzes(given, ids) else current
  }

  /** A new video address replaces the thumbnail only when it yields one. */
  function NewThumbnail(current: Option<string>, url: Option<string>): (r: Option<string>)
    ensures Given(url) && YouTube.Thumbnail(url.value).Some? ==> r == YouTube.Thumbnail(url.value)
    ensures !(Given(url) && YouTube.Thumbnail(url.value).Some?) ==> r == current
  {
    if Given(url) && YouTube.Thumbnail(url.value).Some? then YouTube.Thumbnail(url.value) else current
  }

  /** Submitting the same update twice stores what submitting it once does. */
  lemma ApplyLessonUpdateIdempotent(l: Lesson, u: LessonUpdate, quizIds: seq<string>)
    requires IdsFor(u.quizzes, quizIds)
    ensures ApplyLessonUpdate(ApplyLessonUpdate(l, u, quizIds), u, quizIds) == ApplyLessonUpdate(l, u, quizIds)
  {
  }

  /**
   * The checks of `updateLesson` once the lesson is found, in their order: the message of
   * the first one that fails, nothing when the update is admitted.
   */
  function UpdateRefusal(lessons: seq<Lesson>, l: Lesson, u: LessonUpdate, teacherId: string): (r: Option<string>)
    ensures l.teacherId != teacherId ==> r == Some("You don't have permission to update this lesson")
    ensures l.teacherId == teacherId && TitleClash(lessons, l, u) ==>
      r == Some("A lesson with this title already exists in this module")
    ensures l.teacherId == teacherId && !TitleClash(lessons, l, u) && LessonOrderClash(lessons, l, u) ==>
      r == Some("A lesson with this order already exists in this module")
    ensures r.None? <==> l.teacherId == teacherId && !TitleClash(lessons, l, u) && !LessonOrderClash(lessons, l, u)
  {
    if l.teacherId != teacherId then Some("You don't have permission to update this lesson")
    else if TitleClash(lessons, l, u) then Some("A lesson with this title already exists in this module")
    else if LessonOrderClash(lessons, l, u) then Some("A lesson with this order already exists in this module")
    else None
  }

  /**
   * `updateLesson`: an unknown lesson and a refused update save nothing; an admitted update
   * is applied and the update time set. Positions stay distinct within a module.
   */
  method UpdateLesson(lessons: Table<Lesson>, lessonId: string, u: LessonUpdate, teacherId: string,
                      quizIds: seq<string>, now: int)
    returns (r: ApiResponse<Lesson>)
    requires UniqueKeys(lessons.rows, LessonId) && IdsFor(u.quizzes, quizIds)
    modifies lessons
    ensures UniqueKeys(lessons.rows, LessonId)
    ensures LessonOrdersDistinct(old(lessons.rows)) ==> LessonOrdersDistinct(lessons.rows)
    ensures KeyIndex(old(lessons.rows), LessonId, lessonId).None? ==>
      r == Failure("Lesson not found") && lessons.rows == old(lessons.rows)
    ensures KeyIndex(old(lessons.rows), LessonId, lessonId).Some? ==>
      var i := KeyIndex(old(lessons.rows), LessonId, lessonId).value;
      var l := old(lessons.rows)[i];
      var refusal := UpdateRefusal(old(lessons.rows), l, u, teacherId);
      && (refusal.Some? ==> r == Failure(refusal.value) && lessons.rows == old(lessons.rows))
      && (refusal.None? ==>
            var updated := ApplyLessonUpdate(l, u, quizIds).(updatedAt := Some(now));
            r == Success("Lesson updated successfully", updated) && lessons.rows == old(lessons.rows)[i := updated])
  {
    var found := KeyIndex(lessons.rows, LessonId, lessonId);
    if found.None? {
      return Failure("Lesson not found");
    }
    var i := found.value;
    var l := lessons.rows[i];
    var refusal := UpdateRefusal(lessons.rows, l, u, teacherId);
    if refusal.Some? {
      return Failure(refusal.value);
    }
    var updated := ApplyLessonUpdate(l, u, quizIds).(updatedAt := Some(now));
    ghost var before := lessons.rows;
    UpsertExisting(lessons.rows, updated, LessonId, i);
    lessons.Save(updated, LessonId);
    ReplacingKeepsLessonOrdersDistinct(before, i, updated);
    r := Success("Lesson updated successfully", updated);
  }

  /**
   * Replacing a lesson by one of the same module whose position is its old one or unused in
   * the module keeps positions distinct.
   */
  lemma ReplacingKeepsLessonOrdersDistinct(rows: seq<Lesson>, i: nat, x: Lesson)
    requires i < |rows| && x.moduleId == rows[i].moduleId
    requires x.order == rows[i].order || !OrderTaken(rows, x.moduleId, x.order)
    ensures LessonOrdersDistinct(rows) ==> LessonOrdersDistinct(rows[i := x])
  {
    if LessonOrdersDistinct(rows) {
      var after := rows[i := x];
      forall a, b | 0 <= a < b < |after| && after[a].moduleId == after[b].moduleId
        ensures after[a].order != after[b].order
      {
        if a == i {
          assert after[b] == rows[b];
          if x.order != rows[i].order {
            assert !(rows[b].moduleId == x.moduleId && rows[b].order == x.order);
          }
        } else if b == i {
          assert after[a] == rows[a];
          if x.order != rows[i].order {
            assert !(rows[a].moduleId == x.moduleId && rows[a].order == x.order);
          }
        }
      }
    }
  }

  /**
   * The removing half of `deleteLesson`: the lesson at `i` is deleted and its module's
   * lesson counter recounted, which is one fewer than before.
   */
  method RemoveLesson(modules: Table<Modules.Module>, lessons: Table<Lesson>, i: nat, now: int)
    requires UniqueKeys(modules.rows, Modules.ModuleId) && UniqueKeys(lessons.rows, LessonId)
    requires i < |lessons.rows|
    modifies modules, lessons
    ensures UniqueKeys(modules.rows, Modules.ModuleId) && UniqueKeys(lessons.rows, LessonId)
    ensures var l := old(lessons.rows)[i];
      && lessons.rows == RemoveKey(old(lessons.rows), LessonId, l.id)
      && CountInModule(lessons.rows, l.moduleId) == CountInModule(old(lessons.rows), l.moduleId) - 1
      && (KeyIndex(old(modules.rows), Modules.ModuleId, l.moduleId).None? ==> modules.rows == old(modules.rows))
      && (KeyIndex(old(modules.rows), Modules.ModuleId, l.moduleId).Some? ==>
            var m := KeyIndex(old(modules.rows), Modules.ModuleId, l.moduleId).value;
            modules.rows == old(modules.rows)[m := old(modules.rows)[m].(totalLessons := Some(CountInModule(lessons.rows, l.moduleId)), updatedAt := Some(now))])
  {
    var l := lessons.rows[i];
    CountRemoveKey(lessons.rows, LessonId, l.id, i, InModule(l.moduleId));
    lessons.Delete(l.id, LessonId);
    RecountModuleLessons(modules, lessons, l.moduleId, now);
  }

  /**
   * `deleteLesson`: owner-only; the lesson is removed and its module's lesson counter is
   * recounted, one fewer than before.
   */
  method DeleteLesson(modules: Table<Modules.Module>, lessons: Table<Lesson>, lessonId: string, teacherId: string, now: int)
    returns (r: ApiResponse<string>)
    requires UniqueKeys(modules.rows, Modules.ModuleId) && UniqueKeys(lessons.rows, LessonId)
    modifies modules, lessons
    ensures UniqueKeys(modules.rows, Modules.ModuleId) && UniqueKeys(lessons.rows, LessonId)
    ensures KeyIndex(old(lessons.rows), LessonId, lessonId).None? ==>
      r == Failure("Lesson not found") && modules.rows == old(modules.rows) && lessons.rows == old(lessons.rows)
    ensures KeyIndex(old(lessons.rows), LessonId, lessonId).Some? ==>
      var l := old(lessons.rows)[KeyIndex(old(lessons.rows), LessonId, lessonId).value];
      && (l.teacherId != teacherId ==>
            r == Failure("You don't have permission to delete this lesson")
            && modules.rows == old(modules.rows) && lessons.rows == old(lessons.rows))
      && (l.teacherId == teacherId ==>
            var count := CountInModule(old(lessons.rows), l.moduleId) - 1;
            && r == SuccessMessage("Lesson deleted successfully")
            && lessons.rows == RemoveKey(old(lessons.rows), LessonId, lessonId)
            && count == CountInModule(lessons.rows, l.moduleId)
            && (KeyIndex(old(modules.rows), Modules.ModuleId, l.moduleId).None? ==> modules.rows == old(modules.rows))
            && (KeyIndex(old(modules.rows), Modules.ModuleId, l.moduleId).Some? ==>
                  var i := KeyIndex(old(modules.rows), Modules.ModuleId, l.moduleId).value;
                  modules.rows == old(modules.rows)[i := old(modules.rows)[i].(totalLessons := Some(count), updatedAt := Some(now))]))
  {
    var found := KeyIndex(lessons.rows, LessonId, lessonId);
    if found.None? {
      return Failure("Lesson not found");
    }
    var l := lessons.rows[found.value];
    if l.teacherId != teacherId {
      return Failure("You don't have permission to delete this lesson");
    }
    RemoveLesson(modules, lessons, found.value, now);
    r := SuccessMessage("Lesson deleted successfully");
  }

  /**
   * A lesson after the reorder list is walked: every position `p` whose id is the lesson's
   * gives it order `p + 1` and the new update time, so the last such position decides.
   */
  function ApplyPositions(l: Lesson, ids: seq<string>, now: int): (r: Lesson)
    ensures r.id == l.id
    ensures r.(order := l.order, updatedAt := l.updatedAt) == l
    decreases |ids|
  {
    if ids == [] then l
    else
      var before := ApplyPositions(l, ids[..|ids| - 1], now);
      if ids[|ids| - 1] == l.id then before.(order := |ids|, updatedAt := Some(now)) else before
  }

  /** A lesson the list does not name is unchanged. */
  lemma {:induction false} ApplyPositionsUnnamed(l: Lesson, ids: seq<string>, now: int)
    requires l.id !in ids
    ensures ApplyPositions(l, ids, now) == l
    decreases |ids|
  {
    if ids != [] {
      assert ids == ids[..|ids| - 1] + [ids[|ids| - 1]];
      ApplyPositionsUnnamed(l, ids[..|ids| - 1], now);
    }
  }

  /** The lesson at list index `p`, named nowhere later, takes position `p + 1`. */
  lemma {:induction false} ApplyPositionsLast(l: Lesson, ids: seq<string>, now: int, p: nat)
    requires p < |ids| && ids[p] == l.id
    requires forall q :: p < q < |ids| ==> ids[q] != l.id
    ensures ApplyPositions(l, ids, now).order == p + 1
    ensures ApplyPositions(l, ids, now).updatedAt == Some(now)
    decreases |ids|
  {
    if p < |ids| - 1 {
      ApplyPositionsLast(l, ids[..|ids| - 1], now, p);
    }
  }

  /** The lessons table after the reorder. */
  function Repositioned(rows: seq<Lesson>, ids: seq<string>, now: int): (r: seq<Lesson>)
    ensures |r| == |rows| && forall k :: 0 <= k < |rows| ==> r[k] == ApplyPositions(rows[k], ids, now)
  {
    seq(|rows|, k requires 0 <= k < |rows| => ApplyPositions(rows[k], ids, now))
  }

  /**
   * With every id listed once, the lesson at list index `p` takes position `p + 1`, and
   * a lesson that is not listed keeps its position. Membership of the module is not checked:
   * a listed lesson of another module is repositioned too.
   */
  lemma RepositionedOrders(rows: seq<Lesson>, ids: seq<string>, now: int)
    requires forall a, b :: 0 <= a < b < |ids| ==> ids[a] != ids[b]
    ensures forall k, p :: 0 <= k < |rows| && 0 <= p < |ids| && rows[k].id == ids[p] ==>
      Repositioned(rows, ids, now)[k].order == p + 1
    ensures forall k :: 0 <= k < |rows| && rows[k].id !in ids ==> Repositioned(rows, ids, now)[k] == rows[k]
  {
    forall k, p | 0 <= k < |rows| && 0 <= p < |ids| && rows[k].id == ids[p]
      ensures Repositioned(rows, ids, now)[k].order == p + 1
    {
      ApplyPositionsLast(rows[k], ids, now, p);
    }
    forall k | 0 <= k < |rows| && rows[k].id !in ids
      ensures Repositioned(rows, ids, now)[k] == rows[k]
    {
      ApplyPositionsUnnamed(rows[k], ids, now);
    }
  }

  /** One turn of the reorder loop: the lesson with the `i`-th id, if stored, takes position `i + 1`. */
  lemma {:induction false} RepositionStep(rows0: seq<Lesson>, rows: seq<Lesson>, ids: seq<string>, i: nat, now: int, at: Option<nat>)
    requires i < |ids| && |rows| == |rows0| && UniqueKeys(rows, LessonId)
    requires forall k :: 0 <= k < |rows0| ==> rows[k] == ApplyPositions(rows0[k], ids[..i], now)
    requires at == KeyIndex(rows, LessonId, ids[i])
    ensures var next := if at.Some? then rows[at.value := rows[at.value].(order := i + 1, updatedAt := Some(now))] else rows;
      forall k :: 0 <= k < |rows0| ==> next[k] == ApplyPositions(rows0[k], ids[..i + 1], now)
  {
    assert ids[..i + 1][..i] == ids[..i];
    forall k | 0 <= k < |rows0|
      ensures rows[k].id == rows0[k].id
    {
      assert rows[k] == ApplyPositions(rows0[k], ids[..i], now);
    }
  }

  /**
   * `reorderLessons`: refused for an unknown module and for a teacher who does not own its
   * course; otherwise the lesson with the id at list index `i` is given position `i + 1`,
   * and unknown ids are passed over.
   */
  method ReorderLessons(courses: Table<Courses.Course>, modules: Table<Modules.Module>, lessons: Table<Lesson>,
                        moduleId: string, lessonIds: seq<string>, teacherId: string, now: int)
    returns (r: ApiResponse<string>)
    requires UniqueKeys(lessons.rows, LessonId)
    modifies lessons
    ensures UniqueKeys(lessons.rows, LessonId)
    ensures Lookup(old(modules.rows), Modules.ModuleId, moduleId).None? ==>
      r == Failure("Module not found") && lessons.rows == old(lessons.rows)
    ensures Lookup(old(modules.rows), Modules.ModuleId, moduleId).Some? ==>
      var course := Lookup(old(courses.rows), Courses.CourseId, Lookup(old(modules.rows), Modules.ModuleId, moduleId).value.courseId);
      && (course.None? || course.value.teacherId != teacherId ==>
            r == Failure("You don't have permission to reorder lessons in this module") && lessons.rows == old(lessons.rows))
      && (course.Some? && course.value.teacherId == teacherId ==>
            r == SuccessMessage("Lessons reordered successfully")
            && lessons.rows == Repositioned(old(lessons.rows), lessonIds, now))
  {
    var m := Lookup(modules.rows, Modules.ModuleId, moduleId);
    if m.None? {
      return Failure("Module not found");
    }
    var course := Lookup(courses.rows, Courses.CourseId, m.value.courseId);
    if course.None? || course.value.teacherId != teacherId {
      return Failure("You don't have permission to reorder lessons in this module");
    }
    Reposition(lessons, lessonIds, now);
    r := SuccessMessage("Lessons reordered successfully");
  }

  /** The loop of `reorderLessons`: the lesson with the id at list index `i`, if stored, takes position `i + 1`. */
  method Reposition(lessons: Table<Lesson>, ids: seq<string>, now: int)
    requires UniqueKeys(lessons.rows, LessonId)
    modifies lessons
    ensures UniqueKeys(lessons.rows, LessonId)
    ensures lessons.rows == Repositioned(old(lessons.rows), ids, now)
  {
    ghost var rows0 := lessons.rows;
    var i := 0;
    while i < |ids|
      invariant 0 <= i <= |ids|
      invariant UniqueKeys(lessons.rows, LessonId) && |lessons.rows| == |rows0|
      invariant forall k :: 0 <= k < |rows0| ==> lessons.rows[k] == ApplyPositions(rows0[k], ids[..i], now)
    {
      ghost var before := lessons.rows;
      var at := KeyIndex(lessons.rows, LessonId, ids[i]);
      if at.Some? {
        var moved := lessons.rows[at.value].(order := i + 1, updatedAt := Some(now));
        UpsertExisting(lessons.rows, moved, LessonId, at.value);
        lessons.Save(moved, LessonId);
        assert lessons.rows == before[at.value := before[at.value].(order := i + 1, updatedAt := Some(now))];
      }
      RepositionStep(rows0, before, ids, i, now, at);
      i := i + 1;
    }
    assert ids[..|ids|] == ids;
  }

  /**
   * `publishLesson` and `unpublishLesson`: owner-only; the status becomes `status` and the
   * update time is set, nothing else changes.
   */
  method SetLessonStatus(lessons: Table<Lesson>, lessonId: string, teacherId: string, status: LessonStatus, now: int)
    returns (r: ApiResponse<string>)
    requires UniqueKeys(lessons.rows, LessonId)
    requires status == Published || status == Draft
    modifies lessons
    ensures UniqueKeys(lessons.rows, LessonId)
    ensures KeyIndex(old(lessons.rows), LessonId, lessonId).None? ==>
      r == Failure("Lesson not found") && lessons.rows == old(lessons.rows)
    ensures KeyIndex(old(lessons.rows), LessonId, lessonId).Some? ==>
      var i := KeyIndex(old(lessons.rows), LessonId, lessonId).value;
      var l := old(lessons.rows)[i];
      && (l.teacherId != teacherId ==>
            r == Failure(DeniedMessage(status))
            && lessons.rows == old(lessons.rows))
      && (l.teacherId == teacherId ==>
            r == SuccessMessage(DoneMessage(status))
            && lessons.rows == old(lessons.rows)[i := l.(status := status, updatedAt := Some(now))])
  {
    var found := KeyIndex(lessons.rows, LessonId, lessonId);
    if found.None? {
      return Failure("Lesson not found");
    }
    var i := found.value;
    var l := lessons.rows[i];
    if l.teacherId != teacherId {
      return Failure(DeniedMessage(status));
    }
    var updated := l.(status := status, updatedAt := Some(now));
    UpsertExisting(lessons.rows, updated, LessonId, i);
    lessons.Save(updated, LessonId);
    r := SuccessMessage(DoneMessage(status));
  }

  /** The refusal for a teacher who does not own the lesson. */
  function DeniedMessage(status: LessonStatus): string {
    if status == Published then "You don't have permission to publish this lesson"
    else "You don't have permission to unpublish this lesson"
  }

  function DoneMessage(status: LessonStatus): string {
    if status == Published then "Lesson published successfully" else "Lesson unpublished successfully"
  }

  /** The integer part of `LessonStatsResponse`; the average rating is not modelled. */
  datatype LessonStats = LessonStats(
    totalLessons: nat,
    publishedLessons: nat,
    draftLessons: nat,
    totalViews: int,
    totalQuizzes: nat,
    mostPopularLesson: string,
    recentlyCreated: string)

  function ByTeacher(teacherId: string): Lesson -> bool {
    (l: Lesson) => l.teacherId == teacherId
  }

  function HasStatus(status: LessonStatus): Lesson -> bool {
    (l: Lesson) => l.status == status
  }

  /** The teacher's lessons with the given status. */
  function ByTeacherWithStatus(teacherId: string, status: LessonStatus): Lesson -> bool {
    (l: Lesson) => l.teacherId == teacherId && l.status == status
  }

  /** Newest first. */
  function NewerFirst(a: Lesson, b: Lesson): bool {
    a.createdAt >= b.createdAt
  }

  /** `findByTeacherIdOrderByCreatedAtDesc` */
  function TeacherLessons(rows: seq<Lesson>, teacherId: string): (r: seq<Lesson>)
    ensures |r| == Count(rows, ByTeacher(teacherId))
    ensures Sorting.Sorted(r, NewerFirst)
    ensures multiset(r) == multiset(Filter(rows, ByTeacher(teacherId)))
  {
    FilterCount(rows, ByTeacher(teacherId));
    assert Sorting.Total(NewerFirst);
    Sorting.Sort(Filter(rows, ByTeacher(teacherId)), NewerFirst)
  }

  /** A missing view count counts as none. */
  function Views(l: Lesson): int {
    l.views.OrElse(0)
  }

  function SumViews(ls: seq<Lesson>): int {
    if ls == [] then 0 else Views(ls[0]) + SumViews(ls[1..])
  }

  function SumQuizzes(ls: seq<Lesson>): nat {
    if ls == [] then 0 else ls[0].TotalQuizzes() + SumQuizzes(ls[1..])
  }

  /**
   * `max` by views over the lessons with a positive count: the first lesson with the largest
   * count, or nothing when no lesson has been viewed.
   */
  function MostViewed(ls: seq<Lesson>): (r: Option<nat>)
    ensures r.None? <==> forall k :: 0 <= k < |ls| ==> Views(ls[k]) <= 0
    ensures r.Some? ==> r.value < |ls| && Views(ls[r.value]) > 0
    ensures r.Some? ==> forall k :: 0 <= k < |ls| ==> Views(ls[k]) <= Views(ls[r.value])
  {
    if ls == [] then None
    else
      var rest := MostViewed(ls[1..]);
      assert forall k :: 1 <= k < |ls| ==> ls[k] == ls[1..][k - 1];
      if rest.None? then (if Views(ls[0]) > 0 then Some(0) else None)
      else if Views(ls[0]) >= Views(ls[1..][rest.value]) then Some(0)
      else Some(rest.value + 1)
  }

  /** The title of the most viewed lesson, "None" when no lesson has been viewed. */
  function PopularTitle(ls: seq<Lesson>): string {
    var popular := MostViewed(ls);
    if popular.Some? then ls[popular.value].title else "None"
  }

  /** The title heading the newest-first list, "None" for an empty list. */
  function RecentTitle(ls: seq<Lesson>): string {
    if ls == [] then "None" else ls[0].title
  }

  /**
   * The integer statistics of `getLessonStats` over a teacher's lessons: every lesson of
   * the teacher is counted once, the published and the draft counts are the numbers of the
   * teacher's lessons with that status and never outnumber all lessons together, and views
   * and quizzes are summed with a missing count as none.
   */
  function LessonStatsOf(rows: seq<Lesson>, teacherId: string): (s: LessonStats)
    ensures s.totalLessons == Count(rows, ByTeacher(teacherId))
    ensures s.publishedLessons == Count(rows, ByTeacherWithStatus(teacherId, Published))
    ensures s.draftLessons == Count(rows, ByTeacherWithStatus(teacherId, Draft))
    ensures s.publishedLessons + s.draftLessons <= s.totalLessons
    ensures s.totalViews == SumViews(TeacherLessons(rows, teacherId))
    ensures s.totalQuizzes == SumQuizzes(TeacherLessons(rows, teacherId))
  {
    var ls := TeacherLessons(rows, teacherId);
    CountDisjoint(ls, HasStatus(Published), HasStatus(Draft));
    CountPermutation(ls, Filter(rows, ByTeacher(teacherId)), HasStatus(Published));
    CountPermutation(ls, Filter(rows, ByTeacher(teacherId)), HasStatus(Draft));
    CountFilter(rows, ByTeacher(teacherId), HasStatus(Published), ByTeacherWithStatus(teacherId, Published));
    CountFilter(rows, ByTeacher(teacherId), HasStatus(Draft), ByTeacherWithStatus(teacherId, Draft));
    LessonStats(|ls|, Count(ls, HasStatus(Published)), Count(ls, HasStatus(Draft)), SumViews(ls), SumQuizzes(ls),
                PopularTitle(ls), RecentTitle(ls))
  }

  /**
   * The most popular lesson of the statistics is "None" when no lesson of the teacher has
   * been viewed, and otherwise the title of a lesson of the teacher viewed at least as often
   * as any other.
   */
  lemma MostPopularIsMostViewed(rows: seq<Lesson>, teacherId: string)
    ensures var ls := TeacherLessons(rows, teacherId);
      var s := LessonStatsOf(rows, teacherId);
      && ((forall k :: 0 <= k < |ls| ==> Views(ls[k]) <= 0) ==> s.mostPopularLesson == "None")
      && ((exists k :: 0 <= k < |ls| && Views(ls[k]) > 0) ==>
            exists j :: 0 <= j < |ls| && ls[j].title == s.mostPopularLesson && Views(ls[j]) > 0
              && forall k :: 0 <= k < |ls| ==> Views(ls[k]) <= Views(ls[j]))
  {
    var ls := TeacherLessons(rows, teacherId);
    var popular := MostViewed(ls);
    if popular.Some? {
      assert ls[popular.value].title == LessonStatsOf(rows, teacherId).mostPopularLesson;
    }
  }

  /**
   * The most recently created lesson of the statistics is "None" for a teacher without
   * lessons, and otherwise the title of a lesson of the teacher created no earlier than any
   * other of the teacher's lessons.
   */
  lemma RecentlyCreatedIsNewest(rows: seq<Lesson>, teacherId: string)
    ensures var s := LessonStatsOf(rows, teacherId);
      && (s.totalLessons == 0 ==> s.recentlyCreated == "None")
      && (s.totalLessons > 0 ==>
            exists j :: 0 <= j < |rows| && rows[j].teacherId == teacherId && rows[j].title == s.recentlyCreated
              && forall k :: 0 <= k < |rows| && rows[k].teacherId == teacherId ==> rows[j].createdAt >= rows[k].createdAt)
  {
    var ls := TeacherLessons(rows, teacherId);
    if ls != [] {
      NewestFirst(rows, teacherId);
      var j :| 0 <= j < |rows| && rows[j] == ls[0] && ls[0].teacherId == teacherId;
      assert rows[j].title == LessonStatsOf(rows, teacherId).recentlyCreated;
    }
  }

  /** The head of the teacher's list is one of the teacher's lessons, created no earlier than any other. */
  lemma NewestFirst(rows: seq<Lesson>, teacherId: string)
    requires TeacherLessons(rows, teacherId) != []
    ensures var head := TeacherLessons(rows, teacherId)[0];
      exists j :: 0 <= j < |rows| && rows[j] == head && head.teacherId == teacherId
    ensures forall k :: 0 <= k < |rows| && rows[k].teacherId == teacherId ==>
      TeacherLessons(rows, teacherId)[0].createdAt >= rows[k].createdAt
  {
    var ls := TeacherLessons(rows, teacherId);
    var filtered := Filter(rows, ByTeacher(teacherId));
    assert ls[0] in multiset(filtered);
    assert ls[0] in filtered;
    SortedHeadFirst(ls);
    forall k | 0 <= k < |rows| && rows[k].teacherId == teacherId
      ensures ls[0].createdAt >= rows[k].createdAt
    {
      assert rows[k] in filtered;
      assert rows[k] in multiset(ls);
    }
  }

  /** In a list sorted newest first, the head is created no earlier than any element. */
  lemma {:induction false} SortedHeadFirst(ls: seq<Lesson>)
    requires ls != [] && Sorting.Sorted(ls, NewerFirst)
    ensures forall k :: 0 <= k < |ls| ==> ls[0].createdAt >= ls[k].createdAt
  {
    if |ls| > 1 {
      SortedHeadFirst(ls[1..]);
      assert forall k :: 1 <= k < |ls| ==> ls[k] == ls[1..][k - 1];
    }
  }
}
