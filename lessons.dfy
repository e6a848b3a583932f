/** The lesson document (`lessons` collection), its embedded quizzes, and the queries made on it. */
module Lessons {
  import opened Nullable
  import Text
  import Tables

  datatype LessonStatus = Draft | Published | UnderReview | Archived | Rejected

  datatype QuizType = MultipleChoice | TrueFalse | FillInBlank | ShortAnswer

  /** A quiz question embedded in a lesson. */
  datatype Quiz = Quiz(
    id: string,
    question: string,
    options: seq<string>,
    correctAnswer: int,
    explanation: Option<string>,
    points: int,
    quizType: QuizType)

  /**
   * A lesson of a module. `order` is its position in the module. The floating-point
   * rating fields and the video length are not part of this model.
   */
  datatype Lesson = Lesson(
    id: string,
    title: string,
    description: string,
    videoUrl: string,
    duration: Option<string>,
    order: int,
    moduleId: string,
    courseId: string,
    teacherId: string,
    status: LessonStatus,
    quizzes: Option<seq<Quiz>>,
    createdAt: int,
    updatedAt: Option<int>,
    coverImage: Option<string>,
    transcript: Option<string>,
    tags: Option<seq<string>>,
    difficulty: Option<string>,
    views: Option<int>,
    isActive: Option<bool>,
    videoThumbnail: Option<string>,
    language: Option<string>)
  {
    /** `incrementViews`: one more view, a missing count counting as none; nothing else changes. */
    function IncrementViews(): (l: Lesson)
      ensures views.None? ==> l.views == Some(1)
      ensures views.Some? ==> l.views == Some(views.value + 1)
      ensures l.(views := views) == this
    {
      this.(views := Some(views.OrElse(0) + 1))
    }

    /** `getFormattedDuration`: "Unknown" stands in for a missing duration. */
    function FormattedDuration(): (r: string)
      ensures duration.None? ==> r == "Unknown"
      ensures duration.Some? ==> r == duration.value
    {
      duration.OrElse("Unknown")
    }

    /** `getTotalQuizzes`: the number of quizzes, none when the list is missing. */
    function TotalQuizzes(): (n: nat)
      ensures quizzes.None? ==> n == 0
      ensures quizzes.Some? ==> n == |quizzes.value|
    {
      if quizzes.Some? then |quizzes.value| else 0
    }
  }

  function LessonId(l: Lesson): string {
    l.id
  }

  /** `existsByModuleIdAndTitleIgnoreCase` */
  predicate TitleTaken(lessons: seq<Lesson>, moduleId: string, title: string) {
    exists k :: 0 <= k < |lessons| && lessons[k].moduleId == moduleId && Text.EqualsIgnoreCase(lessons[k].title, title)
  }

  /** `existsByModuleIdAndOrder` */
  predicate OrderTaken(lessons: seq<Lesson>, moduleId: string, order: int) {
    exists k :: 0 <= k < |lessons| && lessons[k].moduleId == moduleId && lessons[k].order == order
  }

  /** The lessons of a module, as a filter. */
  function InModule(moduleId: string): Lesson -> bool {
    (l: Lesson) => l.moduleId == moduleId
  }

  /** `countByModuleId` */
  function CountInModule(lessons: seq<Lesson>, moduleId: string): (n: nat)
    ensures n <= |lessons|
    ensures n == 0 <==> forall k :: 0 <= k < |lessons| ==> lessons[k].moduleId != moduleId
  {
    Tables.Count(lessons, InModule(moduleId))
  }
}
