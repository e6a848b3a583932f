/** The course module document (`modules` collection) and the queries made on it. */
module Modules {
  import opened Nullable
  import Tables

  datatype ModuleStatus = Draft | Published | UnderReview | Archived | Rejected

  /**
   * A module of a course. `order` is its position in the course. The floating-point
   * completion percentage and rating fields, and the metadata no operation touches
   * (difficulty, tags, language), are not part of this model.
   */
  datatype Module = Module(
    id: string,
    title: string,
    description: string,
    duration: Option<string>,
    order: int,
    courseId: string,
    teacherId: string,
    status: ModuleStatus,
    coverImage: Option<string>,
    learningObjectives: Option<seq<string>>,
    prerequisites: Option<seq<string>>,
    totalLessons: Option<int>,
    completedLessons: Option<int>,
    totalDurationMinutes: Option<int>,
    createdAt: int,
    updatedAt: Option<int>,
    isActive: Option<bool>,
    views: Option<int>)
  {
    /** `incrementViews`: one more view, a missing count counting as none; nothing else changes. */
    function IncrementViews(): (m: Module)
      ensures views.None? ==> m.views == Some(1)
      ensures views.Some? ==> m.views == Some(views.value + 1)
      ensures m.(views := views) == this
    {
      this.(views := Some(views.OrElse(0) + 1))
    }

    /** `hasLessons`: a missing lesson counter counts as no lessons. */
    predicate HasLessons()
      ensures HasLessons() <==> totalLessons.OrElse(0) > 0
    {
      totalLessons.Some? && totalLessons.value > 0
    }

    /** `getFormattedDuration`: "Unknown" stands in for a missing duration. */
    function FormattedDuration(): (r: string)
      ensures duration.None? ==> r == "Unknown"
      ensures duration.Some? ==> r == duration.value
    {
      duration.OrElse("Unknown")
    }
  }

  /** `n` calls of `incrementViews` add exactly `n` views, a missing count counting as none. */
  lemma {:induction false} IncrementViewsCounts(m: Module, n: nat)
    ensures RepeatIncrement(m, n).views == (if n == 0 then m.views else Some(m.views.OrElse(0) + n))
  {
    if n > 1 {
      IncrementViewsCounts(m, n - 1);
    }
  }

  /** The module after `n` calls of `incrementViews`. */
  function RepeatIncrement(m: Module, n: nat): Module {
    if n == 0 then m else RepeatIncrement(m, n - 1).IncrementViews()
  }

  function ModuleId(m: Module): string {
    m.id
  }

  /** `existsByCourseIdAndOrder` */
  predicate OrderTaken(modules: seq<Module>, courseId: string, order: int) {
    exists k :: 0 <= k < |modules| && modules[k].courseId == courseId && modules[k].order == order
  }

  /** The modules of a course, as a filter. */
  function InCourse(courseId: string): Module -> bool {
    (m: Module) => m.courseId == courseId
  }

  /** `countByCourseId` */
  function CountInCourse(modules: seq<Module>, courseId: string): (n: nat)
    ensures n <= |modules|
    ensures n == 0 <==> forall k :: 0 <= k < |modules| ==> modules[k].courseId != courseId
  {
    Tables.Count(modules, InCourse(courseId))
  }
}
