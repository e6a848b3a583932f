/**
 * Module management inside a course: create, edit, delete, reorder, and the bookkeeping
 * that keeps a course's module counter and a module's lesson counter current. The
 * `courses` and `modules` collections are tables; the new document id and the clock are
 * parameters. A `ModuleResponse` carries the module's fields, so replies carry the module.
 */
module ModuleService {
  import opened Nullable
  import opened Tables
  import opened Responses
  import opened Modules
  import Courses
  import Text
  import Sorting

  /** The module form of `createModule`; title and description are plain strings. */
  datatype ModuleRequest = ModuleRequest(
    title: string,
    description: string,
    duration: Option<string>,
    order: int,
    coverImage: Option<string>,
    learningObjectives: Option<seq<string>>,
    prerequisites: Option<seq<string>>)

  /** The form of `updateModule`: every field may be left out (null). */
  datatype ModuleUpdate = ModuleUpdate(
    title: Option<string>,
    description: Option<string>,
    duration: Option<string>,
    order: Option<int>,
    coverImage: Option<string>,
    learningObjectives: Option<seq<string>>,
    prerequisites: Option<seq<string>>,
    status: Option<ModuleStatus>)

  /** One entry of a reorder request: the module and the position it should take. */
  datatype OrderItem = OrderItem(moduleId: string, order: int)

  /** In no course do two modules share a position. */
  predicate OrdersDistinct(modules: seq<Module>) {
    forall i, j :: 0 <= i < j < |modules| && modules[i].courseId == modules[j].courseId ==>
      modules[i].order != modules[j].order
  }

  /** "A module with order N already exists", with the number printed as Java prints it. */
  function OrderConflict(order: int): string {
    "A module with order " + Text.IntToString(order) + " already exists"
  }

  /** Different positions give different conflict messages. */
  lemma OrderConflictNamesTheOrder(a: int, b: int)
    requires OrderConflict(a) == OrderConflict(b)
    ensures a == b
  {
    var prefix := "A module with order ";
    var suffix := " already exists";
    var sa := Text.IntToString(a);
    var sb := Text.IntToString(b);
    assert OrderConflict(a) == prefix + sa + suffix;
    assert |sa| == |sb|;
    assert sa == OrderConflict(a)[|prefix|..|prefix| + |sa|];
    assert sb == OrderConflict(b)[|prefix|..|prefix| + |sb|];
    Text.IntToStringInjective(a, b);
  }

  /**
   * The module `Module.builder()` makes for a request: a draft of `teacherId` in
   * `courseId`, with no lessons, nothing completed, no minutes, active and unseen.
   */
  function NewModule(id: string, req: ModuleRequest, courseId: string, teacherId: string, now: int): (m: Module)
    ensures m.id == id && m.courseId == courseId && m.teacherId == teacherId && m.order == req.order
    ensures m.title == req.title && m.description == req.description && m.duration == req.duration
    ensures m.status == Draft && !m.HasLessons()
    ensures m.totalLessons == Some(0) && m.completedLessons == Some(0) && m.totalDurationMinutes == Some(0)
    ensures m.createdAt == now && m.updatedAt.None? && m.isActive == Some(true) && m.views == Some(0)
  {
    Module(id, req.title, req.description, req.duration, req.order, courseId, teacherId, Draft,
           req.coverImage, req.learningObjectives, req.prerequisites, Some(0), Some(0), Some(0),
           now, None, Some(true), Some(0))
  }

  /**
   * `createModule`. Refused, with nothing saved, for an unknown course, for a teacher who
   * does not own it, and for a position the course already uses; otherwise the module is
   * added and the course counts one more module. Positions stay distinct within a course,
   * and a counter that matched the number of the course's modules still does.
   */
  method CreateModule(courses: Table<Courses.Course>, modules: Table<Module>, courseId: string,
                      req: ModuleRequest, teacherId: string, newId: string, now: int)
    returns (r: ApiResponse<Module>)
    requires UniqueKeys(courses.rows, Courses.CourseId) && UniqueKeys(modules.rows, ModuleId)
    requires KeyIndex(modules.rows, ModuleId, newId).None?
    modifies courses, modules
    ensures UniqueKeys(courses.rows, Courses.CourseId) && UniqueKeys(modules.rows, ModuleId)
    ensures OrdersDistinct(old(modules.rows)) ==> OrdersDistinct(modules.rows)
    ensures KeyIndex(old(courses.rows), Courses.CourseId, courseId).None? ==>
      r == Failure("Course not found")
      && courses.rows == old(courses.rows) && modules.rows == old(modules.rows)
    ensures KeyIndex(old(courses.rows), Courses.CourseId, courseId).Some? ==>
      var c := KeyIndex(old(courses.rows), Courses.CourseId, courseId).value;
      var course := old(courses.rows)[c];
      && (course.teacherId != teacherId ==>
            r == Failure("You don't have permission to create modules for this course")
            && courses.rows == old(courses.rows) && modules.rows == old(modules.rows))
      && (course.teacherId == teacherId && OrderTaken(old(modules.rows), courseId, req.order) ==>
            r == Failure(OrderConflict(req.order))
            && courses.rows == old(courses.rows) && modules.rows == old(modules.rows))
      && (course.teacherId == teacherId && !OrderTaken(old(modules.rows), courseId, req.order) ==>
            var m := NewModule(newId, req, courseId, teacherId, now);
            && r == Success("Module created successfully", m)
            && modules.rows == old(modules.rows) + [m]
            && courses.rows == old(courses.rows)[c := WithModuleCount(course, course.modules + 1)]
            && CountInCourse(modules.rows, courseId) == CountInCourse(old(modules.rows), courseId) + 1)
  {
    var found := KeyIndex(courses.rows, Courses.CourseId, courseId);
    if found.None? {
      return Failure("Course not found");
    }
    var c := found.value;
    var course := courses.rows[c];
    if course.teacherId != teacherId {
      return Failure("You don't have permission to create modules for this course");
    }
    if OrderTaken(modules.rows, courseId, req.order) {
      return Failure(OrderConflict(req.order));
    }
    var m := NewModule(newId, req, courseId, teacherId, now);
    AddModule(courses, modules, c, m);
    r := Success("Module created successfully", m);
  }

  /** The course with its module counter set to `n`; its id and every other field are kept. */
  function WithModuleCount(course: Courses.Course, n: int): (r: Courses.Course)
    ensures r.id == course.id && r.modules == n
  {
    course.(modules := n)
  }

  /** Saves a new module at a free position of its course and counts it on the course at `c`. */
  method AddModule(courses: Table<Courses.Course>, modules: Table<Module>, c: nat, m: Module)
    requires UniqueKeys(courses.rows, Courses.CourseId) && UniqueKeys(modules.rows, ModuleId)
    requires c < |courses.rows| && KeyIndex(modules.rows, ModuleId, m.id).None?
    requires !OrderTaken(modules.rows, m.courseId, m.order)
    modifies courses, modules
    ensures UniqueKeys(courses.rows, Courses.CourseId) && UniqueKeys(modules.rows, ModuleId)
    ensures OrdersDistinct(old(modules.rows)) ==> OrdersDistinct(modules.rows)
    ensures modules.rows == old(modules.rows) + [m]
    ensures courses.rows == old(courses.rows)[c := WithModuleCount(old(courses.rows)[c], old(courses.rows)[c].modules + 1)]
    ensures CountInCourse(modules.rows, m.courseId) == CountInCourse(old(modules.rows), m.courseId) + 1
  {
    var counted := WithModuleCount(courses.rows[c], courses.rows[c].modules + 1);
    UpsertExisting(courses.rows, counted, Courses.CourseId, c);
    courses.Save(counted, Courses.CourseId);
    UpsertFresh(modules.rows, m, ModuleId);
    CountAppend(modules.rows, m, InCourse(m.courseId));
    AppendingKeepsOrdersDistinct(modules.rows, m);
    modules.Save(m, ModuleId);
  }

  /** Adding a module at a position its course does not use keeps positions distinct. */
  lemma AppendingKeepsOrdersDistinct(rows: seq<Module>, x: Module)
    requires !OrderTaken(rows, x.courseId, x.order)
    ensures OrdersDistinct(rows) ==> OrdersDistinct(rows + [x])
  {
    if OrdersDistinct(rows) {
      var after := rows + [x];
      forall a, b | 0 <= a < b < |after| && after[a].courseId == after[b].courseId
        ensures after[a].order != after[b].order
      {
        assert after[a] == rows[a];
        if b == |rows| {
          assert !(rows[a].courseId == x.courseId && rows[a].order == x.order);
        }
      }
    }
  }

  /**
   * The fields `updateModule` sets: each present field of the form replaces the stored
   * one, an absent one leaves it; the id, course, owner, counters and times are kept.
   */
  function ApplyModuleUpdate(m: Module, u: ModuleUpdate): (r: Module)
    ensures r.title == (if u.title.Some? then u.title.value else m.title)
    ensures r.description == (if u.description.Some? then u.description.value else m.description)
    ensures r.duration == (if u.duration.Some? then u.duration else m.duration)
    ensures r.order == (if u.order.Some? then u.order.value else m.order)
    ensures r.coverImage == (if u.coverImage.Some? then u.coverImage else m.coverImage)
    ensures r.learningObjectives == (if u.learningObjectives.Some? then u.learningObjectives else m.learningObjectives)
    ensures r.prerequisites == (if u.prerequisites.Some? then u.prerequisites else m.prerequisites)
    ensures r.status == (if u.status.Some? then u.status.value else m.status)
    ensures r.(title := m.title, description := m.description, duration := m.duration, order := m.order,
               coverImage := m.coverImage, learningObjectives := m.learningObjectives,
               prerequisites := m.prerequisites, status := m.status) == m
  {
    m.(title := u.title.OrElse(m.title),
       description := u.description.OrElse(m.description),
       duration := if u.duration.Some? then u.duration else m.duration,
       order := u.order.OrElse(m.order),
       coverImage := if u.coverImage.Some? then u.coverImage else m.coverImage,
       learningObjectives := if u.learningObjectives.Some? then u.learningObjectives else m.learningObjectives,
       prerequisites := if u.prerequisites.Some? then u.prerequisites else m.prerequisites,
       status := u.status.OrElse(m.status))
  }

  /** Submitting the same update twice stores what submitting it once does. */
  lemma ApplyModuleUpdateIdempotent(m: Module, u: ModuleUpdate)
    ensures ApplyModuleUpdate(ApplyModuleUpdate(m, u), u) == ApplyModuleUpdate(m, u)
  {
  }

  /** An update with every field left out changes nothing. */
  lemma EmptyModuleUpdateKeeps(m: Module)
    ensures ApplyModuleUpdate(m, ModuleUpdate(None, None, None, None, None, None, None, None)) == m
  {
  }

  /**
   * Whether an update's position clashes: only a position different from the module's own
   * is looked up among the course's modules.
   */
  predicate OrderClash(modules: seq<Module>, m: Module, u: ModuleUpdate) {
    u.order.Some? && u.order.value != m.order && OrderTaken(modules, m.courseId, u.order.value)
  }

  /**
   * `updateModule`: owner-only; a clashing position is refused with nothing saved; otherwise
   * the present fields are applied and the update time is set. Positions stay distinct.
   */
  method UpdateModule(modules: Table<Module>, moduleId: string, u: ModuleUpdate, teacherId: string, now: int)
    returns (r: ApiResponse<Module>)
    requires UniqueKeys(modules.rows, ModuleId)
    modifies modules
    ensures UniqueKeys(modules.rows, ModuleId)
    ensures OrdersDistinct(old(modules.rows)) ==> OrdersDistinct(modules.rows)
    ensures KeyIndex(old(modules.rows), ModuleId, moduleId).None? ==>
      r == Failure("Module not found") && modules.rows == old(modules.rows)
    ensures KeyIndex(old(modules.rows), ModuleId, moduleId).Some? ==>
      var i := KeyIndex(old(modules.rows), ModuleId, moduleId).value;
      var m := old(modules.rows)[i];
      && (m.teacherId != teacherId ==>
            r == Failure("You don't have permission to update this module") && modules.rows == old(modules.rows))
      && (m.teacherId == teacherId && OrderClash(old(modules.rows), m, u) ==>
            r == Failure(OrderConflict(u.order.value)) && modules.rows == old(modules.rows))
      && (m.teacherId == teacherId && !OrderClash(old(modules.rows), m, u) ==>
            var updated := ApplyModuleUpdate(m, u).(updatedAt := Some(now));
            r == Success("Module updated successfully", updated) && modules.rows == old(modules.rows)[i := updated])
  {
    var found := KeyIndex(modules.rows, ModuleId, moduleId);
    if found.None? {
      return Failure("Module not found");
    }
    var i := found.value;
    var m := modules.rows[i];
    if m.teacherId != teacherId {
      return Failure("You don't have permission to update this module");
    }
    if u.order.Some? && u.order.value != m.order {
      if OrderTaken(modules.rows, m.courseId, u.order.value) {
        return Failure(OrderConflict(u.order.value));
      }
    }
    var updated := ApplyModuleUpdate(m, u).(updatedAt := Some(now));
    ghost var before := modules.rows;
    UpsertExisting(modules.rows, updated, ModuleId, i);
    modules.Save(updated, ModuleId);
    ReplacingKeepsOrdersDistinct(before, i, updated);
    r := Success("Module updated successfully", updated);
  }

  /**
   * Replacing a module by one of the same course whose position is its old one or unused in
   * the course keeps positions distinct.
   */
  lemma ReplacingKeepsOrdersDistinct(rows: seq<Module>, i: nat, x: Module)
    requires i < |rows| && x.courseId == rows[i].courseId
    requires x.order == rows[i].order || !OrderTaken(rows, x.courseId, x.order)
    ensures OrdersDistinct(rows) ==> OrdersDistinct(rows[i := x])
  {
    if OrdersDistinct(rows) {
      var after := rows[i := x];
      forall a, b | 0 <= a < b < |after| && after[a].courseId == after[b].courseId
        ensures after[a].order != after[b].order
      {
        if a == i {
          assert after[b] == rows[b];
          if x.order != rows[i].order {
            assert !(rows[b].courseId == x.courseId && rows[b].order == x.order);
          }
        } else if b == i {
          assert after[a] == rows[a];
          if x.order != rows[i].order {
            assert !(rows[a].courseId == x.courseId && rows[a].order == x.order);
          }
        }
      }
    }
  }

  /**
   * `updateModuleStatus`: owner-only; the status and the update time change and nothing
   * else.
   */
  method UpdateModuleStatus(modules: Table<Module>, moduleId: string, status: ModuleStatus, teacherId: string, now: int)
    returns (r: ApiResponse<Module>)
    requires UniqueKeys(modules.rows, ModuleId)
    modifies modules
    ensures UniqueKeys(modules.rows, ModuleId)
    ensures KeyIndex(old(modules.rows), ModuleId, moduleId).None? ==>
      r == Failure("Module not found") && modules.rows == old(modules.rows)
    ensures KeyIndex(old(modules.rows), ModuleId, moduleId).Some? ==>
      var i := KeyIndex(old(modules.rows), ModuleId, moduleId).value;
      var m := old(modules.rows)[i];
      && (m.teacherId != teacherId ==>
            r == Failure("You don't have permission to update this module") && modules.rows == old(modules.rows))
      && (m.teacherId == teacherId ==>
            var updated := m.(status := status, updatedAt := Some(now));
            r == Success("Module status updated successfully", updated) && modules.rows == old(modules.rows)[i := updated])
  {
    var found := KeyIndex(modules.rows, ModuleId, moduleId);
    if found.None? {
      return Failure("Module not found");
    }
    var i := found.value;
    var m := modules.rows[i];
    if m.teacherId != teacherId {
      return Failure("You don't have permission to update this module");
    }
    var updated := m.(status := status, updatedAt := Some(now));
    UpsertExisting(modules.rows, updated, ModuleId, i);
    modules.Save(updated, ModuleId);
    r := Success("Module status updated successfully", updated);
  }

  /** `Math.max(0, n - 1)`: one module fewer, never below zero. */
  function OneFewer(n: int): (r: int)
    ensures r >= 0
    ensures n >= 1 ==> r == n - 1
    ensures n < 1 ==> r == 0
  {
    if n - 1 > 0 then n - 1 else 0
  }

  /**
   * `deleteModule`: owner-only, and refused while the module holds lessons. A missing lesson
   * counter makes the comparison throw, which is reported as a failure. Otherwise the
   * course (when it exists) counts one module fewer, never fewer than none, and the module
   * is removed.
   */
  method DeleteModule(courses: Table<Courses.Course>, modules: Table<Module>, moduleId: string, teacherId: string)
    returns (r: ApiResponse<()>)
    requires UniqueKeys(courses.rows, Courses.CourseId) && UniqueKeys(modules.rows, ModuleId)
    modifies courses, modules
    ensures UniqueKeys(courses.rows, Courses.CourseId) && UniqueKeys(modules.rows, ModuleId)
    ensures KeyIndex(old(modules.rows), ModuleId, moduleId).None? ==>
      r == Failure("Module not found") && courses.rows == old(courses.rows) && modules.rows == old(modules.rows)
    ensures KeyIndex(old(modules.rows), ModuleId, moduleId).Some? ==>
      var m := old(modules.rows)[KeyIndex(old(modules.rows), ModuleId, moduleId).value];
      && (m.teacherId != teacherId ==>
            r == Failure("You don't have permission to delete this module")
            && courses.rows == old(courses.rows) && modules.rows == old(modules.rows))
      && (m.teacherId == teacherId && m.totalLessons.None? ==>
            !r.success && r.message == "Failed to delete module" && r.data.None?
            && courses.rows == old(courses.rows) && modules.rows == old(modules.rows))
      && (m.teacherId == teacherId && m.HasLessons() ==>
            r == Failure("Cannot delete module that contains lessons. Please delete all lessons first.")
            && courses.rows == old(courses.rows) && modules.rows == old(modules.rows))
      && (m.teacherId == teacherId && m.totalLessons.Some? && !m.HasLessons() ==>
            && r == SuccessMessage("Module deleted successfully")
            && modules.rows == RemoveKey(old(modules.rows), ModuleId, moduleId)
            && (KeyIndex(old(courses.rows), Courses.CourseId, m.courseId).None? ==> courses.rows == old(courses.rows))
            && (KeyIndex(old(courses.rows), Courses.CourseId, m.courseId).Some? ==>
                  var c := KeyIndex(old(courses.rows), Courses.CourseId, m.courseId).value;
                  courses.rows == old(courses.rows)[c := WithModuleCount(old(courses.rows)[c], OneFewer(old(courses.rows)[c].modules))]))
  {
    var found := KeyIndex(modules.rows, ModuleId, moduleId);
    if found.None? {
      return Failure("Module not found");
    }
    var m := modules.rows[found.value];
    if m.teacherId != teacherId {
      return Failure("You don't have permission to delete this module");
    }
    if m.totalLessons.None? {
      return FailureWith("Failed to delete module", None);
    }
    if m.totalLessons.value > 0 {
      return Failure("Cannot delete module that contains lessons. Please delete all lessons first.");
    }
    var courseAt := KeyIndex(courses.rows, Courses.CourseId, m.courseId);
    if courseAt.Some? {
      var c := courseAt.value;
      var course := WithModuleCount(courses.rows[c], OneFewer(courses.rows[c].modules));
      UpsertExisting(courses.rows, course, Courses.CourseId, c);
      courses.Save(course, Courses.CourseId);
    }
    modules.Delete(moduleId, ModuleId);
    r := SuccessMessage("Module deleted successfully");
  }

  /**
   * A course counter that matches the number of the course's modules is at least one while
   * the module being deleted exists, so the clamp at zero never applies, and after the
   * deletion it matches again.
   */
  lemma DeleteKeepsCounterInSync(rows: seq<Module>, i: nat, counter: int)
    requires UniqueKeys(rows, ModuleId) && i < |rows|
    requires counter == CountInCourse(rows, rows[i].courseId)
    ensures counter >= 1
    ensures OneFewer(counter) == CountInCourse(RemoveKey(rows, ModuleId, rows[i].id), rows[i].courseId)
  {
    CountRemoveKey(rows, ModuleId, rows[i].id, i, InCourse(rows[i].courseId));
  }

  /**
   * `updateModuleLessonCount`: the lesson counter becomes `count` and the update time is
   * set; an unknown module is left alone.
   */
  method UpdateModuleLessonCount(modules: Table<Module>, moduleId: string, count: int, now: int)
    requires UniqueKeys(modules.rows, ModuleId)
    modifies modules
    ensures UniqueKeys(modules.rows, ModuleId)
    ensures KeyIndex(old(modules.rows), ModuleId, moduleId).None? ==> modules.rows == old(modules.rows)
    ensures KeyIndex(old(modules.rows), ModuleId, moduleId).Some? ==>
      var i := KeyIndex(old(modules.rows), ModuleId, moduleId).value;
      modules.rows == old(modules.rows)[i := old(modules.rows)[i].(totalLessons := Some(count), updatedAt := Some(now))]
  {
    var found := KeyIndex(modules.rows, ModuleId, moduleId);
    if found.None? {
      return;
    }
    var i := found.value;
    var updated := modules.rows[i].(totalLessons := Some(count), updatedAt := Some(now));
    UpsertExisting(modules.rows, updated, ModuleId, i);
    modules.Save(updated, ModuleId);
  }

  /** The largest position among the course's modules, if it has any. */
  function TopOrder(modules: seq<Module>, courseId: string): (r: Option<int>)
    ensures r.None? <==> CountInCourse(modules, courseId) == 0
    ensures r.Some? ==> OrderTaken(modules, courseId, r.value)
    ensures r.Some? ==> forall k :: 0 <= k < |modules| && modules[k].courseId == courseId ==> modules[k].order <= r.value
  {
    if modules == [] then None
    else
      var rest := TopOrder(modules[1..], courseId);
      var m := modules[0];
      assert forall k :: 1 <= k < |modules| ==> modules[k] == modules[1..][k - 1];
      assert OrderTaken(modules[1..], courseId, rest.OrElse(0)) ==> OrderTaken(modules, courseId, rest.OrElse(0)) by {
        if OrderTaken(modules[1..], courseId, rest.OrElse(0)) {
          var k :| 0 <= k < |modules[1..]| && modules[1..][k].courseId == courseId && modules[1..][k].order == rest.OrElse(0);
          assert modules[k + 1] == modules[1..][k];
        }
      }
      if m.courseId != courseId then rest
      else if rest.Some? && rest.value > m.order then rest
      else Some(m.order)
  }

  /**
   * `getNextOrderForCourse`: one past the largest position in the course, or 1 for a course
   * without modules. The position it proposes is always free.
   */
  function NextOrderForCourse(modules: seq<Module>, courseId: string): (r: int)
    ensures CountInCourse(modules, courseId) == 0 ==> r == 1
    ensures CountInCourse(modules, courseId) > 0 ==> OrderTaken(modules, courseId, r - 1)
    ensures forall k :: 0 <= k < |modules| && modules[k].courseId == courseId ==> modules[k].order < r
    ensures !OrderTaken(modules, courseId, r)
  {
    match TopOrder(modules, courseId)
    case None => 1
    case Some(top) => top + 1
  }

  /** The ids a reorder request lists, in its order. */
  function ItemIds(items: seq<OrderItem>): (ids: seq<string>)
    ensures |ids| == |items| && forall k :: 0 <= k < |items| ==> ids[k] == items[k].moduleId
  {
    seq(|items|, k requires 0 <= k < |items| => items[k].moduleId)
  }

  /** The modules `findAllById` returns. */
  function IdIn(ids: seq<string>): Module -> bool {
    (m: Module) => m.id in ids
  }

  /** `findAllById(ids)`: the stored modules whose id is listed, in table order. */
  function Listed(rows: seq<Module>, items: seq<OrderItem>): seq<Module> {
    Filter(rows, IdIn(ItemIds(items)))
  }

  /** Every listed module is in `courseId` and owned by `teacherId`. */
  predicate AllBelong(listed: seq<Module>, courseId: string, teacherId: string) {
    forall k :: 0 <= k < |listed| ==> listed[k].courseId == courseId && listed[k].teacherId == teacherId
  }

  /**
   * A module after the order items are applied in turn: every item naming it sets its
   * position and its update time, so the last such item decides. Nothing else changes.
   */
  function ApplyOrders(m: Module, items: seq<OrderItem>, now: int): (r: Module)
    ensures r.(order := m.order, updatedAt := m.updatedAt) == m
    decreases |items|
  {
    if items == [] then m
    else
      var before := ApplyOrders(m, items[..|items| - 1], now);
      var last := items[|items| - 1];
      if last.moduleId == m.id then before.(order := last.order, updatedAt := Some(now)) else before
  }

  /** A module no item names keeps its position. */
  lemma {:induction false} ApplyOrdersUnnamed(m: Module, items: seq<OrderItem>, now: int)
    requires forall k :: 0 <= k < |items| ==> items[k].moduleId != m.id
    ensures ApplyOrders(m, items, now) == m
    decreases |items|
  {
    if items != [] {
      ApplyOrdersUnnamed(m, items[..|items| - 1], now);
    }
  }

  /** A module takes the position of the last item that names it, and the new update time. */
  lemma {:induction false} ApplyOrdersLast(m: Module, items: seq<OrderItem>, now: int, j: nat)
    requires j < |items| && items[j].moduleId == m.id
    requires forall k :: j < k < |items| ==> items[k].moduleId != m.id
    ensures ApplyOrders(m, items, now).order == items[j].order
    ensures ApplyOrders(m, items, now).updatedAt == Some(now)
    decreases |items|
  {
    if j < |items| - 1 {
      ApplyOrdersLast(m, items[..|items| - 1], now, j);
    }
  }

  /** The table after the reorder: each module with the items applied. */
  function Reordered(rows: seq<Module>, items: seq<OrderItem>, now: int): (r: seq<Module>)
    ensures |r| == |rows| && forall k :: 0 <= k < |rows| ==> r[k] == ApplyOrders(rows[k], items, now)
  {
    seq(|rows|, k requires 0 <= k < |rows| => ApplyOrders(rows[k], items, now))
  }

  /** Ascending by position. */
  function OrderLe(a: Module, b: Module): bool {
    a.order <= b.order
  }

  /**
   * When a request names each module once, every listed module ends up at the position the
   * request gives it, and every module the request does not name is unchanged.
   */
  lemma ReorderGivesRequestedOrders(rows: seq<Module>, items: seq<OrderItem>, now: int)
    requires forall a, b :: 0 <= a < b < |items| ==> items[a].moduleId != items[b].moduleId
    ensures forall k, j :: 0 <= k < |rows| && 0 <= j < |items| && rows[k].id == items[j].moduleId ==>
      Reordered(rows, items, now)[k].order == items[j].order
    ensures forall k :: 0 <= k < |rows| && rows[k].id !in ItemIds(items) ==> Reordered(rows, items, now)[k] == rows[k]
  {
    forall k, j | 0 <= k < |rows| && 0 <= j < |items| && rows[k].id == items[j].moduleId
      ensures Reordered(rows, items, now)[k].order == items[j].order
    {
      ApplyOrdersLast(rows[k], items, now, j);
    }
    forall k | 0 <= k < |rows| && rows[k].id !in ItemIds(items)
      ensures Reordered(rows, items, now)[k] == rows[k]
    {
      ApplyOrdersUnnamed(rows[k], items, now);
    }
  }

  /**
   * `reorderModules`. Refused for an unknown course, for a teacher who does not own it,
   * when fewer modules are found than the request lists (an unknown or a repeated id), and
   * when a found module belongs to another course or teacher; nothing changes then.
   * Otherwise every listed module takes the positions its items give and the new update
   * time, and the reply holds the updated modules sorted by position.
   */
  method ReorderModules(courses: Table<Courses.Course>, modules: Table<Module>, courseId: string,
                        items: seq<OrderItem>, teacherId: string, now: int)
    returns (r: ApiResponse<seq<Module>>)
    requires UniqueKeys(modules.rows, ModuleId)
    modifies modules
    ensures UniqueKeys(modules.rows, ModuleId)
    ensures Lookup(courses.rows, Courses.CourseId, courseId).None? ==>
      r == Failure("Course not found") && modules.rows == old(modules.rows)
    ensures Lookup(courses.rows, Courses.CourseId, courseId).Some? ==>
      var course := Lookup(courses.rows, Courses.CourseId, courseId).value;
      var listed := Listed(old(modules.rows), items);
      && (course.teacherId != teacherId ==>
            r == Failure("You don't have permission to reorder modules for this course")
            && modules.rows == old(modules.rows))
      && (course.teacherId == teacherId && |listed| != |items| ==>
            r == Failure("Some modules not found") && modules.rows == old(modules.rows))
      && (course.teacherId == teacherId && |listed| == |items| && !AllBelong(listed, courseId, teacherId) ==>
            r == Failure("All modules must belong to the specified course") && modules.rows == old(modules.rows))
      && (course.teacherId == teacherId && |listed| == |items| && AllBelong(listed, courseId, teacherId) ==>
            && modules.rows == Reordered(old(modules.rows), items, now)
            && r.success && r.message == "Modules reordered successfully" && r.data.Some?
            && Sorting.Sorted(r.data.value, OrderLe)
            && multiset(r.data.value) == multiset(Reordered(listed, items, now)))
  {
    var course := Lookup(courses.rows, Courses.CourseId, courseId);
    if course.None? {
      return Failure("Course not found");
    }
    if course.value.teacherId != teacherId {
      return Failure("You don't have permission to reorder modules for this course");
    }
    var listed := Filter(modules.rows, IdIn(ItemIds(items)));
    if |listed| != |items| {
      return Failure("Some modules not found");
    }
    if !AllBelong(listed, courseId, teacherId) {
      return Failure("All modules must belong to the specified course");
    }
    FilterPreservesUnique(modules.rows, ModuleId, IdIn(ItemIds(items)));
    var updated := ApplyOrderItems(listed, items, now);
    ReorderedListed(modules.rows, items, now);
    modules.SaveAll(updated, ModuleId);
    assert Sorting.Total(OrderLe);
    r := Success("Modules reordered successfully", Sorting.Sort(updated, OrderLe));
  }

  /**
   * The loop over the order items: each item sets the position and update time of the first
   * found module with its id; an item whose module is not among them is passed over.
   */
  method ApplyOrderItems(found0: seq<Module>, items: seq<OrderItem>, now: int) returns (found: seq<Module>)
    requires UniqueKeys(found0, ModuleId)
    ensures found == Reordered(found0, items, now)
  {
    found := found0;
    var n := 0;
    while n < |items|
      invariant 0 <= n <= |items|
      invariant |found| == |found0|
      invariant forall k :: 0 <= k < |found| ==> found[k] == ApplyOrders(found0[k], items[..n], now)
    {
      var item := items[n];
      var at := IndexWhere(found, (m: Module) => m.id == item.moduleId);
      assert items[..n + 1][..n] == items[..n] && items[..n + 1][n] == item;
      if at.Some? {
        var p := at.value;
        forall k | 0 <= k < |found| && k != p
          ensures found0[k].id != item.moduleId
        {
          assert found0[p].id == found[p].id && found0[k].id == found[k].id;
        }
        found := found[p := found[p].(order := item.order, updatedAt := Some(now))];
      } else {
        forall k | 0 <= k < |found|
          ensures found0[k].id != item.moduleId
        {
          assert found0[k].id == found[k].id;
        }
      }
      n := n + 1;
    }
    assert items[..|items|] == items;
  }

  /**
   * Saving the reordered found modules over the table gives every stored module with the
   * items applied: a found module is its own stored version, and a module not found is named
   * by no item.
   */
  lemma ReorderedListed(rows: seq<Module>, items: seq<OrderItem>, now: int)
    requires UniqueKeys(rows, ModuleId)
    ensures var updated := Reordered(Listed(rows, items), items, now);
      && UniqueKeys(updated, ModuleId)
      && (forall p :: 0 <= p < |updated| ==> KeyIndex(rows, ModuleId, ModuleId(updated[p])).Some?)
      && (forall k :: 0 <= k < |rows| ==>
            Lookup(updated, ModuleId, ModuleId(rows[k])).OrElse(rows[k]) == Reordered(rows, items, now)[k])
  {
    var listed := Listed(rows, items);
    var updated := Reordered(listed, items, now);
    FilterPreservesUnique(rows, ModuleId, IdIn(ItemIds(items)));
    assert forall p :: 0 <= p < |updated| ==> updated[p].id == listed[p].id;
    forall p | 0 <= p < |updated|
      ensures KeyIndex(rows, ModuleId, ModuleId(updated[p])).Some?
    {
      assert listed[p] in rows;
    }
    forall k | 0 <= k < |rows|
      ensures Lookup(updated, ModuleId, ModuleId(rows[k])).OrElse(rows[k]) == Reordered(rows, items, now)[k]
    {
      ReorderedRow(rows, items, now, k);
    }
  }

  /** The reordered found modules give one stored module its reordered version. */
  lemma ReorderedRow(rows: seq<Module>, items: seq<OrderItem>, now: int, k: nat)
    requires UniqueKeys(rows, ModuleId) && k < |rows|
    requires UniqueKeys(Reordered(Listed(rows, items), items, now), ModuleId)
    ensures Lookup(Reordered(Listed(rows, items), items, now), ModuleId, ModuleId(rows[k])).OrElse(rows[k])
      == Reordered(rows, items, now)[k]
  {
    var listed := Listed(rows, items);
    var updated := Reordered(listed, items, now);
    assert forall p :: 0 <= p < |updated| ==> updated[p].id == listed[p].id;
    if IdIn(ItemIds(items))(rows[k]) {
      assert rows[k] in listed;
      var p :| 0 <= p < |listed| && listed[p] == rows[k];
      LookupUnique(updated, ModuleId, p);
    } else {
      ApplyOrdersUnnamed(rows[k], items, now);
      forall p | 0 <= p < |updated|
        ensures ModuleId(updated[p]) != ModuleId(rows[k])
      {
        assert listed[p].id in ItemIds(items);
      }
    }
  }
}
