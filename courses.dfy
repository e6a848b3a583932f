/**
 * The course document (`courses` collection). The Course entity class is not part of this
 * model; its fields are the ones the services read and write. Text fields that the search
 * dereferences are plain strings.
 */
module Courses {
  import opened Nullable

  datatype Course = Course(
    id: string,
    title: string,
    category: string,
    level: string,
    description: string,
    instructor: Option<string>,
    instructorTitle: Option<string>,
    image: Option<string>,
    price: Option<real>,
    estimatedDuration: Option<string>,
    prerequisites: Option<seq<string>>,
    learningObjectives: Option<seq<string>>,
    teacherId: string,
    status: string,
    students: int,
    modules: int,
    createdAt: int)

  function CourseId(c: Course): string {
    c.id
  }
}
