# SPM Language Learning: a verified model of the back end's rules

The language-learning platform keeps students, teachers, supervisors, courses, modules,
lessons and enrolments in MongoDB behind Spring services, and its web client shows its
interface texts in English or Sinhala. This project models in Dafny the rules those
services apply and proves what they promise:

- **Enrolment progress and grading** (`Enrollments`, `EnrollmentInitialization`).
  `Enrollment` is a class whose `UpdateProgress` changes progress, status, completion
  date and grade in place. Progress is an integer percentage. Grades come from a
  first-match table of thresholds, and the grade is monotone in the score. The generator
  of sample enrolments builds the lesson-progress list in a loop and aggregates the quiz
  statistics. Every random draw is an input.
- **Request identity and account lookup** (`Security`, `Tokens`). The bearer-token
  filter writes into a `SecurityContext` object. The token decoder is a parameter. The
  user type maps to one role by an exact-case switch. Accounts are looked up among
  teachers first, then students. The URL rules apply first-match-wins.
- **Account life cycles** (`AuthService`, `TeacherService`, `SupervisorService`,
  `StudentService`). These cover the order of the registration checks and the
  status-gated sign-in messages. A teacher moves from approved to active on sign-in.
  Administrators approve and reject teachers. A reset token is issued with a one-hour
  expiry, checked with a strict comparison and cleared on use. Profile merges skip the
  missing fields.
- **The content catalogue** (`CourseService`, `ModuleService`, `LessonService`,
  `YouTube`). Each operation checks ownership and refuses duplicates in a fixed order.
  Reordering assigns position i+1. A course's module counter and a module's lesson
  counter are kept current. A module with lessons cannot be deleted. The published-course
  search is a filter. The thumbnail address is extracted from a YouTube link.
- **Teacher reports** (`TeacherReports`). The list of a teacher's students is grouped
  by student and sorted by name. The integer statistics of one student cover course
  counts and the longest streak.
- **The interface texts** (`Translations`). The English and Sinhala tables and the
  lookup `t`, which falls back to English and then to the key.

The supporting modules are:

- `Tables`: each Spring Data repository is an in-memory table, a `Table<T>` object
  whose `rows` sequence the services change. Finders return the first match.
- `Nullable`: Java references that may be null, as an `Option`.
- `Responses`: the `ApiResponse` envelope.
- `Passwords`: BCrypt as an injective stand-in.
- `Text`: the `String` operations the services use.
- `Sorting`: an insertion sort standing for `List.sort`.

The entities are datatypes: `Courses`, `Modules`, `Lessons`, `Users`, `Teachers`,
`Supervisors`.

Every service operation that changes a collection requires and preserves unique
document ids. Its `ensures` gives:

- the reply,
- the new contents of every table it may change,
- for each refusal, that nothing changed.

The server clock, new document ids, UUID reset tokens, random draws, hashing salts and
the outcome of sending an email are parameters.

Some behaviours of the code are modelled as they are, although they may surprise:

- `registerSupervisor` stores the account as approved and active while its reply asks
  the user to wait for approval.
- `reorderLessons` does not check that the listed lessons belong to the module.
- `approveTeacher` moves an active teacher back to approved.
- `getCourseWithModules` returns the course without its modules.
- The account lookup finds a teacher before a student with the same email.
- The "name" in `getTeacherStudents` is the student's username, which is the email.

## Model

| member | source | states |
|---|---|---|
| Responses.Success | backend/src/main/java/com/qualityeducation/dto/ApiResponse.java:20-22 | `success(message, data)` is a well-formed success: flag set, no error text, the message and the payload carried |
| Responses.SuccessMessage | backend/src/main/java/com/qualityeducation/dto/ApiResponse.java:24-26 | `success(message)` is a well-formed success with no payload and no error text |
| Responses.Failure | backend/src/main/java/com/qualityeducation/dto/ApiResponse.java:28-30 | `error(message)` is a well-formed failure with no payload whose error text is the message itself |
| Responses.FailureWith | backend/src/main/java/com/qualityeducation/dto/ApiResponse.java:32-34 | `error(message, error)` is a well-formed failure with no payload carrying exactly the given error text, which may be null |
| Passwords.Encode | backend/src/main/java/com/qualityeducation/service/AuthService.java:48 | the stored hash matches the raw password it was made from and no other password |
| Tokens.StudentClaims | backend/src/main/java/com/qualityeducation/service/JwtService.java:108-116 | a student token names the student's sign-in name (the email) as subject and "student" as user type |
| Tokens.SupervisorClaims | backend/src/main/java/com/qualityeducation/service/JwtService.java:120-127 | a supervisor token names the email as subject and "supervisor" as user type |
| Tokens.TeacherClaims | backend/src/main/java/com/qualityeducation/service/JwtService.java:131-138 | a teacher token names the teacher's sign-in name (the email) as subject and "teacher" as user type |
| Tokens.UserType | backend/src/main/java/com/qualityeducation/service/JwtService.java:215-223 | the user type is the token's claim when the token reads and carries one, and "student" otherwise |
| Users.User.Authorities | backend/src/main/java/com/qualityeducation/model/User.java:79-81 | a student holds exactly one authority, "ROLE_" followed by its role |
| Users.User.Username | backend/src/main/java/com/qualityeducation/model/User.java:84-86 | Spring Security knows a student by the email |
| Users.User.IsEnabled | backend/src/main/java/com/qualityeducation/model/User.java:89-91 | a student may sign in exactly when the enabled flag is set and the status is neither inactive nor suspended |
| Users.User.FullName | backend/src/main/java/com/qualityeducation/model/User.java:93-98 | with both names set the full name is the first name, one space, the last name; otherwise it is the username |
| Users.FindByEmail | backend/src/main/java/com/qualityeducation/repository/UserRepository.java:8 | a found student has that email, and nothing is found exactly when no student has it |
| Users.FindByResetToken | backend/src/main/java/com/qualityeducation/repository/UserRepository.java:12 | a found student holds that reset token, and nothing is found exactly when no student holds it |
| Teachers.Teacher.Authorities | backend/src/main/java/com/qualityeducation/model/Teacher.java:91-93 | a teacher holds exactly the one authority ROLE_TEACHER, whatever its status |
| Teachers.Teacher.Username | backend/src/main/java/com/qualityeducation/model/Teacher.java:96-98 | Spring Security knows a teacher by the email |
| Teachers.Teacher.IsEnabled | backend/src/main/java/com/qualityeducation/model/Teacher.java:101-103 | a teacher may sign in exactly when the enabled flag is set and the application is neither pending, rejected nor suspended |
| Teachers.Teacher.FullName | backend/src/main/java/com/qualityeducation/model/Teacher.java:105-107 | the full name is the first name, one space and the last name, a missing name rendered as "null" |
| Teachers.FindByEmail | backend/src/main/java/com/qualityeducation/repository/TeacherRepository.java:14 | a found teacher has that email, and nothing is found exactly when no teacher has it |
| Teachers.NewTeacher | backend/src/main/java/com/qualityeducation/service/TeacherService.java:51-67 | a registered teacher is PENDING with its `enabled` flag set and zero counters, and is therefore not yet enabled as an account |
| Supervisors.FindByEmail | backend/src/main/java/com/qualityeducation/repository/SupervisorRepository.java:12 | a found supervisor has that email, and nothing is found exactly when no supervisor has it |
| Modules.Module.IncrementViews | backend/src/main/java/com/qualityeducation/model/Module.java:93-95 | a missing view count becomes 1, a count n becomes n+1, and no other field changes |
| Modules.Module.FormattedDuration | backend/src/main/java/com/qualityeducation/model/Module.java:108-111 | the duration when there is one, "Unknown" otherwise |
| Modules.Module.HasLessons | backend/src/main/java/com/qualityeducation/model/Module.java:113-115 | a module has lessons exactly when its lesson counter, a missing one counted as 0, is positive |
| Modules.IncrementViewsCounts | backend/src/main/java/com/qualityeducation/model/Module.java:93-95 | n calls of `incrementViews` add exactly n views, a missing count counting as none |
| Modules.CountInCourse | backend/src/main/java/com/qualityeducation/repository/ModuleRepository.java:33 | the count is at most the number of modules, and zero exactly when no module belongs to the course |
| Lessons.Lesson.IncrementViews | backend/src/main/java/com/qualityeducation/model/Lesson.java:103-105 | a missing view count becomes 1, a count n becomes n+1, and no other field changes |
| Lessons.Lesson.FormattedDuration | backend/src/main/java/com/qualityeducation/model/Lesson.java:118-121 | the duration when there is one, "Unknown" otherwise |
| Lessons.Lesson.TotalQuizzes | backend/src/main/java/com/qualityeducation/model/Lesson.java:123-125 | the number of quizzes in the list, and 0 when the list is missing |
| Lessons.CountInModule | backend/src/main/java/com/qualityeducation/repository/LessonRepository.java:46 | the count is at most the number of lessons, and zero exactly when no lesson belongs to the module |
| Tables.IndexWhere | backend/src/main/java/com/qualityeducation/repository/UserRepository.java:8-12 | a single-result finder returns the first matching document: it matches, none before it does, and nothing is found only when no document matches |
| Tables.Filter | backend/src/main/java/com/qualityeducation/repository/ModuleRepository.java:15 | a list query returns only matching stored documents and every matching one |
| Tables.Count | backend/src/main/java/com/qualityeducation/repository/ModuleRepository.java:33 | a count query is at most the size of the collection and zero exactly when nothing matches |
| Tables.KeyIndex | backend/src/main/java/com/qualityeducation/repository/UserRepository.java:7 | the position of the document with that id; none exactly when no document has it |
| Tables.Lookup | backend/src/main/java/com/qualityeducation/repository/UserRepository.java:7 | `findById` returns a stored document with that id, and nothing exactly when no document has it |
| Tables.Upsert | backend/src/main/java/com/qualityeducation/repository/UserRepository.java:7 | `save` grows the collection by one exactly when the id is new, leaves documents with other ids in place, keeps ids unique, and afterwards `findById` returns the saved document |
| Tables.UpsertExisting | backend/src/main/java/com/qualityeducation/repository/UserRepository.java:7 | saving a document whose id is stored replaces it in place and keeps ids unique |
| Tables.UpsertFresh | backend/src/main/java/com/qualityeducation/repository/UserRepository.java:7 | saving a document with a new id appends it and keeps ids unique |
| Tables.RemoveKey | backend/src/main/java/com/qualityeducation/service/LessonService.java:332 | `deleteById` removes every document with that id and keeps every other one in order |
| Tables.CountRemoveKey | backend/src/main/java/com/qualityeducation/service/LessonService.java:327-335 | deleting the one document with an id lowers a count by one exactly when it matched |
| Tables.CountDisjoint | backend/src/main/java/com/qualityeducation/service/LessonService.java:369-422 | documents matching one of two exclusive conditions number at most the whole collection |
| Tables.FilterCount | backend/src/main/java/com/qualityeducation/repository/LessonRepository.java:46 | a list query returns as many documents as the matching count query counts |
| Tables.FilterPreservesUnique | backend/src/main/java/com/qualityeducation/repository/ModuleRepository.java:15 | a list query of a collection with unique ids has unique ids |
| Tables.FilterIsSubsequence | backend/src/main/java/com/qualityeducation/service/CourseService.java:110-134 | a filtered list keeps the documents in collection order |
| Tables.LookupUnique | backend/src/main/java/com/qualityeducation/repository/UserRepository.java:7 | with unique ids, `findById` finds the document at its own position |
| Tables.Table.constructor | backend/src/main/java/com/qualityeducation/repository/UserRepository.java:7 | a new collection is empty |
| Tables.Table.Save | backend/src/main/java/com/qualityeducation/repository/UserRepository.java:7 | the stored documents become the `save` of the old ones |
| Tables.Table.Delete | backend/src/main/java/com/qualityeducation/service/ModuleService.java:238 | the stored documents become the old ones without that id |
| Tables.Table.SaveAll | backend/src/main/java/com/qualityeducation/service/ModuleService.java:299 | saving a batch of stored documents with distinct ids replaces each in place, keeps every other document, keeps the size and keeps ids unique |
| Tables.Table.Retain | backend/src/main/java/com/qualityeducation/service/CourseService.java:162 | a `deleteBy…` keeps exactly the documents the condition spares, in order |
| Text.Trim | backend/src/main/java/com/qualityeducation/service/LessonService.java:120-123 | `String.trim`: the result is the input with its leading and trailing characters up to U+0020 cut away, and it neither starts nor ends with one |
| Text.BlankIffAllTrimmable | backend/src/main/java/com/qualityeducation/service/LessonService.java:235 | `s.trim().isEmpty()` holds exactly when every character of `s` is trimmable |
| Text.TrimIdempotent | backend/src/main/java/com/qualityeducation/service/LessonService.java:241 | trimming a trimmed string changes nothing |
| Text.LowerChar | backend/src/main/java/com/qualityeducation/service/CourseService.java:117-120 | an upper-case ASCII letter becomes its lower-case letter; every other character is kept |
| Text.Lower | backend/src/main/java/com/qualityeducation/service/CourseService.java:117-120 | `toLowerCase` keeps the length and lowers each character |
| Text.IndexOfChar | backend/src/main/java/com/qualityeducation/service/LessonService.java:444-454 | `indexOf` is the first position holding the character, or -1 exactly when it does not occur |
| Text.BeforeFirst | backend/src/main/java/com/qualityeducation/service/LessonService.java:444-454 | the part before the first occurrence of the character, or the whole string when it does not occur; the result never holds the character |
| Text.LessEqTotal | backend/src/main/java/com/qualityeducation/service/TeacherService.java:360 | `String.compareTo` orders any two names one way or the other |
| Text.IntToString | backend/src/main/java/com/qualityeducation/service/ModuleService.java:47 | Java's rendering of an `int`: an optional minus sign, then digits standing for the absolute value |
| Text.IntToStringInjective | backend/src/main/java/com/qualityeducation/service/ModuleService.java:47 | different numbers render differently |
| Sorting.Insert | backend/src/main/java/com/qualityeducation/service/TeacherService.java:360 | inserting into a sorted list keeps it sorted and adds exactly that element |
| Sorting.Sort | backend/src/main/java/com/qualityeducation/service/TeacherService.java:360 | sorting with a comparator yields an ascending permutation of the list |
| CourseService.WithRequest | backend/src/main/java/com/qualityeducation/service/CourseService.java:140-150 | every field of the form is copied onto the course (the optional ones, such as instructor, image and price, even when absent), and the id, owner, status, counters and creation time are kept |
| CourseService.WithRequestIdempotent | backend/src/main/java/com/qualityeducation/service/CourseService.java:140-150 | submitting the same form twice leaves the course as the first submission did |
| CourseService.NewCourse | backend/src/main/java/com/qualityeducation/service/CourseService.java:29-44 | a new course is a "draft" owned by the caller with no students and no modules, holding the form's fields |
| CourseService.CreateCourse | backend/src/main/java/com/qualityeducation/service/CourseService.java:28-49 | the new course is appended to the collection and returned as saved; ids stay unique |
| CourseService.UpdateCourse | backend/src/main/java/com/qualityeducation/service/CourseService.java:137-157 | an unknown id throws and changes nothing; otherwise the course is replaced in place by the form-updated course, which is returned |
| CourseService.DeleteCourse | backend/src/main/java/com/qualityeducation/service/CourseService.java:159-166 | afterwards no module names the course and the course is gone; every other module and course stays, in order |
| CourseService.Published | backend/src/main/java/com/qualityeducation/service/CourseService.java:110-111 | exactly the published courses, in collection order |
| CourseService.SearchPublishedCourses | backend/src/main/java/com/qualityeducation/service/CourseService.java:109-135 | a course is listed exactly when it is "published" and matches the term (case-insensitive substring of title, description or category, unless the term is null or empty) and the category and level filters (equalsIgnoreCase, unless null, empty or "all"); the list keeps collection order |
| CourseService.NoFiltersListsAllPublished | backend/src/main/java/com/qualityeducation/service/CourseService.java:116-129 | with no term and with null, empty or "all" filters, the search lists every published course |
| CourseService.LowerIdempotent | backend/src/main/java/com/qualityeducation/service/CourseService.java:117-120 | lowering a lowered string changes nothing |
| CourseService.TermCaseIgnored | backend/src/main/java/com/qualityeducation/service/CourseService.java:116-121 | a search term and its lower-case form give the same list |
| CourseService.GetCourseWithModules | backend/src/main/java/com/qualityeducation/service/CourseService.java:66-93 | a course is returned exactly when it exists and the caller owns it, and its module counter is then the number of modules naming it |
| CourseService.UpdateCourseModuleCount | backend/src/main/java/com/qualityeducation/service/CourseService.java:171-181 | an unknown course changes nothing; otherwise only that course's module counter changes, to the number of its modules |
| CourseService.SyncedCountMatchesView | backend/src/main/java/com/qualityeducation/service/CourseService.java:66-93 | once the counter is synchronised, the stored course equals the one `getCourseWithModules` shows its owner |
| Enrollments.JavaDiv | backend/src/main/java/com/qualityeducation/model/Enrollment.java:103 | Java's `int` division truncates toward zero: it agrees with floor division for a non-negative dividend and is its mirror image for a negative one |
| Enrollments.ProgressPercent | backend/src/main/java/com/qualityeducation/model/Enrollment.java:103 | for a non-negative completed count the percentage is the largest p with p·total ≤ completed·100; all lessons completed gives 100, and none or fewer gives at most 0 |
| Enrollments.ProgressBounds | backend/src/main/java/com/qualityeducation/model/Enrollment.java:102-103 | with 0 ≤ completed ≤ total and total > 0 the percentage lies in 0..100, is 100 exactly when every lesson is completed, and is 0 exactly when completed·100 < total |
| Enrollments.QuotientFacts | backend/src/main/java/com/qualityeducation/model/Enrollment.java:103 | for 0 ≤ n ≤ 100·d the quotient n/d lies in 0..100, is 100 only at n = 100·d and 0 only below d |
| Enrollments.MulLeq | backend/src/main/java/com/qualityeducation/model/Enrollment.java:103 | multiplying by a non-negative number keeps an inequality |
| Enrollments.DivBounds | backend/src/main/java/com/qualityeducation/model/Enrollment.java:103 | a quotient times the divisor is at most the dividend and is less than one divisor below it |
| Enrollments.Reached | backend/src/main/java/com/qualityeducation/model/Enrollment.java:119-128 | the number of grade thresholds a score reaches is at most the number of thresholds |
| Enrollments.GradeBand | backend/src/main/java/com/qualityeducation/model/Enrollment.java:119-128 | every score falls in one of the nine grade bands |
| Enrollments.CalculateGrade | backend/src/main/java/com/qualityeducation/model/Enrollment.java:119-128 | the grade is the letter of the score's band among ≥95 A+, ≥90 A, ≥85 B+, ≥80 B, ≥75 C+, ≥70 C, ≥65 D+, ≥60 D, and it is "F" exactly below 60 |
| Enrollments.ReachedMonotone | backend/src/main/java/com/qualityeducation/model/Enrollment.java:119-128 | a higher score reaches at least as many thresholds |
| Enrollments.GradeMonotone | backend/src/main/java/com/qualityeducation/model/Enrollment.java:119-128 | a higher average never earns a lower grade band |
| Enrollments.UpdateProgressKeeps | backend/src/main/java/com/qualityeducation/model/Enrollment.java:101-117 | `updateProgress` leaves the lesson progress list, the quiz statistics and the time spent unchanged |
| Enrollments.AfterUpdateProgress | backend/src/main/java/com/qualityeducation/model/Enrollment.java:101-117 | `updateProgress` changes at most progress, status, completion date and grade; with a positive lesson total the progress becomes the truncated percentage, and without one progress, status and completion date are left unchanged |
| Enrollments.UpdateProgressGrade | backend/src/main/java/com/qualityeducation/model/Enrollment.java:114-116 | the grade is recomputed from the average quiz score when quiz statistics exist with a positive average, and otherwise the previous grade, possibly none, is kept |
| Enrollments.UpdateProgressWithoutLessons | backend/src/main/java/com/qualityeducation/model/Enrollment.java:102-110 | with no lessons to count, `updateProgress` changes nothing but possibly the grade |
| Enrollments.UpdateProgressOutcome | backend/src/main/java/com/qualityeducation/model/Enrollment.java:101-117 | with 0 ≤ completed ≤ total and total > 0: progress ends in 0..100; all lessons completed gives "completed" stamped with the clock; otherwise the completion date is kept and the status becomes "active" above 0 and is left as it was at 0, an "at-risk" status included |
| Enrollments.UpdateProgressTwice | backend/src/main/java/com/qualityeducation/model/Enrollment.java:101-117 | running `updateProgress` twice gives what running it once with the later clock gives |
| Enrollments.Enrollment.constructor | backend/src/main/java/com/qualityeducation/service/EnrollmentInitializationService.java:148-164 | the built enrolment holds the given fields and has no grade and no completion date yet |
| Enrollments.Enrollment.UpdateProgress | backend/src/main/java/com/qualityeducation/model/Enrollment.java:101-117 | the in-place update leaves the entity equal to the `updateProgress` specification applied to its old state: a positive lesson total recomputes the truncated percentage, 100 completes and stamps the enrolment, above 0 makes it "active", and a positive average quiz score recomputes the grade |
| Enrollments.EnrollmentRepository.constructor | backend/src/main/java/com/qualityeducation/repository/EnrollmentRepository.java:12 | a new collection is empty and holds at most one enrolment per student and course |
| Enrollments.EnrollmentRepository.Insert | backend/src/main/java/com/qualityeducation/service/EnrollmentInitializationService.java:168 | saving an enrolment for a pair not yet enrolled appends it, keeps one enrolment per pair, and the pair is enrolled afterwards |
| EnrollmentInitialization.CompletedLesson | backend/src/main/java/com/qualityeducation/service/EnrollmentInitializationService.java:104-114 | with draws in range a completed lesson's quiz score lies in 60..99, its attempts in 1..3 and its minutes in 15..74 |
| EnrollmentInitialization.CompletedLessons | backend/src/main/java/com/qualityeducation/service/EnrollmentInitializationService.java:102-115 | the progress list has exactly the first n lessons, entry i built from lesson i and its draws |
| EnrollmentInitialization.Scores | backend/src/main/java/com/qualityeducation/service/EnrollmentInitializationService.java:118-122 | the quiz scores of the list, one per entry, in order |
| EnrollmentInitialization.Attempts | backend/src/main/java/com/qualityeducation/service/EnrollmentInitializationService.java:132-134 | the attempts of the list, one per entry, in order |
| EnrollmentInitialization.TimesSpent | backend/src/main/java/com/qualityeducation/service/EnrollmentInitializationService.java:161-163 | the minutes of the list, one per entry, in order |
| EnrollmentInitialization.SumBetween | backend/src/main/java/com/qualityeducation/service/EnrollmentInitializationService.java:132-134 | a sum of values each between lo and hi lies between count·lo and count·hi |
| EnrollmentInitialization.MaxOrZero | backend/src/main/java/com/qualityeducation/service/EnrollmentInitializationService.java:128-131 | `max().orElse(0)`: 0 for an empty list, otherwise an element of the list no element exceeds |
| EnrollmentInitialization.AverageBetween | backend/src/main/java/com/qualityeducation/service/EnrollmentInitializationService.java:118-122 | the mean of scores that all lie in lo..hi lies in lo..hi |
| EnrollmentInitialization.QuotientBetween | backend/src/main/java/com/qualityeducation/service/EnrollmentInitializationService.java:118-122 | a total between n·lo and n·hi divided by n lies between lo and hi |
| EnrollmentInitialization.GeneratedKeys | backend/src/main/java/com/qualityeducation/service/EnrollmentInitializationService.java:148-164 | a generated enrolment belongs to the student, course and teacher it was made for |
| EnrollmentInitialization.GeneratedStatus | backend/src/main/java/com/qualityeducation/service/EnrollmentInitializationService.java:138-166 | the random "at-risk" status never survives: the saved status is "completed" (with a completion date) exactly when every lesson was drawn as completed, and "active" otherwise; progress lies in 0..100 |
| EnrollmentInitialization.GeneratedGrade | backend/src/main/java/com/qualityeducation/service/EnrollmentInitializationService.java:118-122 | a generated enrolment has a grade exactly when at least one lesson was completed, and that grade is never "F" |
| EnrollmentInitialization.GeneratedQuizStats | backend/src/main/java/com/qualityeducation/service/EnrollmentInitializationService.java:103-135 | one quiz per completed lesson; the list holds the first lessons in course order; the best score is at least every lesson's score and lies in 60..99; attempts total between 1 and 3 per lesson and minutes between 15 and 74 per lesson |
| EnrollmentInitialization.CompletedLessonsTotals | backend/src/main/java/com/qualityeducation/service/EnrollmentInitializationService.java:111-113 | n completed lessons add up to n..3n attempts and 15n..74n minutes |
| EnrollmentInitialization.CreateEnrollment | backend/src/main/java/com/qualityeducation/service/EnrollmentInitializationService.java:78-170 | an existing enrolment for the pair, or a course with no lessons, leaves the collection unchanged; otherwise exactly the generated enrolment is appended |
| EnrollmentInitialization.EnrollInFirstCourses | backend/src/main/java/com/qualityeducation/service/EnrollmentInitializationService.java:66-68 | one user gains enrolments only for the teacher and the first selected courses, and ends enrolled in each of them that has lessons |
| EnrollmentInitialization.CreateSampleEnrollments | backend/src/main/java/com/qualityeducation/service/EnrollmentInitializationService.java:37-76 | only enrolments of the first ten users in the teacher's first one to three courses are added, and each such user ends enrolled in each drawn course that has lessons |
| EnrollmentInitialization.AddedOne | backend/src/main/java/com/qualityeducation/service/EnrollmentInitializationService.java:66-68 | one more course's enrolment (or none) keeps the run's additions within the first courses |
| EnrollmentInitialization.AddedCompose | backend/src/main/java/com/qualityeducation/service/EnrollmentInitializationService.java:59-69 | one more user's additions keep the run's additions within the selected users and courses |
| EnrollmentInitialization.EnrolledStaysEnrolled | backend/src/main/java/com/qualityeducation/service/EnrollmentInitializationService.java:59-69 | appending enrolments never removes an existing enrolment |
| LessonService.MapToQuiz | backend/src/main/java/com/qualityeducation/service/LessonService.java:425-437 | the quiz takes the given id, the question and every option trimmed, the answer and explanation as sent, one point and multiple choice when those are missing |
| LessonService.TrimAll | backend/src/main/java/com/qualityeducation/service/LessonService.java:429-431 | every option is trimmed, in order, none added or dropped |
| LessonService.MapToQuizNormalises | backend/src/main/java/com/qualityeducation/service/LessonService.java:425-437 | mapping a quiz that was already mapped gives it back unchanged |
| LessonService.TrimAllIdempotent | backend/src/main/java/com/qualityeducation/service/LessonService.java:429-431 | trimming the options twice is trimming them once |
| LessonService.MapQuizzes | backend/src/main/java/com/qualityeducation/service/LessonService.java:134-137 | quiz k of the request becomes the mapped quiz with random id k, in order |
| LessonService.MappedQuizzes | backend/src/main/java/com/qualityeducation/service/LessonService.java:134-137 | a request without quizzes gives a lesson without quizzes; otherwise every quiz is mapped |
| LessonService.NewLesson | backend/src/main/java/com/qualityeducation/service/LessonService.java:119-145 | the new lesson is a draft in the module and its course, owned by the caller, with trimmed text fields, the request's position and the thumbnail of the untrimmed address |
| LessonService.PaddedTitleSlipsThrough | backend/src/main/java/com/qualityeducation/service/LessonService.java:109-120 | with "Intro" in a module, the title lookup as written admits "Intro " and the module ends up with two lessons titled "Intro" |
| LessonService.TitleAdmittedAsWritten | backend/src/main/java/com/qualityeducation/service/LessonService.java:109-111 | `createLesson`'s title check as written admits a title exactly when no lesson of the module has that title, as sent, ignoring case |
| LessonService.TitleAdmitted | backend/src/main/java/com/qualityeducation/service/LessonService.java:109-120 | the corrected check admits a title exactly when no lesson of the module has the trimmed title, ignoring case; for a title without padding it agrees with the check as written |
| LessonService.PaddedIntro | backend/src/main/java/com/qualityeducation/service/LessonService.java:109-120 | "Intro " differs from "Intro" ignoring case but trims to it |
| LessonService.AdmittedTitleKeepsTitlesDistinct | backend/src/main/java/com/qualityeducation/service/LessonService.java:109-120 | looking up the trimmed title keeps titles distinct, ignoring case, within every module |
| LessonService.AsWrittenSufficesForTrimmedTitles | backend/src/main/java/com/qualityeducation/service/LessonService.java:109-120 | for a title without padding the title lookup as written keeps titles distinct |
| LessonService.RecountModuleLessons | backend/src/main/java/com/qualityeducation/service/LessonService.java:466-480 | the module's lesson counter becomes the number of its lessons and its update time is set; an unknown module changes nothing |
| LessonService.GetPublishedLessonById | backend/src/main/java/com/qualityeducation/service/LessonService.java:55-82 | an unknown or unpublished lesson is refused with no change; a published one gains exactly one view, which is saved and returned |
| LessonService.AddLesson | backend/src/main/java/com/qualityeducation/service/LessonService.java:147-152 | the lesson is appended, its module's count rises by exactly one and the counter is recounted; distinct positions stay distinct when the position was free |
| LessonService.CreateRefusal | backend/src/main/java/com/qualityeducation/service/LessonService.java:90-116 | the checks run in the code's order (module, course, owner, title as sent, position) and the first failing one names the refusal; none fails exactly when the lesson is admitted |
| LessonService.CreateLesson | backend/src/main/java/com/qualityeducation/service/LessonService.java:85-161 | a refused request changes nothing; an admitted one appends the new lesson, raises the module's lesson count by one and keeps positions distinct within a module; titles stay distinct (ignoring case) when the title as sent has no padding |
| LessonService.AppendingKeepsLessonOrdersDistinct | backend/src/main/java/com/qualityeducation/service/LessonService.java:113-116 | adding a lesson at a position its module does not use keeps positions distinct in every module |
| LessonService.ApplyLessonUpdate | backend/src/main/java/com/qualityeducation/service/LessonService.java:234-300 | text fields count only when present and not blank and are stored trimmed; other fields replace the stored ones when present; id, module, course, owner, views and times are kept |
| LessonService.TextField | backend/src/main/java/com/qualityeducation/service/LessonService.java:235-259 | a present, non-blank value replaces the stored text, trimmed; otherwise the stored text stays |
| LessonService.DurationField | backend/src/main/java/com/qualityeducation/service/LessonService.java:257-259 | a present, non-blank duration replaces the stored one, trimmed; otherwise it stays |
| LessonService.QuizzesField | backend/src/main/java/com/qualityeducation/service/LessonService.java:294-298 | quizzes sent replace the stored ones, mapped with fresh ids; none sent keeps the stored ones |
| LessonService.NewThumbnail | backend/src/main/java/com/qualityeducation/service/LessonService.java:248-255 | the thumbnail changes only for a counted address that yields one, and then becomes that thumbnail |
| LessonService.ApplyLessonUpdateIdempotent | backend/src/main/java/com/qualityeducation/service/LessonService.java:234-300 | applying the same update twice stores what applying it once does |
| LessonService.TitleClash | backend/src/main/java/com/qualityeducation/service/LessonService.java:234-239 | a title clash needs a title that is given and not blank, and is always with another lesson of the module whose title equals the title as sent, ignoring case |
| LessonService.UpdateRefusal | backend/src/main/java/com/qualityeducation/service/LessonService.java:229-268 | owner first, then a title, as sent, that differs from the lesson's own ignoring case and is already in the module, then a changed position already in use; the update is admitted exactly when none of them applies |
| LessonService.UpdateLesson | backend/src/main/java/com/qualityeducation/service/LessonService.java:218-312 | an unknown lesson or a refused update changes nothing; an admitted one replaces the lesson with the updated one stamped now; positions stay distinct within a module |
| LessonService.ReplacingKeepsLessonOrdersDistinct | backend/src/main/java/com/qualityeducation/service/LessonService.java:261-268 | replacing a lesson by one whose position is its old one or unused in the module keeps positions distinct |
| LessonService.RemoveLesson | backend/src/main/java/com/qualityeducation/service/LessonService.java:332-335 | the lesson is deleted, its module's lesson count drops by exactly one and the counter is recounted |
| LessonService.DeleteLesson | backend/src/main/java/com/qualityeducation/service/LessonService.java:315-344 | an unknown lesson or another teacher's lesson is refused with no change; the owner's lesson is removed and its module's counter recounted to one fewer |
| LessonService.ApplyPositions | backend/src/main/java/com/qualityeducation/service/LessonService.java:500-509 | walking the reorder list changes only the lesson's position and update time, never its id |
| LessonService.ApplyPositionsUnnamed | backend/src/main/java/com/qualityeducation/service/LessonService.java:500-509 | a lesson the list does not name is left unchanged |
| LessonService.ApplyPositionsLast | backend/src/main/java/com/qualityeducation/service/LessonService.java:500-509 | the lesson named last at list index p takes position p + 1 and the new update time |
| LessonService.Repositioned | backend/src/main/java/com/qualityeducation/service/LessonService.java:500-509 | every stored lesson is walked through the list; none is added or dropped |
| LessonService.RepositionedOrders | backend/src/main/java/com/qualityeducation/service/LessonService.java:500-509 | with each id listed once, the lesson at list index p takes position p + 1 and unlisted lessons are unchanged; lessons of other modules are not excluded |
| LessonService.RepositionStep | backend/src/main/java/com/qualityeducation/service/LessonService.java:500-509 | one turn of the loop extends the walked prefix of the list by one id |
| LessonService.Reposition | backend/src/main/java/com/qualityeducation/service/LessonService.java:500-509 | after the loop the lessons are exactly the repositioned table |
| LessonService.ReorderLessons | backend/src/main/java/com/qualityeducation/service/LessonService.java:483-517 | an unknown module, a missing course or another teacher's course changes nothing; otherwise the lessons take the listed positions |
| LessonService.SetLessonStatus | backend/src/main/java/com/qualityeducation/service/LessonService.java:520-575 | an unknown lesson or another teacher's lesson is refused with no change; otherwise only the status and update time change |
| LessonService.TeacherLessons | backend/src/main/java/com/qualityeducation/service/LessonService.java:373 | the teacher's lessons, every one counted, sorted newest first and a permutation of the teacher's stored lessons |
| LessonService.MostViewed | backend/src/main/java/com/qualityeducation/service/LessonService.java:397-401 | nothing when no lesson has been viewed; otherwise a viewed lesson with as many views as any other |
| LessonService.LessonStatsOf | backend/src/main/java/com/qualityeducation/service/LessonService.java:369-415 | every lesson of the teacher is counted once; the published and the draft counts are the numbers of the teacher's lessons with that status, and together never exceed the total; views and quiz counts are summed with a missing value as none |
| LessonService.MostPopularIsMostViewed | backend/src/main/java/com/qualityeducation/service/LessonService.java:397-401 | the most popular title is "None" when nothing was viewed and otherwise the title of the teacher's most viewed lesson |
| LessonService.RecentlyCreatedIsNewest | backend/src/main/java/com/qualityeducation/service/LessonService.java:403 | the recently created title is "None" without lessons and otherwise the title of a lesson of the teacher created no earlier than any other |
| LessonService.NewestFirst | backend/src/main/java/com/qualityeducation/service/LessonService.java:373 | the head of the teacher's list is a stored lesson of the teacher created no earlier than any other |
| LessonService.SortedHeadFirst | backend/src/main/java/com/qualityeducation/service/LessonService.java:373 | in a newest-first list the head is created no earlier than any element |
| ModuleService.OrderConflictNamesTheOrder | backend/src/main/java/com/qualityeducation/service/ModuleService.java:47 | the position-conflict message names the position: two positions with the same message are equal |
| ModuleService.NewModule | backend/src/main/java/com/qualityeducation/service/ModuleService.java:51-66 | the new module is a draft of the caller in the course, with the form's title, description, duration and position, no lessons, nothing completed, no minutes |
| ModuleService.CreateModule | backend/src/main/java/com/qualityeducation/service/ModuleService.java:30-83 | unknown course, another teacher's course and a position the course already uses are refused in that order with nothing saved; otherwise the module is appended, the course's module counter rises by one and positions stay distinct within a course |
| ModuleService.WithModuleCount | backend/src/main/java/com/qualityeducation/service/ModuleService.java:71 | only the course's module counter changes |
| ModuleService.AddModule | backend/src/main/java/com/qualityeducation/service/ModuleService.java:68-72 | the module is appended, the course counts one more module, the course's count of stored modules rises by exactly one and distinct positions stay distinct |
| ModuleService.AppendingKeepsOrdersDistinct | backend/src/main/java/com/qualityeducation/service/ModuleService.java:46-48 | adding a module at a position its course does not use keeps positions distinct in every course |
| ModuleService.ApplyModuleUpdate | backend/src/main/java/com/qualityeducation/service/ModuleService.java:167-191 | each field present in the form replaces the stored one and an absent one keeps it; id, course, owner, counters and times are kept |
| ModuleService.ApplyModuleUpdateIdempotent | backend/src/main/java/com/qualityeducation/service/ModuleService.java:167-191 | applying the same form twice stores what applying it once does |
| ModuleService.EmptyModuleUpdateKeeps | backend/src/main/java/com/qualityeducation/service/ModuleService.java:167-191 | a form with every field left out changes nothing |
| ModuleService.UpdateModule | backend/src/main/java/com/qualityeducation/service/ModuleService.java:146-205 | unknown module, another teacher's module and a changed position already used in the course are refused with no change; otherwise the form is applied and stamped now, and positions stay distinct |
| ModuleService.ReplacingKeepsOrdersDistinct | backend/src/main/java/com/qualityeducation/service/ModuleService.java:160-165 | replacing a module by one whose position is its old one or unused in the course keeps positions distinct |
| ModuleService.UpdateModuleStatus | backend/src/main/java/com/qualityeducation/service/ModuleService.java:360-383 | unknown module and another teacher's module are refused with no change; otherwise only the status and update time change |
| ModuleService.OneFewer | backend/src/main/java/com/qualityeducation/service/ModuleService.java:234 | one fewer than the counter, never below zero |
| ModuleService.DeleteModule | backend/src/main/java/com/qualityeducation/service/ModuleService.java:211-247 | unknown, not owned, missing lesson counter and a module with lessons are refused with no change; otherwise the module is removed and its course, if stored, counts one module fewer, never below zero |
| ModuleService.DeleteKeepsCounterInSync | backend/src/main/java/com/qualityeducation/service/ModuleService.java:230-238 | a course counter that matched the number of the course's modules is at least one before the deletion and matches again after it |
| ModuleService.UpdateModuleLessonCount | backend/src/main/java/com/qualityeducation/service/ModuleService.java:346-354 | the module's lesson counter becomes the given count and its update time is set; an unknown module changes nothing |
| ModuleService.TopOrder | backend/src/main/java/com/qualityeducation/service/ModuleService.java:338 | nothing for a course without modules; otherwise a position used in the course and no smaller than any other |
| ModuleService.NextOrderForCourse | backend/src/main/java/com/qualityeducation/service/ModuleService.java:337-340 | 1 for a course without modules, otherwise one past the largest position; the proposed position is always free in the course |
| ModuleService.ItemIds | backend/src/main/java/com/qualityeducation/service/ModuleService.java:269-271 | the request's module ids, one per item, in order |
| ModuleService.ApplyOrders | backend/src/main/java/com/qualityeducation/service/ModuleService.java:287-297 | applying the items changes only the module's position and update time |
| ModuleService.ApplyOrdersUnnamed | backend/src/main/java/com/qualityeducation/service/ModuleService.java:287-297 | a module no item names is unchanged |
| ModuleService.ApplyOrdersLast | backend/src/main/java/com/qualityeducation/service/ModuleService.java:287-297 | a module takes the position of the last item naming it, and the new update time |
| ModuleService.Reordered | backend/src/main/java/com/qualityeducation/service/ModuleService.java:287-299 | every stored module with the items applied; none added or dropped |
| ModuleService.ReorderGivesRequestedOrders | backend/src/main/java/com/qualityeducation/service/ModuleService.java:287-299 | with each module named once, every named module ends at its requested position and every other module is unchanged |
| ModuleService.ReorderModules | backend/src/main/java/com/qualityeducation/service/ModuleService.java:253-312 | unknown course, another teacher's course, fewer modules found than listed and a found module of another course or teacher are refused with no change; otherwise the modules take the requested positions and the reply is the reordered modules sorted by position, as a permutation |
| ModuleService.ApplyOrderItems | backend/src/main/java/com/qualityeducation/service/ModuleService.java:287-297 | the loop over the items leaves exactly the found modules with the items applied |
| ModuleService.ReorderedListed | backend/src/main/java/com/qualityeducation/service/ModuleService.java:273-299 | saving the reordered found modules over the table gives every stored module with the items applied |
| ModuleService.ReorderedRow | backend/src/main/java/com/qualityeducation/service/ModuleService.java:273-299 | for one stored module, the saved version is its reordered version |
| Security.BearerToken | backend/src/main/java/com/qualityeducation/config/SecurityConfig.java:147-152 | a header has a token exactly when it starts with the case-sensitive "Bearer ", and the token is the rest of the header |
| Security.BearerRoundTrip | backend/src/main/java/com/qualityeducation/config/SecurityConfig.java:147-152 | a header built as "Bearer " plus a token gives that token back |
| Security.RoleFor | backend/src/main/java/com/qualityeducation/config/SecurityConfig.java:162-167 | ROLE_SUPERVISOR exactly for "SUPERVISOR"/"supervisor", ROLE_TEACHER exactly for "TEACHER"/"teacher", ROLE_USER for everything else |
| Security.NoBearerNoIdentity | backend/src/main/java/com/qualityeducation/config/SecurityConfig.java:147-150 | a request without a bearer header keeps the identity it had |
| Security.ExistingIdentityKept | backend/src/main/java/com/qualityeducation/config/SecurityConfig.java:157 | an identity already in the context is never replaced |
| Security.IdentityInstalled | backend/src/main/java/com/qualityeducation/config/SecurityConfig.java:152-176 | an identity is installed exactly when the context had none and the bearer token decodes to claims with a subject; it is that subject, no credentials and the one role of the user type |
| Security.IssuedTokensGrantAccountRole | backend/src/main/java/com/qualityeducation/config/SecurityConfig.java:159-175 | tokens carrying "student", "teacher" or "supervisor" read back as ROLE_USER, ROLE_TEACHER and ROLE_SUPERVISOR with the subject as principal |
| Security.SecurityContext.constructor | backend/src/main/java/com/qualityeducation/config/SecurityConfig.java:157 | a request's context starts with no identity |
| Security.DoFilterInternal | backend/src/main/java/com/qualityeducation/config/SecurityConfig.java:140-182 | the chain is continued exactly once on every path, decoding failures are swallowed, and the context ends with the resolved identity |
| Security.LoadUserByUsername | backend/src/main/java/com/qualityeducation/config/SecurityConfig.java:92-110 | the teacher with that email if any, otherwise the student with that email, otherwise not found exactly when neither collection has the email; the account found is named by that email |
| Security.TeacherShadowsStudent | backend/src/main/java/com/qualityeducation/config/SecurityConfig.java:96-100 | when a teacher has the email, authentication depends only on the teacher account's flags and password |
| Security.AuthenticatedAccountIsEnabled | backend/src/main/java/com/qualityeducation/config/SecurityConfig.java:92-110 | whoever authenticates owns an enabled account with that email whose stored hash matches the password |
| Security.RuleFor | backend/src/main/java/com/qualityeducation/config/SecurityConfig.java:76-83 | the deciding rule is the first rule matching the path, and one always matches |
| Security.RuleFrom | backend/src/main/java/com/qualityeducation/config/SecurityConfig.java:76-83 | the first rule at or after a position that matches the path |
| Security.MissesAt | backend/src/main/java/com/qualityeducation/config/SecurityConfig.java:77-82 | a pattern differing from the path inside its fixed part does not match it |
| Security.MatchesBelow | backend/src/main/java/com/qualityeducation/config/SecurityConfig.java:77-82 | a subtree pattern matches every path below its base |
| Security.RegistrationAndLoginArePublic | backend/src/main/java/com/qualityeducation/config/SecurityConfig.java:78-79 | teacher and supervisor registration and login are open to anyone, with or without an identity |
| Security.SupervisorAreaNeedsSupervisorRole | backend/src/main/java/com/qualityeducation/config/SecurityConfig.java:81 | below "/api/supervisor/", apart from registration and login, a request passes exactly when it carries ROLE_SUPERVISOR |
| Security.TeacherAreaClosedToStudents | backend/src/main/java/com/qualityeducation/config/SecurityConfig.java:82 | below "/api/teacher/", apart from registration and login, a student identity is refused and a supervisor identity admitted |
| TeacherService.Applicant | backend/src/main/java/com/qualityeducation/service/TeacherService.java:51-64 | the applicant is PENDING and not enabled, holds the form's fields and the hashed password, with no reset token, sign-in or update time |
| TeacherService.RegisterTeacher | backend/src/main/java/com/qualityeducation/service/TeacherService.java:36-93 | a mismatched confirmation is reported before a taken email and neither stores anything; otherwise the PENDING applicant is appended and returned with the under-review message |
| TeacherService.StatusRefusal | backend/src/main/java/com/qualityeducation/service/TeacherService.java:110-115 | a pending, rejected and suspended application each get their own refusal message |
| TeacherService.SignedIn | backend/src/main/java/com/qualityeducation/service/TeacherService.java:125-126 | a signed-in teacher is ACTIVE with the sign-in time; nothing else changes |
| TeacherService.LoginTeacher | backend/src/main/java/com/qualityeducation/service/TeacherService.java:95-151 | unknown email and failed authentication get the same reply; a status other than APPROVED or ACTIVE is refused by name before the password is checked; success makes the teacher ACTIVE, records the time and returns a teacher token |
| TeacherService.Decided | backend/src/main/java/com/qualityeducation/service/TeacherService.java:207-208 | an administrator's decision sets only the status and the update time |
| TeacherService.Decide | backend/src/main/java/com/qualityeducation/service/TeacherService.java:199-255 | an unknown id is refused with no change; otherwise the teacher takes the new status whatever it had |
| TeacherService.ApproveTeacher | backend/src/main/java/com/qualityeducation/service/TeacherService.java:199-226 | the teacher becomes APPROVED from any status, an ACTIVE one included; an unknown id changes nothing |
| TeacherService.RejectTeacher | backend/src/main/java/com/qualityeducation/service/TeacherService.java:228-255 | the teacher becomes REJECTED from any status; the reason does not reach the stored teacher; an unknown id changes nothing |
| TeacherService.WithResetToken | backend/src/main/java/com/qualityeducation/service/TeacherService.java:270-272 | the teacher holds the new token expiring one hour after now; nothing else changes |
| TeacherService.ForgotReply | backend/src/main/java/com/qualityeducation/service/TeacherService.java:259-284 | an unknown email is answered with success, a delivered reset with a different success message, a failed delivery with an error |
| TeacherService.ForgotPassword | backend/src/main/java/com/qualityeducation/service/TeacherService.java:257-290 | an unknown email changes nothing; for a known one the token and its one-hour expiry are stored before delivery, so a failed delivery leaves them stored; a delivered reset is answered "Password reset instructions have been sent to your email.", unlike an unknown email |
| TeacherService.ForgotReplyRevealsAccount | backend/src/main/java/com/qualityeducation/service/TeacherService.java:259-284 | the reply as written differs for a registered and an unknown email even when delivery succeeds |
| TeacherService.UniformForgotReply | backend/src/main/java/com/qualityeducation/service/TeacherService.java:261-264 | a delivered reset is answered exactly like an unknown email; only a failed delivery is an error |
| TeacherService.UniformReplyHidesAccount | backend/src/main/java/com/qualityeducation/service/TeacherService.java:261-264 | with the uniform reply a delivered reset does not tell whether the email was registered |
| TeacherService.FindByEmailAfterUpdate | backend/src/main/java/com/qualityeducation/service/TeacherService.java:100 | updating a teacher without changing the email keeps it the teacher found for that email |
| TeacherService.ApplicantCannotSignIn | backend/src/main/java/com/qualityeducation/service/TeacherService.java:36-151 | a new applicant is the teacher found for its email, cannot authenticate with any password and is refused as under review |
| TeacherService.ApprovedTeacherAuthenticates | backend/src/main/java/com/qualityeducation/service/TeacherService.java:199-226 | once approved a teacher may sign in and authenticates exactly with the stored password, given the account flags |
| TeacherService.RejectedTeacherCannotSignIn | backend/src/main/java/com/qualityeducation/service/TeacherService.java:228-255 | once rejected a teacher cannot authenticate with any password and is refused as rejected |
| TeacherService.SignInKeepsAccess | backend/src/main/java/com/qualityeducation/service/TeacherService.java:120-127 | after a sign-in the teacher may still sign in and the same passwords authenticate |
| TeacherService.LatestDecisionWins | backend/src/main/java/com/qualityeducation/service/TeacherService.java:199-255 | only the latest administrator decision counts |
| TeacherReports.StudentsOf | backend/src/main/java/com/qualityeducation/service/TeacherService.java:303-304 | each student with an enrolment appears exactly once, and only such students appear |
| TeacherReports.EnrolledDate | backend/src/main/java/com/qualityeducation/service/TeacherService.java:344-347 | the earliest enrolment date of the student's enrolments, the clock for an empty group |
| TeacherReports.CourseLines | backend/src/main/java/com/qualityeducation/service/TeacherService.java:324-341 | at most one line per enrolment, each showing an enrolment of the student |
| TeacherReports.CourseLinesCount | backend/src/main/java/com/qualityeducation/service/TeacherService.java:324-341 | exactly the enrolments whose course is still stored get a line |
| TeacherReports.CollectCourseLines | backend/src/main/java/com/qualityeducation/service/TeacherService.java:324-341 | the inner loop builds exactly the student's course lines |
| TeacherReports.Entry | backend/src/main/java/com/qualityeducation/service/TeacherService.java:312-356 | a student has an entry exactly when the account exists, and the entry carries the student's id |
| TeacherReports.Present | backend/src/main/java/com/qualityeducation/service/TeacherService.java:314-317 | the entries kept are entries that were built, none invented |
| TeacherReports.PresentComplete | backend/src/main/java/com/qualityeducation/service/TeacherService.java:314-317 | every entry built is kept |
| TeacherReports.PresentDistinct | backend/src/main/java/com/qualityeducation/service/TeacherService.java:314-317 | skipping missing entries keeps distinct ids distinct |
| TeacherReports.EntryList | backend/src/main/java/com/qualityeducation/service/TeacherService.java:308-357 | one entry per listed student, in the same order |
| TeacherReports.EntriesComplete | backend/src/main/java/com/qualityeducation/service/TeacherService.java:308-357 | every listed student whose account exists has an entry |
| TeacherReports.EntriesDistinct | backend/src/main/java/com/qualityeducation/service/TeacherService.java:308-357 | students listed once have one entry each |
| TeacherReports.EntriesSound | backend/src/main/java/com/qualityeducation/service/TeacherService.java:308-357 | each entry is the entry of one of the listed students |
| TeacherReports.ByNameTotal | backend/src/main/java/com/qualityeducation/service/TeacherService.java:360 | the name order is total, so the sort is defined |
| TeacherReports.TeacherStudents | backend/src/main/java/com/qualityeducation/service/TeacherService.java:295-363 | the listing is sorted by name and is a permutation of the entries built |
| TeacherReports.GetTeacherStudents | backend/src/main/java/com/qualityeducation/service/TeacherService.java:295-369 | the reply holds the sorted listing with the success message |
| TeacherReports.DistinctOccursOnce | backend/src/main/java/com/qualityeducation/service/TeacherService.java:360 | in distinct elements, each occurs at most once |
| TeacherReports.TwoPositions | backend/src/main/java/com/qualityeducation/service/TeacherService.java:360 | an element found at two positions occurs at least twice |
| TeacherReports.SameIdSameEntry | backend/src/main/java/com/qualityeducation/service/TeacherService.java:360 | among entries with distinct ids, equal ids mean the same entry |
| TeacherReports.DistinctIdsPermuted | backend/src/main/java/com/qualityeducation/service/TeacherService.java:360 | sorting entries with distinct ids keeps their ids distinct |
| TeacherReports.EntryDescribes | backend/src/main/java/com/qualityeducation/service/TeacherService.java:349-356 | a student's entry shows the account's username, which is the email, the email, no avatar and the earliest enrolment date |
| TeacherReports.ListedDescribes | backend/src/main/java/com/qualityeducation/service/TeacherService.java:295-363 | every listed entry describes a student enrolled in the teacher's courses |
| TeacherReports.EnrolledIsListed | backend/src/main/java/com/qualityeducation/service/TeacherService.java:295-363 | every student enrolled with the teacher whose account exists is listed |
| TeacherReports.TeacherStudentsListing | backend/src/main/java/com/qualityeducation/service/TeacherService.java:295-363 | the listing has exactly one entry per student enrolled with the teacher whose account exists, each describing the student, sorted by name |
| TeacherReports.LongestStreak | backend/src/main/java/com/qualityeducation/service/TeacherService.java:418-421 | 0 without enrolments; otherwise the streak of an enrolment, no smaller than any other |
| TeacherReports.StatsOf | backend/src/main/java/com/qualityeducation/service/TeacherService.java:394-431 | all courses counted, completed and active counted apart and together at most all courses, and the longest streak |
| TeacherReports.LessonsCompletedNonNegative | backend/src/main/java/com/qualityeducation/service/TeacherService.java:414-416 | the completed-lesson total is not negative and no smaller than any one enrolment's count, when no count is negative |
| TeacherReports.GetStudentDetails | backend/src/main/java/com/qualityeducation/service/TeacherService.java:374-518 | unknown student, then a student not enrolled with the teacher, are refused; otherwise the student's name, email, earliest enrolment date and statistics |
| TeacherReports.DetailsAgreeWithListing | backend/src/main/java/com/qualityeducation/service/TeacherService.java:295-518 | a listed student's details succeed and agree with the listing on name, email and enrolment date, with at least as many courses counted as lines shown |
| Translations.Get | frontend/src/app/utils/translations.js:131 | a key's text exactly when a property has that key, and then the text of such a property; undefined exactly when no property has it |
| Translations.Keys | frontend/src/app/utils/translations.js:2-127 | the keys of a table, one per property, in order |
| Translations.AgreeAppend | frontend/src/app/utils/translations.js:2-127 | sections that agree make up tables that agree |
| Translations.HeaderAgrees | frontend/src/app/utils/translations.js:3-9 | the English header texts (lines 3-9) and their Sinhala counterparts (lines 66-72) translate the same keys in the same order, and no text is empty |
| Translations.HeroAgrees | frontend/src/app/utils/translations.js:11-18 | the English hero texts (lines 11-18) and their Sinhala counterparts (lines 74-81) translate the same keys in the same order, and no text is empty |
| Translations.FreeAgrees | frontend/src/app/utils/translations.js:20-23 | the English first benefit texts (lines 20-23) and their Sinhala counterparts (lines 83-86) translate the same keys in the same order, and no text is empty |
| Translations.ScienceAgrees | frontend/src/app/utils/translations.js:25-26 | the English second benefit texts (lines 25-26) and their Sinhala counterparts (lines 88-89) translate the same keys in the same order, and no text is empty |
| Translations.MotivationAgrees | frontend/src/app/utils/translations.js:28-29 | the English third benefit texts (lines 28-29) and their Sinhala counterparts (lines 91-92) translate the same keys in the same order, and no text is empty |
| Translations.FunAgrees | frontend/src/app/utils/translations.js:31-32 | the English fourth benefit texts (lines 31-32) and their Sinhala counterparts (lines 94-95) translate the same keys in the same order, and no text is empty |
| Translations.GetStartedAgrees | frontend/src/app/utils/translations.js:34-35 | the English get-started texts (lines 34-35) and their Sinhala counterparts (lines 97-98) translate the same keys in the same order, and no text is empty |
| Translations.QuickLinksAgrees | frontend/src/app/utils/translations.js:37-44 | the English quick-links texts (lines 37-44) and their Sinhala counterparts (lines 100-107) translate the same keys in the same order, and no text is empty |
| Translations.LearnAgrees | frontend/src/app/utils/translations.js:45-50 | the English learn texts (lines 45-50) and their Sinhala counterparts (lines 108-113) translate the same keys in the same order, and no text is empty |
| Translations.ConnectAgrees | frontend/src/app/utils/translations.js:51-55 | the English connect texts (lines 51-55) and their Sinhala counterparts (lines 114-118) translate the same keys in the same order, and no text is empty |
| Translations.NewsletterAgrees | frontend/src/app/utils/translations.js:56-59 | the English newsletter texts (lines 56-59) and their Sinhala counterparts (lines 119-122) translate the same keys in the same order, and no text is empty |
| Translations.LegalAgrees | frontend/src/app/utils/translations.js:60-63 | the English legal texts (lines 60-63) and their Sinhala counterparts (lines 123-126) translate the same keys in the same order, and no text is empty |
| Translations.PageAgrees | frontend/src/app/utils/translations.js:3-35 | the page sections of both languages agree: same keys in the same order, no empty text |
| Translations.FooterAgrees | frontend/src/app/utils/translations.js:37-63 | the footer sections of both languages agree: same keys in the same order, no empty text |
| Translations.ShippedTablesAgree | frontend/src/app/utils/translations.js:1-127 | the shipped English and Sinhala tables translate exactly the same keys in the same order and leave no text empty |
| Translations.TableOf | frontend/src/app/utils/translations.js:131 | a table exactly for "en" and "si", the matching one; no table for any other language |
| Translations.T | frontend/src/app/utils/translations.js:130-132 | the language's text when present and not empty, else the English text when present and not empty, else the key; a language outside the table fails |
| Translations.TDefault | frontend/src/app/utils/translations.js:130 | without a language the English text when present and not empty, else the key |
| Translations.SameKeysSameDomain | frontend/src/app/utils/translations.js:131 | tables with the same keys have a text for the same keys |
| Translations.FoundTextNonEmpty | frontend/src/app/utils/translations.js:131 | a table without empty texts never yields an empty text for a key it has |
| Translations.LookupOutcome | frontend/src/app/utils/translations.js:130-132 | with agreeing tables, a key the English table has yields the requested language's own text, and any other key yields the key itself |
| YouTube.FirstMatch | backend/src/main/java/com/qualityeducation/service/LessonService.java:444-450 | the first position from the start point where the separator matches, or -1 when there is none |
| YouTube.DotSkipsLineBreaks | backend/src/main/java/com/qualityeducation/service/LessonService.java:450 | the regular expression's dot does not match a line break but matches any other character |
| YouTube.SecondPiece | backend/src/main/java/com/qualityeducation/service/LessonService.java:444-450 | the second piece of the split is a prefix of the text after the first separator |
| YouTube.VideoId | backend/src/main/java/com/qualityeducation/service/LessonService.java:443-455 | a watch address's id holds no '&', a short address's id holds no '?', any other address has no id; the dot of the short pattern matches any character but a line terminator, as in Java |
| YouTube.Thumbnail | backend/src/main/java/com/qualityeducation/service/LessonService.java:439-463 | no thumbnail exactly when the id is empty; otherwise the medium-quality thumbnail address of the id |
| YouTube.WatchAddress | backend/src/main/java/com/qualityeducation/service/LessonService.java:443-448 | a watch address gives the thumbnail of the id between "v=" and the next '&' |
| YouTube.WatchSplitFound | backend/src/main/java/com/qualityeducation/service/LessonService.java:444 | in a watch address the first "v=" is the one ending the marker |
| YouTube.WatchIdUnsplit | backend/src/main/java/com/qualityeducation/service/LessonService.java:444 | no "v=" starts inside an id without '=' followed by nothing or '&' |
| YouTube.BeforeAmpersand | backend/src/main/java/com/qualityeducation/service/LessonService.java:445-448 | cutting at the first '&' keeps exactly an id without '&' followed by nothing or '&' |
| YouTube.ShortAddress | backend/src/main/java/com/qualityeducation/service/LessonService.java:449-454 | a short address without a watch marker gives the thumbnail of the id between "youtu.be/" and the next '?' |
| YouTube.ShortPiece | backend/src/main/java/com/qualityeducation/service/LessonService.java:450 | the piece after the short marker runs to the end of the address |
| YouTube.OtherAddress | backend/src/main/java/com/qualityeducation/service/LessonService.java:443-463 | an address with neither marker has no thumbnail |
| AuthService.NewStudent | backend/src/main/java/com/qualityeducation/service/AuthService.java:45-55 | the new student is an active level-1 STUDENT with no XP and no streak, every account flag set, the form's email, username and languages, and the password stored only as its hash |
| AuthService.NewStudentPassword | backend/src/main/java/com/qualityeducation/service/AuthService.java:48 | the new student's stored hash matches the registered password and no other |
| AuthService.Register | backend/src/main/java/com/qualityeducation/service/AuthService.java:31-76 | a taken email is reported before a taken username and neither changes the collection; otherwise the new student is appended and returned with a student token |
| AuthService.StatusMessage | backend/src/main/java/com/qualityeducation/service/AuthService.java:93-97 | an inactive and a suspended account each get their own refusal |
| AuthService.Login | backend/src/main/java/com/qualityeducation/service/AuthService.java:79-131 | unknown email and failed authentication get the same reply; a status other than ACTIVE is refused before the password is checked; success changes only the sign-in time and returns a student token |
| AuthService.ForgotPassword | backend/src/main/java/com/qualityeducation/service/AuthService.java:134-153 | the reply is the same whether the email is registered or not; only a registered student gains a token expiring an hour later, stored before the email is sent |
| AuthService.WithResetToken | backend/src/main/java/com/qualityeducation/service/AuthService.java:143-145 | the student holds the new token expiring one hour after now; nothing else changes |
| AuthService.AfterReset | backend/src/main/java/com/qualityeducation/service/AuthService.java:168-170 | the student holds the new hash and no token or expiry; nothing else changes |
| AuthService.ResetPassword | backend/src/main/java/com/qualityeducation/service/AuthService.java:155-175 | an unknown token is refused; an expiry before now is refused with no change, one at now still accepted; otherwise the new hash is stored and the token cleared |
| AuthService.IssuedTokenRedeemable | backend/src/main/java/com/qualityeducation/service/AuthService.java:134-175 | a token just issued to a student finds that student and stays valid up to one hour after issue |
| AuthService.ResetTokenSingleUse | backend/src/main/java/com/qualityeducation/service/AuthService.java:155-175 | after a successful reset no student holds the token, so it cannot be used again |
| AuthService.ResetChangesPassword | backend/src/main/java/com/qualityeducation/service/AuthService.java:168 | after a reset exactly the new password matches |
| StudentService.UpdatedStudent | backend/src/main/java/com/qualityeducation/service/StudentService.java:52-63 | the username becomes the submitted email when there is one (the submitted document's `getUsername()` is its email), the email and the two languages take the submitted value when present, and every other field, password, role and status included, is kept |
| StudentService.SubmittedUsername | backend/src/main/java/com/qualityeducation/service/StudentService.java:52 | the submitted document's `getUsername()` is present exactly when its email is, and is that email |
| StudentService.SubmittedUsernameDropped | backend/src/main/java/com/qualityeducation/service/StudentService.java:52-56 | submitting only the username "bob" leaves a student named "alice" so named; submitting only an email renames the student to it |
| StudentService.IntendedUpdatedStudent | backend/src/main/java/com/qualityeducation/service/StudentService.java:51-63 | the intended update changes at most the username, email and the two languages |
| StudentService.IntendedUpdateStoresUsername | backend/src/main/java/com/qualityeducation/service/StudentService.java:52-54 | with the intended update a submitted username is stored, a missing one keeps the stored username, and repeating the update changes nothing |
| StudentService.UpdateIdempotent | backend/src/main/java/com/qualityeducation/service/StudentService.java:52-63 | submitting the same update twice stores what submitting it once does |
| StudentService.EmptyUpdateChangesNothing | backend/src/main/java/com/qualityeducation/service/StudentService.java:52-63 | an update with every field missing leaves the student as stored |
| StudentService.UpdateStudentProfile | backend/src/main/java/com/qualityeducation/service/StudentService.java:41-72 | an unknown id is refused with no change; otherwise the updated student replaces the stored one and is returned |
| StudentService.NewEmailIsSignInName | backend/src/main/java/com/qualityeducation/service/StudentService.java:52-63 | a changed email becomes the student's sign-in name and, unless an earlier student has it, finds the student |
| SupervisorService.NewSupervisor | backend/src/main/java/com/qualityeducation/service/SupervisorService.java:161-175 | the new supervisor is APPROVED, active and in the standard role at once, with the form's fields and the hashed password |
| SupervisorService.RegisterSupervisor | backend/src/main/java/com/qualityeducation/service/SupervisorService.java:148-184 | a taken email is reported before a mismatched confirmation and neither stores anything; otherwise the approved supervisor is appended and returned with the wait-for-approval message |
| SupervisorService.LoginRefusal | backend/src/main/java/com/qualityeducation/service/SupervisorService.java:196-206 | password first, then approval, then the active flag; a sign-in is admitted exactly when all three pass |
| SupervisorService.LoginSupervisor | backend/src/main/java/com/qualityeducation/service/SupervisorService.java:186-224 | unknown email and wrong password get the same reply; a refused sign-in changes nothing; success changes only the sign-in time and returns a supervisor token |
| SupervisorService.UpdatedProfile | backend/src/main/java/com/qualityeducation/service/SupervisorService.java:49-72 | each given field replaces the stored one and a missing one keeps it; the update time is set; email, institution, password, status, active flag and role never change |
| SupervisorService.UpdateIdempotent | backend/src/main/java/com/qualityeducation/service/SupervisorService.java:49-72 | repeating an update changes nothing but the update time |
| SupervisorService.UpdateSupervisorProfile | backend/src/main/java/com/qualityeducation/service/SupervisorService.java:39-80 | an unknown id is refused with no change; otherwise the merged profile replaces the stored one and is returned |
| SupervisorService.RegisteredSupervisorSignsIn | backend/src/main/java/com/qualityeducation/service/SupervisorService.java:148-221 | a supervisor who has just registered is found by email and signs in with the registered password and no other |
| SupervisorService.UpdateKeepsSignIn | backend/src/main/java/com/qualityeducation/service/SupervisorService.java:40-221 | a profile update never changes whether a password signs in |

## Left out

- Signing and parsing of JSON Web Tokens (HMAC, expiry) are not modelled. The decoder is a parameter that yields a subject and an optional user type. `JwtService.java` is not part of this model.
- BCrypt hashing and the internals of Spring's `AuthenticationManager` are not modelled. `Passwords.Encode` is an injective stand-in. Authentication is the account lookup plus `matches`.
- The clock, `UUID.randomUUID()`, `java.util.Random`, the hashing salt and email delivery are not modelled. They are inputs: delivery is a boolean saying whether sending succeeded.
- Floating-point computations are not modelled: ratings and `updateRating`, `Module.updateCompletionPercentage`, the average rating of the lesson statistics, and the rounding of the average progress and average score in `getStudentDetails`. A quiz's average score is an exact `real`, so Java's `double` rounding of the mean is not captured.
- Java `int` overflow is not modelled. `completedLessons * 100` and the counters are unbounded integers.
- `Text.Lower`: case mapping covers the ASCII letters only, so `equalsIgnoreCase` on other letters is weaker than Java's.
- The MongoDB regular-expression text search of the repositories is not part of this model. The published-course search is modelled as the in-memory filter the service applies.
- Controllers, request and response DTOs other than `ApiResponse`, and their token-extraction helpers are not modelled. They are HTTP plumbing. `dto/SupervisorRegistrationRequest.java` is not part of this model.
- `CourseService.WithRequest` models the form's title, category, level and description as always present. The course form does not validate them, so in the code they may be null and are then stored as null; the model does not capture that case.
- `CourseService.SearchPublishedCourses` follows from that: it does not model the NullPointerException that the search throws on a published course whose title, description, category or level is null when the term or filter reads that field. That exception fails the whole request.
- The Course entity class is not part of this model. `Courses.Course` holds the fields the services read and write.
- These stubs and hard-coded methods are not modelled: `getSupervisorStats`, `getSupervisorActivities`, `getStudentStats`, `getStudentActivities`, and the lesson approval stubs of the supervisor service.
- The web client is not modelled, except `translations.js`. Its pages are React components over mock data.
- `Translations.T`: a key or language that names a property of JavaScript's `Object.prototype` (such as `toString`) is treated as absent, whereas in the browser it finds the inherited property.
- Repository finders return the first match. Where Spring Data would throw on several matching documents, the model does not.
- `Sorting.Sort` promises a sorted permutation but not the order of elements that compare equal, whereas Java's `List.sort` is stable. Stability would need the comparator to be transitive, which the model does not assume. So the model does not promise the order of lessons created at the same time in `findByTeacherIdOrderByCreatedAtDesc` (MongoDB does not promise it either), nor the order of students with equal names in `getTeacherStudents`.
- `TeacherReports`: the iteration order of the `HashMap` that `getTeacherStudents` groups by student is not modelled. The groups are taken in the order of each student's first enrolment before the sort by name.
- `Lessons.Lesson.IncrementViews` and `Modules.Module.IncrementViews` work on values. Aliasing between a fetched document and the stored one is not modelled; a service saves the new value explicitly.
- The per-course lesson-progress list of `getStudentDetails` is not modelled. It is copied out of stored documents and no rule applies to it.
- The `catch (Exception e)` paths that answer "Failed to ...: " plus an exception message are not modelled, except where a modelled rule throws. `deleteModule` on a module whose lesson counter is null is modelled by `ModuleService.DeleteModule` as that failure.
- A unique-index violation when a student changes the email to one already taken is not modelled. MongoDB raises it; the model stores the update.
- `TeacherService.StatusRefusal` requires a status that may not sign in, because the code's default branch cannot be reached.
- Teacher registration and approval emails, and the reason given on rejection, are not modelled. They do not change any stored state the model keeps.
- `YouTube.SecondPiece`: where Java's `split` yields no second piece, the model yields an empty id, which leads to the same missing thumbnail.

## Findings

| source | as written | input that shows it | evidently intended | confidence | as-written member | corrected member |
|---|---|---|---|---|---|---|
| backend/src/main/java/com/qualityeducation/service/LessonService.java:109-120 | `createLesson` (and likewise `updateLesson`, lines 235-240) checks for a duplicate title with the title as sent, but stores the trimmed title | a module holding "Intro" and a new lesson titled "Intro " is admitted, so the module holds two lessons titled "Intro" | look up the title that will be stored, the trimmed one, so titles stay distinct ignoring case | not executed | `LessonService.PaddedTitleSlipsThrough` | `LessonService.AdmittedTitleKeepsTitlesDistinct` |
| backend/src/main/java/com/qualityeducation/service/TeacherService.java:259-284 | `forgotPassword` answers an unknown email with "If a teacher account with this email exists, ..." but a registered one with "Password reset instructions have been sent to your email." | any registered email whose reset email is delivered | the same reply for both, so the reply does not reveal whether the email has an account | not executed | `TeacherService.ForgotReplyRevealsAccount` | `TeacherService.UniformReplyHidesAccount` |
| backend/src/main/java/com/qualityeducation/service/StudentService.java:52-54 | `updateStudentProfile` copies the submitted document's `getUsername()` into the username, but `User.getUsername()` answers the email (User.java:84-86), so the submitted username is never stored and submitting an email renames the student | a student named "alice" who submits only the username "bob" keeps the name "alice"; submitting only the email "b@x" renames the student to "b@x" | store the submitted username field | not executed | `StudentService.SubmittedUsernameDropped` | `StudentService.IntendedUpdateStoresUsername` |
