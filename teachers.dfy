/** The teacher account document (`teachers` collection) and the queries made on it. */
module Teachers {
  import opened Nullable
  import opened Passwords
  import Tables

  datatype TeacherStatus = Pending | Approved | Rejected | Suspended | Active

  /**
   * A teacher. Times are seconds on the server clock. The floating-point `rating` is not
   * part of this model.
   */
  datatype Teacher = Teacher(
    id: string,
    firstName: Option<string>,
    lastName: Option<string>,
    email: string,
    password: PasswordHash,
    phone: Option<string>,
    institution: Option<string>,
    department: Option<string>,
    qualifications: Option<string>,
    experience: Option<string>,
    specialization: Option<seq<string>>,
    status: TeacherStatus,
    createdAt: int,
    updatedAt: Option<int>,
    lastLoginAt: Option<int>,
    profileImage: Option<string>,
    bio: Option<string>,
    totalStudents: int,
    totalCourses: int,
    totalReviews: int,
    enabled: bool,
    accountNonExpired: bool,
    accountNonLocked: bool,
    credentialsNonExpired: bool,
    resetPasswordToken: Option<string>,
    resetPasswordExpiry: Option<int>)
  {
    /** `getAuthorities`: a teacher holds exactly the teacher role, whatever its status. */
    function Authorities(): (r: seq<string>)
      ensures |r| == 1 && r[0] == "ROLE_TEACHER"
    {
      ["ROLE_TEACHER"]
    }

    /** `getUsername`: a teacher is known by the email. */
    function Username(): (r: string)
      ensures r == email
    {
      email
    }

    /** `isEnabled`: the flag is set and the application was approved or is in use. */
    predicate IsEnabled()
      ensures IsEnabled() <==> enabled && status != Pending && status != Rejected && status != Suspended
    {
      enabled && (status == Approved || status == Active)
    }

    /** `getFullName`: first and last name joined by a space; Java renders a null name as "null". */
    function FullName(): (r: string)
      ensures |r| == |Render(firstName)| + 1 + |Render(lastName)|
      ensures r[..|Render(firstName)|] == Render(firstName) && r[|Render(firstName)|] == ' '
      ensures r[|Render(firstName)| + 1..] == Render(lastName)
    {
      Render(firstName) + " " + Render(lastName)
    }
  }

  function TeacherId(t: Teacher): string {
    t.id
  }

  /** `findByEmail` */
  function FindByEmail(rows: seq<Teacher>, email: string): (r: Option<nat>)
    ensures r.Some? ==> r.value < |rows| && rows[r.value].email == email
    ensures r.None? <==> forall k :: 0 <= k < |rows| ==> rows[k].email != email
  {
    Tables.IndexWhere(rows, (t: Teacher) => t.email == email)
  }

  /**
   * The document `Teacher.builder()` produces with the registration data: status PENDING,
   * counters 0 and every account flag set. Such a teacher is not enabled, so it cannot sign
   * in before an approval although its `enabled` flag is set.
   */
  function NewTeacher(id: string, firstName: Option<string>, lastName: Option<string>, email: string,
                      password: PasswordHash, phone: Option<string>, institution: Option<string>,
                      department: Option<string>, qualifications: Option<string>, experience: Option<string>,
                      specialization: Option<seq<string>>, now: int): (t: Teacher)
    ensures t.status == Pending && t.enabled && !t.IsEnabled()
    ensures t.totalStudents == 0 && t.totalCourses == 0 && t.totalReviews == 0
    ensures t.id == id && t.email == email && t.password == password && t.createdAt == now
  {
    Teacher(id, firstName, lastName, email, password, phone, institution, department, qualifications,
            experience, specialization, Pending, now, None, None, None, None, 0, 0, 0,
            true, true, true, true, None, None)
  }
}
