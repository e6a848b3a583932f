/**
 * Teacher accounts: registration, sign-in gated by the application's review status, the
 * administrator's approval and rejection, and the password-reset request. The `teachers`
 * collection is a table the operations change; the clock, the new document id, the reset
 * token, the hashing salt and the outcome of sending an email are parameters.
 */
module TeacherService {
  import opened Nullable
  import opened Passwords
  import opened Responses
  import opened Tables
  import opened Teachers
  import Users
  import Tokens
  import Security

  /**
   * A registration form. The password is present; the confirmation may be missing, which
   * counts as a mismatch.
   */
  datatype TeacherRegistration = TeacherRegistration(
    firstName: Option<string>, lastName: Option<string>, email: string,
    password: string, confirmPassword: Option<string>,
    phone: Option<string>, institution: Option<string>, department: Option<string>,
    qualifications: Option<string>, experience: Option<string>,
    specialization: Option<seq<string>>)

  /** The login reply: the token (as its claims) and the teacher as saved. */
  datatype TeacherLogin = TeacherLogin(token: Tokens.Claims, teacher: Teacher)

  const UnderReview := "Teacher registration successful. Your application is under review."
  const InvalidCredentials := "Invalid email or password"
  const ResetUnknownEmail := "If a teacher account with this email exists, password reset instructions have been sent."
  const ResetSent := "Password reset instructions have been sent to your email."

  /** `request.getPassword().equals(request.getConfirmPassword())` */
  predicate Confirmed(req: TeacherRegistration) {
    req.confirmPassword == Some(req.password)
  }

  /** The applicant `Teacher.builder()` makes of a registration: PENDING, with the password hashed. */
  function Applicant(id: string, req: TeacherRegistration, hash: PasswordHash, now: int): (t: Teacher)
    ensures t.status == Pending && !t.IsEnabled()
    ensures t.id == id && t.email == req.email && t.password == hash && t.createdAt == now
    ensures t.firstName == req.firstName && t.lastName == req.lastName && t.phone == req.phone
    ensures t.institution == req.institution && t.department == req.department
    ensures t.qualifications == req.qualifications && t.experience == req.experience
    ensures t.specialization == req.specialization
    ensures t.resetPasswordToken.None? && t.lastLoginAt.None? && t.updatedAt.None?
  {
    NewTeacher(id, req.firstName, req.lastName, req.email, hash, req.phone, req.institution,
               req.department, req.qualifications, req.experience, req.specialization, now)
  }

  /**
   * `registerTeacher`. A mismatched confirmation is reported before a taken email; on either
   * error nothing is stored. The confirmation and notification emails play no part in the
   * reply.
   */
  method RegisterTeacher(teachers: Table<Teacher>, req: TeacherRegistration, newId: string, salt: nat, now: int)
    returns (r: ApiResponse<Teacher>)
    requires UniqueKeys(teachers.rows, TeacherId)
    requires KeyIndex(teachers.rows, TeacherId, newId).None?
    modifies teachers
    ensures UniqueKeys(teachers.rows, TeacherId)
    ensures !Confirmed(req) ==>
      r == FailureWith("Password confirmation does not match", None) && teachers.rows == old(teachers.rows)
    ensures Confirmed(req) && FindByEmail(old(teachers.rows), req.email).Some? ==>
      r == FailureWith("Teacher with this email already exists", None) && teachers.rows == old(teachers.rows)
    ensures Confirmed(req) && FindByEmail(old(teachers.rows), req.email).None? ==>
      var t := Applicant(newId, req, Encode(req.password, salt), now);
      teachers.rows == old(teachers.rows) + [t] && r == Success(UnderReview, t)
  {
    if !Confirmed(req) {
      return FailureWith("Password confirmation does not match", None);
    }
    if FindByEmail(teachers.rows, req.email).Some? {
      return FailureWith("Teacher with this email already exists", None);
    }
    var teacher := Applicant(newId, req, Encode(req.password, salt), now);
    UpsertFresh(teachers.rows, teacher, TeacherId);
    teachers.Save(teacher, TeacherId);
    r := Success(UnderReview, teacher);
  }

  /** Only an approved application, or an account in use, may sign in. */
  predicate MaySignIn(s: TeacherStatus) {
    s == Approved || s == Active
  }

  /** The refusal for a status that may not sign in. */
  function StatusRefusal(s: TeacherStatus): (m: string)
    requires !MaySignIn(s)
    ensures s == Pending ==> m == "Your application is still under review. Please wait for approval."
    ensures s == Rejected ==> m == "Your application has been rejected. Please contact support."
    ensures s == Suspended ==> m == "Your account has been suspended. Please contact support."
  {
    match s
    case Pending => "Your application is still under review. Please wait for approval."
    case Rejected => "Your application has been rejected. Please contact support."
    case Suspended => "Your account has been suspended. Please contact support."
  }

  /** The teacher after a sign-in: ACTIVE, with the time of the sign-in; nothing else changes. */
  function SignedIn(t: Teacher, now: int): (v: Teacher)
    ensures v.status == Active && v.lastLoginAt == Some(now)
    ensures v.(status := t.status, lastLoginAt := t.lastLoginAt) == t
  {
    t.(lastLoginAt := Some(now), status := Active)
  }

  /**
   * `loginTeacher`. An unknown email and a failed authentication get the same reply; an
   * application that is not approved is refused, with a message naming its status, before the
   * password is looked at. A successful sign-in makes the teacher ACTIVE and records the time.
   * The authentication reads the teachers and the students (`users`) as they are stored.
   */
  method LoginTeacher(teachers: Table<Teacher>, users: seq<Users.User>, email: string, password: string, now: int)
    returns (r: ApiResponse<TeacherLogin>)
    requires UniqueKeys(teachers.rows, TeacherId)
    modifies teachers
    ensures UniqueKeys(teachers.rows, TeacherId)
    ensures FindByEmail(old(teachers.rows), email).None? ==>
      r == FailureWith(InvalidCredentials, None) && teachers.rows == old(teachers.rows)
    ensures FindByEmail(old(teachers.rows), email).Some? ==>
      var i := FindByEmail(old(teachers.rows), email).value;
      var t := old(teachers.rows)[i];
      && (!MaySignIn(t.status) ==>
            r == FailureWith(StatusRefusal(t.status), None) && teachers.rows == old(teachers.rows))
      && (MaySignIn(t.status) && !Security.Authenticate(old(teachers.rows), users, email, password) ==>
            r == FailureWith(InvalidCredentials, None) && teachers.rows == old(teachers.rows))
      && (MaySignIn(t.status) && Security.Authenticate(old(teachers.rows), users, email, password) ==>
            teachers.rows == old(teachers.rows)[i := SignedIn(t, now)]
            && r == Success("Login successful", TeacherLogin(Tokens.TeacherClaims(SignedIn(t, now)), SignedIn(t, now))))
  {
    var found := FindByEmail(teachers.rows, email);
    if found.None? {
      return FailureWith(InvalidCredentials, None);
    }
    var i := found.value;
    var teacher := teachers.rows[i];
    if !MaySignIn(teacher.status) {
      return FailureWith(StatusRefusal(teacher.status), None);
    }
    if !Security.Authenticate(teachers.rows, users, email, password) {
      return FailureWith(InvalidCredentials, None);
    }
    var updated := SignedIn(teacher, now);
    UpsertExisting(teachers.rows, updated, TeacherId, i);
    teachers.Save(updated, TeacherId);
    r := Success("Login successful", TeacherLogin(Tokens.TeacherClaims(updated), updated));
  }

  /** The teacher after an administrator's decision: the new status and the time; nothing else changes. */
  function Decided(t: Teacher, s: TeacherStatus, now: int): (v: Teacher)
    ensures v.status == s && v.updatedAt == Some(now)
    ensures v.(status := t.status, updatedAt := t.updatedAt) == t
  {
    t.(status := s, updatedAt := Some(now))
  }

  /**
   * The common part of `approveTeacher` and `rejectTeacher`: the teacher takes the status
   * whatever it was before; an unknown id changes nothing.
   */
  method Decide(teachers: Table<Teacher>, teacherId: string, s: TeacherStatus, message: string, now: int)
    returns (r: ApiResponse<Teacher>)
    requires UniqueKeys(teachers.rows, TeacherId)
    modifies teachers
    ensures UniqueKeys(teachers.rows, TeacherId)
    ensures KeyIndex(old(teachers.rows), TeacherId, teacherId).None? ==>
      r == FailureWith("Teacher not found", None) && teachers.rows == old(teachers.rows)
    ensures KeyIndex(old(teachers.rows), TeacherId, teacherId).Some? ==>
      var i := KeyIndex(old(teachers.rows), TeacherId, teacherId).value;
      teachers.rows == old(teachers.rows)[i := Decided(old(teachers.rows)[i], s, now)]
      && r == Success(message, Decided(old(teachers.rows)[i], s, now))
  {
    var found := KeyIndex(teachers.rows, TeacherId, teacherId);
    if found.None? {
      return FailureWith("Teacher not found", None);
    }
    var i := found.value;
    var updated := Decided(teachers.rows[i], s, now);
    UpsertExisting(teachers.rows, updated, TeacherId, i);
    teachers.Save(updated, TeacherId);
    r := Success(message, updated);
  }

  /** `approveTeacher`: APPROVED from any status, an ACTIVE teacher included. */
  method ApproveTeacher(teachers: Table<Teacher>, teacherId: string, now: int) returns (r: ApiResponse<Teacher>)
    requires UniqueKeys(teachers.rows, TeacherId)
    modifies teachers
    ensures UniqueKeys(teachers.rows, TeacherId)
    ensures KeyIndex(old(teachers.rows), TeacherId, teacherId).None? ==>
      r == FailureWith("Teacher not found", None) && teachers.rows == old(teachers.rows)
    ensures KeyIndex(old(teachers.rows), TeacherId, teacherId).Some? ==>
      var i := KeyIndex(old(teachers.rows), TeacherId, teacherId).value;
      teachers.rows == old(teachers.rows)[i := Decided(old(teachers.rows)[i], Approved, now)]
      && r == Success("Teacher approved successfully", Decided(old(teachers.rows)[i], Approved, now))
  {
    r := Decide(teachers, teacherId, Approved, "Teacher approved successfully", now);
  }

  /** `rejectTeacher`: REJECTED from any status; the reason only goes into the email. */
  method RejectTeacher(teachers: Table<Teacher>, teacherId: string, reason: string, now: int) returns (r: ApiResponse<Teacher>)
    requires UniqueKeys(teachers.rows, TeacherId)
    modifies teachers
    ensures UniqueKeys(teachers.rows, TeacherId)
    ensures KeyIndex(old(teachers.rows), TeacherId, teacherId).None? ==>
      r == FailureWith("Teacher not found", None) && teachers.rows == old(teachers.rows)
    ensures KeyIndex(old(teachers.rows), TeacherId, teacherId).Some? ==>
      var i := KeyIndex(old(teachers.rows), TeacherId, teacherId).value;
      teachers.rows == old(teachers.rows)[i := Decided(old(teachers.rows)[i], Rejected, now)]
      && r == Success("Teacher rejected", Decided(old(teachers.rows)[i], Rejected, now))
  {
    r := Decide(teachers, teacherId, Rejected, "Teacher rejected", now);
  }

  /** Seconds a teacher's reset token stays valid. */
  const ResetTokenLifetime := 3600

  /** The teacher holding a reset token issued at `now`, expiring an hour later; nothing else changes. */
  function WithResetToken(t: Teacher, token: string, now: int): (v: Teacher)
    ensures v.resetPasswordToken == Some(token) && v.resetPasswordExpiry == Some(now + ResetTokenLifetime)
    ensures v.(resetPasswordToken := t.resetPasswordToken, resetPasswordExpiry := t.resetPasswordExpiry) == t
  {
    t.(resetPasswordToken := Some(token), resetPasswordExpiry := Some(now + ResetTokenLifetime))
  }

  /**
   * The reply of `forgotPassword` as written: whether a teacher has the email (`registered`)
   * and whether the email went out (`delivered`).
   */
  function ForgotReply(registered: bool, delivered: bool): (r: ApiResponse<string>)
    ensures !registered ==> r == SuccessMessage(ResetUnknownEmail)
    ensures registered && delivered ==> r == SuccessMessage(ResetSent)
    ensures registered && !delivered ==> r == FailureWith("Failed to send password reset email", None)
  {
    if !registered then SuccessMessage(ResetUnknownEmail)
    else if !delivered then FailureWith("Failed to send password reset email", None)
    else SuccessMessage(ResetSent)
  }

  /**
   * `forgotPassword`. An unknown email is answered with success and changes nothing. For a
   * teacher with that email the token and its one-hour expiry are stored before the email is
   * sent, so a failed delivery leaves the token stored. A delivered reset gets its own reply,
   * which tells it from an unknown email (see `ForgotReplyRevealsAccount`).
   */
  method ForgotPassword(teachers: Table<Teacher>, email: string, token: string, now: int, delivered: bool)
    returns (r: ApiResponse<string>)
    requires UniqueKeys(teachers.rows, TeacherId)
    modifies teachers
    ensures UniqueKeys(teachers.rows, TeacherId)
    ensures r == ForgotReply(FindByEmail(old(teachers.rows), email).Some?, delivered)
    ensures FindByEmail(old(teachers.rows), email).None? ==> teachers.rows == old(teachers.rows)
    ensures FindByEmail(old(teachers.rows), email).Some? ==>
      var i := FindByEmail(old(teachers.rows), email).value;
      teachers.rows == old(teachers.rows)[i := WithResetToken(old(teachers.rows)[i], token, now)]
  {
    var found := FindByEmail(teachers.rows, email);
    if found.None? {
      return SuccessMessage(ResetUnknownEmail);
    }
    var i := found.value;
    var updated := WithResetToken(teachers.rows[i], token, now);
    UpsertExisting(teachers.rows, updated, TeacherId, i);
    teachers.Save(updated, TeacherId);
    if !delivered {
      return FailureWith("Failed to send password reset email", None);
    }
    r := SuccessMessage(ResetSent);
  }

  /**
   * The reply as written tells a registered email from an unknown one even when the email is
   * delivered, although the code means to keep that secret.
   */
  lemma ForgotReplyRevealsAccount()
    ensures ForgotReply(true, true) != ForgotReply(false, true)
  {
    assert ForgotReply(true, true).message == ResetSent;
    assert ForgotReply(false, true).message == ResetUnknownEmail;
    assert |ResetSent| != |ResetUnknownEmail|;
  }

  /** The reply that keeps the secret: a delivered email is answered like an unknown one. */
  function UniformForgotReply(registered: bool, delivered: bool): (r: ApiResponse<string>)
    ensures registered && !delivered ==> r == FailureWith("Failed to send password reset email", None)
    ensures !registered || delivered ==> r == SuccessMessage(ResetUnknownEmail)
  {
    if registered && !delivered then FailureWith("Failed to send password reset email", None)
    else SuccessMessage(ResetUnknownEmail)
  }

  /** With the uniform reply, whenever the email is delivered the caller cannot tell whether it was registered. */
  lemma UniformReplyHidesAccount(a: bool, b: bool)
    ensures UniformForgotReply(a, true) == UniformForgotReply(b, true)
  {
  }

  // ---------------------------------------------------------------------------
  // The application's life cycle, as seen by sign-in

  /** Changing a teacher without changing the email keeps the teacher the first one with that email. */
  lemma FindByEmailAfterUpdate(rows: seq<Teacher>, i: nat, v: Teacher)
    requires FindByEmail(rows, v.email) == Some(i)
    ensures FindByEmail(rows[i := v], v.email) == Some(i)
  {
    var after := rows[i := v];
    var j := FindByEmail(after, v.email);
    assert after[i].email == v.email;
    assert j.Some?;
  }

  /**
   * A new applicant is the teacher found for its email, and cannot authenticate with any
   * password, the registered one included, until approved: its sign-in is refused as under
   * review.
   */
  lemma ApplicantCannotSignIn(rows: seq<Teacher>, users: seq<Users.User>, id: string, req: TeacherRegistration,
                              salt: nat, now: int, raw: string)
    requires FindByEmail(rows, req.email).None?
    ensures var after := rows + [Applicant(id, req, Encode(req.password, salt), now)];
      && FindByEmail(after, req.email) == Some(|rows|)
      && !MaySignIn(after[|rows|].status)
      && StatusRefusal(after[|rows|].status) == "Your application is still under review. Please wait for approval."
      && !Security.Authenticate(after, users, req.email, raw)
  {
    var t := Applicant(id, req, Encode(req.password, salt), now);
    var after := rows + [t];
    assert after[|rows|] == t;
    assert forall k :: 0 <= k < |rows| ==> after[k] == rows[k];
    assert FindByEmail(after, req.email) == Some(|rows|);
  }

  /**
   * Once approved, the teacher authenticates with exactly the password whose hash is stored,
   * provided the account flags are set.
   */
  lemma ApprovedTeacherAuthenticates(rows: seq<Teacher>, users: seq<Users.User>, i: nat, now: int, raw: string)
    requires i < |rows| && FindByEmail(rows, rows[i].email) == Some(i)
    ensures var t := rows[i];
      var after := rows[i := Decided(t, Approved, now)];
      && MaySignIn(after[i].status)
      && (Security.Authenticate(after, users, t.email, raw) <==>
            t.enabled && t.accountNonLocked && t.accountNonExpired && t.credentialsNonExpired && Matches(raw, t.password))
  {
    var t := rows[i];
    FindByEmailAfterUpdate(rows, i, Decided(t, Approved, now));
  }

  /** Once rejected, the teacher cannot authenticate with any password and its sign-in is refused as rejected. */
  lemma RejectedTeacherCannotSignIn(rows: seq<Teacher>, users: seq<Users.User>, i: nat, now: int, raw: string)
    requires i < |rows| && FindByEmail(rows, rows[i].email) == Some(i)
    ensures var t := rows[i];
      var after := rows[i := Decided(t, Rejected, now)];
      && !MaySignIn(after[i].status)
      && StatusRefusal(after[i].status) == "Your application has been rejected. Please contact support."
      && !Security.Authenticate(after, users, t.email, raw)
  {
    var t := rows[i];
    FindByEmailAfterUpdate(rows, i, Decided(t, Rejected, now));
  }

  /**
   * A sign-in keeps the teacher able to sign in: after it, the same password authenticates
   * exactly when it did before.
   */
  lemma SignInKeepsAccess(rows: seq<Teacher>, users: seq<Users.User>, i: nat, now: int, raw: string)
    requires i < |rows| && FindByEmail(rows, rows[i].email) == Some(i) && MaySignIn(rows[i].status)
    ensures var after := rows[i := SignedIn(rows[i], now)];
      MaySignIn(after[i].status)
      && (Security.Authenticate(after, users, rows[i].email, raw) <==> Security.Authenticate(rows, users, rows[i].email, raw))
  {
    FindByEmailAfterUpdate(rows, i, SignedIn(rows[i], now));
  }

  /** Only the latest decision counts: approving after a rejection is the same as approving outright. */
  lemma LatestDecisionWins(t: Teacher, first: TeacherStatus, second: TeacherStatus, a: int, b: int)
    ensures Decided(Decided(t, first, a), second, b) == Decided(t, second, b)
  {
  }
}
