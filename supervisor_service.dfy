/**
 * Supervisor accounts: registration, sign-in and the profile update. The `supervisors`
 * collection is a table the operations change; the clock, the new document id and the
 * hashing salt are parameters.
 */
module SupervisorService {
  import opened Nullable
  import opened Passwords
  import opened Responses
  import opened Tables
  import opened Supervisors
  import Tokens

  /** A registration form. The password is present; a missing confirmation is a mismatch. */
  datatype SupervisorRegistration = SupervisorRegistration(
    firstName: Option<string>, lastName: Option<string>, email: string,
    password: string, confirmPassword: Option<string>,
    phone: Option<string>, institution: Option<string>, department: Option<string>,
    qualifications: Option<string>, experience: Option<string>,
    specialization: Option<seq<string>>)

  /** The profile fields a supervisor may change; a missing one is left as it is. */
  datatype SupervisorUpdate = SupervisorUpdate(
    firstName: Option<string>, lastName: Option<string>, phone: Option<string>,
    department: Option<string>, qualifications: Option<string>, experience: Option<string>,
    specialization: Option<seq<string>>)

  /** The login reply: the token (as its claims) and the supervisor as saved. */
  datatype SupervisorLogin = SupervisorLogin(token: Tokens.Claims, supervisor: Supervisor)

  const Registered := "Registration successful. Please wait for approval."
  const InvalidCredentials := "Invalid email or password"
  const NotApproved := "Account not approved yet. Please wait for admin approval."
  const Inactive := "Account is inactive. Please contact administrator."

  predicate Confirmed(req: SupervisorRegistration) {
    req.confirmPassword == Some(req.password)
  }

  /**
   * The supervisor a registration creates: approved and active at once, in the standard
   * role, created and updated now, with the password hashed.
   */
  function NewSupervisor(id: string, req: SupervisorRegistration, hash: PasswordHash, now: int): (s: Supervisor)
    ensures s.status == Approved && s.isActive && s.role == StandardSupervisor
    ensures s.id == id && s.email == req.email && s.password == hash
    ensures s.createdAt == now && s.updatedAt == now && s.lastLoginAt.None?
    ensures s.firstName == req.firstName && s.lastName == req.lastName && s.phone == req.phone
    ensures s.institution == req.institution && s.department == req.department
    ensures s.qualifications == req.qualifications && s.experience == req.experience
    ensures s.specialization == req.specialization
    ensures s.employeeId.None? && s.profileImage.None?
  {
    Supervisor(id, req.firstName, req.lastName, req.email, req.phone, req.institution, req.department,
               req.qualifications, req.experience, req.specialization, hash, Approved, true,
               now, now, None, None, None, StandardSupervisor)
  }

  /**
   * `registerSupervisor`. A taken email is reported before a mismatched confirmation (the
   * opposite order to teacher registration); on either error nothing is stored. The new
   * account is approved and active although the reply asks to wait for approval.
   */
  method RegisterSupervisor(supervisors: Table<Supervisor>, req: SupervisorRegistration, newId: string, salt: nat, now: int)
    returns (r: ApiResponse<Supervisor>)
    requires UniqueKeys(supervisors.rows, SupervisorId)
    requires KeyIndex(supervisors.rows, SupervisorId, newId).None?
    modifies supervisors
    ensures UniqueKeys(supervisors.rows, SupervisorId)
    ensures FindByEmail(old(supervisors.rows), req.email).Some? ==>
      r == Failure("Email already registered") && supervisors.rows == old(supervisors.rows)
    ensures FindByEmail(old(supervisors.rows), req.email).None? && !Confirmed(req) ==>
      r == Failure("Passwords do not match") && supervisors.rows == old(supervisors.rows)
    ensures FindByEmail(old(supervisors.rows), req.email).None? && Confirmed(req) ==>
      var s := NewSupervisor(newId, req, Encode(req.password, salt), now);
      supervisors.rows == old(supervisors.rows) + [s] && r == Success(Registered, s)
  {
    if FindByEmail(supervisors.rows, req.email).Some? {
      return Failure("Email already registered");
    }
    if !Confirmed(req) {
      return Failure("Passwords do not match");
    }
    var supervisor := NewSupervisor(newId, req, Encode(req.password, salt), now);
    UpsertFresh(supervisors.rows, supervisor, SupervisorId);
    supervisors.Save(supervisor, SupervisorId);
    r := Success(Registered, supervisor);
  }

  /**
   * Why a sign-in with `password` is refused, checked in the order of the code: the password
   * first, then the approval, then the active flag.
   */
  function LoginRefusal(s: Supervisor, password: string): (m: Option<string>)
    ensures !Matches(password, s.password) ==> m == Some(InvalidCredentials)
    ensures Matches(password, s.password) && s.status != Approved ==> m == Some(NotApproved)
    ensures Matches(password, s.password) && s.status == Approved && !s.isActive ==> m == Some(Inactive)
    ensures m.None? <==> Matches(password, s.password) && s.status == Approved && s.isActive
  {
    if !Matches(password, s.password) then Some(InvalidCredentials)
    else if s.status != Approved then Some(NotApproved)
    else if !s.isActive then Some(Inactive)
    else None
  }

  /**
   * `loginSupervisor`. An unknown email and a wrong password get the same reply, and the
   * password is checked before the status, so a wrong password on an unapproved account
   * reveals nothing more. A successful sign-in changes only `lastLoginAt`.
   */
  method LoginSupervisor(supervisors: Table<Supervisor>, email: string, password: string, now: int)
    returns (r: ApiResponse<SupervisorLogin>)
    requires UniqueKeys(supervisors.rows, SupervisorId)
    modifies supervisors
    ensures UniqueKeys(supervisors.rows, SupervisorId)
    ensures FindByEmail(old(supervisors.rows), email).None? ==>
      r == Failure(InvalidCredentials) && supervisors.rows == old(supervisors.rows)
    ensures FindByEmail(old(supervisors.rows), email).Some? ==>
      var i := FindByEmail(old(supervisors.rows), email).value;
      var s := old(supervisors.rows)[i];
      && (LoginRefusal(s, password).Some? ==>
            r == Failure(LoginRefusal(s, password).value) && supervisors.rows == old(supervisors.rows))
      && (LoginRefusal(s, password).None? ==>
            supervisors.rows == old(supervisors.rows)[i := s.(lastLoginAt := Some(now))]
            && r == Success("Login successful",
                            SupervisorLogin(Tokens.SupervisorClaims(s.(lastLoginAt := Some(now))), s.(lastLoginAt := Some(now)))))
  {
    var found := FindByEmail(supervisors.rows, email);
    if found.None? {
      return Failure(InvalidCredentials);
    }
    var i := found.value;
    var supervisor := supervisors.rows[i];
    var refusal := LoginRefusal(supervisor, password);
    if refusal.Some? {
      return Failure(refusal.value);
    }
    var updated := supervisor.(lastLoginAt := Some(now));
    UpsertExisting(supervisors.rows, updated, SupervisorId, i);
    supervisors.Save(updated, SupervisorId);
    r := Success("Login successful", SupervisorLogin(Tokens.SupervisorClaims(updated), updated));
  }

  /**
   * The profile after an update at `now`: each field given replaces the stored one, a
   * missing field keeps it, and the update time is set. The email, institution, password,
   * status, active flag and role are never changed.
   */
  function UpdatedProfile(s: Supervisor, u: SupervisorUpdate, now: int): (v: Supervisor)
    ensures v.firstName == u.firstName.Or(s.firstName) && v.lastName == u.lastName.Or(s.lastName)
    ensures v.phone == u.phone.Or(s.phone) && v.department == u.department.Or(s.department)
    ensures v.qualifications == u.qualifications.Or(s.qualifications)
    ensures v.experience == u.experience.Or(s.experience)
    ensures v.specialization == u.specialization.Or(s.specialization)
    ensures v.updatedAt == now
    ensures v.id == s.id && v.email == s.email && v.institution == s.institution && v.password == s.password
    ensures v.status == s.status && v.isActive == s.isActive && v.role == s.role
    ensures v.createdAt == s.createdAt && v.lastLoginAt == s.lastLoginAt
  {
    s.(firstName := u.firstName.Or(s.firstName), lastName := u.lastName.Or(s.lastName),
       phone := u.phone.Or(s.phone), department := u.department.Or(s.department),
       qualifications := u.qualifications.Or(s.qualifications), experience := u.experience.Or(s.experience),
       specialization := u.specialization.Or(s.specialization), updatedAt := now)
  }

  /** Repeating an update changes nothing but the update time. */
  lemma UpdateIdempotent(s: Supervisor, u: SupervisorUpdate, first: int, second: int)
    ensures UpdatedProfile(UpdatedProfile(s, u, first), u, second) == UpdatedProfile(s, u, second)
  {
  }

  /**
   * `updateSupervisorProfile`. An unknown id is refused and changes nothing; otherwise the
   * merged profile replaces the stored one.
   */
  method UpdateSupervisorProfile(supervisors: Table<Supervisor>, supervisorId: string, u: SupervisorUpdate, now: int)
    returns (r: ApiResponse<Supervisor>)
    requires UniqueKeys(supervisors.rows, SupervisorId)
    modifies supervisors
    ensures UniqueKeys(supervisors.rows, SupervisorId)
    ensures KeyIndex(old(supervisors.rows), SupervisorId, supervisorId).None? ==>
      r == Failure("Supervisor not found") && supervisors.rows == old(supervisors.rows)
    ensures KeyIndex(old(supervisors.rows), SupervisorId, supervisorId).Some? ==>
      var i := KeyIndex(old(supervisors.rows), SupervisorId, supervisorId).value;
      var v := UpdatedProfile(old(supervisors.rows)[i], u, now);
      supervisors.rows == old(supervisors.rows)[i := v] && r == Success("Profile updated successfully", v)
  {
    var found := KeyIndex(supervisors.rows, SupervisorId, supervisorId);
    if found.None? {
      return Failure("Supervisor not found");
    }
    var i := found.value;
    var updated := UpdatedProfile(supervisors.rows[i], u, now);
    UpsertExisting(supervisors.rows, updated, SupervisorId, i);
    supervisors.Save(updated, SupervisorId);
    r := Success("Profile updated successfully", updated);
  }

  /**
   * A supervisor who has just registered can sign in at once with the registered password,
   * and with no other.
   */
  lemma RegisteredSupervisorSignsIn(rows: seq<Supervisor>, id: string, req: SupervisorRegistration, salt: nat, now: int, attempt: string)
    requires FindByEmail(rows, req.email).None? && Confirmed(req)
    ensures var after := rows + [NewSupervisor(id, req, Encode(req.password, salt), now)];
      && FindByEmail(after, req.email) == Some(|rows|)
      && (LoginRefusal(after[|rows|], attempt).None? <==> attempt == req.password)
  {
    var s := NewSupervisor(id, req, Encode(req.password, salt), now);
    var after := rows + [s];
    assert after[|rows|] == s;
    assert forall k :: 0 <= k < |rows| ==> after[k] == rows[k];
  }

  /** A profile update never affects whether a password signs in. */
  lemma UpdateKeepsSignIn(s: Supervisor, u: SupervisorUpdate, now: int, password: string)
    ensures LoginRefusal(UpdatedProfile(s, u, now), password) == LoginRefusal(s, password)
  {
  }
}
