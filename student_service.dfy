/** The student's own profile update. The `users` collection is a table the operation changes. */
module StudentService {
  import opened Nullable
  import opened Responses
  import opened Tables
  import opened Users

  /**
   * The fields of the submitted student document the update reads; each may be missing.
   * Every other field of the submitted document is ignored.
   */
  datatype ProfileUpdate = ProfileUpdate(
    username: Option<string>, email: Option<string>,
    languageToLearn: Option<string>, languageKnown: Option<string>)

  /**
   * What the submitted document's `getUsername()` answers: like every `User`, it is known by
   * its email, so the submitted `username` field is never read.
   */
  function SubmittedUsername(p: ProfileUpdate): (r: Option<string>)
    ensures r.Some? <==> p.email.Some?
    ensures r.Some? ==> r.value == p.email.value
  {
    p.email
  }

  /**
   * The student after the update, as the code does it: the username is set from the
   * submitted document's `getUsername()`, which is its email; the email and the two languages
   * each take the submitted value when there is one; every other field, the password, role,
   * status and progress counters included, stays as stored.
   */
  function UpdatedStudent(u: User, p: ProfileUpdate): (v: User)
    ensures v.username == p.email.OrElse(u.username)
    ensures v.email == p.email.OrElse(u.email)
    ensures v.languageToLearn == p.languageToLearn.Or(u.languageToLearn)
    ensures v.languageKnown == p.languageKnown.Or(u.languageKnown)
    ensures v.(username := u.username, email := u.email, languageToLearn := u.languageToLearn,
               languageKnown := u.languageKnown) == u
  {
    u.(username := SubmittedUsername(p).OrElse(u.username), email := p.email.OrElse(u.email),
       languageToLearn := p.languageToLearn.Or(u.languageToLearn),
       languageKnown := p.languageKnown.Or(u.languageKnown))
  }

  /**
   * A submitted username never reaches the store: a student named "alice" who submits only
   * the username "bob" is still named "alice", and submitting only an email renames the
   * student to that email.
   */
  lemma SubmittedUsernameDropped(u: User)
    requires u.username == "alice"
    ensures UpdatedStudent(u, ProfileUpdate(Some("bob"), None, None, None)).username == "alice"
    ensures UpdatedStudent(u, ProfileUpdate(None, Some("b@x"), None, None)).username == "b@x"
  {
  }

  /**
   * The update the code evidently means: the username and the email each take the submitted
   * value of their own field when there is one, and nothing else changes.
   */
  function IntendedUpdatedStudent(u: User, p: ProfileUpdate): (v: User)
    ensures v.(username := u.username, email := u.email, languageToLearn := u.languageToLearn,
               languageKnown := u.languageKnown) == u
  {
    u.(username := p.username.OrElse(u.username), email := p.email.OrElse(u.email),
       languageToLearn := p.languageToLearn.Or(u.languageToLearn),
       languageKnown := p.languageKnown.Or(u.languageKnown))
  }

  /**
   * With the intended update a submitted username is stored, a missing one keeps the stored
   * username, and changing the email alone does not rename the student.
   */
  lemma IntendedUpdateStoresUsername(u: User, p: ProfileUpdate)
    ensures p.username.Some? ==> IntendedUpdatedStudent(u, p).username == p.username.value
    ensures p.username.None? ==> IntendedUpdatedStudent(u, p).username == u.username
    ensures IntendedUpdatedStudent(IntendedUpdatedStudent(u, p), p) == IntendedUpdatedStudent(u, p)
  {
  }

  /** Submitting the same update twice stores the same student as submitting it once. */
  lemma UpdateIdempotent(u: User, p: ProfileUpdate)
    ensures UpdatedStudent(UpdatedStudent(u, p), p) == UpdatedStudent(u, p)
  {
  }

  /** An update with every field missing leaves the student as stored. */
  lemma EmptyUpdateChangesNothing(u: User)
    ensures UpdatedStudent(u, ProfileUpdate(None, None, None, None)) == u
  {
  }

  /**
   * `updateStudentProfile`. An unknown id is refused and changes nothing; otherwise the
   * updated student replaces the stored one.
   */
  method UpdateStudentProfile(users: Table<User>, studentId: string, p: ProfileUpdate)
    returns (r: ApiResponse<User>)
    requires UniqueKeys(users.rows, UserId)
    modifies users
    ensures UniqueKeys(users.rows, UserId)
    ensures KeyIndex(old(users.rows), UserId, studentId).None? ==>
      r == Failure("Student not found") && users.rows == old(users.rows)
    ensures KeyIndex(old(users.rows), UserId, studentId).Some? ==>
      var i := KeyIndex(old(users.rows), UserId, studentId).value;
      users.rows == old(users.rows)[i := UpdatedStudent(old(users.rows)[i], p)]
      && r == Success("Profile updated successfully", UpdatedStudent(old(users.rows)[i], p))
  {
    var found := KeyIndex(users.rows, UserId, studentId);
    if found.None? {
      return Failure("Student not found");
    }
    var i := found.value;
    var updated := UpdatedStudent(users.rows[i], p);
    UpsertExisting(users.rows, updated, UserId, i);
    users.Save(updated, UserId);
    r := Success("Profile updated successfully", updated);
  }

  /**
   * A changed email is the student's new sign-in name: the student is known by the new
   * email, and, unless another student has it first, found by it.
   */
  lemma NewEmailIsSignInName(rows: seq<User>, i: nat, p: ProfileUpdate)
    requires i < |rows| && p.email.Some?
    requires forall k :: 0 <= k < i ==> rows[k].email != p.email.value
    ensures var v := UpdatedStudent(rows[i], p);
      v.Username() == p.email.value && FindByEmail(rows[i := v], p.email.value) == Some(i)
  {
    var v := UpdatedStudent(rows[i], p);
    var after := rows[i := v];
    assert after[i].email == p.email.value;
    assert forall k :: 0 <= k < i ==> after[k] == rows[k];
  }
}
