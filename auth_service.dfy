/**
 * Student accounts: registration, sign-in, and the password-reset token that is issued by
 * "forgot password" and redeemed by "reset password". The `users` collection is a table the
 * operations change; the server clock, the new document id, the random reset token and the
 * hashing salt are parameters.
 */
module AuthService {
  import opened Nullable
  import opened Passwords
  import opened Responses
  import opened Tables
  import opened Users
  import Teachers
  import Tokens
  import Security

  /** A registration form; the fields the service dereferences are present. */
  datatype RegistrationRequest = RegistrationRequest(
    username: string, email: string, password: string,
    languageToLearn: Option<string>, languageKnown: Option<string>)

  const ResetLinkSent := "If your email is registered, you will receive a password reset link"

  /** Seconds a reset token stays valid. */
  const ResetTokenLifetime := 3600

  /**
   * The document `User.builder()` produces for a registration: a level-1 student with no
   * XP and no streak, active, with every account flag set and the password stored as its
   * hash.
   */
  function NewStudent(id: string, req: RegistrationRequest, hash: PasswordHash, now: int): (u: User)
    ensures u.id == id && u.email == req.email && u.username == req.username && u.password == hash
    ensures u.languageToLearn == req.languageToLearn && u.languageKnown == req.languageKnown
    ensures u.role == "STUDENT" && u.Authorities() == ["ROLE_STUDENT"]
    ensures u.currentLevel == Some(1) && u.totalXP == Some(0) && u.currentStreak == Some(0)
    ensures u.status == Active && u.IsEnabled() && u.createdAt == now
    ensures u.accountNonExpired && u.accountNonLocked && u.credentialsNonExpired
    ensures u.resetToken.None? && u.resetTokenExpiry.None? && u.lastLoginAt.None?
  {
    assert "ROLE_" + "STUDENT" == "ROLE_STUDENT";
    User(id, None, None, req.username, req.email, hash, req.languageToLearn, req.languageKnown,
         None, None, "STUDENT", now, None, None, None, None, Some(1), Some(0), Some(0),
         true, true, true, true, Active)
  }

  /** A new student signs in with the password that was registered, and only with it. */
  lemma NewStudentPassword(id: string, req: RegistrationRequest, salt: nat, now: int, attempt: string)
    ensures Matches(attempt, NewStudent(id, req, Encode(req.password, salt), now).password) <==> attempt == req.password
    ensures NewStudent(id, req, Encode(req.password, salt), now).password.secret == req.password
  {
  }

  /**
   * `register`. A taken email is reported before a taken username; on either error the
   * collection is unchanged. `newId` is the id the database gives the new document.
   */
  method Register(users: Table<User>, req: RegistrationRequest, newId: string, salt: nat, now: int)
    returns (r: ApiResponse<Tokens.Claims>)
    requires UniqueKeys(users.rows, UserId)
    requires KeyIndex(users.rows, UserId, newId).None?
    modifies users
    ensures UniqueKeys(users.rows, UserId)
    ensures FindByEmail(old(users.rows), req.email).Some? ==>
      r == FailureWith("Email already registered", None) && users.rows == old(users.rows)
    ensures FindByEmail(old(users.rows), req.email).None? && UsernameTaken(old(users.rows), req.username) ==>
      r == FailureWith("Username already taken", None) && users.rows == old(users.rows)
    ensures FindByEmail(old(users.rows), req.email).None? && !UsernameTaken(old(users.rows), req.username) ==>
      var u := NewStudent(newId, req, Encode(req.password, salt), now);
      users.rows == old(users.rows) + [u] && r == Success("Registration successful", Tokens.StudentClaims(u))
  {
    if FindByEmail(users.rows, req.email).Some? {
      return FailureWith("Email already registered", None);
    }
    if UsernameTaken(users.rows, req.username) {
      return FailureWith("Username already taken", None);
    }
    var user := NewStudent(newId, req, Encode(req.password, salt), now);
    UpsertFresh(users.rows, user, UserId);
    users.Save(user, UserId);
    r := Success("Registration successful", Tokens.StudentClaims(user));
  }

  /** The refusal for an account whose status is not ACTIVE. */
  function StatusMessage(status: UserStatus): (m: string)
    requires status != Active
    ensures status == Inactive ==> m == "Your account is inactive. Please contact support."
    ensures status == Suspended ==> m == "Your account has been suspended. Please contact support."
  {
    match status
    case Inactive => "Your account is inactive. Please contact support."
    case Suspended => "Your account has been suspended. Please contact support."
  }

  /**
   * `login`. An unknown email and a failed authentication give the same answer; a status
   * other than ACTIVE is refused before the password is looked at; a successful sign-in
   * changes the stored student's `lastLoginAt` and nothing else. The authentication reads
   * the teachers (`teachers`) and the students as they are stored.
   */
  method Login(users: Table<User>, teachers: seq<Teachers.Teacher>, email: string, password: string, now: int)
    returns (r: ApiResponse<Tokens.Claims>)
    requires UniqueKeys(users.rows, UserId)
    modifies users
    ensures UniqueKeys(users.rows, UserId)
    ensures FindByEmail(old(users.rows), email).None? ==>
      r == FailureWith("Invalid email or password", None) && users.rows == old(users.rows)
    ensures FindByEmail(old(users.rows), email).Some? ==>
      var i := FindByEmail(old(users.rows), email).value;
      var u := old(users.rows)[i];
      && (u.status != Active ==> r == FailureWith(StatusMessage(u.status), None) && users.rows == old(users.rows))
      && (u.status == Active && !Security.Authenticate(teachers, old(users.rows), email, password) ==>
            r == FailureWith("Invalid email or password", None) && users.rows == old(users.rows))
      && (u.status == Active && Security.Authenticate(teachers, old(users.rows), email, password) ==>
            users.rows == old(users.rows)[i := u.(lastLoginAt := Some(now))]
            && r == Success("Login successful", Tokens.StudentClaims(u)))
  {
    var found := FindByEmail(users.rows, email);
    if found.None? {
      return FailureWith("Invalid email or password", None);
    }
    var i := found.value;
    var user := users.rows[i];
    if user.status != Active {
      return FailureWith(StatusMessage(user.status), None);
    }
    if !Security.Authenticate(teachers, users.rows, email, password) {
      return FailureWith("Invalid email or password", None);
    }
    var updated := user.(lastLoginAt := Some(now));
    UpsertExisting(users.rows, updated, UserId, i);
    users.Save(updated, UserId);
    r := Success("Login successful", Tokens.StudentClaims(updated));
  }

  /**
   * `forgotPassword`. Registered or not, the caller gets the same reply; only a registered
   * student gains a reset token, valid for an hour, and it is stored before the email is sent.
   * `token` is the random token; `delivered` says whether sending the email succeeded, and
   * a failure surfaces as an exception (`None`) with the token already stored.
   */
  method ForgotPassword(users: Table<User>, email: string, token: string, now: int, delivered: bool)
    returns (reply: Option<string>)
    requires UniqueKeys(users.rows, UserId)
    modifies users
    ensures UniqueKeys(users.rows, UserId)
    ensures FindByEmail(old(users.rows), email).None? ==>
      reply == Some(ResetLinkSent) && users.rows == old(users.rows)
    ensures FindByEmail(old(users.rows), email).Some? ==>
      var i := FindByEmail(old(users.rows), email).value;
      users.rows == old(users.rows)[i := WithResetToken(old(users.rows)[i], token, now)]
      && reply == (if delivered then Some(ResetLinkSent) else None)
  {
    var found := FindByEmail(users.rows, email);
    if found.None? {
      return Some(ResetLinkSent);
    }
    var i := found.value;
    var updated := WithResetToken(users.rows[i], token, now);
    UpsertExisting(users.rows, updated, UserId, i);
    users.Save(updated, UserId);
    if !delivered {
      return None;
    }
    reply := Some(ResetLinkSent);
  }

  /** The student with a reset token issued at `now`: it expires one hour later; nothing else changes. */
  function WithResetToken(u: User, token: string, now: int): (v: User)
    ensures v.resetToken == Some(token) && v.resetTokenExpiry == Some(now + ResetTokenLifetime)
    ensures v.(resetToken := u.resetToken, resetTokenExpiry := u.resetTokenExpiry) == u
  {
    u.(resetToken := Some(token), resetTokenExpiry := Some(now + ResetTokenLifetime))
  }

  /** The student after a password reset: the new hash, and no token or expiry left. */
  function AfterReset(u: User, hash: PasswordHash): (v: User)
    ensures v.password == hash && v.resetToken.None? && v.resetTokenExpiry.None?
    ensures v.(password := u.password, resetToken := u.resetToken, resetTokenExpiry := u.resetTokenExpiry) == u
  {
    u.(password := hash, resetToken := None, resetTokenExpiry := None)
  }

  /**
   * `resetPassword`. An unknown token is refused; a token whose expiry lies before `now` is
   * refused with nothing changed, while one expiring exactly at `now` is still accepted; a
   * missing expiry makes the unboxing throw (`None`). A successful reset stores the new
   * hash and clears the token and its expiry.
   */
  method ResetPassword(users: Table<User>, token: string, newPassword: string, salt: nat, now: int)
    returns (reply: Option<string>)
    requires UniqueKeys(users.rows, UserId)
    modifies users
    ensures UniqueKeys(users.rows, UserId)
    ensures FindByResetToken(old(users.rows), token).None? ==>
      reply == Some("Invalid or expired token") && users.rows == old(users.rows)
    ensures FindByResetToken(old(users.rows), token).Some? ==>
      var i := FindByResetToken(old(users.rows), token).value;
      var expiry := old(users.rows)[i].resetTokenExpiry;
      && (expiry.None? ==> reply.None? && users.rows == old(users.rows))
      && (expiry.Some? && expiry.value < now ==> reply == Some("Token has expired") && users.rows == old(users.rows))
      && (expiry.Some? && now <= expiry.value ==>
            reply == Some("Password has been reset successfully")
            && users.rows == old(users.rows)[i := AfterReset(old(users.rows)[i], Encode(newPassword, salt))])
  {
    var found := FindByResetToken(users.rows, token);
    if found.None? {
      return Some("Invalid or expired token");
    }
    var i := found.value;
    var user := users.rows[i];
    if user.resetTokenExpiry.None? {
      return None;
    }
    if user.resetTokenExpiry.value < now {
      return Some("Token has expired");
    }
    var updated := AfterReset(user, Encode(newPassword, salt));
    UpsertExisting(users.rows, updated, UserId, i);
    users.Save(updated, UserId);
    reply := Some("Password has been reset successfully");
  }

  /** No two students hold the same reset token (tokens are random UUIDs). */
  predicate TokensDistinct(rows: seq<User>) {
    forall i, j :: 0 <= i < |rows| && 0 <= j < |rows| && rows[i].resetToken.Some? && rows[i].resetToken == rows[j].resetToken ==> i == j
  }

  /**
   * A token just issued to student `i` leads back to that student, and stays valid up to and
   * including one hour after it was issued.
   */
  lemma IssuedTokenRedeemable(rows: seq<User>, i: nat, token: string, issued: int, later: int)
    requires i < |rows| && TokensDistinct(rows)
    requires forall k :: 0 <= k < |rows| ==> rows[k].resetToken != Some(token)
    requires issued <= later <= issued + ResetTokenLifetime
    ensures var after := rows[i := WithResetToken(rows[i], token, issued)];
      FindByResetToken(after, token) == Some(i) && TokensDistinct(after)
      && !(after[i].resetTokenExpiry.value < later)
  {
    var after := rows[i := WithResetToken(rows[i], token, issued)];
    var found := FindByResetToken(after, token);
    assert after[i].resetToken == Some(token);
    assert found.Some?;
    assert found.value == i;
  }

  /**
   * A reset token works once: after a successful reset no student holds it any more, so
   * presenting it again gives "Invalid or expired token".
   */
  lemma ResetTokenSingleUse(rows: seq<User>, token: string, hash: PasswordHash)
    requires TokensDistinct(rows)
    requires FindByResetToken(rows, token).Some?
    ensures var i := FindByResetToken(rows, token).value;
      var after := rows[i := AfterReset(rows[i], hash)];
      FindByResetToken(after, token).None? && TokensDistinct(after)
  {
    var i := FindByResetToken(rows, token).value;
    var after := rows[i := AfterReset(rows[i], hash)];
    forall k | 0 <= k < |after|
      ensures after[k].resetToken != Some(token)
    {
      if k != i {
        assert rows[i].resetToken == Some(token);
      }
    }
  }

  /** After a reset, the new password is the one that matches. */
  lemma ResetChangesPassword(u: User, newPassword: string, salt: nat, attempt: string)
    ensures Matches(attempt, AfterReset(u, Encode(newPassword, salt)).password) <==> attempt == newPassword
  {
  }
}
