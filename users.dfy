/** The student account document (`users` collection) and the queries made on it. */
module Users {
  import opened Nullable
  import opened Passwords
  import Text
  import Tables

  datatype UserStatus = Active | Inactive | Suspended

  /**
   * A student. Times are seconds on the server clock; `resetTokenExpiry` is an epoch
   * second. Fields the services dereference without a null check are plain strings.
   */
  datatype User = User(
    id: string,
    firstName: Option<string>,
    lastName: Option<string>,
    username: string,
    email: string,
    password: PasswordHash,
    languageToLearn: Option<string>,
    languageKnown: Option<string>,
    resetToken: Option<string>,
    resetTokenExpiry: Option<int>,
    role: string,
    createdAt: int,
    updatedAt: Option<int>,
    lastLoginAt: Option<int>,
    profileImage: Option<string>,
    bio: Option<string>,
    currentLevel: Option<int>,
    totalXP: Option<int>,
    currentStreak: Option<int>,
    enabled: bool,
    accountNonExpired: bool,
    accountNonLocked: bool,
    credentialsNonExpired: bool,
    status: UserStatus)
  {
    /** `getAuthorities`: one authority, "ROLE_" followed by the role. */
    function Authorities(): (r: seq<string>)
      ensures |r| == 1 && Text.StartsWith(r[0], "ROLE_") && r[0][5..] == role
    {
      ["ROLE_" + role]
    }

    /** `getUsername`: Spring Security knows a student by the email, not by `username`. */
    function Username(): (r: string)
      ensures r == email
    {
      email
    }

    /** `isEnabled`: an inactive or suspended student, or one with the flag cleared, is refused. */
    predicate IsEnabled()
      ensures IsEnabled() <==> enabled && status != Inactive && status != Suspended
    {
      enabled && status == Active
    }

    /** `getFullName`: "first last" when both names are set, otherwise the username. */
    function FullName(): (r: string)
      ensures firstName.Some? && lastName.Some? ==>
        |r| == |firstName.value| + 1 + |lastName.value| && r[..|firstName.value|] == firstName.value
        && r[|firstName.value|] == ' ' && r[|firstName.value| + 1..] == lastName.value
      ensures firstName.None? || lastName.None? ==> r == username
    {
      if firstName.Some? && lastName.Some? then firstName.value + " " + lastName.value
      else username
    }
  }

  function UserId(u: User): string {
    u.id
  }

  /** `findByEmail` */
  function FindByEmail(rows: seq<User>, email: string): (r: Option<nat>)
    ensures r.Some? ==> r.value < |rows| && rows[r.value].email == email
    ensures r.None? <==> forall k :: 0 <= k < |rows| ==> rows[k].email != email
  {
    Tables.IndexWhere(rows, (u: User) => u.email == email)
  }

  /** `findByResetToken` */
  function FindByResetToken(rows: seq<User>, token: string): (r: Option<nat>)
    ensures r.Some? ==> r.value < |rows| && rows[r.value].resetToken == Some(token)
    ensures r.None? <==> forall k :: 0 <= k < |rows| ==> rows[k].resetToken != Some(token)
  {
    Tables.IndexWhere(rows, (u: User) => u.resetToken == Some(token))
  }

  /** `existsByUsername` */
  predicate UsernameTaken(rows: seq<User>, username: string) {
    exists k :: 0 <= k < |rows| && rows[k].username == username
  }
}
