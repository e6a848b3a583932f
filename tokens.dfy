/**
 * The JSON Web Tokens issued at login and read back by the request filter. Signing,
 * parsing and expiry are not modelled: a token is an opaque string and the parser is a
 * decoder given as a parameter, which yields the token's claims or nothing when parsing
 * fails for any reason.
 */
module Tokens {
  import opened Nullable
  import Users
  import Teachers
  import Supervisors

  /** The claims the filter reads: the subject and the `userType` claim, each possibly absent. */
  datatype Claims = Claims(subject: Option<string>, userType: Option<string>)

  /** `extractAllClaims`: `None` stands for every exception the parser throws. */
  type Decoder = string -> Option<Claims>

  /** `generateToken(User)`: the email as subject, user type "student". */
  function StudentClaims(u: Users.User): (c: Claims)
    ensures c.subject == Some(u.Username()) && c.userType == Some("student")
  {
    Claims(Some(u.email), Some("student"))
  }

  /** `generateToken(Teacher)`: the email as subject, user type "teacher". */
  function TeacherClaims(t: Teachers.Teacher): (c: Claims)
    ensures c.subject == Some(t.Username()) && c.userType == Some("teacher")
  {
    Claims(Some(t.email), Some("teacher"))
  }

  /** `generateToken(Supervisor)`: the email as subject, user type "supervisor". */
  function SupervisorClaims(s: Supervisors.Supervisor): (c: Claims)
    ensures c.subject == Some(s.email) && c.userType == Some("supervisor")
  {
    Claims(Some(s.email), Some("supervisor"))
  }

  /** `extractUserType`: the claim, or "student" when it is absent or the token cannot be read. */
  function UserType(decoded: Option<Claims>): (r: string)
    ensures decoded.Some? && decoded.value.userType.Some? ==> r == decoded.value.userType.value
    ensures decoded.None? || decoded.value.userType.None? ==> r == "student"
  {
    if decoded.Some? && decoded.value.userType.Some? then decoded.value.userType.value else "student"
  }
}
