/**
 * Request security: the filter that turns a bearer token into the request's identity,
 * the account lookup and password check behind `authenticationManager.authenticate`,
 * and the ordered URL rules that decide which identities may reach which endpoints.
 */
module Security {
  import opened Nullable
  import Text
  import Tables
  import opened Passwords
  import opened Tokens
  import Users
  import Teachers

  // ---------------------------------------------------------------------------
  // The JWT filter

  const BearerPrefix: string := "Bearer "

  /**
   * The token carried by an `Authorization` header: only a header that starts with the
   * exact, case-sensitive "Bearer " has one, and it is the rest of the header.
   */
  function BearerToken(header: Option<string>): (r: Option<string>)
    ensures r.Some? <==> header.Some? && Text.StartsWith(header.value, BearerPrefix)
    ensures r.Some? ==> header.value == BearerPrefix + r.value
  {
    if header.Some? && Text.StartsWith(header.value, BearerPrefix) then Some(header.value[7..])
    else None
  }

  lemma BearerRoundTrip(jwt: string)
    ensures BearerToken(Some(BearerPrefix + jwt)) == Some(jwt)
  {
    assert (BearerPrefix + jwt)[..7] == BearerPrefix;
    assert (BearerPrefix + jwt)[7..] == jwt;
  }

  /**
   * The role granted for a `userType` claim: an exact-case switch in which only the two
   * spellings "SUPERVISOR"/"supervisor" and "TEACHER"/"teacher" are recognised; every other
   * value, including "student" and "Teacher", falls to ROLE_USER.
   */
  function RoleFor(userType: string): (r: string)
    ensures r == "ROLE_SUPERVISOR" <==> userType == "SUPERVISOR" || userType == "supervisor"
    ensures r == "ROLE_TEACHER" <==> userType == "TEACHER" || userType == "teacher"
    ensures r == "ROLE_SUPERVISOR" || r == "ROLE_TEACHER" || r == "ROLE_USER"
  {
    if userType == "SUPERVISOR" || userType == "supervisor" then "ROLE_SUPERVISOR"
    else if userType == "TEACHER" || userType == "teacher" then "ROLE_TEACHER"
    else "ROLE_USER"
  }

  /** A `UsernamePasswordAuthenticationToken` in the security context. */
  datatype Authentication = Authentication(principal: string, credentials: Option<string>, authorities: seq<string>)

  /**
   * The identity the filter leaves in the security context, given the one already there,
   * the `Authorization` header and the token decoder.
   */
  function ResolveIdentity(current: Option<Authentication>, header: Option<string>, decode: Decoder): Option<Authentication>
  {
    match BearerToken(header)
    case None => current
    case Some(jwt) =>
      var decoded := decode(jwt);
      if decoded.None? || decoded.value.subject.None? || current.Some? then current
      else Some(Authentication(decoded.value.subject.value, None, [RoleFor(UserType(decoded))]))
  }

  /** A request without a bearer header passes through with the identity it had. */
  lemma NoBearerNoIdentity(current: Option<Authentication>, header: Option<string>, decode: Decoder)
    requires header.None? || !Text.StartsWith(header.value, BearerPrefix)
    ensures ResolveIdentity(current, header, decode) == current
  {
  }

  /** An identity already in the context is never replaced. */
  lemma ExistingIdentityKept(current: Option<Authentication>, header: Option<string>, decode: Decoder)
    requires current.Some?
    ensures ResolveIdentity(current, header, decode) == current
  {
  }

  /**
   * The filter installs an identity exactly when the context had none, the header carries
   * a bearer token, and the token decodes to claims with a subject; the identity is that
   * subject with no credentials and exactly one authority, chosen from the user type.
   */
  lemma IdentityInstalled(current: Option<Authentication>, header: Option<string>, decode: Decoder)
    ensures var r := ResolveIdentity(current, header, decode);
      r != current <==>
        current.None? && BearerToken(header).Some? && decode(BearerToken(header).value).Some?
        && decode(BearerToken(header).value).value.subject.Some?
    ensures var r := ResolveIdentity(current, header, decode);
      r != current ==>
        var claims := decode(BearerToken(header).value).value;
        r.value.principal == claims.subject.value && r.value.credentials.None?
        && r.value.authorities == [RoleFor(UserType(Some(claims)))]
  {
  }

  /**
   * The tokens issued at login read back as the role of the account type: a student's
   * token gives ROLE_USER, a teacher's ROLE_TEACHER, a supervisor's ROLE_SUPERVISOR, each
   * with the account's email as principal.
   */
  lemma IssuedTokensGrantAccountRole(jwt: string, decode: Decoder, claims: Claims)
    requires decode(jwt) == Some(claims)
    requires claims.subject.Some?
    requires claims.userType in {Some("student"), Some("teacher"), Some("supervisor")}
    ensures var r := ResolveIdentity(None, Some(BearerPrefix + jwt), decode);
      r.Some? && r.value.principal == claims.subject.value
      && (claims.userType == Some("student") ==> r.value.authorities == ["ROLE_USER"])
      && (claims.userType == Some("teacher") ==> r.value.authorities == ["ROLE_TEACHER"])
      && (claims.userType == Some("supervisor") ==> r.value.authorities == ["ROLE_SUPERVISOR"])
  {
    BearerRoundTrip(jwt);
  }

  /** The per-request security context that the filter writes. */
  class SecurityContext {
    var authentication: Option<Authentication>

    constructor()
      ensures authentication.None?
    {
      authentication := None;
    }
  }

  /**
   * `JwtAuthenticationFilter.doFilterInternal`. Every path continues the filter chain once
   * and only once; a decoding failure is swallowed.
   */
  method DoFilterInternal(context: SecurityContext, header: Option<string>, decode: Decoder)
    returns (chainCalls: nat)
    modifies context
    ensures chainCalls == 1
    ensures context.authentication == ResolveIdentity(old(context.authentication), header, decode)
  {
    if header.None? || !Text.StartsWith(header.value, BearerPrefix) {
      chainCalls := 1;
      return;
    }
    var jwt := header.value[7..];
    var decoded := decode(jwt);
    if decoded.Some? {
      var userEmail := decoded.value.subject;
      if userEmail.Some? && context.authentication.None? {
        var role := RoleFor(UserType(decoded));
        context.authentication := Some(Authentication(userEmail.value, None, [role]));
      }
    }
    chainCalls := 1;
  }

  // ---------------------------------------------------------------------------
  // Account lookup and the password check

  /** A Spring Security `UserDetails`: teachers and students are principals, supervisors are not. */
  datatype Principal = TeacherAccount(teacher: Teachers.Teacher) | StudentAccount(user: Users.User)
  {
    function Username(): string {
      match this
      case TeacherAccount(t) => t.Username()
      case StudentAccount(u) => u.Username()
    }

    predicate IsEnabled() {
      match this
      case TeacherAccount(t) => t.IsEnabled()
      case StudentAccount(u) => u.IsEnabled()
    }

    /** The account checks of the DAO provider: not locked, enabled, not expired, credentials not expired. */
    predicate PassesAccountChecks() {
      match this
      case TeacherAccount(t) => t.accountNonLocked && t.IsEnabled() && t.accountNonExpired && t.credentialsNonExpired
      case StudentAccount(u) => u.accountNonLocked && u.IsEnabled() && u.accountNonExpired && u.credentialsNonExpired
    }

    function Password(): PasswordHash {
      match this
      case TeacherAccount(t) => t.password
      case StudentAccount(u) => u.password
    }
  }

  /**
   * `userDetailsService().loadUserByUsername`: the teacher with that email if there is one,
   * otherwise the student with that email; `None` is the UsernameNotFoundException.
   */
  function LoadUserByUsername(teachers: seq<Teachers.Teacher>, users: seq<Users.User>, name: string): (r: Option<Principal>)
    ensures r.Some? ==> r.value.Username() == name
    ensures Teachers.FindByEmail(teachers, name).Some? ==>
      r == Some(TeacherAccount(teachers[Teachers.FindByEmail(teachers, name).value]))
    ensures Teachers.FindByEmail(teachers, name).None? && Users.FindByEmail(users, name).Some? ==>
      r == Some(StudentAccount(users[Users.FindByEmail(users, name).value]))
    ensures r.None? <==>
      (forall k :: 0 <= k < |teachers| ==> teachers[k].email != name)
      && (forall k :: 0 <= k < |users| ==> users[k].email != name)
  {
    match Teachers.FindByEmail(teachers, name)
    case Some(i) => Some(TeacherAccount(teachers[i]))
    case None =>
      match Users.FindByEmail(users, name)
      case Some(j) => Some(StudentAccount(users[j]))
      case None => None
  }

  /**
   * `authenticationManager.authenticate(email, password)` through the DAO provider: true when
   * it returns, false for any AuthenticationException (unknown account, locked, disabled,
   * expired, bad password, expired credentials).
   */
  predicate Authenticate(teachers: seq<Teachers.Teacher>, users: seq<Users.User>, email: string, raw: string) {
    match LoadUserByUsername(teachers, users, email)
    case None => false
    case Some(p) => p.PassesAccountChecks() && Matches(raw, p.Password())
  }

  /**
   * A student whose email is also a teacher's is checked against the teacher account: the
   * student's own password and status play no part.
   */
  lemma TeacherShadowsStudent(teachers: seq<Teachers.Teacher>, users: seq<Users.User>, email: string, raw: string)
    requires Teachers.FindByEmail(teachers, email).Some?
    ensures var t := teachers[Teachers.FindByEmail(teachers, email).value];
      Authenticate(teachers, users, email, raw) <==>
        t.accountNonLocked && t.IsEnabled() && t.accountNonExpired && t.credentialsNonExpired && Matches(raw, t.password)
  {
  }

  /** Whoever authenticates owns an enabled account whose stored hash matches the password. */
  lemma AuthenticatedAccountIsEnabled(teachers: seq<Teachers.Teacher>, users: seq<Users.User>, email: string, raw: string)
    requires Authenticate(teachers, users, email, raw)
    ensures var p := LoadUserByUsername(teachers, users, email);
      p.Some? && p.value.Username() == email && p.value.IsEnabled() && Matches(raw, p.value.Password())
  {
  }

  // ---------------------------------------------------------------------------
  // The URL rules

  datatype Access = PermitAll | HasAnyRole(roles: seq<string>) | Authenticated

  datatype Matcher = Paths(patterns: seq<string>) | AnyRequest

  datatype Rule = Rule(matcher: Matcher, access: Access)

  /**
   * An Ant-style pattern: "p/" followed by two stars matches p itself and everything below "p/"; any other
   * pattern matches only the identical path.
   */
  predicate PatternMatches(pattern: string, path: string) {
    if |pattern| >= 3 && pattern[|pattern| - 3..] == "/**" then
      var base := pattern[..|pattern| - 3];
      path == base || Text.StartsWith(path, base + "/")
    else path == pattern
  }

  predicate RuleMatches(rule: Rule, path: string) {
    match rule.matcher
    case AnyRequest => true
    case Paths(ps) => exists k :: 0 <= k < |ps| && PatternMatches(ps[k], path)
  }

  /** `authorizeHttpRequests`, in declaration order. */
  const Rules: seq<Rule> := [
    Rule(Paths(["/api/auth/**"]), PermitAll),
    Rule(Paths(["/api/supervisor/register", "/api/supervisor/login"]), PermitAll),
    Rule(Paths(["/api/teacher/register", "/api/teacher/login"]), PermitAll),
    Rule(Paths(["/api/courses/**"]), HasAnyRole(["TEACHER", "SUPERVISOR", "USER"])),
    Rule(Paths(["/api/supervisor/**"]), HasAnyRole(["SUPERVISOR"])),
    Rule(Paths(["/api/teacher/**"]), HasAnyRole(["TEACHER", "SUPERVISOR"])),
    Rule(AnyRequest, Authenticated)
  ]

  /** The rule that decides a path: the first one that matches; the last one matches any request. */
  function RuleFor(path: string): (i: nat)
    ensures i < |Rules| && RuleMatches(Rules[i], path)
    ensures forall k :: 0 <= k < i ==> !RuleMatches(Rules[k], path)
  {
    RuleFrom(path, 0)
  }

  /** The first rule at or after position `from` that matches `path`. */
  function RuleFrom(path: string, from: nat): (i: nat)
    requires from < |Rules|
    ensures from <= i < |Rules| && RuleMatches(Rules[i], path)
    ensures forall k :: from <= k < i ==> !RuleMatches(Rules[k], path)
    decreases |Rules| - from
  {
    if from == |Rules| - 1 || RuleMatches(Rules[from], path) then from
    else RuleFrom(path, from + 1)
  }

  /** Whether a request for `path` with the identity `auth` (none: anonymous) gets through. */
  predicate Permits(path: string, auth: Option<Authentication>) {
    match Rules[RuleFor(path)].access
    case PermitAll => true
    case Authenticated => auth.Some?
    case HasAnyRole(roles) =>
      auth.Some? && exists k :: 0 <= k < |roles| && "ROLE_" + roles[k] in auth.value.authorities
  }

  /** A pattern that differs from the path at a position inside its fixed part does not match it. */
  lemma MissesAt(pattern: string, path: string, pos: nat)
    requires pos < |path| && pos + 3 < |pattern| && pattern[pos] != path[pos]
    ensures !PatternMatches(pattern, path)
  {
    var base := pattern[..|pattern| - 3];
    assert base[pos] == pattern[pos];
    assert (base + "/")[pos] == base[pos];
  }

  /** A subtree pattern matches every path strictly below its base. */
  lemma MatchesBelow(base: string, path: string)
    requires Text.StartsWith(path, base + "/")
    ensures PatternMatches(base + "/**", path)
  {
    var pattern := base + "/**";
    assert pattern[|pattern| - 3..] == "/**";
    assert pattern[..|pattern| - 3] == base;
  }

  /**
   * The sign-in and sign-up endpoints of teachers and supervisors are open to anonymous
   * requests, because their permit rules come before the role-gated teacher-area and
   * supervisor-area rules.
   */
  lemma RegistrationAndLoginArePublic(path: string, auth: Option<Authentication>)
    requires path in ["/api/teacher/login", "/api/teacher/register", "/api/supervisor/login", "/api/supervisor/register"]
    ensures Permits(path, auth)
  {
    assert |path| > 5 && (path[5] == 't' || path[5] == 's');
    assert !RuleMatches(Rules[0], path) by {
      MissesAt("/api/auth/**", path, 5);
    }
    if path[5] == 's' {
      assert PatternMatches(Rules[1].matcher.patterns[0], path) || PatternMatches(Rules[1].matcher.patterns[1], path);
      assert RuleMatches(Rules[1], path);
      assert RuleFor(path) == 1;
    } else {
      assert !RuleMatches(Rules[1], path) by {
        MissesAt("/api/supervisor/register", path, 5);
        MissesAt("/api/supervisor/login", path, 5);
      }
      assert PatternMatches(Rules[2].matcher.patterns[0], path) || PatternMatches(Rules[2].matcher.patterns[1], path);
      assert RuleMatches(Rules[2], path);
      assert RuleFor(path) == 2;
    }
  }

  /**
   * Below "/api/supervisor/", every endpoint other than registration and login needs the
   * supervisor role.
   */
  lemma SupervisorAreaNeedsSupervisorRole(path: string, auth: Option<Authentication>)
    requires Text.StartsWith(path, "/api/supervisor/")
    requires path != "/api/supervisor/register" && path != "/api/supervisor/login"
    ensures Permits(path, auth) <==> auth.Some? && "ROLE_SUPERVISOR" in auth.value.authorities
  {
    assert path[..16] == "/api/supervisor/";
    assert path[5] == 's' && path[6] == 'u';
    assert !RuleMatches(Rules[0], path) by {
      MissesAt("/api/auth/**", path, 5);
    }
    assert !RuleMatches(Rules[1], path);
    assert !RuleMatches(Rules[2], path) by {
      MissesAt("/api/teacher/register", path, 5);
      MissesAt("/api/teacher/login", path, 5);
    }
    assert !RuleMatches(Rules[3], path) by {
      MissesAt("/api/courses/**", path, 6);
    }
    assert RuleMatches(Rules[4], path) by {
      assert "/api/supervisor" + "/" == "/api/supervisor/";
      MatchesBelow("/api/supervisor", path);
      assert "/api/supervisor" + "/**" == Rules[4].matcher.patterns[0];
    }
    assert RuleFor(path) == 4;
    var roles := Rules[4].access.roles;
    assert roles == ["SUPERVISOR"];
    assert "ROLE_" + roles[0] == "ROLE_SUPERVISOR";
  }

  /**
   * A student's identity (ROLE_USER) is refused everywhere below "/api/teacher/" except at
   * registration and login, while a supervisor is let in there.
   */
  lemma TeacherAreaClosedToStudents(path: string, email: string)
    requires Text.StartsWith(path, "/api/teacher/")
    requires path != "/api/teacher/register" && path != "/api/teacher/login"
    ensures !Permits(path, Some(Authentication(email, None, ["ROLE_USER"])))
    ensures Permits(path, Some(Authentication(email, None, ["ROLE_SUPERVISOR"])))
  {
    assert path[..13] == "/api/teacher/";
    assert path[5] == 't';
    assert !RuleMatches(Rules[0], path) by {
      MissesAt("/api/auth/**", path, 5);
    }
    assert !RuleMatches(Rules[1], path) by {
      MissesAt("/api/supervisor/register", path, 5);
      MissesAt("/api/supervisor/login", path, 5);
    }
    assert !RuleMatches(Rules[2], path);
    assert !RuleMatches(Rules[3], path) by {
      MissesAt("/api/courses/**", path, 5);
    }
    assert !RuleMatches(Rules[4], path) by {
      MissesAt("/api/supervisor/**", path, 5);
    }
    assert RuleMatches(Rules[5], path) by {
      assert "/api/teacher" + "/" == "/api/teacher/";
      MatchesBelow("/api/teacher", path);
      assert "/api/teacher" + "/**" == Rules[5].matcher.patterns[0];
    }
    assert RuleFor(path) == 5;
    var roles := Rules[5].access.roles;
    assert roles == ["TEACHER", "SUPERVISOR"];
    assert ("ROLE_" + roles[0])[5] != "ROLE_USER"[5];
    assert ("ROLE_" + roles[1])[5] != "ROLE_USER"[5];
    assert "ROLE_" + roles[1] == "ROLE_SUPERVISOR";
  }
}
