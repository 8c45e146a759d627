/** authentication/AuthenticationService.java: check the credentials, look the account up, and hand
    the claim tuple to the token generator. The authentication manager (BCrypt comparison behind
    Spring Security) and the token generator (JwtService) are parameters. */
module Authentication {
  import opened Wrappers
  import opened Exceptions
  import opened IsoDates
  import opened UserModel
  import Registry

  /** AuthenticationRequestDTO. */
  datatype LoginRequest = LoginRequest(username: Option<string>, password: Option<string>)

  /** The arguments of jwtService.generateToken, in order. */
  datatype Claims = Claims(
    subject: string,
    role: string,
    firstname: Option<string>,
    lastname: Option<string>,
    email: Option<string>,
    birthdate: string,
    countryName: string)

  /** What the authentication manager throws on bad credentials (or a disabled account). */
  const BadCredentials: string := "AuthenticationException"
  /** What calling toString on a null birthdate throws. */
  const NullBirthdate: string := "NullPointerException"
  const UserNotFound: AppError := AppError(NotAuthorized, "User", "User not found")

  /** The claim tuple for an authenticated name and its record; None when the record has no
      birthdate, whose toString then throws. Every claim reads back to the record's value: the role
      text names the record's role and the birthdate text parses to the record's date. */
  function ClaimsOf(name: string, u: User): (c: Option<Claims>)
    ensures c.None? <==> u.birthdate.None?
    ensures c.Some? ==>
      && c.value.subject == name
      && RoleOf(c.value.role) == Some(u.role)
      && c.value.firstname == u.firstname && c.value.lastname == u.lastname
      && c.value.email == u.email
      && ParseIsoDate(c.value.birthdate) == u.birthdate
      && c.value.countryName == u.country.name
  {
    match u.birthdate
    case None => None
    case Some(d) =>
      RoleNameRoundTrip(u.role);
      IsoTextRoundTrip(d);
      Some(Claims(name, RoleName(u.role), u.firstname, u.lastname, u.email, IsoText(d), u.country.name))
  }

  /** authenticate: the manager checks the credentials first (and yields the authenticated name),
      then the record is looked up by that name, then the token is generated from the claims.
      The users table is only read. */
  function Authenticate(users: Registry.Users, req: LoginRequest,
                        authenticate: LoginRequest -> Option<string>,
                        generateToken: Claims -> string): (r: Result<string, Thrown>)
    ensures authenticate(req).None? ==> r == Failure(Runtime(BadCredentials))
    ensures authenticate(req).Some? && Some(authenticate(req).value) !in users
      ==> r == Failure(App(UserNotFound))
    ensures r.Success? <==>
      && authenticate(req).Some? && Some(authenticate(req).value) in users
      && users[Some(authenticate(req).value)].birthdate.Some?
    ensures r.Success? ==>
      r.value == generateToken(ClaimsOf(authenticate(req).value, users[Some(authenticate(req).value)]).value)
  {
    match authenticate(req)
    case None => Failure(Runtime(BadCredentials))
    case Some(name) =>
      if Some(name) !in users then Failure(App(UserNotFound))
      else
        match ClaimsOf(name, users[Some(name)])
        case None => Failure(Runtime(NullBirthdate))
        case Some(claims) => Success(generateToken(claims))
  }

  /** Refused credentials are refused whatever the table holds: the lookup comes after the check. */
  lemma CredentialsCheckedFirst(users: Registry.Users, other: Registry.Users, req: LoginRequest,
                                authenticate: LoginRequest -> Option<string>,
                                generateToken: Claims -> string)
    requires authenticate(req).None?
    ensures Authenticate(users, req, authenticate, generateToken) == Authenticate(other, req, authenticate, generateToken)
  {
  }

  /** In a valid store the subject of the issued token is the name of the record the claims were
      taken from, so the token speaks for exactly one account. */
  lemma {:induction false} ClaimsDescribeTheirRecord(s: Registry.Store, name: string)
    requires Registry.Valid(s)
    requires Some(name) in s.users && s.users[Some(name)].birthdate.Some?
    ensures var c := ClaimsOf(name, s.users[Some(name)]).value;
      && Some(c.subject) == s.users[Some(name)].username
      && forall k :: k in s.users && s.users[k].email == c.email ==> k == Some(name)
  {
  }
}
