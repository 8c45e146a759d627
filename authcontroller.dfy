/** rest/AuthRestController.java: the login endpoint, with its gate for deactivated accounts. */
module AuthController {
  import opened Wrappers
  import opened Exceptions
  import opened UserModel
  import opened ExceptionHandler
  import opened Authentication
  import Registry

  /** The 403 body for a deactivated account. */
  const InactiveBody: map<string, Value> :=
    map["error" := Text("inactive"), "message" := Text("User account is inactive. Please contact support.")]

  /** The gate: the requested name belongs to a record whose flag is explicitly false. */
  predicate Deactivated(users: Registry.Users, username: Option<string>)
  {
    username in users && users[username].isActive == Some(false)
  }

  /** authenticate (the endpoint): a known account whose flag is false gets 403 and the
      authentication service is not consulted; every other request, known or not, goes to the
      service, and its token comes back with 200 or its exception goes to the exception handler. */
  function Login(users: Registry.Users, req: LoginRequest,
                 authenticate: LoginRequest -> Option<string>,
                 generateToken: Claims -> string, now: int): (r: HttpResult)
    ensures Deactivated(users, req.username) <==> r == Reply(Forbidden, Json(InactiveBody))
    ensures !Deactivated(users, req.username) ==>
      match Authentication.Authenticate(users, req, authenticate, generateToken)
      case Success(token) => r == Reply(Ok, Token(token))
      case Failure(e) => r == Handle(e, now)
  {
    if Deactivated(users, req.username) then Reply(Forbidden, Json(InactiveBody))
    else
      match Authentication.Authenticate(users, req, authenticate, generateToken)
      case Success(token) => Reply(Ok, Token(token))
      case Failure(e) => Handle(e, now)
  }

  /** The gate does not depend on the credentials: a deactivated account is refused with the right
      password as with a wrong one. */
  lemma DeactivatedRefusedWhateverThePassword(users: Registry.Users, req: LoginRequest, password: Option<string>,
                                              authenticate: LoginRequest -> Option<string>,
                                              generateToken: Claims -> string, now: int)
    requires Deactivated(users, req.username)
    ensures Login(users, req.(password := password), authenticate, generateToken, now)
         == Login(users, req, authenticate, generateToken, now)
  {
  }

  /** When the manager authenticates only the name that was asked for (as a username-password check
      does), a 200 goes only to an account Spring Security regards as enabled. */
  lemma {:induction false} TokenOnlyForEnabledAccounts(users: Registry.Users, req: LoginRequest,
                                                       authenticate: LoginRequest -> Option<string>,
                                                       generateToken: Claims -> string, now: int)
    requires authenticate(req).Some? ==> Some(authenticate(req).value) == req.username
    requires Login(users, req, authenticate, generateToken, now).Reply?
    requires Login(users, req, authenticate, generateToken, now).status == Ok
    ensures req.username in users && IsEnabled(users[req.username])
  {
    assert !Deactivated(users, req.username);
  }
}
