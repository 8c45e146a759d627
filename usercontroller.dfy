/** rest/UserRestController.java: the account endpoints. Each one validates its body where it has
    one, then decides from the path username and the authenticated principal whether the caller may
    act, and only then calls the service. */
module UserController {
  import opened Wrappers
  import opened Exceptions
  import opened UserModel
  import opened Dtos
  import opened Mapper
  import opened ExceptionHandler
  import Registry
  import Service

  /** The authentication in the security context: its name and its granted authorities, in
      iteration order. */
  datatype Principal = Principal(name: string, authorities: seq<string>)

  /** The principal Spring Security builds for a stored user. */
  function PrincipalOf(name: string, u: User): Principal
  {
    Principal(name, Authorities(u))
  }

  datatype Action = Update | Deactivate | Activate | Delete

  /** A guard's outcome. NoAuthority: the principal has no authority, so iterator().next() throws
      before the guard's condition is evaluated. */
  datatype Decision = Allow | Deny | NoAuthority

  const NoAuthorityException: string := "NoSuchElementException"

  /** The guards as written: update compares names only; deactivate and activate read the first
      authority and then allow the owner or an ADMIN; delete reads the first authority and allows
      an ADMIN only. */
  function Decide(action: Action, target: string, p: Principal): (d: Decision)
    ensures d == NoAuthority <==> action != Update && |p.authorities| == 0
  {
    match action
    case Update => if target == p.name then Allow else Deny
    case Deactivate | Activate =>
      if |p.authorities| == 0 then NoAuthority
      else if target != p.name && p.authorities[0] != "ADMIN" then Deny
      else Allow
    case Delete =>
      if |p.authorities| == 0 then NoAuthority
      else if p.authorities[0] != "ADMIN" then Deny
      else Allow
  }

  /** The access policy stated over the closed set of roles. */
  predicate Policy(action: Action, isSelf: bool, role: Role)
  {
    match action
    case Update => isSelf
    case Deactivate | Activate => isSelf || role == ADMIN
    case Delete => role == ADMIN
  }

  /** For the principal of a stored user, the string-compared guards decide exactly what the role
      policy says, in both directions. */
  lemma {:induction false} DecideFollowsPolicy(action: Action, target: string, name: string, u: User)
    ensures Decide(action, target, PrincipalOf(name, u)) == Allow <==> Policy(action, target == name, u.role)
    ensures Decide(action, target, PrincipalOf(name, u)) != NoAuthority
  {
    assert Authorities(u)[0] == RoleName(u.role);
    assert RoleName(u.role) == "ADMIN" <==> u.role == ADMIN;
  }

  /** Update is self-service only: being an ADMIN does not allow updating another account. */
  lemma AdminCannotUpdateOthers(target: string, p: Principal)
    requires target != p.name && |p.authorities| > 0 && p.authorities[0] == "ADMIN"
    ensures Decide(Update, target, p) == Deny
  {
  }

  /** Delete ignores whose account it is: the decision is the same for every target. */
  lemma DeleteIgnoresTarget(t1: string, t2: string, p: Principal)
    ensures Decide(Delete, t1, p) == Decide(Delete, t2, p)
  {
  }

  /** The NotAuthorized exception each guard throws. */
  function Refusal(action: Action): AppError
  {
    match action
    case Update => AppError(NotAuthorized, "User Update", "not authorized")
    case Deactivate | Delete => AppError(NotAuthorized, "User deletion ", "not authorized")
    case Activate => AppError(NotAuthorized, "User activation ", "not authorized")
  }

  /** What a refused guard throws. */
  function Refused(d: Decision, action: Action): Thrown
  {
    if d == NoAuthority then Runtime(NoAuthorityException) else App(Refusal(action))
  }

  /** A service outcome as the endpoint returns it: the status on success, the service's exception
      rethrown otherwise. */
  function Respond(r: Result<ReadOnlyDto, AppError>, status: int, withBody: bool): (out: Result<HttpResult, Thrown>)
    ensures r.Failure? ==> out == Failure(App(r.error))
    ensures r.Success? ==> out.Success? && out.value.Reply? && out.value.status == status
    ensures r.Success? && withBody ==> out.value.body == View(r.value)
    ensures r.Success? && !withBody ==> out.value.body == NoBody
  {
    match r
    case Failure(e) => Failure(App(e))
    case Success(v) => Success(Reply(status, if withBody then View(v) else NoBody))
  }

  /** deleteUser, up to the service call: the refusal it throws, if any. The service's deleteUser
      is not part of this model. */
  function DeleteRefusal(p: Principal): (r: Option<Thrown>)
    ensures r.None? <==> |p.authorities| > 0 && p.authorities[0] == "ADMIN"
    ensures r.Some? ==> r.value == Refused(Decide(Delete, "", p), Delete)
  {
    var d := Decide(Delete, "", p);
    if d == Allow then None else Some(Refused(d, Delete))
  }

  class UserRestController {
    const userService: Service.UserService

    constructor(userService: Service.UserService)
      ensures this.userService == userService
    {
      this.userService := userService;
    }

    /** POST /users/save: field errors first, then the service; 201 with the view on success. */
    method SaveUser(dto: UserInsertDto, wellFormed: string -> bool) returns (r: Result<HttpResult, Thrown>)
      requires userService.Valid()
      modifies userService
      ensures userService.Valid()
      ensures InsertErrors(dto, wellFormed) != [] ==>
        r == Failure(Validation(InsertErrors(dto, wellFormed))) && userService.State() == old(userService.State())
      ensures InsertErrors(dto, wellFormed) == [] ==>
        var out := Registry.SaveUser(old(userService.State()), dto, userService.countries, userService.encode);
        userService.State() == out.1 && r == Respond(out.0, Created, true)
    {
      var errs := InsertErrors(dto, wellFormed);
      if errs != [] {
        return Failure(Validation(errs));
      }
      var saved := userService.SaveUser(dto);
      r := Respond(saved, Created, true);
    }

    /** PUT /user/{username}/update: field errors first, then the self-only guard, then the
      service; 200 with the view on success. */
    method UpdateUser(username: string, dto: UserUpdateDto, wellFormed: string -> bool, p: Principal)
      returns (r: Result<HttpResult, Thrown>)
      requires userService.Valid()
      modifies userService
      ensures userService.Valid()
      ensures UpdateErrors(dto, wellFormed) != [] ==>
        r == Failure(Validation(UpdateErrors(dto, wellFormed))) && userService.State() == old(userService.State())
      ensures UpdateErrors(dto, wellFormed) == [] && Decide(Update, username, p) != Allow ==>
        r == Failure(App(Refusal(Update))) && userService.State() == old(userService.State())
      ensures UpdateErrors(dto, wellFormed) == [] && Decide(Update, username, p) == Allow ==>
        var out := Registry.UpdatePassword(old(userService.State()), username, dto, userService.encode);
        userService.State() == out.1 && r == Respond(out.0, Ok, true)
    {
      var errs := UpdateErrors(dto, wellFormed);
      if errs != [] {
        return Failure(Validation(errs));
      }
      if username != p.name {
        return Failure(App(Refusal(Update)));
      }
      var updated := userService.UpdateUser(username, dto);
      r := Respond(updated, Ok, true);
    }

    /** PUT /user/{username}/deactivate: the self-or-ADMIN guard, then the service; 204 on success. */
    method DeactivateUser(username: string, p: Principal) returns (r: Result<HttpResult, Thrown>)
      requires userService.Valid()
      modifies userService
      ensures userService.Valid()
      ensures Decide(Deactivate, username, p) != Allow ==>
        r == Failure(Refused(Decide(Deactivate, username, p), Deactivate))
        && userService.State() == old(userService.State())
      ensures Decide(Deactivate, username, p) == Allow ==>
        var out := Registry.SetActive(old(userService.State()), username, false);
        userService.State() == out.1 && r == Respond(out.0, NoContent, false)
    {
      var d := Decide(Deactivate, username, p);
      if d != Allow {
        return Failure(Refused(d, Deactivate));
      }
      var updated := userService.SetUserInactive(username);
      r := Respond(updated, NoContent, false);
    }

    /** PUT /user/{username}/activate: the self-or-ADMIN guard, then the service; 204 on success. */
    method ActivateUser(username: string, p: Principal) returns (r: Result<HttpResult, Thrown>)
      requires userService.Valid()
      modifies userService
      ensures userService.Valid()
      ensures Decide(Activate, username, p) != Allow ==>
        r == Failure(Refused(Decide(Activate, username, p), Activate))
        && userService.State() == old(userService.State())
      ensures Decide(Activate, username, p) == Allow ==>
        var out := Registry.SetActive(old(userService.State()), username, true);
        userService.State() == out.1 && r == Respond(out.0, NoContent, false)
    {
      var d := Decide(Activate, username, p);
      if d != Allow {
        return Failure(Refused(d, Activate));
      }
      var updated := userService.SetUserActive(username);
      r := Respond(updated, NoContent, false);
    }
  }
}
