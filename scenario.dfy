/** One account's life through the endpoints: registration, self-deactivation, a refused login, an
    administrator's reactivation, and a login whose token carries the account's claims. */
module Scenario {
  import opened Wrappers
  import opened Exceptions
  import opened IsoDates
  import opened UserModel
  import opened Dtos
  import opened Mapper
  import opened ExceptionHandler
  import opened Authentication
  import opened AuthController
  import opened UserController
  import Registry
  import Service

  const Greece: Country := Country(1, "Greece", "GR")
  const AlicePassword: string := "Secret#123"
  const AliceBirthdate: Date := Date(1990, 5, 17)

  /** The registration request of the account. */
  function AliceRequest(): UserInsertDto
  {
    UserInsertDto(Some("alice"), Some(AlicePassword), Some("Alice"), Some("Smith"),
                  Some("alice@example.com"), Some(AliceBirthdate), Some("Greece"))
  }

  /** A manager that accepts alice with her password and nobody else. */
  function AliceOnly(req: LoginRequest): Option<string>
  {
    if req == LoginRequest(Some("alice"), Some(AlicePassword)) then Some("alice") else None
  }

  lemma AlicePasswordFollowsRule()
    ensures PatternMatches(AlicePassword)
  {
    var s := AlicePassword;
    assert |s| == 10;
    forall i | 0 <= i < |s| ensures !IsLineTerminator(s[i]) {
      assert ' ' <= s[i] <= '~';
    }
    assert InClass(s[1], Lower) && InClass(s[0], Upper) && InClass(s[7], Digit) && InClass(s[6], Special);
    PatternIsPasswordRule(s);
  }

  lemma AliceRequestValid(wellFormed: string -> bool)
    requires wellFormed("alice@example.com")
    ensures InsertErrors(AliceRequest(), wellFormed) == []
  {
    AlicePasswordFollowsRule();
    InsertValidIffNoViolations(AliceRequest(), wellFormed);
  }

  lemma AliceBirthdateText()
    ensures IsoText(AliceBirthdate) == "1990-05-17"
  {
    assert Digits(1990) == "1990" by {
      assert Digits(1) == "1";
      assert Digits(19) == "19";
      assert Digits(199) == "199";
    }
    assert TwoDigits(5) == "05";
    assert TwoDigits(17) == "17";
  }

  function AliceView(): ReadOnlyDto
  {
    ReadOnlyDto(Some("Alice"), Some("Smith"), Some("alice@example.com"), "Greece")
  }

  /** alice's row once saved, with a given activation flag. */
  function AliceRecord(encode: string -> string, flag: bool): User
  {
    User(Some(0), Some("alice"), Some(encode(AlicePassword)), Some("Alice"), Some("Smith"),
         Some("alice@example.com"), Some(AliceBirthdate), USER, Some(flag), Greece)
  }

  function AliceStore(encode: string -> string, flag: bool): Registry.Store
  {
    Registry.Store(map[Some("alice") := AliceRecord(encode, flag)], 1)
  }

  const AliceClaims: Claims :=
    Claims("alice", "USER", Some("Alice"), Some("Smith"), Some("alice@example.com"), "1990-05-17", "Greece")

  lemma RegisterOnEmptyStore(encode: string -> string)
    ensures Registry.SaveUser(Registry.Store(map[], 0), AliceRequest(), map["Greece" := Greece], encode)
         == (Success(AliceView()), AliceStore(encode, true))
  {
    var out := Registry.SaveUser(Registry.Store(map[], 0), AliceRequest(), map["Greece" := Greece], encode);
    assert !Registry.EmailTaken(map[], Some("alice@example.com"));
    assert out.1.users == AliceStore(encode, true).users;
  }

  lemma FlagTransitions(encode: string -> string)
    ensures Registry.SetActive(AliceStore(encode, true), "alice", false) == (Success(AliceView()), AliceStore(encode, false))
    ensures Registry.SetActive(AliceStore(encode, false), "alice", true) == (Success(AliceView()), AliceStore(encode, true))
  {
    assert Registry.SetActive(AliceStore(encode, true), "alice", false).1.users == AliceStore(encode, false).users;
    assert Registry.SetActive(AliceStore(encode, false), "alice", true).1.users == AliceStore(encode, true).users;
  }

  lemma LoginOutcomes(encode: string -> string, generateToken: Claims -> string, now: int)
    ensures Login(AliceStore(encode, false).users, LoginRequest(Some("alice"), Some(AlicePassword)), AliceOnly, generateToken, now)
         == Reply(Forbidden, Json(InactiveBody))
    ensures Login(AliceStore(encode, true).users, LoginRequest(Some("alice"), Some(AlicePassword)), AliceOnly, generateToken, now)
         == Reply(Ok, Token(generateToken(AliceClaims)))
    ensures Login(AliceStore(encode, true).users, LoginRequest(Some("alice"), Some("wrong")), AliceOnly, generateToken, now)
         == Uncaught(BadCredentials)
  {
    AliceBirthdateText();
    assert ClaimsOf("alice", AliceRecord(encode, true)) == Some(AliceClaims);
  }

  /** A fresh service over the countries table with Greece, registering alice through the
      controller: validation passes and the account is stored active. */
  method Register(encode: string -> string)
    returns (controller: UserRestController, registered: Result<HttpResult, Thrown>)
    ensures fresh(controller) && fresh(controller.userService)
    ensures controller.userService.Valid()
    ensures controller.userService.State() == AliceStore(encode, true)
    ensures registered == Success(Reply(Created, View(AliceView())))
  {
    var service := new Service.UserService(map["Greece" := Greece], encode);
    controller := new UserRestController(service);
    var wellFormed := (e: string) => true;
    AliceRequestValid(wellFormed);
    RegisterOnEmptyStore(encode);
    registered := controller.SaveUser(AliceRequest(), wellFormed);
  }

  /** alice deactivates her own account, and then her login is refused with 403. */
  method DeactivateThenLogin(controller: UserRestController, encode: string -> string,
                             generateToken: Claims -> string, now: int) returns (refused: HttpResult)
    requires controller.userService.Valid()
    requires controller.userService.State() == AliceStore(encode, true)
    modifies controller.userService
    ensures controller.userService.Valid()
    ensures controller.userService.State() == AliceStore(encode, false)
    ensures refused == Reply(Forbidden, Json(InactiveBody))
  {
    FlagTransitions(encode);
    var off := controller.DeactivateUser("alice", Principal("alice", ["USER"]));
    LoginOutcomes(encode, generateToken, now);
    refused := Login(controller.userService.users, LoginRequest(Some("alice"), Some(AlicePassword)),
                     AliceOnly, generateToken, now);
  }

  /** bob, an ADMIN, reactivates alice's account; then her login yields her token, and a mistyped
      password meets the manager's exception, which no handler catches. */
  method ReactivateThenLogin(controller: UserRestController, encode: string -> string,
                             generateToken: Claims -> string, now: int)
    returns (admitted: HttpResult, mistyped: HttpResult)
    requires controller.userService.Valid()
    requires controller.userService.State() == AliceStore(encode, false)
    modifies controller.userService
    ensures controller.userService.Valid()
    ensures controller.userService.State() == AliceStore(encode, true)
    ensures admitted == Reply(Ok, Token(generateToken(AliceClaims)))
    ensures mistyped == Uncaught(BadCredentials)
  {
    FlagTransitions(encode);
    var on := controller.ActivateUser("alice", Principal("bob", ["ADMIN"]));
    LoginOutcomes(encode, generateToken, now);
    admitted := Login(controller.userService.users, LoginRequest(Some("alice"), Some(AlicePassword)),
                      AliceOnly, generateToken, now);
    mistyped := Login(controller.userService.users, LoginRequest(Some("alice"), Some("wrong")),
                      AliceOnly, generateToken, now);
  }

  /** Registration passes validation and succeeds; while deactivated, the right password is met
      with 403; after bob, an ADMIN, reactivates the account, the same login yields 200 and a token
      generated from alice's claims, while a wrong password leaves the manager's exception uncaught. */
  method LifeOfAnAccount(encode: string -> string, generateToken: Claims -> string, now: int)
    returns (registered: Result<HttpResult, Thrown>, refused: HttpResult, admitted: HttpResult,
             mistyped: HttpResult)
    ensures registered == Success(Reply(Created, View(AliceView())))
    ensures refused == Reply(Forbidden, Json(InactiveBody))
    ensures admitted == Reply(Ok, Token(generateToken(AliceClaims)))
    ensures mistyped == Uncaught(BadCredentials)
  {
    var controller;
    controller, registered := Register(encode);
    refused := DeactivateThenLogin(controller, encode, generateToken, now);
    admitted, mistyped := ReactivateThenLogin(controller, encode, generateToken, now);
  }
}
