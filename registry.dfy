/** The user store behind UserService (service/UserService.java) and the four account operations as
    transitions of it. Each transition gives the value the service returns (or the application
    exception it throws) and the store after the call; a call that throws leaves the store as it
    was, as @Transactional(rollbackOn = Exception.class) does. */
module Registry {
  import opened Wrappers
  import opened Exceptions
  import opened UserModel
  import opened Dtos
  import opened Mapper

  /** The users table seen through findByUsername: username (possibly null) to row. */
  type Users = map<Option<string>, User>

  /** The table and the next value of the identity column. */
  datatype Store = Store(users: Users, nextId: nat)

  /** findByEmail(email).isPresent(): some row has that address (a null argument looks for a null
      address). */
  predicate EmailTaken(users: Users, email: Option<string>)
  {
    exists k :: k in users && users[k].email == email
  }

  /** What the table's constraints and the service keep true: each row is filed under its username;
      email, password, id and flag are set; emails and ids are unique; ids are below the next one. */
  predicate Valid(s: Store)
  {
    && (forall k :: k in s.users ==> s.users[k].username == k)
    && (forall k :: k in s.users ==>
          && s.users[k].email.Some? && s.users[k].password.Some? && s.users[k].isActive.Some?
          && s.users[k].id.Some? && s.users[k].id.value < s.nextId)
    && (forall k, k' :: k in s.users && k' in s.users && s.users[k].email == s.users[k'].email ==> k == k')
    && (forall k, k' :: k in s.users && k' in s.users && s.users[k].id == s.users[k'].id ==> k == k')
  }

  /** Every stored password is the encoder's output for some raw password: none is kept in plain
      text unless the encoder itself returns it. */
  ghost predicate PasswordsEncoded(users: Users, encode: string -> string)
  {
    forall k :: k in users ==> exists raw :: users[k].password == Some(encode(raw))
  }

  /** The exceptions the operations throw. */
  const CountryNotFound: AppError := AppError(InvalidArgument, "Country", "Invalid country name.")
  const UsernameNotFound: AppError := AppError(NotFound, "Username", "Username not found")
  const SaveFailed: AppError := AppError(InvalidArgument, "Error saving user: ", "invalid argument")

  function UsernameExists(username: Option<string>): AppError
  {
    AppError(AlreadyExists, "Username", JavaText(username) + " already exists.")
  }

  function EmailExists(email: Option<string>): AppError
  {
    AppError(AlreadyExists, "Email", JavaText(email) + " already exists.")
  }

  /** saveUser: resolve the country, refuse a taken username, then a taken email, then build the
      entity, encode the password and switch the account on, and insert it under the next id.
      Encoding a null password throws, and so does saving a null email into the NOT NULL column;
      the catch block turns either into SaveFailed. */
  function SaveUser(s: Store, dto: UserInsertDto, countries: Countries, encode: string -> string)
    : (out: (Result<ReadOnlyDto, AppError>, Store))
    ensures out.0.Failure? ==> out.1 == s
    ensures FindCountryByName(countries, dto.countryName).None? ==> out.0 == Failure(CountryNotFound)
    ensures FindCountryByName(countries, dto.countryName).Some? && dto.username in s.users
      ==> out.0 == Failure(UsernameExists(dto.username))
    ensures FindCountryByName(countries, dto.countryName).Some? && dto.username !in s.users
      && EmailTaken(s.users, dto.email)
      ==> out.0 == Failure(EmailExists(dto.email))
    ensures out.0.Success? <==>
      && FindCountryByName(countries, dto.countryName).Some?
      && dto.username !in s.users && !EmailTaken(s.users, dto.email)
      && dto.password.Some? && dto.email.Some?
    ensures out.0.Success? ==>
      && out.1.users.Keys == s.users.Keys + {dto.username}
      && (forall k :: k in s.users ==> out.1.users[k] == s.users[k])
      && out.1.nextId == s.nextId + 1
      && var u := out.1.users[dto.username];
         && u.id == Some(s.nextId)
         && u.username == dto.username
         && u.password == Some(encode(dto.password.value))
         && u.firstname == dto.firstname && u.lastname == dto.lastname
         && u.email == dto.email && u.birthdate == dto.birthdate
         && u.role == USER
         && u.isActive == Some(true)
         && Some(u.country) == FindCountryByName(countries, dto.countryName)
         && out.0.value == MapToReadOnlyDto(u)
  {
    match FindCountryByName(countries, dto.countryName)
    case None => (Failure(CountryNotFound), s)
    case Some(_) =>
      if dto.username in s.users then (Failure(UsernameExists(dto.username)), s)
      else if EmailTaken(s.users, dto.email) then (Failure(EmailExists(dto.email)), s)
      else
        match MapToUserEntity(dto, countries)
        case Failure(_) => (Failure(SaveFailed), s)
        case Success(user) =>
          if dto.password.None? then (Failure(SaveFailed), s)
          else
            var entity := user.(password := Some(encode(dto.password.value)), isActive := Some(true));
            if entity.email.None? then (Failure(SaveFailed), s)
            else
              var saved := entity.(id := Some(s.nextId));
              (Success(MapToReadOnlyDto(saved)), Store(s.users[saved.username := saved], s.nextId + 1))
  }

  /** The catch block of saveUser is reached only through a null password or a null email: once
      the country resolved at the top, the mapper's own country lookup cannot fail. */
  lemma {:induction false} SaveFailsOnlyOnNulls(s: Store, dto: UserInsertDto, countries: Countries, encode: string -> string)
    ensures SaveUser(s, dto, countries, encode).0 == Failure(SaveFailed) <==>
      && FindCountryByName(countries, dto.countryName).Some?
      && dto.username !in s.users && !EmailTaken(s.users, dto.email)
      && (dto.password.None? || dto.email.None?)
  {
    var country := FindCountryByName(countries, dto.countryName);
    if country.Some? {
      assert MapToUserEntity(dto, countries).Success?;
      assert UsernameExists(dto.username) != SaveFailed;
      assert EmailExists(dto.email) != SaveFailed;
    }
  }

  /** saveUser keeps the store's invariant and the encoding of every stored password. */
  lemma {:induction false} SaveUserPreservesValid(s: Store, dto: UserInsertDto, countries: Countries, encode: string -> string)
    requires Valid(s) && PasswordsEncoded(s.users, encode)
    ensures Valid(SaveUser(s, dto, countries, encode).1)
    ensures PasswordsEncoded(SaveUser(s, dto, countries, encode).1.users, encode)
  {
    var out := SaveUser(s, dto, countries, encode);
    if out.0.Success? {
      var s' := out.1;
      forall k | k in s'.users
        ensures exists raw :: s'.users[k].password == Some(encode(raw))
      {
        if k == dto.username {
          assert s'.users[k].password == Some(encode(dto.password.value));
        } else {
          var raw :| s.users[k].password == Some(encode(raw));
          assert s'.users[k].password == Some(encode(raw));
        }
      }
    }
  }

  /** setUserInactive / setUserActive: look the user up or throw NotFound, then set the flag. */
  function SetActive(s: Store, username: string, flag: bool): (out: (Result<ReadOnlyDto, AppError>, Store))
    ensures out.0.Failure? <==> Some(username) !in s.users
    ensures out.0.Failure? ==> out.0.error == UsernameNotFound && out.1 == s
    ensures out.0.Success? ==>
      && out.1.nextId == s.nextId
      && out.1.users.Keys == s.users.Keys
      && (forall k :: k in s.users && k != Some(username) ==> out.1.users[k] == s.users[k])
      && out.1.users[Some(username)].isActive == Some(flag)
      && out.1.users[Some(username)].(isActive := s.users[Some(username)].isActive) == s.users[Some(username)]
      && out.0.value == MapToReadOnlyDto(s.users[Some(username)])
  {
    if Some(username) !in s.users then (Failure(UsernameNotFound), s)
    else
      var user := s.users[Some(username)].(isActive := Some(flag));
      (Success(MapToReadOnlyDto(user)), s.(users := s.users[Some(username) := user]))
  }

  /** Both flag operations are idempotent: a second identical call succeeds, returns the same view
      and leaves the store as the first call left it. */
  lemma {:induction false} SetActiveIdempotent(s: Store, username: string, flag: bool)
    ensures var once := SetActive(s, username, flag);
      SetActive(once.1, username, flag) == once
  {
    var once := SetActive(s, username, flag);
    if Some(username) in s.users {
      var twice := SetActive(once.1, username, flag);
      assert once.1.users[Some(username)] == s.users[Some(username)].(isActive := Some(flag));
      assert twice.1.users == once.1.users;
    }
  }

  /** Deactivating an active account and then activating it gives back the store it started from. */
  lemma {:induction false} ReactivationRestores(s: Store, username: string)
    requires Some(username) in s.users && s.users[Some(username)].isActive == Some(true)
    ensures SetActive(SetActive(s, username, false).1, username, true).1 == s
  {
    var off := SetActive(s, username, false).1;
    var on := SetActive(off, username, true).1;
    assert on.users[Some(username)] == s.users[Some(username)];
    assert on.users == s.users;
  }

  /** Replacing one row by a row with the same username, email and id, and with its password and
      flag set, keeps the invariant. */
  lemma {:induction false} ReplaceRowPreservesValid(s: Store, key: Option<string>, u: User)
    requires Valid(s) && key in s.users
    requires u.username == s.users[key].username && u.email == s.users[key].email && u.id == s.users[key].id
    requires u.password.Some? && u.isActive.Some?
    ensures Valid(s.(users := s.users[key := u]))
  {
    var s' := s.(users := s.users[key := u]);
    forall k, k' | k in s'.users && k' in s'.users && s'.users[k].email == s'.users[k'].email
      ensures k == k'
    {
      assert s'.users[k].email == s.users[k].email && s'.users[k'].email == s.users[k'].email;
    }
    forall k, k' | k in s'.users && k' in s'.users && s'.users[k].id == s'.users[k'].id
      ensures k == k'
    {
      assert s'.users[k].id == s.users[k].id && s'.users[k'].id == s.users[k'].id;
    }
  }

  /** Replacing one row by a row whose password is an encoder output keeps every password encoded. */
  lemma {:induction false} ReplaceRowPreservesEncoding(users: Users, key: Option<string>, u: User, raw: string, encode: string -> string)
    requires PasswordsEncoded(users, encode)
    requires u.password == Some(encode(raw))
    ensures PasswordsEncoded(users[key := u], encode)
  {
    var updated := users[key := u];
    forall k | k in updated
      ensures exists r :: updated[k].password == Some(encode(r))
    {
      if k == key {
        assert updated[k].password == Some(encode(raw));
      } else {
        var r :| users[k].password == Some(encode(r));
        assert updated[k].password == Some(encode(r));
      }
    }
  }

  lemma {:induction false} SetActivePreservesValid(s: Store, username: string, flag: bool, encode: string -> string)
    requires Valid(s) && PasswordsEncoded(s.users, encode)
    ensures Valid(SetActive(s, username, flag).1)
    ensures PasswordsEncoded(SetActive(s, username, flag).1.users, encode)
  {
    var key := Some(username);
    if key in s.users {
      var u := s.users[key].(isActive := Some(flag));
      ReplaceRowPreservesValid(s, key, u);
      var raw :| s.users[key].password == Some(encode(raw));
      ReplaceRowPreservesEncoding(s.users, key, u, raw, encode);
    }
  }

  /** updateUser, the part of it this model covers: look the user up or throw NotFound, then
      replace the stored password by the encoding of the request's password, whatever the request
      says about the old one. A null password makes the encoder throw, and the catch block turns
      that into SaveFailed. */
  function UpdatePassword(s: Store, username: string, dto: UserUpdateDto, encode: string -> string)
    : (out: (Result<ReadOnlyDto, AppError>, Store))
    ensures Some(username) !in s.users ==> out == (Failure(UsernameNotFound), s)
    ensures Some(username) in s.users && dto.password.None? ==> out == (Failure(SaveFailed), s)
    ensures out.0.Success? <==> Some(username) in s.users && dto.password.Some?
    ensures out.0.Success? ==>
      && out.1.nextId == s.nextId
      && out.1.users.Keys == s.users.Keys
      && (forall k :: k in s.users && k != Some(username) ==> out.1.users[k] == s.users[k])
      && out.1.users[Some(username)].password == Some(encode(dto.password.value))
      && out.1.users[Some(username)].(password := s.users[Some(username)].password) == s.users[Some(username)]
      && out.0.value == MapToReadOnlyDto(s.users[Some(username)])
  {
    if Some(username) !in s.users then (Failure(UsernameNotFound), s)
    else if dto.password.None? then (Failure(SaveFailed), s)
    else
      var user := s.users[Some(username)].(password := Some(encode(dto.password.value)));
      (Success(MapToReadOnlyDto(user)), s.(users := s.users[Some(username) := user]))
  }

  /** The request's oldPassword plays no part: two requests that differ only there have the same
      effect. */
  lemma UpdateIgnoresOldPassword(s: Store, username: string, dto: UserUpdateDto, other: Option<string>, encode: string -> string)
    ensures UpdatePassword(s, username, dto.(oldPassword := other), encode) == UpdatePassword(s, username, dto, encode)
  {
  }

  lemma {:induction false} UpdatePasswordPreservesValid(s: Store, username: string, dto: UserUpdateDto, encode: string -> string)
    requires Valid(s) && PasswordsEncoded(s.users, encode)
    ensures Valid(UpdatePassword(s, username, dto, encode).1)
    ensures PasswordsEncoded(UpdatePassword(s, username, dto, encode).1.users, encode)
  {
    var key := Some(username);
    if key in s.users && dto.password.Some? {
      var u := s.users[key].(password := Some(encode(dto.password.value)));
      ReplaceRowPreservesValid(s, key, u);
      ReplaceRowPreservesEncoding(s.users, key, u, dto.password.value, encode);
    }
  }
}
