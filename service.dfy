/** service/UserService.java: the service object over the users table. Each method looks a record
    up, changes it field by field and writes it back, and ends where the matching Registry
    transition says it must. */
module Service {
  import opened Wrappers
  import opened Exceptions
  import opened UserModel
  import opened Dtos
  import opened Mapper
  import Registry

  class UserService {
    /** The users table, by username. */
    var users: Registry.Users
    /** The next value of the identity column. */
    var nextId: nat
    /** The countries table, read-only here. */
    const countries: Countries
    /** PasswordEncoder.encode. */
    const encode: string -> string

    function State(): Registry.Store
      reads this
    {
      Registry.Store(users, nextId)
    }

    ghost predicate Valid()
      reads this
    {
      Registry.Valid(State()) && Registry.PasswordsEncoded(users, encode)
    }

    /** A service over an empty users table. */
    constructor(countries: Countries, encode: string -> string)
      ensures users == map[] && nextId == 0
      ensures this.countries == countries && this.encode == encode
      ensures Valid()
    {
      users := map[];
      nextId := 0;
      this.countries := countries;
      this.encode := encode;
    }

    /** findByEmail(email).isPresent(): a scan of the table, one row at a time, that stops at the
        first row holding the email. */
    method EmailInUse(email: Option<string>) returns (taken: bool)
      ensures taken <==> Registry.EmailTaken(users, email)
    {
      var unseen := users.Keys;
      taken := false;
      while unseen != {} && !taken
        invariant unseen <= users.Keys
        invariant !taken ==> forall k :: k in users && k !in unseen ==> users[k].email != email
        invariant taken ==> Registry.EmailTaken(users, email)
        decreases |unseen|
      {
        var k :| k in unseen;
        taken := users[k].email == email;
        unseen := unseen - {k};
      }
    }

    /** saveUser. */
    method SaveUser(dto: UserInsertDto) returns (r: Result<ReadOnlyDto, AppError>)
      requires Valid()
      modifies this
      ensures Valid()
      ensures (r, State()) == Registry.SaveUser(old(State()), dto, countries, encode)
    {
      Registry.SaveUserPreservesValid(State(), dto, countries, encode);
      var country := FindCountryByName(countries, dto.countryName);
      if country.None? {
        return Failure(Registry.CountryNotFound);
      }
      if dto.username in users {
        return Failure(Registry.UsernameExists(dto.username));
      }
      var taken := EmailInUse(dto.email);
      if taken {
        return Failure(Registry.EmailExists(dto.email));
      }
      var mapped := MapToUserEntity(dto, countries);
      if mapped.Failure? || dto.password.None? {
        return Failure(Registry.SaveFailed);
      }
      var user := mapped.value;
      user := user.(password := Some(encode(dto.password.value)));
      user := user.(isActive := Some(true));
      if user.email.None? {
        // the NOT NULL email column refuses the row and the transaction rolls back
        return Failure(Registry.SaveFailed);
      }
      user := user.(id := Some(nextId));
      users := users[user.username := user];
      nextId := nextId + 1;
      r := Success(MapToReadOnlyDto(user));
    }

    /** updateUser: the lookup and the password line. */
    method UpdateUser(username: string, dto: UserUpdateDto) returns (r: Result<ReadOnlyDto, AppError>)
      requires Valid()
      modifies this
      ensures Valid()
      ensures (r, State()) == Registry.UpdatePassword(old(State()), username, dto, encode)
    {
      Registry.UpdatePasswordPreservesValid(State(), username, dto, encode);
      if Some(username) !in users {
        return Failure(Registry.UsernameNotFound);
      }
      var user := users[Some(username)];
      if dto.password.None? {
        return Failure(Registry.SaveFailed);
      }
      user := user.(password := Some(encode(dto.password.value)));
      users := users[Some(username) := user];
      r := Success(MapToReadOnlyDto(user));
    }

    /** setUserInactive and setUserActive share this body, with false and true. */
    method SetFlag(username: string, flag: bool) returns (r: Result<ReadOnlyDto, AppError>)
      requires Valid()
      modifies this
      ensures Valid()
      ensures (r, State()) == Registry.SetActive(old(State()), username, flag)
    {
      Registry.SetActivePreservesValid(State(), username, flag, encode);
      if Some(username) !in users {
        return Failure(Registry.UsernameNotFound);
      }
      var user := users[Some(username)];
      user := user.(isActive := Some(flag));
      users := users[Some(username) := user];
      r := Success(MapToReadOnlyDto(user));
    }

    /** setUserInactive. */
    method SetUserInactive(username: string) returns (r: Result<ReadOnlyDto, AppError>)
      requires Valid()
      modifies this
      ensures Valid()
      ensures (r, State()) == Registry.SetActive(old(State()), username, false)
    {
      r := SetFlag(username, false);
    }

    /** setUserActive. */
    method SetUserActive(username: string) returns (r: Result<ReadOnlyDto, AppError>)
      requires Valid()
      modifies this
      ensures Valid()
      ensures (r, State()) == Registry.SetActive(old(State()), username, true)
    {
      r := SetFlag(username, true);
    }
  }
}
