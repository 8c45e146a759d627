/** The User entity (model/User.java) and the derived answers it gives Spring Security. */
module UserModel {
  import opened Wrappers
  import opened IsoDates

  datatype Role = USER | ADMIN

  /** Role.name(): the text of the enum constant. */
  function RoleName(r: Role): string
  {
    match r
    case USER => "USER"
    case ADMIN => "ADMIN"
  }

  /** Role.valueOf: the constant with a given name, if there is one. */
  function RoleOf(s: string): (r: Option<Role>)
    ensures r.Some? <==> s == "USER" || s == "ADMIN"
  {
    if s == "USER" then Some(USER) else if s == "ADMIN" then Some(ADMIN) else None
  }

  /** valueOf undoes name(), so a role name identifies its role. */
  lemma RoleNameRoundTrip(r: Role)
    ensures RoleOf(RoleName(r)) == Some(r)
  {
  }

  /** A row of the countries table. */
  datatype Country = Country(id: nat, name: string, iso: string)

  /** A users row. Every field Java may leave null is an Option; role and country are always set
      by the only code that creates users. */
  datatype User = User(
    id: Option<nat>,
    username: Option<string>,
    password: Option<string>,
    firstname: Option<string>,
    lastname: Option<string>,
    email: Option<string>,
    birthdate: Option<Date>,
    role: Role,
    isActive: Option<bool>,
    country: Country)

  /** getAuthorities: one granted authority, named after the role. */
  function Authorities(u: User): (a: seq<string>)
    ensures |a| == 1 && RoleOf(a[0]) == Some(u.role)
  {
    [RoleName(u.role)]
  }

  /** isEnabled: a null flag counts as active; only an explicit false disables the account. */
  function IsEnabled(u: User): (enabled: bool)
    ensures enabled <==> u.isActive != Some(false)
  {
    u.isActive.None? || u.isActive.value
  }

  /** isAccountNonExpired: no account ever expires. */
  function IsAccountNonExpired(u: User): (ok: bool)
    ensures ok
  {
    true
  }

  /** isAccountNonLocked: no account is ever locked. */
  function IsAccountNonLocked(u: User): (ok: bool)
    ensures ok
  {
    true
  }

  /** isCredentialsNonExpired: credentials never expire. */
  function IsCredentialsNonExpired(u: User): (ok: bool)
    ensures ok
  {
    true
  }
}
