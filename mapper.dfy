/** core/mapper/Mapper.java: from the registration shape to a new User entity, and from a User to the
    read-only view the REST layer returns. */
module Mapper {
  import opened Wrappers
  import opened Exceptions
  import opened UserModel
  import opened Dtos

  /** The countries table as CountryRepository.findByName sees it: name to row. */
  type Countries = map<string, Country>

  /** Each row is filed under its own name. */
  predicate KeyedByName(countries: Countries)
  {
    forall n :: n in countries ==> countries[n].name == n
  }

  /** findByName: the country with that name, if any; a null name matches no country. */
  function FindCountryByName(countries: Countries, name: Option<string>): (r: Option<Country>)
    ensures r.Some? <==> name.Some? && name.value in countries
    ensures r.Some? ==> r.value == countries[name.value]
  {
    if name.Some? && name.value in countries then Some(countries[name.value]) else None
  }

  /** The exception mapToUserEntity throws for an unknown country name. */
  const InvalidCountryId: string := "IllegalArgumentException: Invalid country ID"

  /** mapToUserEntity: a fresh, unsaved entity carrying the request's fields as given (the password
      still in plain text), the role USER, no id and no activation flag, attached to the country the
      request names. */
  function MapToUserEntity(dto: UserInsertDto, countries: Countries): (r: Result<User, Thrown>)
    ensures r.Failure? <==> FindCountryByName(countries, dto.countryName).None?
    ensures r.Failure? ==> r.error == Runtime(InvalidCountryId)
    ensures r.Success? ==>
      && r.value.id.None?
      && r.value.username == dto.username
      && r.value.password == dto.password
      && r.value.firstname == dto.firstname
      && r.value.lastname == dto.lastname
      && r.value.email == dto.email
      && r.value.birthdate == dto.birthdate
      && r.value.role == USER
      && r.value.isActive.None?
      && Some(r.value.country) == FindCountryByName(countries, dto.countryName)
  {
    match FindCountryByName(countries, dto.countryName)
    case None => Failure(Runtime(InvalidCountryId))
    case Some(country) =>
      Success(User(None, dto.username, dto.password, dto.firstname, dto.lastname, dto.email,
                   dto.birthdate, USER, None, country))
  }

  /** UserReadOnlyDTO as mapToUserReadOnlyDTO fills it. */
  datatype ReadOnlyDto = ReadOnlyDto(
    firstname: Option<string>,
    lastname: Option<string>,
    email: Option<string>,
    countryName: string)

  /** mapToUserReadOnlyDTO: the profile fields and the country's name. */
  function MapToReadOnlyDto(u: User): (v: ReadOnlyDto)
    ensures v.firstname == u.firstname && v.lastname == u.lastname && v.email == u.email
    ensures v.countryName == u.country.name
  {
    ReadOnlyDto(u.firstname, u.lastname, u.email, u.country.name)
  }

  /** The view depends on the profile fields and the country alone: two users that agree on those
      have the same view however their usernames, passwords, roles, ids and flags differ, so the
      view reveals none of them. */
  lemma ViewHidesCredentials(u: User, w: User)
    requires u.firstname == w.firstname && u.lastname == w.lastname && u.email == w.email
    requires u.country.name == w.country.name
    ensures MapToReadOnlyDto(u) == MapToReadOnlyDto(w)
  {
  }

  /** Mapping a request to an entity and then to its view gives back the request's profile fields and
      the country name it asked for. */
  lemma {:induction false} MappedViewMatchesRequest(dto: UserInsertDto, countries: Countries)
    requires KeyedByName(countries)
    requires FindCountryByName(countries, dto.countryName).Some?
    ensures MapToUserEntity(dto, countries).Success?
    ensures var v := MapToReadOnlyDto(MapToUserEntity(dto, countries).value);
      v.firstname == dto.firstname && v.lastname == dto.lastname && v.email == dto.email
      && Some(v.countryName) == dto.countryName
  {
    assert countries[dto.countryName.value].name == dto.countryName.value;
  }
}
