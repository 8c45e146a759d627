/** The request shapes UserInsertDTO and UserUpdateDTO and the Bean Validation constraints declared on
    their fields, written as predicates and as the list of field errors a BindingResult collects. */
module Dtos {
  import opened Wrappers
  import opened Exceptions
  import opened IsoDates

  datatype UserInsertDto = UserInsertDto(
    username: Option<string>,
    password: Option<string>,
    firstname: Option<string>,
    lastname: Option<string>,
    email: Option<string>,
    birthdate: Option<Date>,
    countryName: Option<string>)

  /** The update shape: it has no username and no role, so neither can be changed through it. */
  datatype UserUpdateDto = UserUpdateDto(
    password: Option<string>,
    oldPassword: Option<string>,
    firstname: Option<string>,
    lastname: Option<string>,
    email: Option<string>,
    birthdate: Option<Date>,
    countryName: Option<string>)

  // ---------------------------------------------------------------------------------------------
  // The password pattern ^(?=.*?[a-z])(?=.*?[A-Z])(?=.*?\d)(?=.*?[@#$!%&*]).{8,}$

  datatype CharClass = Lower | Upper | Digit | Special

  predicate InClass(c: char, k: CharClass)
  {
    match k
    case Lower => 'a' <= c <= 'z'
    case Upper => 'A' <= c <= 'Z'
    case Digit => '0' <= c <= '9'
    case Special => c in "@#$!%&*"
  }

  /** The characters that the regex '.' does not match (no DOTALL or UNIX_LINES flag). */
  predicate IsLineTerminator(c: char)
  {
    c == '\n' || c == '\r' || c == '\U{0085}' || c == '\U{2028}' || c == '\U{2029}'
  }

  /** The lookahead (?=.*?[class]) at the start of s: a character of the class, reached by '.' steps. */
  predicate Lookahead(s: string, k: CharClass)
  {
    exists i :: 0 <= i < |s| && InClass(s[i], k) && forall j :: 0 <= j < i ==> !IsLineTerminator(s[j])
  }

  /** Matcher.matches of the pattern against the whole string: the four lookaheads, then '.{8,}'
      consumes everything. */
  predicate PatternMatches(s: string)
  {
    && Lookahead(s, Lower) && Lookahead(s, Upper) && Lookahead(s, Digit) && Lookahead(s, Special)
    && 8 <= |s| && forall i :: 0 <= i < |s| ==> !IsLineTerminator(s[i])
  }

  predicate Has(s: string, k: CharClass)
  {
    exists i :: 0 <= i < |s| && InClass(s[i], k)
  }

  /** The password rule stated by character class: a lower-case letter, an upper-case letter, a digit
      and one of @#$!%&*, at least 8 characters, and no line terminator anywhere. */
  predicate PasswordRule(s: string)
  {
    && Has(s, Lower) && Has(s, Upper) && Has(s, Digit) && Has(s, Special)
    && 8 <= |s| && forall i :: 0 <= i < |s| ==> !IsLineTerminator(s[i])
  }

  /** The regex accepts exactly the strings the character-class rule accepts. */
  lemma PatternIsPasswordRule(s: string)
    ensures PatternMatches(s) <==> PasswordRule(s)
  {
    if PasswordRule(s) {
      forall k: CharClass ensures Lookahead(s, k) {
        var i :| 0 <= i < |s| && InClass(s[i], k);
        assert forall j :: 0 <= j < i ==> !IsLineTerminator(s[j]);
      }
    }
  }

  // ---------------------------------------------------------------------------------------------
  // Bean Validation constraints

  /** @NotEmpty: present and of non-zero length. */
  predicate NotEmpty(v: Option<string>) { v.Some? && |v.value| > 0 }

  /** @NotNull. */
  predicate NotNull<T>(v: Option<T>) { v.Some? }

  /** @Pattern with the password pattern: a null value is valid. */
  predicate PasswordValid(v: Option<string>) { v.None? || PatternMatches(v.value) }

  /** @Email: null and the empty string are valid; any other string is judged by the library's
      address check, which the model takes as the parameter wellFormed. */
  predicate EmailValid(v: Option<string>, wellFormed: string -> bool)
  {
    v.None? || |v.value| == 0 || wellFormed(v.value)
  }

  /** One constraint annotation on one field of a request shape. */
  datatype Constraint =
    | UsernameNotEmpty      // @NotEmpty on username
    | PasswordPattern       // @Pattern on password
    | OldPasswordPattern    // @Pattern on oldPassword
    | FirstnameNotEmpty     // @NotEmpty on firstname
    | LastnameNotEmpty      // @NotEmpty on lastname
    | EmailFormat           // @Email on email
    | EmailNotEmpty         // @NotEmpty on email
    | BirthdateNotNull      // @NotNull on birthdate
    | CountryNotNull        // @NotNull on countryName

  /** The field a constraint is declared on and the message it declares. */
  function ErrorOf(c: Constraint): FieldError
  {
    match c
    case UsernameNotEmpty => FieldError("username", "username name is required")
    case PasswordPattern => FieldError("password", "Invalid Password")
    case OldPasswordPattern => FieldError("oldPassword", "Invalid Password")
    case FirstnameNotEmpty => FieldError("firstname", "firstname name is required")
    case LastnameNotEmpty => FieldError("lastname", "lastname name is required")
    case EmailFormat => FieldError("email", "invalid email")
    case EmailNotEmpty => FieldError("email", "email is required")
    case BirthdateNotNull => FieldError("birthdate", "birthdate is required")
    case CountryNotNull => FieldError("countryName", "Country is required")
  }

  /** The BindingResult's field errors for a list of violations, in the same order. */
  function FieldErrors(violations: seq<Constraint>): (errs: seq<FieldError>)
    ensures |errs| == |violations|
    ensures forall i :: 0 <= i < |violations| ==> errs[i] == ErrorOf(violations[i])
  {
    seq(|violations|, i requires 0 <= i < |violations| => ErrorOf(violations[i]))
  }

  /** UserInsertDTO's constraints, in field declaration order. */
  const InsertConstraints: seq<Constraint> :=
    [UsernameNotEmpty, PasswordPattern, FirstnameNotEmpty, LastnameNotEmpty, EmailFormat,
     BirthdateNotNull, CountryNotNull]

  /** UserUpdateDTO's constraints, in field declaration order. */
  const UpdateConstraints: seq<Constraint> :=
    [PasswordPattern, OldPasswordPattern, FirstnameNotEmpty, LastnameNotEmpty, EmailFormat,
     EmailNotEmpty, BirthdateNotNull, CountryNotNull]

  /** Whether a constraint holds of a UserInsertDTO. */
  predicate InsertHolds(dto: UserInsertDto, wellFormed: string -> bool, c: Constraint)
  {
    match c
    case UsernameNotEmpty => NotEmpty(dto.username)
    case PasswordPattern => PasswordValid(dto.password)
    case FirstnameNotEmpty => NotEmpty(dto.firstname)
    case LastnameNotEmpty => NotEmpty(dto.lastname)
    case EmailFormat => EmailValid(dto.email, wellFormed)
    case BirthdateNotNull => NotNull(dto.birthdate)
    case CountryNotNull => NotNull(dto.countryName)
    case _ => true
  }

  /** Whether a constraint holds of a UserUpdateDTO. */
  predicate UpdateHolds(dto: UserUpdateDto, wellFormed: string -> bool, c: Constraint)
  {
    match c
    case PasswordPattern => PasswordValid(dto.password)
    case OldPasswordPattern => PasswordValid(dto.oldPassword)
    case FirstnameNotEmpty => NotEmpty(dto.firstname)
    case LastnameNotEmpty => NotEmpty(dto.lastname)
    case EmailFormat => EmailValid(dto.email, wellFormed)
    case EmailNotEmpty => NotEmpty(dto.email)
    case BirthdateNotNull => NotNull(dto.birthdate)
    case CountryNotNull => NotNull(dto.countryName)
    case _ => true
  }

  /** A constraint's position in field declaration order; UserInsertDTO and UserUpdateDTO both
      declare their constraints in this order. */
  function Rank(c: Constraint): nat
  {
    match c
    case UsernameNotEmpty => 0
    case PasswordPattern => 1
    case OldPasswordPattern => 2
    case FirstnameNotEmpty => 3
    case LastnameNotEmpty => 4
    case EmailFormat => 5
    case EmailNotEmpty => 6
    case BirthdateNotNull => 7
    case CountryNotNull => 8
  }

  /** The constraints stand in field declaration order, so none occurs twice. */
  predicate InDeclarationOrder(s: seq<Constraint>)
  {
    forall i, j :: 0 <= i < j < |s| ==> Rank(s[i]) < Rank(s[j])
  }

  /** A list whose every neighbour pair is in declaration order is in declaration order. */
  lemma {:induction false} NeighboursInOrder(s: seq<Constraint>)
    requires forall i :: 0 <= i < |s| - 1 ==> Rank(s[i]) < Rank(s[i + 1])
    ensures InDeclarationOrder(s)
    decreases |s|
  {
    if |s| > 1 {
      var t := s[1..];
      forall i | 0 <= i < |t| - 1 ensures Rank(t[i]) < Rank(t[i + 1]) {
        assert t[i] == s[i + 1] && t[i + 1] == s[i + 2];
      }
      NeighboursInOrder(t);
      forall i, j | 0 <= i < j < |s| ensures Rank(s[i]) < Rank(s[j]) {
        if i == 0 {
          if j > 1 {
            assert s[1] == t[0] && s[j] == t[j - 1];
          }
        } else {
          assert s[i] == t[i - 1] && s[j] == t[j - 1];
        }
      }
    }
  }

  /** An ordered list keeps its order when its head is dropped, or when the head is put before a
      list drawn from its tail that is itself ordered. */
  lemma {:induction false} HeadBeforeTail(order: seq<Constraint>, rest: seq<Constraint>)
    requires order != []
    requires forall d :: d in rest ==> d in order[1..]
    ensures InDeclarationOrder(order) ==> InDeclarationOrder(order[1..])
    ensures InDeclarationOrder(order) && InDeclarationOrder(rest) ==> InDeclarationOrder([order[0]] + rest)
  {
    if InDeclarationOrder(order) && InDeclarationOrder(rest) {
      var s := [order[0]] + rest;
      forall i, j | 0 <= i < j < |s| ensures Rank(s[i]) < Rank(s[j]) {
        if i == 0 {
          assert s[j] in order[1..];
          var k :| 0 <= k < |order[1..]| && order[1..][k] == s[j];
          assert order[k + 1] == s[j];
        } else {
          assert s[i] == rest[i - 1] && s[j] == rest[j - 1];
        }
      }
    }
  }

  /** The constraints of `order` that do not hold of a UserInsertDTO, in the order given,
      each once when `order` is in declaration order. */
  function InsertViolated(dto: UserInsertDto, wellFormed: string -> bool, order: seq<Constraint>): (vs: seq<Constraint>)
    ensures forall c :: c in vs <==> c in order && !InsertHolds(dto, wellFormed, c)
    ensures InDeclarationOrder(order) ==> InDeclarationOrder(vs)
    ensures |vs| <= |order|
  {
    if order == [] then []
    else
      var rest := InsertViolated(dto, wellFormed, order[1..]);
      HeadBeforeTail(order, rest);
      (if InsertHolds(dto, wellFormed, order[0]) then [] else [order[0]]) + rest
  }

  /** The constraints of `order` that do not hold of a UserUpdateDTO, in the order given,
      each once when `order` is in declaration order. */
  function UpdateViolated(dto: UserUpdateDto, wellFormed: string -> bool, order: seq<Constraint>): (vs: seq<Constraint>)
    ensures forall c :: c in vs <==> c in order && !UpdateHolds(dto, wellFormed, c)
    ensures InDeclarationOrder(order) ==> InDeclarationOrder(vs)
    ensures |vs| <= |order|
  {
    if order == [] then []
    else
      var rest := UpdateViolated(dto, wellFormed, order[1..]);
      HeadBeforeTail(order, rest);
      (if UpdateHolds(dto, wellFormed, order[0]) then [] else [order[0]]) + rest
  }

  /** A UserInsertDTO passes validation. */
  predicate InsertValid(dto: UserInsertDto, wellFormed: string -> bool)
  {
    && NotEmpty(dto.username)
    && PasswordValid(dto.password)
    && NotEmpty(dto.firstname)
    && NotEmpty(dto.lastname)
    && EmailValid(dto.email, wellFormed)
    && NotNull(dto.birthdate)
    && NotNull(dto.countryName)
  }

  /** A UserUpdateDTO passes validation. */
  predicate UpdateValid(dto: UserUpdateDto, wellFormed: string -> bool)
  {
    && PasswordValid(dto.password)
    && PasswordValid(dto.oldPassword)
    && NotEmpty(dto.firstname)
    && NotEmpty(dto.lastname)
    && EmailValid(dto.email, wellFormed)
    && NotEmpty(dto.email)
    && NotNull(dto.birthdate)
    && NotNull(dto.countryName)
  }

  /** The constraints @Valid finds violated on a UserInsertDTO: exactly the violated ones, each once,
      in field declaration order, none of them an update-only constraint. */
  function InsertViolations(dto: UserInsertDto, wellFormed: string -> bool): (vs: seq<Constraint>)
    ensures forall c :: c in vs <==> c in InsertConstraints && !InsertHolds(dto, wellFormed, c)
    ensures InDeclarationOrder(vs)
  {
    NeighboursInOrder(InsertConstraints);
    InsertViolated(dto, wellFormed, InsertConstraints)
  }

  /** The constraints @Valid finds violated on a UserUpdateDTO, each once, in field declaration
      order; none is about a username, which the shape does not have. */
  function UpdateViolations(dto: UserUpdateDto, wellFormed: string -> bool): (vs: seq<Constraint>)
    ensures forall c :: c in vs <==> c in UpdateConstraints && !UpdateHolds(dto, wellFormed, c)
    ensures InDeclarationOrder(vs)
  {
    NeighboursInOrder(UpdateConstraints);
    UpdateViolated(dto, wellFormed, UpdateConstraints)
  }

  /** A UserInsertDTO is valid exactly when no constraint is reported violated. */
  lemma InsertValidIffNoViolations(dto: UserInsertDto, wellFormed: string -> bool)
    ensures InsertViolations(dto, wellFormed) == [] <==> InsertValid(dto, wellFormed)
  {
    var vs := InsertViolations(dto, wellFormed);
    if vs == [] {
      assert UsernameNotEmpty !in vs && PasswordPattern !in vs && FirstnameNotEmpty !in vs;
      assert LastnameNotEmpty !in vs && EmailFormat !in vs && BirthdateNotNull !in vs;
      assert CountryNotNull !in vs;
    } else {
      assert vs[0] in vs;
    }
  }

  /** A UserUpdateDTO is valid exactly when no constraint is reported violated. */
  lemma UpdateValidIffNoViolations(dto: UserUpdateDto, wellFormed: string -> bool)
    ensures UpdateViolations(dto, wellFormed) == [] <==> UpdateValid(dto, wellFormed)
  {
    var vs := UpdateViolations(dto, wellFormed);
    if vs == [] {
      assert PasswordPattern !in vs && OldPasswordPattern !in vs && FirstnameNotEmpty !in vs;
      assert LastnameNotEmpty !in vs && EmailFormat !in vs && EmailNotEmpty !in vs;
      assert BirthdateNotNull !in vs && CountryNotNull !in vs;
    } else {
      assert vs[0] in vs;
    }
  }

  /** The BindingResult of binding a UserInsertDTO. */
  function InsertErrors(dto: UserInsertDto, wellFormed: string -> bool): seq<FieldError>
  {
    FieldErrors(InsertViolations(dto, wellFormed))
  }

  /** The BindingResult of binding a UserUpdateDTO. */
  function UpdateErrors(dto: UserUpdateDto, wellFormed: string -> bool): seq<FieldError>
  {
    FieldErrors(UpdateViolations(dto, wellFormed))
  }

  /** At most one of the two email errors of the update shape is reported for a value. */
  lemma UpdateEmailErrorsExclusive(dto: UserUpdateDto, wellFormed: string -> bool)
    ensures !(EmailFormat in UpdateViolations(dto, wellFormed) && EmailNotEmpty in UpdateViolations(dto, wellFormed))
  {
  }
}
