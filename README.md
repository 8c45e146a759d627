# Account management of the backend-Crud-Api user service, in Dafny

This project models the account-management core of a Spring Boot user backend:

- **Registration**: creating an account with a unique username and email, an encoded password, role USER and the active flag on.
- **Activation state**: turning an account's active flag off and on.
- **Password update**: replacing the stored password with a newly encoded one.
- **Authorization guards**: who may update, deactivate, activate or delete which account.
- **Login**: the gate for deactivated accounts, and the claim tuple a token is generated from.
- **Request validation**: the Bean Validation constraints on the two request shapes.
- **Error responses**: how the exception advice turns exceptions into HTTP responses.

Modules follow the Java classes:

| file | module | models |
|---|---|---|
| `wrappers.dfy` | `Wrappers` | `Option` for nullable references, `Result`, Java's `"null"` string conversion |
| `exceptions.dfy` | `Exceptions` | the application exceptions (kind, code, message), field errors, ValidationException's fixed code and message |
| `dates.dfy` | `IsoDates` | `LocalDate` and its ISO `toString`, with a parser that inverts it |
| `user.dfy` | `UserModel` | `User`, `Role`, `Country`, and the `UserDetails` answers of `User` |
| `dtos.dfy` | `Dtos` | `UserInsertDTO`, `UserUpdateDTO`, the password pattern, the constraint lists and the field errors they produce |
| `mapper.dfy` | `Mapper` | `mapToUserEntity`, `mapToUserReadOnlyDTO`, the country lookup by name |
| `registry.dfy` | `Registry` | the users table and the service operations as pure transitions, with their invariants |
| `service.dfy` | `Service` | `UserService` as a class holding the table, with imperative methods proved equal to the `Registry` transitions |
| `handler.dfy` | `ExceptionHandler` | `GlobalExceptionHandler` and the response shapes |
| `authentication.dfy` | `Authentication` | `AuthenticationService.authenticate` and the claim tuple |
| `authcontroller.dfy` | `AuthController` | the login endpoint and its inactive-account gate |
| `usercontroller.dfy` | `UserController` | the guards and endpoints of `UserRestController`, as a class over the service |
| `scenario.dfy` | `Scenario` | one account's life through the endpoints: register, self-deactivate, refused login, reactivation by an ADMIN, login |

Java `null` is `None` throughout. Two consequences follow from this:

- A Spring Data derived query with a null argument looks for a null column value.
  So the users table is keyed by `Option<string>`, and `findByEmail(null)` asks whether some stored email is null.
- An exception thrown inside `saveUser` or `updateUser` is caught and rethrown as an InvalidArgument whose code is `"Error saving user: "`.
  The model derives the two inputs that reach that catch block:
  - a null password, because the encoder refuses to encode null;
  - a null email, because the column is NOT NULL.

Every operation that throws leaves the table as it was, because the methods roll back on any exception.

Three library collaborators become function-typed parameters: the password encoder, the authentication manager and the token generator. Two more inputs become parameters as well: the `@Email` address check, and the clock that gives the response timestamp.

The model follows the code on these points:

- **Status codes.** Every application exception becomes status 400, NotAuthorized and NotFound included.
- **updateUser.** It checks neither the old password nor email uniqueness. It re-encodes the request's `password` unconditionally, and `oldPassword` plays no part.
- **Inactive login.** A deactivated account is refused with a 403 response whose body holds `error` and `message`. The code does not raise a NotAuthorized exception here.
- **saveUser failures.** Internal failures are caught and wrapped after the fact. They are not validated before the write.

## Model

| member | source | states |
|---|---|---|
| UserModel.RoleOf | src/main/java/gr/aueb/cf/finalproject/model/User.java:41-42 | a role is recovered from a text exactly when the text is a role name |
| UserModel.Authorities | src/main/java/gr/aueb/cf/finalproject/model/User.java:52-55 | exactly one authority, and it names the user's role, so `iterator().next()` is the role |
| UserModel.IsEnabled | src/main/java/gr/aueb/cf/finalproject/model/User.java:82-85 | enabled exactly when the flag is null or true |
| UserModel.IsAccountNonExpired | src/main/java/gr/aueb/cf/finalproject/model/User.java:67-70 | holds for every user |
| UserModel.IsAccountNonLocked | src/main/java/gr/aueb/cf/finalproject/model/User.java:72-75 | holds for every user |
| UserModel.IsCredentialsNonExpired | src/main/java/gr/aueb/cf/finalproject/model/User.java:77-80 | holds for every user |
| IsoDates.IsoTextRoundTrip | src/main/java/gr/aueb/cf/finalproject/authentication/AuthenticationService.java:32 | the birthdate claim text parses back to the birthdate, for every year, including negative and five-digit ones |
| Dtos.PatternIsPasswordRule | src/main/java/gr/aueb/cf/finalproject/dto/UserInsertDTO.java:26-28 | the password regex under full-string matching accepts exactly the strings that have a lower-case letter, an upper-case letter, a digit and one of `@#$!%&*`, are at least 8 long, and contain no line terminator |
| Dtos.InsertViolations | src/main/java/gr/aueb/cf/finalproject/dto/UserInsertDTO.java:22-41 | a constraint is reported exactly when it is one of the shape's seven constraints and does not hold; the reported constraints stand in field declaration order, so each is reported once |
| Dtos.UpdateViolations | src/main/java/gr/aueb/cf/finalproject/dto/UserUpdateDTO.java:18-37 | a constraint is reported exactly when it is one of the shape's eight constraints and does not hold; the reported constraints stand in field declaration order, so each is reported once; none concerns a username or a role |
| Dtos.InsertValidIffNoViolations | src/main/java/gr/aueb/cf/finalproject/dto/UserInsertDTO.java:23-40 | no field error exactly when username, firstname and lastname are non-empty, the password is null or follows the rule, the email is null, empty or well formed, and birthdate and country are present |
| Dtos.UpdateValidIffNoViolations | src/main/java/gr/aueb/cf/finalproject/dto/UserUpdateDTO.java:20-36 | no field error exactly when password and oldPassword are each null or follow the rule, firstname, lastname and email are non-empty, the email is well formed, and birthdate and country are present |
| Dtos.UpdateEmailErrorsExclusive | src/main/java/gr/aueb/cf/finalproject/dto/UserUpdateDTO.java:30-32 | an email value never draws both the format error and the required error |
| Dtos.FieldErrors | src/main/java/gr/aueb/cf/finalproject/dto/UserInsertDTO.java:23-40 | one field error per violated constraint, in order, each carrying the field and message declared on it |
| Mapper.FindCountryByName | src/main/java/gr/aueb/cf/finalproject/core/mapper/Mapper.java:31-32 | a country is found exactly when the name is present and in the table, and it is that row |
| Mapper.MapToUserEntity | src/main/java/gr/aueb/cf/finalproject/core/mapper/Mapper.java:21-35 | fails with the IllegalArgumentException exactly when the country does not resolve; otherwise the six fields are copied unchanged, the password is still plain text, the role is USER, and the id and flag are unset |
| Mapper.MapToReadOnlyDto | src/main/java/gr/aueb/cf/finalproject/core/mapper/Mapper.java:36-38 | the view is the user's firstname, lastname and email and the country's name |
| Mapper.ViewHidesCredentials | src/main/java/gr/aueb/cf/finalproject/core/mapper/Mapper.java:37 | users that agree on the profile fields have equal views, so username, password, role, id and flag are not revealed |
| Mapper.MappedViewMatchesRequest | src/main/java/gr/aueb/cf/finalproject/core/mapper/Mapper.java:21-37 | mapping a request and then viewing it gives back the request's profile fields and country name |
| Registry.SaveUser | src/main/java/gr/aueb/cf/finalproject/service/UserService.java:43-70 | the checks run in order: country, then username, then email. Each failure leaves the table unchanged. Success happens exactly when all three pass and password and email are present. It adds exactly the new username and keeps every old row. The new row is active, has role USER, has the encoded password and the next id, and the view returned is its view |
| Registry.SaveFailsOnlyOnNulls | src/main/java/gr/aueb/cf/finalproject/service/UserService.java:45-67 | the catch-all error happens exactly when the checks pass and the password or the email is null, so the mapper's country failure is unreachable |
| Registry.SaveUserPreservesValid | src/main/java/gr/aueb/cf/finalproject/service/UserService.java:48-62 | saveUser keeps usernames as keys, emails and ids unique, required fields set, and every password encoded |
| Registry.SetActive | src/main/java/gr/aueb/cf/finalproject/service/UserService.java:89-116 | NotFound, with the table unchanged, exactly when the username is unknown; otherwise only that row's flag changes, to the given value |
| Registry.SetActiveIdempotent | src/main/java/gr/aueb/cf/finalproject/service/UserService.java:89-116 | a second identical call succeeds with the same view and the same table |
| Registry.ReactivationRestores | src/main/java/gr/aueb/cf/finalproject/service/UserService.java:89-116 | deactivating and then activating an active account restores the table |
| Registry.SetActivePreservesValid | src/main/java/gr/aueb/cf/finalproject/service/UserService.java:89-116 | both flag operations keep the table's invariant and the password encoding |
| Registry.UpdatePassword | src/main/java/gr/aueb/cf/finalproject/service/UserService.java:73-86 | NotFound for an unknown username; the catch-all for a null password; otherwise only the password of that row changes, to the encoding of the request's password |
| Registry.UpdateIgnoresOldPassword | src/main/java/gr/aueb/cf/finalproject/service/UserService.java:79 | requests that differ only in oldPassword have the same outcome |
| Registry.UpdatePasswordPreservesValid | src/main/java/gr/aueb/cf/finalproject/service/UserService.java:76-80 | updateUser keeps the table's invariant and the password encoding |
| Service.UserService.constructor | src/main/java/gr/aueb/cf/finalproject/service/UserService.java:32-40 | a service over an empty table satisfies the invariant |
| Service.UserService.EmailInUse | src/main/java/gr/aueb/cf/finalproject/service/UserService.java:52 | a row-by-row scan of the table that stops at the first row holding the email; it answers true exactly when the email-uniqueness predicate used by the save invariant says the email is taken |
| Service.UserService.SaveUser | src/main/java/gr/aueb/cf/finalproject/service/UserService.java:42-70 | result and new table are those of Registry.SaveUser; the invariant is kept |
| Service.UserService.UpdateUser | src/main/java/gr/aueb/cf/finalproject/service/UserService.java:72-86 | result and new table are those of Registry.UpdatePassword; the invariant is kept |
| Service.UserService.SetFlag | src/main/java/gr/aueb/cf/finalproject/service/UserService.java:92-111 | result and new table are those of Registry.SetActive; the invariant is kept |
| Service.UserService.SetUserInactive | src/main/java/gr/aueb/cf/finalproject/service/UserService.java:88-101 | result and new table are those of Registry.SetActive with false |
| Service.UserService.SetUserActive | src/main/java/gr/aueb/cf/finalproject/service/UserService.java:103-116 | result and new table are those of Registry.SetActive with true |
| ExceptionHandler.Details | src/main/java/gr/aueb/cf/finalproject/rest/GlobalExceptionHandler.java:33-35 | one entry per field error, in order, each `field: message` |
| ExceptionHandler.DetailsOfConcatenation | src/main/java/gr/aueb/cf/finalproject/rest/GlobalExceptionHandler.java:33-35 | the details of two batches of errors are the first batch's details followed by the second's, so all errors are reported |
| ExceptionHandler.DetailRoundTrip | src/main/java/gr/aueb/cf/finalproject/rest/GlobalExceptionHandler.java:34 | an entry reads back to its field and message when the field has no colon |
| ExceptionHandler.HandleApp | src/main/java/gr/aueb/cf/finalproject/rest/GlobalExceptionHandler.java:19-27 | status 400, with exactly the keys code, message and timestamp, holding the exception's code and message |
| ExceptionHandler.HandleValidation | src/main/java/gr/aueb/cf/finalproject/rest/GlobalExceptionHandler.java:28-39 | status 400 and ValidationException's fixed code and message. Its details list has one entry per field error, in order |
| ExceptionHandler.Handle | src/main/java/gr/aueb/cf/finalproject/rest/GlobalExceptionHandler.java:17-41 | every application exception of any kind gives 400; only exceptions outside the application's hierarchy go unhandled |
| Authentication.ClaimsOf | src/main/java/gr/aueb/cf/finalproject/authentication/AuthenticationService.java:32 | no claims exactly when the birthdate is null. Otherwise every claim reads back to the record: the subject is the authenticated name, the role text names the role, and the birthdate text parses to the birthdate |
| Authentication.Authenticate | src/main/java/gr/aueb/cf/finalproject/authentication/AuthenticationService.java:22-34 | refused credentials fail first. An authenticated name without a record gives NotAuthorized("User", "User not found"). Success happens exactly when the record exists and has a birthdate, and the token is generated from that record's claims |
| Authentication.CredentialsCheckedFirst | src/main/java/gr/aueb/cf/finalproject/authentication/AuthenticationService.java:24-30 | when the manager refuses, the outcome does not depend on the table |
| Authentication.ClaimsDescribeTheirRecord | src/main/java/gr/aueb/cf/finalproject/authentication/AuthenticationService.java:29-32 | in a valid table the claims' subject is the record's username and their email belongs to no other account |
| AuthController.Login | src/main/java/gr/aueb/cf/finalproject/rest/AuthRestController.java:31-45 | 403 with the inactive body exactly when the requested user exists with flag false. Every other request goes to authenticate: 200 with the token, or the handler's response to its exception |
| AuthController.DeactivatedRefusedWhateverThePassword | src/main/java/gr/aueb/cf/finalproject/rest/AuthRestController.java:34-41 | a deactivated account is refused whatever password is given |
| AuthController.TokenOnlyForEnabledAccounts | src/main/java/gr/aueb/cf/finalproject/rest/AuthRestController.java:34-44 | if the manager authenticates only the requested name, a 200 goes only to an existing, enabled account |
| UserController.Decide | src/main/java/gr/aueb/cf/finalproject/rest/UserRestController.java:53-96 | the missing-authority exception happens exactly for the guards that read the role, when there is no authority |
| UserController.DecideFollowsPolicy | src/main/java/gr/aueb/cf/finalproject/rest/UserRestController.java:53-96 | for a stored user's principal, the string-compared guards allow exactly what the role policy allows: update for self only, deactivate and activate for self or ADMIN, delete for ADMIN only |
| UserController.AdminCannotUpdateOthers | src/main/java/gr/aueb/cf/finalproject/rest/UserRestController.java:55-57 | an ADMIN is refused the update of another account |
| UserController.DeleteIgnoresTarget | src/main/java/gr/aueb/cf/finalproject/rest/UserRestController.java:79-82 | the delete decision does not depend on the target |
| UserController.Respond | src/main/java/gr/aueb/cf/finalproject/rest/UserRestController.java:41-99 | a service failure is rethrown; a success gives the endpoint's status, with the view or no body |
| UserController.DeleteRefusal | src/main/java/gr/aueb/cf/finalproject/rest/UserRestController.java:77-82 | delete passes the guard exactly when the first authority is ADMIN |
| UserController.UserRestController.constructor | src/main/java/gr/aueb/cf/finalproject/rest/UserRestController.java:27-31 | the controller holds the given service |
| UserController.UserRestController.SaveUser | src/main/java/gr/aueb/cf/finalproject/rest/UserRestController.java:35-44 | field errors are thrown before the service is called, and the table is unchanged; otherwise the outcome is Registry.SaveUser's, with 201 |
| UserController.UserRestController.UpdateUser | src/main/java/gr/aueb/cf/finalproject/rest/UserRestController.java:46-61 | field errors come first, then the self-only guard, each leaving the table unchanged; otherwise the outcome is Registry.UpdatePassword's, with 200 |
| UserController.UserRestController.DeactivateUser | src/main/java/gr/aueb/cf/finalproject/rest/UserRestController.java:63-75 | a refused guard throws and leaves the table unchanged; otherwise the outcome is Registry.SetActive(false)'s, with 204 |
| UserController.UserRestController.ActivateUser | src/main/java/gr/aueb/cf/finalproject/rest/UserRestController.java:88-100 | a refused guard throws and leaves the table unchanged; otherwise the outcome is Registry.SetActive(true)'s, with 204 |
| Scenario.LifeOfAnAccount | src/main/java/gr/aueb/cf/finalproject/rest/UserRestController.java:35-100 | register alice (201, active), self-deactivate, login refused with 403, reactivation by ADMIN bob, login gives 200 and a token generated from alice's claims with role USER and country Greece, while a wrong password leaves the manager's AuthenticationException uncaught rather than raising NotAuthorized |

## Left out

- Token signing, verification and expiry: the token generator is a parameter. JwtService is not part of this model.
- Password hashing: BCrypt is the parameter `encode`, one fixed function. BCrypt draws a fresh salt on every call, so equalities between stored passwords (the equal outcomes in `Registry.UpdateIgnoresOldPassword`, the exact stored row in the scenario) hold only for a single salt. The model makes no claim about the encoder's output differing from its input.
- The authentication manager is a parameter. It returns the authenticated name or refuses. Spring Security's provider chain, including its own checks of `isEnabled`, is not modelled.
- The `@Email` check is the parameter `wellFormed`. Hibernate's address grammar is not modelled; only its acceptance of null and of the empty string is.
- Field-error order: the validator does not fix an order. The model reports errors in field declaration order.
- Transactions, repositories, `SecurityContextHolder`, logging and response building are left out:
  - the table is a map;
  - the authenticated principal is a parameter;
  - the timestamp is a parameter.
- Exceptions that the advice does not handle are only named (`Uncaught`). This covers the authentication exception, the missing-authority exception and the null-birthdate exception. Spring's default error responses for them are not modelled.
- `getPaginatedUsers` and `getUsersByCountry`: persistence queries with no rule to state.
- The Country entity's cascade and `toString` are left out. A country with a null name is also left out, so `findByName(null)` never matches.
- Registry.UpdatePassword: `mapToUpdateUserEntity` is not part of this model, so the profile-field effects of updateUser are not modelled. Only the lookup and the password line are, and the returned view is that of the looked-up row.
- UserController.DeleteRefusal: `userService.deleteUser` is not part of this model. The delete endpoint is modelled up to its guard.
- Mapper.MapToReadOnlyDto: the four-argument constructor called in the mapper does not exist on `UserReadOnlyDTO`, whose fields are six. The model keeps the four values the mapper passes.
- The login response: `AuthenticationResponseDTO` has no one-argument constructor. The model keeps the token alone.
- Registry.SetActive: the catch blocks of `setUserInactive` and `setUserActive` are not modelled. Nothing in their try blocks can fail in this model, because the mapper's view cannot fail for a stored row.
- Registry.Valid: it requires every row's flag and id to be set. Rows written by anything other than these operations are not modelled.
- `AppGenericException` is not part of this model. The model takes its code to be its first constructor argument and its message to be its second.
- `Role` is not part of this model. Its `toString` is taken to be the constant's name.
- IsoDates.Date: the day range is 1 to 31 for every month. Calendar validity is not modelled, because it does not affect the text round trip.
- Concurrency: each operation runs alone.

