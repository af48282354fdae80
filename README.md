# Functionality-gated permissions for a JHipster GraphQL backend

This project models, in Dafny, the authorisation core of the `development_test`
JHipster application. Every GraphQL operation except `requestPasswordReset` carries a fixed
`@PreAuthorize` expression that looks up one (functionality name, authority name)
pair in the **Functionality** table. Some guards also require the caller to hold
`ROLE_ADMIN`. The table is itself managed through guarded operations. The model
covers these parts:

- **`Domain`** (`functionality.dfy`) holds the `Functionality` entity as a class with
  mutable `id`, `name` and `authority`. It has the setters, the fluent setters, and the
  id-based `equals` with its constant `hashCode`. Its `toString` text is paired with a
  parser that reads the id and name back.
- **`Repository`** (`functionality_repository.dfy`) covers the two derived single-result
  queries `getByName` and `getByNameAndAuthority_Name`. A query that matches more than
  one row raises, as Spring Data does. The `FunctionalityRepository` class holds the
  table as a `map<int, Row>` plus the id sequence. It has `save` (persist or merge),
  `findById`, `findAll` and `deleteById`. `FunctionalityService` only passes calls
  through, so its operations are these methods.
- **`Gate`** (`gate.dfy`) evaluates a guard against the table. The lookup runs first,
  so a duplicated pair makes the whole expression fail, even for an administrator. Then
  comes the optional `hasRole(ADMIN)`. `Gate.Permits` gives the same gate over a set of
  permissions, and the two agree whenever no pair is duplicated.
- **`FunctionalityResource`**, **`AccountResource`** and **`UserResource`** are the three
  controllers. Each operation's guard literal is kept exactly as written:
  - `createFunctionality`, `updateFunctionality` and `getAllFunctionalities` look up
    `"createUser"`;
  - `deleteFunctionality` looks up `"getFunctionality"`;
  - `requestPasswordReset` has no guard.

  The Functionality controller works on the repository object. The account and user
  controllers are functions. Their collaborators (UserService, MailService,
  SecurityUtils, the servlet request) appear as parameters carrying what those
  collaborators answer. Each reply records the service calls the controller made and
  its result or error.
- **`Users`** (`users.dfy`) holds the user table as the two controllers query it:
  `findOneByLogin`, which matches exactly, and `findOneByEmailIgnoreCase`.
- The support modules are `Wrappers` (Option and single-result lookups), `Errors`
  (the exceptions, as one datatype), `Text` (`Long.toString` with its parser, and ASCII
  case folding) and `Roles` (the JHipster authority names `ROLE_ADMIN`, `ROLE_USER` and
  `ROLE_ANONYMOUS`).

The code treats `ROLE_ANONYMOUS` as an ordinary authority name in the table, not
as a wildcard. The account guards only check that their pair is registered; they never
look at the caller's roles. Only the guards that add `hasRole(ADMIN)` do.

## Model

| member | source | states |
|---|---|---|
| Domain.Functionality.constructor | src/main/java/br/com/develoment_test/domain/Functionality.java:18-30 | a new entity has no id, no name and no authority |
| Domain.Functionality.SetId | src/main/java/br/com/develoment_test/domain/Functionality.java:37-39 | sets the id and leaves the other fields as they were |
| Domain.Functionality.SetName | src/main/java/br/com/develoment_test/domain/Functionality.java:50-52 | sets the name and leaves the other fields as they were |
| Domain.Functionality.SetAuthority | src/main/java/br/com/develoment_test/domain/Functionality.java:63-65 | sets the authority and leaves the other fields as they were |
| Domain.Functionality.WithName | src/main/java/br/com/develoment_test/domain/Functionality.java:45-48 | the fluent setter updates the name and returns the same object |
| Domain.Functionality.WithAuthority | src/main/java/br/com/develoment_test/domain/Functionality.java:58-61 | the fluent setter updates the authority and returns the same object |
| Domain.Functionality.HashCode | src/main/java/br/com/develoment_test/domain/Functionality.java:79-82 | the hash code is the constant 31 for every entity, whatever its fields |
| Domain.Functionality.ToString | src/main/java/br/com/develoment_test/domain/Functionality.java:84-90 | the text reads back to the entity's id and its name text ("null" for an unset name) |
| Domain.Functionality.Equals | src/main/java/br/com/develoment_test/domain/Functionality.java:68-77 | equal to itself; never equal to a non-Functionality; a distinct Functionality is equal exactly when this id is set and both ids are the same |
| Domain.EqualsSymmetric | src/main/java/br/com/develoment_test/domain/Functionality.java:68-77 | equals is symmetric |
| Domain.EqualsTransitive | src/main/java/br/com/develoment_test/domain/Functionality.java:68-77 | equals is transitive |
| Domain.HashCodeAgreesWithEquals | src/main/java/br/com/develoment_test/domain/Functionality.java:79-82 | equal entities have equal hash codes (the hash is the constant 31) |
| Domain.EqualsScenario | src/test/java/br/com/develoment_test/domain/FunctionalityTest.java:9-21 | ids 1 and 1 are equal; ids 1 and 2 are not; an unset id and id 2 are not |
| Domain.IdTextRoundTrip | src/main/java/br/com/develoment_test/domain/Functionality.java:84-90 | the id text has no comma and reads back to the same id, with "null" for an unset id |
| Domain.UpToCommaOfPrefix | src/main/java/br/com/develoment_test/domain/Functionality.java:84-90 | scanning up to the first comma stops exactly at the end of a comma-free prefix |
| Domain.DescribeRoundTrip | src/main/java/br/com/develoment_test/domain/Functionality.java:84-90 | the toString text parses back to the entity's id and its name text |
| Domain.DescribeConflatesNullName | src/main/java/br/com/develoment_test/domain/Functionality.java:84-90 | an unset name and the name "null" print the same text |
| Repository.GetByNameAndAuthorityName | src/main/java/br/com/develoment_test/repository/FunctionalityRepository.java:21 | no match exactly when the pair is not in the table; a match is the only row with that name and authority name; more than one matching row raises |
| Repository.GetByName | src/main/java/br/com/develoment_test/repository/FunctionalityRepository.java:16 | no match exactly when no row has the name; a match is the only row with it; more than one such row raises |
| Repository.GetByNameIgnoresAuthority | src/main/java/br/com/develoment_test/repository/FunctionalityRepository.java:16 | changing a row's authority does not change which id getByName finds |
| Repository.PairsMatching | src/main/java/br/com/develoment_test/repository/FunctionalityRepository.java:21 | a pair is registered exactly when some row matches it |
| Repository.NoDuplicatesNoLookupFailure | src/main/java/br/com/develoment_test/repository/FunctionalityRepository.java:21 | when no pair appears in two rows, the pair lookup never raises |
| Repository.AddRowPairs | src/main/java/br/com/develoment_test/service/FunctionalityService.java:35-37 | inserting a row under a new id registers exactly its pair in addition to the old ones |
| Repository.AddDuplicateBreaksLookup | src/main/java/br/com/develoment_test/repository/FunctionalityRepository.java:21 | inserting a second row for a registered pair makes its lookup raise |
| Repository.AddFirstRowRegisters | src/main/java/br/com/develoment_test/repository/FunctionalityRepository.java:21 | inserting the first row for a pair makes its lookup find that row |
| Repository.RemoveOnlyRowRevokes | src/main/java/br/com/develoment_test/repository/FunctionalityRepository.java:21 | deleting the only row of a pair makes its lookup find nothing |
| Repository.FunctionalityRepository.constructor | src/main/java/br/com/develoment_test/repository/FunctionalityRepository.java:13 | the repository starts with the given table and a sequence above every id in it |
| Repository.FunctionalityRepository.Save | src/main/java/br/com/develoment_test/service/FunctionalityService.java:35-37 | a missing name or authority changes nothing and fails; without an id, the next sequence value is assigned to the entity and its row is added; with a stored id, that row is replaced and a copy is returned; with an unknown id, the row is added under a fresh id |
| Repository.FunctionalityRepository.FindOne | src/main/java/br/com/develoment_test/service/FunctionalityService.java:57-61 | a null id is an illegal argument; an unknown id gives empty; a stored id gives its row |
| Repository.FunctionalityRepository.FindAll | src/main/java/br/com/develoment_test/service/FunctionalityService.java:44-48 | returns every row exactly once, with its id, and nothing else |
| Repository.FunctionalityRepository.Delete | src/main/java/br/com/develoment_test/service/FunctionalityService.java:68-71 | a null id is an illegal argument; an unknown id fails with an empty result and changes nothing; a stored id loses its row and only that row |
| Gate.Permits | src/main/java/br/com/develoment_test/web/rest/FunctionalityResource.java:44-45 | the reference gate over a set of permissions: it needs the guard's pair; a guard without hasRole depends on nothing else; an ADMIN guard refuses a caller without ROLE_ADMIN |
| Gate.PermitsMonotone | src/main/java/br/com/develoment_test/web/rest/FunctionalityResource.java:44-45 | registering more pairs or granting more roles never takes a permission away |
| Gate.Decide | src/main/java/br/com/develoment_test/web/rest/FunctionalityResource.java:44-45 | permits exactly when the pair has one row and, for ADMIN guards, the caller is an admin; fails exactly when the pair has more than one row; an unregistered pair denies |
| Gate.Refusal | src/main/java/br/com/develoment_test/web/rest/FunctionalityResource.java:44-45 | a denied guard is access denied; a failed lookup is a different error |
| Gate.DecideIsPermits | src/main/java/br/com/develoment_test/web/rest/FunctionalityResource.java:44-45 | when the guard's own pair has at most one row, the table gate never fails and permits exactly as the set-of-permissions gate does |
| Gate.NoDuplicatesDecideIsPermits | src/main/java/br/com/develoment_test/web/rest/FunctionalityResource.java:44-45 | in a table where no pair has two rows, every guard permits exactly as the set-of-permissions gate does |
| Gate.RegistryOnlyGuardIgnoresCaller | src/main/java/br/com/develoment_test/web/rest/FunctionalityResource.java:70-71 | a guard without hasRole gives the same decision for every caller |
| Gate.DeletingOnlyRowDenies | src/main/java/br/com/develoment_test/web/rest/FunctionalityResource.java:92-97 | removing the only row of a guard's pair denies that operation to everyone |
| Gate.DuplicateRowFailsGuard | src/main/java/br/com/develoment_test/web/rest/FunctionalityResource.java:44-51 | registering a guard's pair twice makes the guard fail for everyone, admins included |
| Gate.FirstRowPermits | src/main/java/br/com/develoment_test/web/rest/FunctionalityResource.java:44-51 | registering a guard's pair for the first time lets qualifying callers through |
| Text.DigitsRoundTrip | src/main/java/br/com/develoment_test/web/rest/FunctionalityResource.java:96 | the decimal digits of a natural number are digits and read back to that number |
| Text.LongToStringRoundTrip | src/main/java/br/com/develoment_test/web/rest/FunctionalityResource.java:96 | the decimal text of an id parses back to that id |
| Text.LongToStringInjective | src/main/java/br/com/develoment_test/web/rest/FunctionalityResource.java:96 | different ids give different texts |
| Text.ToLower | src/main/java/br/com/develoment_test/web/rest/UserResource.java:94 | lower-casing keeps the length, leaves no ASCII capital, keeps every other character and maps each capital to its lower-case letter |
| Text.ToLowerIdempotent | src/main/java/br/com/develoment_test/web/rest/UserResource.java:94 | lower-casing twice is lower-casing once |
| Text.EqualsIgnoreCaseOfLower | src/main/java/br/com/develoment_test/web/rest/AccountResource.java:131 | a string equals its lower-cased form ignoring case |
| FunctionalityResource.CreateFunctionality | src/main/java/br/com/develoment_test/web/rest/FunctionalityResource.java:44-51 | refused, or an entity with an id ("idexists"), or one without a name or authority: nothing changes; otherwise the entity gets the next id, keeps its name and authority, is returned, and exactly its row is added |
| FunctionalityResource.UpdateFunctionality | src/main/java/br/com/develoment_test/web/rest/FunctionalityResource.java:58-65 | refused, or an entity without an id ("idnull"), or one without a name or authority: nothing changes; otherwise a copy with the same name and authority is returned and the row of its id is replaced with the sequence untouched, or, for an unknown id, added under the next id |
| FunctionalityResource.GetAllFunctionalities | src/main/java/br/com/develoment_test/web/rest/FunctionalityResource.java:70-74 | when permitted, returns every row exactly once |
| FunctionalityResource.GetFunctionality | src/main/java/br/com/develoment_test/web/rest/FunctionalityResource.java:81-85 | when permitted, returns the row of the id, empty for an unknown id, and an illegal argument for a null id |
| FunctionalityResource.DeleteFunctionality | src/main/java/br/com/develoment_test/web/rest/FunctionalityResource.java:92-97 | when permitted, removes exactly the row of the id and answers "functionality.graphqls: " followed by the decimal text of the id, which parses back to the id; otherwise changes nothing |
| FunctionalityResource.CreateAndUpdateUseCreateUserRow | src/main/java/br/com/develoment_test/web/rest/FunctionalityResource.java:44-65 | create and update decide identically, from the ("createUser", ROLE_ADMIN) row and the caller's ADMIN role |
| FunctionalityResource.DeleteUsesGetFunctionalityRow | src/main/java/br/com/develoment_test/web/rest/FunctionalityResource.java:92-93 | when ("getFunctionality", ROLE_ADMIN) has at most one row, delete is permitted exactly when that pair is registered and the caller is an admin |
| FunctionalityResource.ReadsIgnoreCaller | src/main/java/br/com/develoment_test/web/rest/FunctionalityResource.java:70-85 | the list and get operations decide the same for every caller |
| Users.FindOneByLogin | src/main/java/br/com/develoment_test/web/rest/UserResource.java:94 | no match exactly when no user has the login; a match is the only user with it; several such users raise |
| Users.FindOneByEmailIgnoreCase | src/main/java/br/com/develoment_test/web/rest/UserResource.java:96 | no match exactly when no email equals it ignoring case; a match is the only such user; several raise |
| Users.LoginMatchingEmpty | src/main/java/br/com/develoment_test/web/rest/UserResource.java:94 | no user matches a login exactly when no stored login equals it |
| Users.EmailMatchingEmpty | src/main/java/br/com/develoment_test/web/rest/UserResource.java:96 | no user matches an email exactly when no stored email equals it ignoring case |
| Users.UniqueUsersNoLookupFailure | src/main/java/br/com/develoment_test/web/rest/UserResource.java:94-96 | with unique logins and emails, neither lookup raises |
| AccountResource.CheckPasswordLength | src/main/java/br/com/develoment_test/web/rest/AccountResource.java:197-201 | a password passes exactly when it is present and 4 to 100 characters long; a null or empty password never passes |
| AccountResource.RegisterAccount | src/main/java/br/com/develoment_test/web/rest/AccountResource.java:66-76 | refused or with a bad password: no service call and an error; with a valid password it registers the user with the password and returns the user, and only then calls a service |
| AccountResource.ActivateAccount | src/main/java/br/com/develoment_test/web/rest/AccountResource.java:84-91 | when permitted, calls activation with the key and fails when no user was activated |
| AccountResource.IsAuthenticated | src/main/java/br/com/develoment_test/web/rest/AccountResource.java:99-103 | makes no call; when permitted, returns the request's remote user |
| AccountResource.GetAccount | src/main/java/br/com/develoment_test/web/rest/AccountResource.java:111-117 | when permitted, returns the current user or fails when there is none |
| AccountResource.SaveAccount | src/main/java/br/com/develoment_test/web/rest/AccountResource.java:126-141 | without a current login it fails first; the email is refused exactly when one other login (ignoring case) holds it; with a free email and no user for the login it fails with "User could not be found"; it succeeds exactly when the login exists and the email is free or the caller's own; only success updates the account |
| AccountResource.ChangePassword | src/main/java/br/com/develoment_test/web/rest/AccountResource.java:149-157 | succeeds exactly when permitted with a valid new password, and then changes the password |
| AccountResource.RequestPasswordReset | src/main/java/br/com/develoment_test/web/rest/AccountResource.java:165-173 | has no guard; always asks for a reset; an unknown email fails with that call alone and no mail; otherwise mails the user and answers the fixed confirmation |
| AccountResource.FinishPasswordReset | src/main/java/br/com/develoment_test/web/rest/AccountResource.java:182-195 | refused or with a bad password: no call; otherwise completes the reset and fails when no user had the key |
| AccountResource.BadPasswordStopsBeforeAnyCall | src/main/java/br/com/develoment_test/web/rest/AccountResource.java:71-73 | a bad password makes register, change and finish-reset fail without calling any service |
| AccountResource.AccountGuardsIgnoreCaller | src/main/java/br/com/develoment_test/web/rest/AccountResource.java:66-183 | every account operation answers the same whatever the caller's roles |
| AccountResource.SaveAccountOwnEmail | src/main/java/br/com/develoment_test/web/rest/AccountResource.java:126-141 | saving with one's own or an unused email succeeds |
| UserResource.CreateUser | src/main/java/br/com/develoment_test/web/rest/UserResource.java:87-103 | refused, id present, login taken (lower-cased), email taken (any case), in that order, each as an error with no call; otherwise creates the user and sends the creation email |
| UserResource.UpdateUser | src/main/java/br/com/develoment_test/web/rest/UserResource.java:113-128 | the email held by another id is refused first, then the lower-cased login held by another id; otherwise updates, and a missing user is not found |
| UserResource.GetAllUsers | src/main/java/br/com/develoment_test/web/rest/UserResource.java:136-140 | succeeds exactly when permitted, with the page of managed users |
| UserResource.GetAuthorities | src/main/java/br/com/develoment_test/web/rest/UserResource.java:146-150 | succeeds exactly when permitted, with the authority names |
| UserResource.GetUser | src/main/java/br/com/develoment_test/web/rest/UserResource.java:158-163 | succeeds exactly when permitted, with the user of the login if any |
| UserResource.DeleteUser | src/main/java/br/com/develoment_test/web/rest/UserResource.java:171-176 | succeeds exactly when permitted, and then deletes the login |
| UserResource.UserOperationsNeedAdmin | src/main/java/br/com/develoment_test/web/rest/UserResource.java:87-176 | a caller without ROLE_ADMIN reaches no user service call |
| UserResource.UpdateOwnLoginAndEmail | src/main/java/br/com/develoment_test/web/rest/UserResource.java:113-128 | updating a user whose login and email belong to nobody else reaches the update |
| UserResource.CreateUserReportsLoginFirst | src/main/java/br/com/develoment_test/web/rest/UserResource.java:94-97 | when both are taken, create reports the login |
| UserResource.UpdateUserReportsEmailFirst | src/main/java/br/com/develoment_test/web/rest/UserResource.java:116-119 | when the email belongs to another id, update reports the email, whatever the login |
| UserResource.FunctionalityAdminSharesCreateUserRow | src/main/java/br/com/develoment_test/web/rest/FunctionalityResource.java:44-59 | creating and updating functionalities is decided exactly as creating users is |

## Left out

- Spring Expression Language evaluation, the `ROLE_` prefix handling of `hasRole`, and the security context are not modelled. Each guard is the fixed pair it looks up plus a flag for `hasRole(ADMIN)`; the caller's authorities are a set of names.
- GraphQL and HTTP transport, `ResponseEntity`, headers and status codes are left out. Results are values or `Errors.Error` cases.
- UserService, MailService, SecurityUtils and the servlet request are outside the model. What they answer (the registered, activated, updated or reset user; the current login; the remote user; a page of users) is a parameter. Their calls are recorded, not executed.
- `ManagedUserVM` and `AuthoritiesConstants` are not part of this model. The constants are JHipster's defaults: password length 4 to 100, and `ROLE_ADMIN`, `ROLE_USER`, `ROLE_ANONYMOUS`.
- Text.ToLower: folds ASCII letters only, not the full Unicode case mapping of `String.toLowerCase` and `equalsIgnoreCase`.
- AccountResource.CheckPasswordLength: lengths are counted in characters of the model's strings, not in UTF-16 code units.
- Text.LongToStringRoundTrip: ids are unbounded integers; the 64-bit width of `Long` is not modelled.
- Repository.FunctionalityRepository.Save: bean validation of the `@NotNull` name and authority is taken to reject before anything changes, including before an id is drawn from the sequence. The existence of the referenced Authority row is not checked.
- Repository.FunctionalityRepository.FindAll: the order of the list is not stated, since `findAll` promises none.
- Repository.FunctionalityRepository.FindOne: returns the row as a value, not a managed entity; the persistence context's identity map and lazy loading are not modelled.
- UserResource.CreateUser: a null login or email in the DTO (on which `toLowerCase` would raise) is not modelled; both are strings.
- UserResource.UpdateUser: a null login or email in the DTO is not modelled, as for CreateUser.
- Exceptions thrown inside UserService or MailService, and transaction rollback, are not modelled.
- Pagination arguments to `getAllUsers` are not modelled; the page is the service's answer.
- Concurrency between requests is not modelled; each operation runs alone on the table.
- `ApplicationWebXml` (servlet bootstrapping) has no behaviour to model.
