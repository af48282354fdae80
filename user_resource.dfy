/** The GraphQL controller for user management. Every operation demands both
    its registry row for ADMIN and that the caller holds ADMIN; create and
    update check the login and email against the user table in a fixed
    order before calling UserService. */
module UserResource {
  import opened Wrappers
  import opened Errors
  import Roles
  import Text
  import opened Repository
  import opened Gate
  import opened Users
  import FunctionalityResource

  const CreateUserGuard: Guard := Guard("createUser", Roles.ADMIN, true)
  const UpdateUserGuard: Guard := Guard("updateUser", Roles.ADMIN, true)
  const GetAllUsersGuard: Guard := Guard("getAllUsers", Roles.ADMIN, true)
  const GetAuthoritiesGuard: Guard := Guard("getAuthorities", Roles.ADMIN, true)
  const GetUserGuard: Guard := Guard("getUser", Roles.ADMIN, true)
  const DeleteUserGuard: Guard := Guard("deleteUser", Roles.ADMIN, true)

  /** createUser: no id, then no user with the lower-cased login, then no
      user with the email (any case); only then is the user created and
      mailed (`created` is what UserService.createUser answers). */
  function CreateUser(rows: map<int, Row>, callerRoles: set<string>, users: map<int, UserRow>,
                      dto: UserDto, created: UserRow): (r: Reply<UserRow>)
    ensures Decide(rows, CreateUserGuard, callerRoles) != Permit ==>
      r == Reply([], Err(Refusal(Decide(rows, CreateUserGuard, callerRoles))))
    ensures r.result == Err(BadRequestAlert("idexists")) <==>
      Decide(rows, CreateUserGuard, callerRoles) == Permit && dto.id.Some?
    ensures r.result == Err(LoginAlreadyUsed) <==>
      && Decide(rows, CreateUserGuard, callerRoles) == Permit && dto.id.None?
      && |LoginMatching(users, Text.ToLower(dto.login))| == 1
    ensures r.result == Err(EmailAlreadyUsed) <==>
      && Decide(rows, CreateUserGuard, callerRoles) == Permit && dto.id.None?
      && LoginMatching(users, Text.ToLower(dto.login)) == {}
      && |EmailMatching(users, dto.email)| == 1
    ensures r.result.Ok? <==>
      && Decide(rows, CreateUserGuard, callerRoles) == Permit && dto.id.None?
      && LoginMatching(users, Text.ToLower(dto.login)) == {}
      && EmailMatching(users, dto.email) == {}
    ensures r.result.Ok? ==> r == Reply([ServiceCall.CreateUser(dto), SendCreationEmail(created)], Ok(created))
    ensures r.result.Err? ==> r.calls == []
  {
    var d := Decide(rows, CreateUserGuard, callerRoles);
    if d != Permit then Reply([], Err(Refusal(d)))
    else if dto.id.Some? then Reply([], Err(BadRequestAlert("idexists")))
    else match FindOneByLogin(users, Text.ToLower(dto.login))
      case NonUnique => Reply([], Err(IncorrectResultSize))
      case Match(_) => Reply([], Err(LoginAlreadyUsed))
      case NoMatch =>
        match FindOneByEmailIgnoreCase(users, dto.email)
        case NonUnique => Reply([], Err(IncorrectResultSize))
        case Match(_) => Reply([], Err(EmailAlreadyUsed))
        case NoMatch => Reply([ServiceCall.CreateUser(dto), SendCreationEmail(created)], Ok(created))
  }

  /** updateUser: the email must not belong to another id, then the
      lower-cased login must not belong to another id; then UserService
      updates (`updated` is its answer, empty when there was no such user). */
  function UpdateUser(rows: map<int, Row>, callerRoles: set<string>, users: map<int, UserRow>,
                      dto: UserDto, updated: Option<UserDto>): (r: Reply<UserDto>)
    ensures Decide(rows, UpdateUserGuard, callerRoles) != Permit ==>
      r == Reply([], Err(Refusal(Decide(rows, UpdateUserGuard, callerRoles))))
    ensures r.result == Err(EmailAlreadyUsed) <==>
      && Decide(rows, UpdateUserGuard, callerRoles) == Permit
      && exists other :: EmailMatching(users, dto.email) == {other} && dto.id != Some(other)
    ensures r.result == Err(LoginAlreadyUsed) <==>
      && Decide(rows, UpdateUserGuard, callerRoles) == Permit
      && (EmailMatching(users, dto.email) == {} || (dto.id.Some? && EmailMatching(users, dto.email) == {dto.id.value}))
      && exists other :: LoginMatching(users, Text.ToLower(dto.login)) == {other} && dto.id != Some(other)
    ensures r.calls != [] ==> r.calls == [ServiceCall.UpdateUser(dto)]
    ensures r.calls != [] <==>
      && Decide(rows, UpdateUserGuard, callerRoles) == Permit
      && (EmailMatching(users, dto.email) == {} || (dto.id.Some? && EmailMatching(users, dto.email) == {dto.id.value}))
      && (LoginMatching(users, Text.ToLower(dto.login)) == {}
          || (dto.id.Some? && LoginMatching(users, Text.ToLower(dto.login)) == {dto.id.value}))
    ensures r.calls != [] ==> r.result == (if updated.None? then Err(NotFound) else Ok(updated.value))
  {
    var d := Decide(rows, UpdateUserGuard, callerRoles);
    if d != Permit then Reply([], Err(Refusal(d)))
    else
      var byEmail := FindOneByEmailIgnoreCase(users, dto.email);
      if byEmail.NonUnique? then Reply([], Err(IncorrectResultSize))
      else if byEmail.Match? && dto.id != Some(byEmail.value) then
        var other := byEmail.value;
        assert EmailMatching(users, dto.email) == {other};
        Reply([], Err(EmailAlreadyUsed))
      else
        var byLogin := FindOneByLogin(users, Text.ToLower(dto.login));
        if byLogin.NonUnique? then Reply([], Err(IncorrectResultSize))
        else if byLogin.Match? && dto.id != Some(byLogin.value) then
          var other := byLogin.value;
          assert LoginMatching(users, Text.ToLower(dto.login)) == {other};
          Reply([], Err(LoginAlreadyUsed))
        else Reply([ServiceCall.UpdateUser(dto)], if updated.None? then Err(NotFound) else Ok(updated.value))
  }

  /** getAllUsers: the page UserService answers. */
  function GetAllUsers(rows: map<int, Row>, callerRoles: set<string>, page: seq<UserDto>)
    : (r: Reply<seq<UserDto>>)
    ensures Decide(rows, GetAllUsersGuard, callerRoles) != Permit ==>
      r == Reply([], Err(Refusal(Decide(rows, GetAllUsersGuard, callerRoles))))
    ensures r.result.Ok? <==> Decide(rows, GetAllUsersGuard, callerRoles) == Permit
    ensures r.result.Ok? ==> r == Reply([GetAllManagedUsers], Ok(page))
  {
    var d := Decide(rows, GetAllUsersGuard, callerRoles);
    if d != Permit then Reply([], Err(Refusal(d))) else Reply([GetAllManagedUsers], Ok(page))
  }

  /** getAuthorities: the role names UserService answers. */
  function GetAuthorities(rows: map<int, Row>, callerRoles: set<string>, names: seq<string>)
    : (r: Reply<seq<string>>)
    ensures Decide(rows, GetAuthoritiesGuard, callerRoles) != Permit ==>
      r == Reply([], Err(Refusal(Decide(rows, GetAuthoritiesGuard, callerRoles))))
    ensures r.result.Ok? <==> Decide(rows, GetAuthoritiesGuard, callerRoles) == Permit
    ensures r.result.Ok? ==> r == Reply([ServiceCall.GetAuthorities], Ok(names))
  {
    var d := Decide(rows, GetAuthoritiesGuard, callerRoles);
    if d != Permit then Reply([], Err(Refusal(d))) else Reply([ServiceCall.GetAuthorities], Ok(names))
  }

  /** getUser: the user of a login, if UserService finds one (`found`). */
  function GetUser(rows: map<int, Row>, callerRoles: set<string>, login: string, found: Option<UserDto>)
    : (r: Reply<Option<UserDto>>)
    ensures Decide(rows, GetUserGuard, callerRoles) != Permit ==>
      r == Reply([], Err(Refusal(Decide(rows, GetUserGuard, callerRoles))))
    ensures r.result.Ok? <==> Decide(rows, GetUserGuard, callerRoles) == Permit
    ensures r.result.Ok? ==> r == Reply([GetUserWithAuthoritiesByLogin(login)], Ok(found))
  {
    var d := Decide(rows, GetUserGuard, callerRoles);
    if d != Permit then Reply([], Err(Refusal(d))) else Reply([GetUserWithAuthoritiesByLogin(login)], Ok(found))
  }

  /** deleteUser: hands the login to UserService. */
  function DeleteUser(rows: map<int, Row>, callerRoles: set<string>, login: string): (r: Reply<()>)
    ensures Decide(rows, DeleteUserGuard, callerRoles) != Permit ==>
      r == Reply([], Err(Refusal(Decide(rows, DeleteUserGuard, callerRoles))))
    ensures r.result.Ok? <==> Decide(rows, DeleteUserGuard, callerRoles) == Permit
    ensures r.result.Ok? ==> r == Reply([ServiceCall.DeleteUser(login)], Ok(()))
  {
    var d := Decide(rows, DeleteUserGuard, callerRoles);
    if d != Permit then Reply([], Err(Refusal(d))) else Reply([ServiceCall.DeleteUser(login)], Ok(()))
  }

  /** No user operation reaches UserService unless its (operation, ADMIN)
      row is registered and the caller holds ADMIN. */
  lemma UserOperationsNeedAdmin(rows: map<int, Row>, callerRoles: set<string>, users: map<int, UserRow>,
                                dto: UserDto, created: UserRow, updated: Option<UserDto>, login: string)
    requires Roles.ADMIN !in callerRoles
    ensures CreateUser(rows, callerRoles, users, dto, created).calls == []
    ensures UpdateUser(rows, callerRoles, users, dto, updated).calls == []
    ensures GetAllUsers(rows, callerRoles, []).calls == []
    ensures GetAuthorities(rows, callerRoles, []).calls == []
    ensures GetUser(rows, callerRoles, login, None).calls == []
    ensures DeleteUser(rows, callerRoles, login).calls == []
  {
  }

  /** When the user's login and email (any case) match only the user being
      updated, updateUser raises no conflict and reaches UserService. */
  lemma UpdateOwnLoginAndEmail(rows: map<int, Row>, callerRoles: set<string>, users: map<int, UserRow>,
                               dto: UserDto, updated: Option<UserDto>, self: int)
    requires Decide(rows, UpdateUserGuard, callerRoles) == Permit
    requires dto.id == Some(self)
    requires EmailMatching(users, dto.email) <= {self}
    requires LoginMatching(users, Text.ToLower(dto.login)) <= {self}
    ensures UpdateUser(rows, callerRoles, users, dto, updated).calls == [ServiceCall.UpdateUser(dto)]
  {
    var byEmail := EmailMatching(users, dto.email);
    var byLogin := LoginMatching(users, Text.ToLower(dto.login));
    assert byEmail == {} || byEmail == {self};
    assert byLogin == {} || byLogin == {self};
  }

  /** createUser checks the login before the email: a client whose login and
      email are both taken is told about the login. */
  lemma CreateUserReportsLoginFirst(rows: map<int, Row>, callerRoles: set<string>, users: map<int, UserRow>,
                                    dto: UserDto, created: UserRow, holder: int)
    requires Decide(rows, CreateUserGuard, callerRoles) == Permit && dto.id.None?
    requires LoginMatching(users, Text.ToLower(dto.login)) == {holder}
    ensures CreateUser(rows, callerRoles, users, dto, created).result == Err(LoginAlreadyUsed)
  {
  }

  /** updateUser checks the email before the login. */
  lemma UpdateUserReportsEmailFirst(rows: map<int, Row>, callerRoles: set<string>, users: map<int, UserRow>,
                                    dto: UserDto, updated: Option<UserDto>, other: int)
    requires Decide(rows, UpdateUserGuard, callerRoles) == Permit
    requires EmailMatching(users, dto.email) == {other} && dto.id != Some(other)
    ensures UpdateUser(rows, callerRoles, users, dto, updated).result == Err(EmailAlreadyUsed)
  {
  }

  /** The Functionality admin operations share createUser's permission row:
      whoever may create users may create and update functionalities. */
  lemma FunctionalityAdminSharesCreateUserRow(rows: map<int, Row>, callerRoles: set<string>)
    ensures Decide(rows, FunctionalityResource.CreateGuard, callerRoles) == Decide(rows, CreateUserGuard, callerRoles)
    ensures Decide(rows, FunctionalityResource.UpdateGuard, callerRoles) == Decide(rows, CreateUserGuard, callerRoles)
  {
  }
}
