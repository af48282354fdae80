/** The GraphQL controller for the current user's account. Its guards only
    look the (operation, role) pair up in the registry; none tests the
    caller's roles. Password lengths are checked before any service call. */
module AccountResource {
  import opened Wrappers
  import opened Errors
  import Roles
  import Text
  import opened Repository
  import opened Gate
  import opened Users

  // ManagedUserVM's bounds on a password's length.
  const PASSWORD_MIN_LENGTH: nat := 4
  const PASSWORD_MAX_LENGTH: nat := 100

  const RegisterGuard: Guard := Guard("registerAccount", Roles.ANONYMOUS, false)
  const ActivateGuard: Guard := Guard("activateAccount", Roles.ANONYMOUS, false)
  const IsAuthenticatedGuard: Guard := Guard("isAuthenticated", Roles.ANONYMOUS, false)
  const GetAccountGuard: Guard := Guard("getAccount", Roles.USER, false)
  const SaveAccountGuard: Guard := Guard("saveAccount", Roles.USER, false)
  const ChangePasswordGuard: Guard := Guard("changePassword", Roles.ANONYMOUS, false)
  const FinishResetGuard: Guard := Guard("finishPasswordReset", Roles.ANONYMOUS, false)

  const RESET_REQUESTED: string := "Requisi\U{E7}\U{E3}o de reset de senha realizada!"
  const RESET_DONE: string := "Senha resetada"

  /** checkPasswordLength: a non-null, non-empty password within the bounds.
      The emptiness test adds nothing, since the lower bound is positive. */
  predicate CheckPasswordLength(password: Option<string>): (ok: bool)
    ensures ok <==>
      password.Some? && PASSWORD_MIN_LENGTH <= |password.value| <= PASSWORD_MAX_LENGTH
    ensures password == None || password == Some("") ==> !ok
  {
    && password.Some? && |password.value| != 0
    && PASSWORD_MIN_LENGTH <= |password.value| <= PASSWORD_MAX_LENGTH
  }

  /** registerAccount: the password is checked before UserService.registerUser
      is called; `registered` is what that call answers. */
  function RegisterAccount(rows: map<int, Row>, callerRoles: set<string>, vm: UserDto,
                           password: Option<string>, registered: UserRow): (r: Reply<UserRow>)
    ensures Decide(rows, RegisterGuard, callerRoles) != Permit ==>
      r == Reply([], Err(Refusal(Decide(rows, RegisterGuard, callerRoles))))
    ensures Decide(rows, RegisterGuard, callerRoles) == Permit && !CheckPasswordLength(password) ==>
      r == Reply([], Err(InvalidPassword))
    ensures Decide(rows, RegisterGuard, callerRoles) == Permit && CheckPasswordLength(password) ==>
      r == Reply([RegisterUser(vm, password.value)], Ok(registered))
    ensures r.calls != [] <==> r.result.Ok?
    ensures r.result.Ok? ==>
      && ("registerAccount", Roles.ANONYMOUS) in Pairs(rows) && CheckPasswordLength(password)
      && r.calls == [RegisterUser(vm, password.value)] && r.result.value == registered
  {
    var d := Decide(rows, RegisterGuard, callerRoles);
    if d != Permit then Reply([], Err(Refusal(d)))
    else if !CheckPasswordLength(password) then Reply([], Err(InvalidPassword))
    else Reply([RegisterUser(vm, password.value)], Ok(registered))
  }

  /** activateAccount: fails when UserService.activateRegistration finds no
      user for the key (`activated` is its answer). */
  function ActivateAccount(rows: map<int, Row>, callerRoles: set<string>, key: string,
                           activated: Option<UserRow>): (r: Reply<()>)
    ensures Decide(rows, ActivateGuard, callerRoles) != Permit ==>
      r == Reply([], Err(Refusal(Decide(rows, ActivateGuard, callerRoles))))
    ensures Decide(rows, ActivateGuard, callerRoles) == Permit ==> r.calls == [ActivateRegistration(key)]
    ensures Decide(rows, ActivateGuard, callerRoles) == Permit ==>
      (r.result.Ok? <==> activated.Some?)
    ensures Decide(rows, ActivateGuard, callerRoles) == Permit && activated.None? ==>
      r.result == Err(AccountResourceFailure("No user was found for this activation key"))
  {
    var d := Decide(rows, ActivateGuard, callerRoles);
    if d != Permit then Reply([], Err(Refusal(d)))
    else if activated.None? then
      Reply([ActivateRegistration(key)], Err(AccountResourceFailure("No user was found for this activation key")))
    else Reply([ActivateRegistration(key)], Ok(()))
  }

  /** isAuthenticated: the request's remote user (null when anonymous). */
  function IsAuthenticated(rows: map<int, Row>, callerRoles: set<string>, remoteUser: Option<string>)
    : (r: Reply<Option<string>>)
    ensures r.calls == []
    ensures Decide(rows, IsAuthenticatedGuard, callerRoles) != Permit ==>
      r.result == Err(Refusal(Decide(rows, IsAuthenticatedGuard, callerRoles)))
    ensures Decide(rows, IsAuthenticatedGuard, callerRoles) == Permit ==> r.result == Ok(remoteUser)
  {
    var d := Decide(rows, IsAuthenticatedGuard, callerRoles);
    if d != Permit then Reply([], Err(Refusal(d))) else Reply([], Ok(remoteUser))
  }

  /** getAccount: the current user, or a failure when there is none
      (`current` is UserService.getUserWithAuthorities' answer). */
  function GetAccount(rows: map<int, Row>, callerRoles: set<string>, current: Option<UserRow>)
    : (r: Reply<UserRow>)
    ensures Decide(rows, GetAccountGuard, callerRoles) != Permit ==>
      r == Reply([], Err(Refusal(Decide(rows, GetAccountGuard, callerRoles))))
    ensures Decide(rows, GetAccountGuard, callerRoles) == Permit ==>
      && r.calls == [GetUserWithAuthorities]
      && (current.Some? ==> r.result == Ok(current.value))
      && (current.None? ==> r.result == Err(AccountResourceFailure("User could not be found")))
  {
    var d := Decide(rows, GetAccountGuard, callerRoles);
    if d != Permit then Reply([], Err(Refusal(d)))
    else if current.None? then Reply([GetUserWithAuthorities], Err(AccountResourceFailure("User could not be found")))
    else Reply([GetUserWithAuthorities], Ok(current.value))
  }

  /** saveAccount: the new email must not belong to another login (ignoring
      case), and the current login must name a user. */
  function SaveAccount(rows: map<int, Row>, callerRoles: set<string>, users: map<int, UserRow>,
                       currentLogin: Option<string>, dto: UserDto): (r: Reply<bool>)
    ensures Decide(rows, SaveAccountGuard, callerRoles) != Permit ==>
      r == Reply([], Err(Refusal(Decide(rows, SaveAccountGuard, callerRoles))))
    ensures Decide(rows, SaveAccountGuard, callerRoles) == Permit && currentLogin.None? ==>
      r == Reply([], Err(AccountResourceFailure("Current user login not found")))
    ensures r.result == Err(EmailAlreadyUsed) <==>
      && Decide(rows, SaveAccountGuard, callerRoles) == Permit && currentLogin.Some?
      && exists id :: EmailMatching(users, dto.email) == {id}
                      && !Text.EqualsIgnoreCase(users[id].login, currentLogin.value)
    ensures r.result.Ok? <==>
      && Decide(rows, SaveAccountGuard, callerRoles) == Permit && currentLogin.Some?
      && |EmailMatching(users, dto.email)| <= 1
      && (forall id | id in EmailMatching(users, dto.email) :: Text.EqualsIgnoreCase(users[id].login, currentLogin.value))
      && |LoginMatching(users, currentLogin.value)| == 1
    ensures (&& Decide(rows, SaveAccountGuard, callerRoles) == Permit && currentLogin.Some?
             && |EmailMatching(users, dto.email)| <= 1
             && (forall id | id in EmailMatching(users, dto.email) ::
                   Text.EqualsIgnoreCase(users[id].login, currentLogin.value))
             && LoginMatching(users, currentLogin.value) == {}) ==>
      r == Reply([], Err(AccountResourceFailure("User could not be found")))
    ensures r.result.Ok? ==> r == Reply([UpdateAccount(dto.email, dto.langKey)], Ok(true))
    ensures r.result.Err? ==> r.calls == []
  {
    var d := Decide(rows, SaveAccountGuard, callerRoles);
    if d != Permit then Reply([], Err(Refusal(d)))
    else if currentLogin.None? then Reply([], Err(AccountResourceFailure("Current user login not found")))
    else
      var login := currentLogin.value;
      var byEmail := FindOneByEmailIgnoreCase(users, dto.email);
      if byEmail.NonUnique? then Reply([], Err(IncorrectResultSize))
      else if byEmail.Match? && !Text.EqualsIgnoreCase(users[byEmail.value].login, login) then
        var owner := byEmail.value;
        assert EmailMatching(users, dto.email) == {owner} && !Text.EqualsIgnoreCase(users[owner].login, login);
        Reply([], Err(EmailAlreadyUsed))
      else
        var byLogin := FindOneByLogin(users, login);
        if byLogin.NonUnique? then Reply([], Err(IncorrectResultSize))
        else if byLogin.NoMatch? then Reply([], Err(AccountResourceFailure("User could not be found")))
        else Reply([UpdateAccount(dto.email, dto.langKey)], Ok(true))
  }

  /** changePassword: the new password is checked before
      UserService.changePassword is called. */
  function ChangePassword(rows: map<int, Row>, callerRoles: set<string>,
                          currentPassword: Option<string>, newPassword: Option<string>): (r: Reply<bool>)
    ensures Decide(rows, ChangePasswordGuard, callerRoles) != Permit ==>
      r == Reply([], Err(Refusal(Decide(rows, ChangePasswordGuard, callerRoles))))
    ensures Decide(rows, ChangePasswordGuard, callerRoles) == Permit && !CheckPasswordLength(newPassword) ==>
      r == Reply([], Err(InvalidPassword))
    ensures r.result.Ok? <==> Decide(rows, ChangePasswordGuard, callerRoles) == Permit && CheckPasswordLength(newPassword)
    ensures r.result.Ok? ==> r == Reply([ServiceCall.ChangePassword(currentPassword, newPassword.value)], Ok(true))
  {
    var d := Decide(rows, ChangePasswordGuard, callerRoles);
    if d != Permit then Reply([], Err(Refusal(d)))
    else if !CheckPasswordLength(newPassword) then Reply([], Err(InvalidPassword))
    else Reply([ServiceCall.ChangePassword(currentPassword, newPassword.value)], Ok(true))
  }

  /** requestPasswordReset: unguarded; fails when UserService finds no user
      for the mail (`found` is its answer), otherwise mails that user. */
  function RequestPasswordReset(mail: string, found: Option<UserRow>): (r: Reply<string>)
    ensures |r.calls| >= 1 && r.calls[0] == ServiceCall.RequestPasswordReset(mail)
    ensures found.None? <==> r.result == Err(EmailNotFound)
    ensures found.None? ==> r.calls == [ServiceCall.RequestPasswordReset(mail)]
    ensures found.Some? ==> r == Reply([ServiceCall.RequestPasswordReset(mail), SendPasswordResetMail(found.value)], Ok(RESET_REQUESTED))
  {
    match found
    case None => Reply([ServiceCall.RequestPasswordReset(mail)], Err(EmailNotFound))
    case Some(u) => Reply([ServiceCall.RequestPasswordReset(mail), SendPasswordResetMail(u)], Ok(RESET_REQUESTED))
  }

  /** finishPasswordReset: the new password is checked first; then it fails
      when UserService.completePasswordReset finds no user for the key
      (`reset` is its answer). */
  function FinishPasswordReset(rows: map<int, Row>, callerRoles: set<string>, key: string,
                               newPassword: Option<string>, reset: Option<UserRow>): (r: Reply<string>)
    ensures Decide(rows, FinishResetGuard, callerRoles) != Permit ==>
      r == Reply([], Err(Refusal(Decide(rows, FinishResetGuard, callerRoles))))
    ensures Decide(rows, FinishResetGuard, callerRoles) == Permit && !CheckPasswordLength(newPassword) ==>
      r == Reply([], Err(InvalidPassword))
    ensures Decide(rows, FinishResetGuard, callerRoles) == Permit && CheckPasswordLength(newPassword) ==>
      && r.calls == [CompletePasswordReset(newPassword.value, key)]
      && (reset.None? ==> r.result == Err(AccountResourceFailure("No user was found for this reset key")))
      && (reset.Some? ==> r.result == Ok(RESET_DONE))
  {
    var d := Decide(rows, FinishResetGuard, callerRoles);
    if d != Permit then Reply([], Err(Refusal(d)))
    else if !CheckPasswordLength(newPassword) then Reply([], Err(InvalidPassword))
    else if reset.None? then
      Reply([CompletePasswordReset(newPassword.value, key)], Err(AccountResourceFailure("No user was found for this reset key")))
    else Reply([CompletePasswordReset(newPassword.value, key)], Ok(RESET_DONE))
  }

  /** A password of the wrong length stops registration, password change and
      password reset before any service call, whatever else is passed. */
  lemma BadPasswordStopsBeforeAnyCall(rows: map<int, Row>, callerRoles: set<string>, vm: UserDto,
                                      registered: UserRow, current: Option<string>, key: string,
                                      reset: Option<UserRow>, password: Option<string>)
    requires !CheckPasswordLength(password)
    ensures RegisterAccount(rows, callerRoles, vm, password, registered).calls == []
    ensures ChangePassword(rows, callerRoles, current, password).calls == []
    ensures FinishPasswordReset(rows, callerRoles, key, password, reset).calls == []
    ensures RegisterAccount(rows, callerRoles, vm, password, registered).result.Err?
    ensures ChangePassword(rows, callerRoles, current, password).result.Err?
    ensures FinishPasswordReset(rows, callerRoles, key, password, reset).result.Err?
  {
  }

  /** The account guards never look at the caller's roles: two callers with
      different roles get the same answer. */
  lemma AccountGuardsIgnoreCaller(rows: map<int, Row>, r1: set<string>, r2: set<string>,
                                  users: map<int, UserRow>, currentLogin: Option<string>, dto: UserDto)
    ensures SaveAccount(rows, r1, users, currentLogin, dto) == SaveAccount(rows, r2, users, currentLogin, dto)
    ensures forall g | g in {RegisterGuard, ActivateGuard, IsAuthenticatedGuard, GetAccountGuard,
                             SaveAccountGuard, ChangePasswordGuard, FinishResetGuard} ::
      !g.callerMustBeAdmin && Decide(rows, g, r1) == Decide(rows, g, r2)
  {
  }

  /** A caller may save an email that only their own account uses, even
      written with different case. */
  lemma SaveAccountOwnEmail(rows: map<int, Row>, callerRoles: set<string>, users: map<int, UserRow>,
                            login: string, dto: UserDto, self: int)
    requires Decide(rows, SaveAccountGuard, callerRoles) == Permit
    requires LoginMatching(users, login) == {self}
    requires EmailMatching(users, dto.email) <= {self}
    ensures SaveAccount(rows, callerRoles, users, Some(login), dto).result == Ok(true)
  {
    var m := EmailMatching(users, dto.email);
    if m != {} {
      assert m == {self};
      assert Text.EqualsIgnoreCase(users[self].login, login);
    }
  }
}
