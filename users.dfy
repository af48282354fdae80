/** What the account and user controllers see of the user table, and the
    calls they make on UserService and MailService (whose code is not part
    of this model). */
module Users {
  import opened Wrappers
  import opened Errors
  import Text

  /** The part of a stored user the controllers read. */
  datatype UserRow = UserRow(login: string, email: string)

  /** The user data a client sends (UserDTO / ManagedUserVM). */
  datatype UserDto = UserDto(id: Option<int>, login: string, email: string, langKey: string)

  /** The ids of the users whose login is exactly `login`. */
  function LoginMatching(users: map<int, UserRow>, login: string): set<int>
  {
    set id | id in users && users[id].login == login
  }

  /** The ids of the users whose email equals `email` ignoring case. */
  function EmailMatching(users: map<int, UserRow>, email: string): set<int>
  {
    set id | id in users && Text.EqualsIgnoreCase(users[id].email, email)
  }

  lemma LoginMatchingEmpty(users: map<int, UserRow>, login: string)
    ensures LoginMatching(users, login) == {} <==> forall id | id in users :: users[id].login != login
  {
    if LoginMatching(users, login) == {} {
      forall id | id in users ensures users[id].login != login {
        assert id !in LoginMatching(users, login);
      }
    } else {
      var id := ElementOf(LoginMatching(users, login));
    }
  }

  lemma EmailMatchingEmpty(users: map<int, UserRow>, email: string)
    ensures EmailMatching(users, email) == {} <==> forall id | id in users :: !Text.EqualsIgnoreCase(users[id].email, email)
  {
    if EmailMatching(users, email) == {} {
      forall id | id in users ensures !Text.EqualsIgnoreCase(users[id].email, email) {
        assert id !in EmailMatching(users, email);
      }
    } else {
      var id := ElementOf(EmailMatching(users, email));
    }
  }

  /** findOneByLogin: exact, case-sensitive match on the login. */
  function FindOneByLogin(users: map<int, UserRow>, login: string): (r: Unique<int>)
    ensures r.NoMatch? <==> forall id | id in users :: users[id].login != login
    ensures r.Match? ==> r.value in users && users[r.value].login == login && LoginMatching(users, login) == {r.value}
    ensures r.NonUnique? <==> |LoginMatching(users, login)| > 1
  {
    LoginMatchingEmpty(users, login);
    UniqueOf(LoginMatching(users, login))
  }

  /** findOneByEmailIgnoreCase: match on the email, ignoring case. */
  function FindOneByEmailIgnoreCase(users: map<int, UserRow>, email: string): (r: Unique<int>)
    ensures r.NoMatch? <==> forall id | id in users :: !Text.EqualsIgnoreCase(users[id].email, email)
    ensures r.Match? ==>
      && r.value in users && Text.EqualsIgnoreCase(users[r.value].email, email)
      && EmailMatching(users, email) == {r.value}
    ensures r.NonUnique? <==> |EmailMatching(users, email)| > 1
  {
    EmailMatchingEmpty(users, email);
    UniqueOf(EmailMatching(users, email))
  }

  /** No two users share a login. */
  ghost predicate UniqueLogins(users: map<int, UserRow>)
  {
    forall i, j | i in users && j in users && i != j :: users[i].login != users[j].login
  }

  /** No two users share an email, ignoring case. */
  ghost predicate UniqueEmails(users: map<int, UserRow>)
  {
    forall i, j | i in users && j in users && i != j :: !Text.EqualsIgnoreCase(users[i].email, users[j].email)
  }

  /** When logins and emails are unique, neither lookup ever raises. */
  lemma UniqueUsersNoLookupFailure(users: map<int, UserRow>, login: string, email: string)
    requires UniqueLogins(users) && UniqueEmails(users)
    ensures !FindOneByLogin(users, login).NonUnique?
    ensures !FindOneByEmailIgnoreCase(users, email).NonUnique?
  {
    var byLogin := LoginMatching(users, login);
    forall i, j | i in byLogin && j in byLogin ensures i == j {
      assert users[i].login == users[j].login;
    }
    AtMostOne(byLogin);
    var byEmail := EmailMatching(users, email);
    forall i, j | i in byEmail && j in byEmail ensures i == j {
      assert Text.EqualsIgnoreCase(users[i].email, users[j].email);
    }
    AtMostOne(byEmail);
  }

  /** The calls the controllers make on UserService and MailService. */
  datatype ServiceCall =
    | RegisterUser(user: UserDto, password: string)
    | ActivateRegistration(key: string)
    | GetUserWithAuthorities
    | UpdateAccount(email: string, langKey: string)
    | ChangePassword(currentPassword: Option<string>, newPassword: string)
    | RequestPasswordReset(mail: string)
    | SendPasswordResetMail(recipient: UserRow)
    | CompletePasswordReset(newPassword: string, key: string)
    | CreateUser(user: UserDto)
    | SendCreationEmail(recipient: UserRow)
    | UpdateUser(user: UserDto)
    | GetAllManagedUsers
    | GetAuthorities
    | GetUserWithAuthoritiesByLogin(login: string)
    | DeleteUser(login: string)

  /** What a controller operation does: the service calls it makes, in
      order, and what it returns or raises. */
  datatype Reply<+T> = Reply(calls: seq<ServiceCall>, result: Result<T>)
}
