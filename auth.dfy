/** The authentication helpers of app/utils/auth.server.ts: the login check
    of the form strategy, registration with its duplicate-username check, and
    the guards that read the user id from the session. The cookie session
    itself is reduced to what a handler learns from it. */
module Auth {
  import opened Wrappers
  import opened Db
  import opened Forms

  /** The errors the helpers throw; `Message` gives their exact text. */
  datatype AuthError = MissingCredentials | InvalidCredentials | UsernameTaken

  function Message(e: AuthError): string {
    match e
    case MissingCredentials => "Username and password required"
    case InvalidCredentials => "Invalid credentials"
    case UsernameTaken => "Username already taken"
  }

  /** What a handler answers besides its data: `null`, or a redirect (thrown
      or returned) that may also clear the session cookie. */
  datatype Response = Null | Redirect(location: string, endsSession: bool)

  const LoginPath: string := "/_auth/login"

  /** The session cookie as a handler sees it: reading it throws, or it holds
      a `userId` entry or not. */
  datatype Session = Unreadable | Cookie(userId: Option<string>)

  /** `getUserId`: the session's user id, `null` when the session cannot be
      read. */
  function GetUserId(session: Session): (r: Option<string>)
    ensures session.Unreadable? ==> r == None
    ensures session.Cookie? ==> r == session.userId
  {
    match session
    case Unreadable => None
    case Cookie(userId) => userId
  }

  /** `requireUserId`: the session's user id when it is a non-empty string,
      otherwise a thrown redirect to the login page. */
  function RequireUserId(session: Session): (r: Result<string, Response>)
    ensures r.Failure? <==> !Truthy(GetUserId(session))
    ensures r.Failure? ==> r.error == Redirect(LoginPath, false)
    ensures r.Success? ==> GetUserId(session) == Some(r.value) && r.value != ""
  {
    var userId := GetUserId(session);
    if !Truthy(userId) then Failure(Redirect(LoginPath, false)) else Success(userId.value)
  }

  /** The form strategy's callback: both fields are required, the password
      must validate, and the result is the user's id. */
  function VerifyLogin(users: seq<User>, h: Hasher, form: Form): (r: Result<string, AuthError>)
    ensures r == Failure(MissingCredentials) <==>
              !Truthy(Field(form, "username")) || !Truthy(Field(form, "password"))
    ensures r == Failure(InvalidCredentials) <==>
              Truthy(Field(form, "username")) && Truthy(Field(form, "password")) &&
              ValidateUserPassword(users, h, Field(form, "username").value, Field(form, "password").value).None?
    ensures r.Success? ==>
              Truthy(Field(form, "username")) && Truthy(Field(form, "password")) &&
              var user := ValidateUserPassword(users, h, Field(form, "username").value, Field(form, "password").value);
              user.Some? && user.value.id == r.value && user.value.username == Field(form, "username").value
    ensures r.Success? <==>
              Truthy(Field(form, "username")) && Truthy(Field(form, "password")) &&
              ValidateUserPassword(users, h, Field(form, "username").value, Field(form, "password").value).Some?
    ensures r.Failure? ==>
              Message(r.error) == if !Truthy(Field(form, "username")) || !Truthy(Field(form, "password"))
                                  then "Username and password required" else "Invalid credentials"
  {
    var username := Field(form, "username");
    var password := Field(form, "password");
    if !Truthy(username) || !Truthy(password) then
      Failure(MissingCredentials)
    else
      match ValidateUserPassword(users, h, username.value, password.value)
      case None => Failure(InvalidCredentials)
      case Some(user) => Success(user.id)
  }

  /** `registerNewUser`: refuses a username that is already taken, exactly
      as spelled; otherwise creates the user. */
  method RegisterNewUser(db: Store, username: string, password: string, id: string, salt: Salt)
    returns (r: Result<NewUser, AuthError>)
    requires db.Valid()
    requires forall x :: x in db.users ==> x.id != id
    modifies db
    ensures db.Valid() && db.tasks == old(db.tasks)
    ensures FindUserByUsername(old(db.users), username).Some? ==>
              r == Failure(UsernameTaken) && db.users == old(db.users)
    ensures r.Failure? ==> Message(r.error) == "Username already taken"
    ensures FindUserByUsername(old(db.users), username).None? ==>
              r == Success(NewUser(id, username)) &&
              db.users == old(db.users) + [User(id, username, db.hasher.hash(password, salt))]
  {
    var existing := FindUserByUsername(db.users, username);
    if existing.Some? {
      return Failure(UsernameTaken);
    }
    var user := db.CreateUser(username, password, id, salt);
    r := Success(user);
  }

  ghost predicate UniqueUsernames(users: seq<User>) {
    forall i, j :: 0 <= i < j < |users| ==> users[i].username != users[j].username
  }

  /** A successful registration keeps usernames unique. */
  lemma RegistrationKeepsUsernamesUnique(users: seq<User>, user: User)
    requires UniqueUsernames(users)
    requires FindUserByUsername(users, user.username).None?
    ensures UniqueUsernames(users + [user])
  {
  }

  /** Once registered, a user logs in with the same username and password,
      and the login yields the new user's id. */
  lemma LoginAfterRegistration(users: seq<User>, h: Hasher, form: Form, id: string, salt: Salt)
    requires Sound(h)
    requires Truthy(Field(form, "username")) && Truthy(Field(form, "password"))
    requires FindUserByUsername(users, Field(form, "username").value).None?
    ensures VerifyLogin(users + [User(id, Field(form, "username").value, h.hash(Field(form, "password").value, salt))], h, form)
            == Success(id)
  {
    var username, password := Field(form, "username").value, Field(form, "password").value;
    var user := User(id, username, h.hash(password, salt));
    var after := users + [user];
    assert after[|users|] == user;
    assert FindUserByUsername(after, username) == Some(user);
    assert h.matches(password, h.hash(password, salt));
  }
}
