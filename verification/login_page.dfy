/**
 * The sign-in page: the checks made before a login or registration is
 * posted, what a reply does to the page and to the stored user, logging out,
 * and the "is someone logged in" test the other pages share.
 */
module LoginPage {
  import opened Wrappers
  import opened Text
  import opened Browser
  import UserService

  const FILL_ALL_FIELDS: string := "Please fill in all fields"
  const FILL_REQUIRED_FIELDS: string := "Please fill in all required fields"
  const PASSWORD_TOO_SHORT: string := "Password must be at least 4 characters"
  const PASSWORDS_DIFFER: string := "Passwords do not match"
  const LOGIN_FAILED: string := "Login failed"
  const REGISTRATION_FAILED: string := "Registration failed"
  const REGISTERED: string := "Registration successful! You can now login."
  const CONNECTION_ERROR: string := "Connection error. Please try again."
  const MIN_PASSWORD_LENGTH: nat := 4

  /** The `user` entry of the browser's local storage. */
  datatype StoredUser = StoredUser(userId: Option<string>, username: Option<string>, displayName: Option<string>)

  /** The local storage as the pages see it: the stored user, if any. */
  type Storage = Option<StoredUser>

  /** The answer to a post: the decoded body, or `Unreachable` when the request or decoding threw. */
  datatype Reply = Answered(body: UserService.AuthResponse) | Unreachable

  /** A message shown on the page: an error, or a success notice. */
  datatype Shown = Error(text: string) | Notice(text: string)

  /** `handleLogin`'s checks: the username is trimmed, the password is taken as typed. */
  function SubmitLogin(username: string, password: string): (s: Submission<UserService.LoginRequest>)
    ensures s.Refused? <==> JsTrim(username) == [] || password == []
    ensures s.Refused? ==> s.message == FILL_ALL_FIELDS
    ensures s.Post? ==> s.request == UserService.LoginRequest(Some(JsTrim(username)), Some(password))
  {
    var name := JsTrim(username);
    if name == [] || password == [] then Refused(FILL_ALL_FIELDS)
    else Post(UserService.LoginRequest(Some(name), Some(password)))
  }

  /**
   * What a login reply does: on success exactly the id, username and display
   * name are stored and no error is shown; otherwise storage is untouched
   * and the server's message, or a fallback, is shown.
   */
  function OnLoginReply(storage: Storage, reply: Reply): (out: Handled<Option<Shown>, Storage>)
    ensures reply.Answered? && reply.body.success ==>
      && out.response.None?
      && out.state == Some(StoredUser(reply.body.userId, reply.body.username, reply.body.displayName))
    ensures !(reply.Answered? && reply.body.success) ==> out.state == storage && out.response.Some?
    ensures reply.Answered? && !reply.body.success ==>
      out.response == Some(Error(OrElse(reply.body.message, LOGIN_FAILED)))
    ensures reply.Unreachable? ==> out.response == Some(Error(CONNECTION_ERROR))
  {
    match reply
    case Unreachable => Handled(Some(Error(CONNECTION_ERROR)), storage)
    case Answered(body) =>
      if body.success then Handled(None, Some(StoredUser(body.userId, body.username, body.displayName)))
      else Handled(Some(Error(OrElse(body.message, LOGIN_FAILED))), storage)
  }

  /**
   * `handleRegister`'s checks, in order: username (trimmed), password and
   * confirmation all filled in; the password at least four characters; the
   * confirmation equal to it. The display name is optional and sent trimmed.
   */
  function SubmitRegister(username: string, displayName: string, password: string, confirm: string)
    : (s: Submission<UserService.RegisterRequest>)
    ensures (JsTrim(username) == [] || password == [] || confirm == []) ==> s == Refused(FILL_REQUIRED_FIELDS)
    ensures (JsTrim(username) != [] && password != [] && confirm != [] && |password| < MIN_PASSWORD_LENGTH) ==>
      s == Refused(PASSWORD_TOO_SHORT)
    ensures (JsTrim(username) != [] && confirm != [] && |password| >= MIN_PASSWORD_LENGTH && password != confirm) ==>
      s == Refused(PASSWORDS_DIFFER)
    ensures s.Post? <==> JsTrim(username) != [] && |password| >= MIN_PASSWORD_LENGTH && password == confirm
    ensures s.Post? ==>
      s.request == UserService.RegisterRequest(Some(JsTrim(username)), Some(password), Some(JsTrim(displayName)))
  {
    var name := JsTrim(username);
    if name == [] || password == [] || confirm == [] then Refused(FILL_REQUIRED_FIELDS)
    else if |password| < MIN_PASSWORD_LENGTH then Refused(PASSWORD_TOO_SHORT)
    else if password != confirm then Refused(PASSWORDS_DIFFER)
    else Post(UserService.RegisterRequest(Some(name), Some(password), Some(JsTrim(displayName))))
  }

  /** What a registration reply shows; nothing is stored. */
  function OnRegisterReply(reply: Reply): (shown: Shown)
    ensures shown.Notice? <==> reply.Answered? && reply.body.success
    ensures shown.Notice? ==> shown.text == REGISTERED
    ensures reply.Answered? && !reply.body.success ==> shown == Error(OrElse(reply.body.message, REGISTRATION_FAILED))
    ensures reply.Unreachable? ==> shown == Error(CONNECTION_ERROR)
  {
    match reply
    case Unreachable => Error(CONNECTION_ERROR)
    case Answered(body) =>
      if body.success then Notice(REGISTERED) else Error(OrElse(body.message, REGISTRATION_FAILED))
  }

  /** `handleLogout`: the stored user is removed, whatever was stored. */
  function Logout(storage: Storage): (r: Storage)
    ensures r.None?
    ensures !IsLoggedIn(r)
  {
    None
  }

  /** `isLoggedIn`: a stored user with a non-empty username. */
  predicate IsLoggedIn(storage: Storage) {
    storage.Some? && storage.value.username.Some? && storage.value.username.value != []
  }

  /**
   * End to end: a registration the page posts and the server accepts is
   * followed by a login through the page, with the same username and
   * password typed, that the server accepts, after which the page stores
   * the new account and counts as logged in.
   */
  lemma RegisterThenLoginThroughPage(users: UserService.Users, username: string, displayName: string,
                                     password: string, newId: string, t1: int, t2: int)
    requires SubmitRegister(username, displayName, password, password).Post?
    requires UserService.Register(users, SubmitRegister(username, displayName, password, password).request,
                                  newId, t1).response.success
    ensures var req := SubmitRegister(username, displayName, password, password).request;
      var registered := UserService.Register(users, req, newId, t1).state;
      var login := SubmitLogin(username, password);
      && login.Post?
      && var answer := UserService.Login(registered, login.request, t2).response;
      && UserService.LoggedIn(answer)
      && answer.value.userId == Some(newId)
      && IsLoggedIn(OnLoginReply(None, Answered(answer.value)).state)
  {
    var req := SubmitRegister(username, displayName, password, password).request;
    var registered := UserService.Register(users, req, newId, t1).state;
    var name := JsTrim(username);
    UserService.RegisterThenLogin(users, req, newId, t1, name, t2);
    var login := SubmitLogin(username, password);
    assert login.request == UserService.LoginRequest(Some(name), req.password);
    var answer := UserService.Login(registered, login.request, t2).response;
    var i := UserService.FindByUsername(registered, name).index;
    assert answer.value.username == Some(registered[i].username);
    assert registered[i].username == UserService.Normalize(name);
    assert !IsBlank(name);
  }
}
