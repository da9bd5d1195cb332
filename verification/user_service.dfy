/**
 * Accounts: registration and login over the stored user documents, with
 * usernames normalised to trimmed lower case.
 */
module UserService {
  import opened Wrappers
  import opened Text
  import opened RoomEntity

  const MIN_PASSWORD_LENGTH: nat := 4

  const USERNAME_EXISTS: string := "Username already exists"
  const USERNAME_REQUIRED: string := "Username is required"
  const PASSWORD_TOO_SHORT: string := "Password must be at least 4 characters"
  const REGISTERED: string := "Registration successful"
  const PASSWORD_REQUIRED: string := "Password is required"
  const USER_NOT_FOUND: string := "User not found"
  const INVALID_PASSWORD: string := "Invalid password"
  const LOGGED_IN: string := "Login successful"

  datatype User = User(
    id: string,
    username: string,
    password: string,
    displayName: string,
    createdAt: Instant,
    lastLogin: Option<Instant>)

  /** The user collection, in insertion order. */
  type Users = seq<User>

  datatype RegisterRequest = RegisterRequest(
    username: Option<string>, password: Option<string>, displayName: Option<string>)

  datatype LoginRequest = LoginRequest(username: Option<string>, password: Option<string>)

  datatype AuthResponse = AuthResponse(
    success: bool,
    message: string,
    userId: Option<string>,
    username: Option<string>,
    displayName: Option<string>)

  function Failure(message: string): AuthResponse {
    AuthResponse(false, message, None, None, None)
  }

  /** No two stored users share a username. */
  predicate UniqueUsernames(users: Users) {
    forall i, j :: 0 <= i < j < |users| ==> users[i].username != users[j].username
  }

  /** `username.trim().toLowerCase()` */
  function Normalize(username: string): (n: string)
    ensures |n| <= |username|
    ensures n == [] <==> IsBlank(username)
  {
    Lower(JavaTrim(username))
  }

  /** `existsByUsername(name)`: some stored user has exactly this username. */
  predicate Exists(users: Users, name: string) {
    exists i :: 0 <= i < |users| && users[i].username == name
  }

  /** The position of the first stored user with exactly this username. */
  function IndexOf(users: Users, name: string): (r: Option<nat>)
    ensures r.Some? ==> r.value < |users| && users[r.value].username == name
    ensures r.Some? ==> forall j :: 0 <= j < r.value ==> users[j].username != name
    ensures r.None? <==> !Exists(users, name)
  {
    if |users| == 0 then None
    else if users[0].username == name then Some(0)
    else
      var rest := IndexOf(users[1..], name);
      assert forall j :: 1 <= j < |users| ==> users[j] == users[1..][j - 1];
      if rest.None? then None else Some(rest.value + 1)
  }

  /** Two stored users carry exactly this username. */
  predicate Duplicate(users: Users, name: string) {
    exists i, j :: 0 <= i < j < |users| && users[i].username == name && users[j].username == name
  }

  /**
   * What `userRepository.findByUsername` answers. It is a single-result
   * query (`Optional<User>`), so when two documents match it throws rather
   * than choosing one.
   */
  datatype Lookup = Missing | Unique(index: nat) | Duplicated

  /** No user after position `i` has this username iff the search of that suffix finds none. */
  lemma NoneAfter(users: Users, name: string, i: nat)
    requires i < |users|
    ensures IndexOf(users[i + 1..], name).None? <==> forall j :: i < j < |users| ==> users[j].username != name
  {
    var rest := users[i + 1..];
    forall j | i < j < |users| ensures users[j] == rest[j - i - 1] {
    }
    if IndexOf(rest, name).Some? {
      var k := IndexOf(rest, name).value;
      assert users[i + 1 + k] == rest[k];
    }
  }

  /** `findByUsername(username)`: looked up by its normal form. */
  function FindByUsername(users: Users, username: string): (r: Lookup)
    ensures r.Missing? <==> !Exists(users, Normalize(username))
    ensures r.Duplicated? <==> Duplicate(users, Normalize(username))
    ensures r.Unique? ==> r.index < |users| && users[r.index].username == Normalize(username)
    ensures r.Unique? ==> forall j :: 0 <= j < |users| && j != r.index ==> users[j].username != Normalize(username)
    ensures UniqueUsernames(users) ==> !r.Duplicated?
  {
    var name := Normalize(username);
    match IndexOf(users, name)
    case None => Missing
    case Some(i) =>
      NoneAfter(users, name, i);
      if IndexOf(users[i + 1..], name).Some? then Duplicated else Unique(i)
  }

  /** `displayName` when it has something other than spaces, the raw username otherwise; trimmed. */
  function DisplayName(req: RegisterRequest): (r: string)
    requires req.username.Some?
    ensures !IsBlank(req.username.value) ==> r != []
    ensures r == [] || (!IsJavaSpace(r[0]) && !IsJavaSpace(r[|r| - 1]))
  {
    if req.displayName.None? || IsBlank(req.displayName.value) then JavaTrim(req.username.value)
    else JavaTrim(req.displayName.value)
  }

  /** The request-field checks of `register`, after the existence check. */
  predicate RegisterFieldsValid(req: RegisterRequest) {
    && req.username.Some? && !IsBlank(req.username.value)
    && req.password.Some? && |req.password.value| >= MIN_PASSWORD_LENGTH
  }

  /** The user document a valid registration stores. */
  function NewUser(req: RegisterRequest, newId: string, now: Instant): (u: User)
    requires RegisterFieldsValid(req)
    ensures u.username == Normalize(req.username.value) && u.password == req.password.value
    ensures u.id == newId && u.lastLogin.None?
  {
    User(newId, Normalize(req.username.value), req.password.value, DisplayName(req), now, None)
  }

  function Registered(u: User): AuthResponse {
    AuthResponse(true, REGISTERED, Some(u.id), Some(u.username), Some(u.displayName))
  }

  /**
   * `register` as written: the existence check looks up the username exactly
   * as typed, while the document is stored under its normal form.
   */
  function RegisterAsWritten(users: Users, req: RegisterRequest, newId: string, now: Instant)
    : (out: Handled<AuthResponse, Users>)
    ensures out.response.success <==> !(req.username.Some? && Exists(users, req.username.value)) && RegisterFieldsValid(req)
    ensures !out.response.success ==> out.state == users
    ensures out.response.success ==> out.state == users + [NewUser(req, newId, now)]
  {
    if req.username.Some? && Exists(users, req.username.value) then Handled(Failure(USERNAME_EXISTS), users)
    else if req.username.None? || IsBlank(req.username.value) then Handled(Failure(USERNAME_REQUIRED), users)
    else if req.password.None? || |req.password.value| < MIN_PASSWORD_LENGTH then
      Handled(Failure(PASSWORD_TOO_SHORT), users)
    else
      var u := NewUser(req, newId, now);
      Handled(Registered(u), users + [u])
  }

  /** A stored user "alice", and a second registration typed as "Alice". */
  const STORED_ALICE: User := User("1", "alice", "secret", "alice", 0, None)
  const SECOND_ALICE: RegisterRequest := RegisterRequest(Some("Alice"), Some("hunter2"), None)

  /**
   * A second registration of "Alice" when "alice" is stored is let through,
   * and the collection then holds two users named "alice".
   */
  lemma RegisterAsWrittenDuplicates()
    ensures var out := RegisterAsWritten([STORED_ALICE], SECOND_ALICE, "2", 1);
      && UniqueUsernames([STORED_ALICE])
      && out.response.success
      && |out.state| == 2 && out.state[0].username == out.state[1].username == "alice"
      && !UniqueUsernames(out.state)
  {
    SecondAliceLetThrough();
    var out := RegisterAsWritten([STORED_ALICE], SECOND_ALICE, "2", 1);
    assert out.state == [STORED_ALICE, NewUser(SECOND_ALICE, "2", 1)];
  }

  /** The typed name is not stored as typed, passes the field checks and normalises to "alice". */
  lemma SecondAliceLetThrough()
    ensures !Exists([STORED_ALICE], "Alice")
    ensures RegisterFieldsValid(SECOND_ALICE)
    ensures NewUser(SECOND_ALICE, "2", 1).username == "alice"
  {
    assert [STORED_ALICE][0].username != "Alice";
    AliceNormalizes();
  }

  /** "Alice" is not blank and normalises to "alice". */
  lemma AliceNormalizes()
    ensures !IsBlank("Alice") && Normalize("Alice") == "alice"
  {
    TrimUnchanged("Alice", JavaWhitespace);
    AliceLowers();
  }

  lemma AliceLowers()
    ensures Lower("Alice") == "alice"
  {
    var l := Lower("Alice");
    assert l[0] == 'a' && l[1] == 'l' && l[2] == 'i' && l[3] == 'c' && l[4] == 'e';
  }

  /** `register` with the existence check made on the normalised username, as the store is keyed. */
  function Register(users: Users, req: RegisterRequest, newId: string, now: Instant)
    : (out: Handled<AuthResponse, Users>)
    ensures out.response.success <==>
      !(req.username.Some? && Exists(users, Normalize(req.username.value))) && RegisterFieldsValid(req)
    ensures !out.response.success ==> out.state == users
    ensures out.response.success ==> out.state == users + [NewUser(req, newId, now)]
    ensures UniqueUsernames(users) ==> UniqueUsernames(out.state)
  {
    if req.username.Some? && Exists(users, Normalize(req.username.value)) then
      Handled(Failure(USERNAME_EXISTS), users)
    else if req.username.None? || IsBlank(req.username.value) then Handled(Failure(USERNAME_REQUIRED), users)
    else if req.password.None? || |req.password.value| < MIN_PASSWORD_LENGTH then
      Handled(Failure(PASSWORD_TOO_SHORT), users)
    else
      var u := NewUser(req, newId, now);
      Handled(Registered(u), users + [u])
  }

  /**
   * `register` checks, in order: the name is not taken, the name is not
   * blank, the password has at least four characters.
   */
  lemma RegisterRejections(users: Users, req: RegisterRequest, newId: string, now: Instant)
    ensures var out := Register(users, req, newId, now).response;
      && (req.username.Some? && Exists(users, Normalize(req.username.value)) ==> out == Failure(USERNAME_EXISTS))
      && ((!(req.username.Some? && Exists(users, Normalize(req.username.value))) &&
           (req.username.None? || IsBlank(req.username.value))) ==> out == Failure(USERNAME_REQUIRED))
      && ((req.username.Some? && !Exists(users, Normalize(req.username.value)) && !IsBlank(req.username.value) &&
           (req.password.None? || |req.password.value| < MIN_PASSWORD_LENGTH)) ==> out == Failure(PASSWORD_TOO_SHORT))
  {
  }

  /**
   * A successful registration stores the normalised username, the password
   * verbatim, and the trimmed display name, falling back to the trimmed raw
   * username when none was given.
   */
  lemma RegisterStores(users: Users, req: RegisterRequest, newId: string, now: Instant)
    requires Register(users, req, newId, now).response.success
    ensures var out := Register(users, req, newId, now);
      var u := out.state[|users|];
      && |out.state| == |users| + 1
      && u.username == Normalize(req.username.value)
      && u.password == req.password.value
      && (req.displayName.None? || IsBlank(req.displayName.value) ==> u.displayName == JavaTrim(req.username.value))
      && (req.displayName.Some? && !IsBlank(req.displayName.value) ==> u.displayName == JavaTrim(req.displayName.value))
      && out.response.userId == Some(newId)
      && out.response.username == Some(u.username)
  {
  }

  /** The request checks of `login`. */
  predicate LoginFieldsValid(req: LoginRequest) {
    && req.username.Some? && !IsBlank(req.username.value)
    && req.password.Some? && |req.password.value| > 0
  }

  /** The login answered with success. */
  predicate LoggedIn(response: Option<AuthResponse>) {
    response.Some? && response.value.success
  }

  /**
   * `login`: the username is looked up by its normal form, the password must
   * match exactly; only a successful login stamps `lastLogin`. When two
   * documents carry the name, the lookup throws, nothing in `login` or the
   * controller catches it, and the request ends in a server error with no
   * answer body (`None`).
   */
  function Login(users: Users, req: LoginRequest, now: Instant): (out: Handled<Option<AuthResponse>, Users>)
    ensures out.response.None? <==> LoginFieldsValid(req) && FindByUsername(users, req.username.value).Duplicated?
    ensures UniqueUsernames(users) ==> out.response.Some?
    ensures LoggedIn(out.response) <==>
      && LoginFieldsValid(req)
      && var found := FindByUsername(users, req.username.value);
      && found.Unique?
      && users[found.index].password == req.password.value
    ensures !LoggedIn(out.response) ==> out.state == users
    ensures |out.state| == |users|
    ensures LoggedIn(out.response) ==>
      var i := FindByUsername(users, req.username.value).index;
      && out.state == users[i := users[i].(lastLogin := Some(now))]
      && out.response.value.userId == Some(users[i].id)
      && out.response.value.username == Some(users[i].username)
  {
    if req.username.None? || IsBlank(req.username.value) then Handled(Some(Failure(USERNAME_REQUIRED)), users)
    else if req.password.None? || |req.password.value| == 0 then Handled(Some(Failure(PASSWORD_REQUIRED)), users)
    else
      match FindByUsername(users, req.username.value)
      case Missing => Handled(Some(Failure(USER_NOT_FOUND)), users)
      case Duplicated => Handled(None, users)
      case Unique(i) =>
        if users[i].password != req.password.value then Handled(Some(Failure(INVALID_PASSWORD)), users)
        else
          var u := users[i].(lastLogin := Some(now));
          Handled(Some(AuthResponse(true, LOGGED_IN, Some(u.id), Some(u.username), Some(u.displayName))), users[i := u])
  }

  /**
   * `login` checks, in order: a non-blank username, a non-empty password, a
   * stored user, then the exact password.
   */
  lemma LoginRejections(users: Users, req: LoginRequest, now: Instant)
    ensures var out := Login(users, req, now).response;
      && (req.username.None? || IsBlank(req.username.value) ==> out == Some(Failure(USERNAME_REQUIRED)))
      && ((req.username.Some? && !IsBlank(req.username.value) && (req.password.None? || |req.password.value| == 0))
            ==> out == Some(Failure(PASSWORD_REQUIRED)))
      && (LoginFieldsValid(req) && FindByUsername(users, req.username.value).Missing? ==>
            out == Some(Failure(USER_NOT_FOUND)))
      && ((LoginFieldsValid(req) && FindByUsername(users, req.username.value).Unique?
           && users[FindByUsername(users, req.username.value).index].password != req.password.value)
            ==> out == Some(Failure(INVALID_PASSWORD)))
  {
  }

  /**
   * The duplicate the as-written registration stores makes every later
   * login of that name, with either password, end in a server error.
   */
  lemma DuplicateBreaksLogin(password: string, now: Instant)
    requires |password| > 0
    ensures var users := RegisterAsWritten([STORED_ALICE], SECOND_ALICE, "2", 1).state;
      Login(users, LoginRequest(Some("alice"), Some(password)), now).response.None?
  {
    RegisterAsWrittenDuplicates();
    var users := RegisterAsWritten([STORED_ALICE], SECOND_ALICE, "2", 1).state;
    AliceNormalizes();
    assert Normalize("alice") == "alice" by {
      assert !IsBlank("alice") by { TrimUnchanged("alice", JavaWhitespace); }
      TrimUnchanged("alice", JavaWhitespace);
      AliceLowersLower();
    }
    assert Duplicate(users, "alice") by {
      assert users[0].username == users[1].username == "alice";
    }
  }

  lemma AliceLowersLower()
    ensures Lower("alice") == "alice"
  {
    var l := Lower("alice");
    assert l[0] == 'a' && l[1] == 'l' && l[2] == 'i' && l[3] == 'c' && l[4] == 'e';
  }

  /**
   * Register-then-login round trip: after a successful registration, logging
   * in with the same username (in any letter case, with any surrounding
   * spaces) and the same password succeeds as the new user.
   */
  lemma RegisterThenLogin(users: Users, req: RegisterRequest, newId: string, t1: Instant,
                          username: string, t2: Instant)
    requires Register(users, req, newId, t1).response.success
    requires Normalize(username) == Normalize(req.username.value)
    ensures var registered := Register(users, req, newId, t1).state;
      var out := Login(registered, LoginRequest(Some(username), req.password), t2);
      && LoggedIn(out.response)
      && out.response.value.userId == Some(newId)
  {
    var registered := Register(users, req, newId, t1).state;
    var name := Normalize(username);
    assert registered[|users|].username == name;
    assert Exists(registered, name);
    assert !Exists(users, name);
    assert IndexOf(registered, name) == Some(|users|);
    assert registered[|users| + 1..] == [];
    assert FindByUsername(registered, username) == Unique(|users|);
    assert !IsBlank(username) by {
      assert !IsBlank(req.username.value);
    }
  }
}
