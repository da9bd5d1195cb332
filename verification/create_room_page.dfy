/**
 * The create-room page: the form is offered to any stored user, the creator
 * is always that user's name, the form's own checks come before the post,
 * a created room's details go to the tab's session storage, and "enter
 * room" opens the shared editor from them.
 */
module CreateRoomPage {
  import opened Wrappers
  import opened Text
  import opened Browser
  import LoginPage
  import RoomService
  import RoomController
  import opened RoomEntity

  const FILL_ALL_FIELDS: string := "Please fill in all fields."
  const PASSWORD_TOO_SHORT: string := "Room password must be at least 4 characters long."
  const CREATE_FAILED: string := "Failed to create room."
  const ROOM_INFO_MISSING: string := "Room information not found. Please create or join a room first."
  const MIN_PASSWORD_LENGTH: nat := 4

  /**
   * The page's gate is `!user`: any stored user object unlocks the form,
   * even one without a username (a weaker test than `LoginPage.IsLoggedIn`).
   */
  predicate FormOffered(storage: LoginPage.Storage) {
    storage.Some?
  }

  /** Every logged-in user is offered the form, but not only they are. */
  lemma GateIsWeakerThanLogin(storage: LoginPage.Storage)
    ensures LoginPage.IsLoggedIn(storage) ==> FormOffered(storage)
    ensures FormOffered(Some(LoginPage.StoredUser(None, None, None)))
    ensures !LoginPage.IsLoggedIn(Some(LoginPage.StoredUser(None, None, None)))
  {
  }

  /**
   * The submit handler's checks: name and password are trimmed and must be
   * filled in, then the password must have at least four characters. The
   * creator is the stored username, never a typed one.
   */
  function SubmitCreate(user: LoginPage.StoredUser, roomName: string, roomPassword: string)
    : (s: Submission<RoomService.CreateRoomRequest>)
    ensures s.Post? <==> JsTrim(roomName) != [] && |JsTrim(roomPassword)| >= MIN_PASSWORD_LENGTH
    ensures (JsTrim(roomName) == [] || JsTrim(roomPassword) == []) ==> s == Refused(FILL_ALL_FIELDS)
    ensures JsTrim(roomName) != [] && 0 < |JsTrim(roomPassword)| < MIN_PASSWORD_LENGTH ==>
      s == Refused(PASSWORD_TOO_SHORT)
    ensures s.Post? ==>
      s.request == RoomService.CreateRoomRequest(Some(JsTrim(roomName)), Some(JsTrim(roomPassword)), user.username)
    ensures s.Post? ==> !RoomService.PasswordTooShort(s.request.password)
  {
    var name := JsTrim(roomName);
    var password := JsTrim(roomPassword);
    if name == [] || password == [] then Refused(FILL_ALL_FIELDS)
    else if |password| < MIN_PASSWORD_LENGTH then Refused(PASSWORD_TOO_SHORT)
    else Post(RoomService.CreateRoomRequest(Some(name), Some(password), user.username))
  }

  /** What the page shows after a reply: the created room's id and password, or an error. */
  datatype Shown = Created(roomId: Option<string>, password: Option<string>) | Error(text: string)

  /**
   * The reply handler. On success the room's password and id, the creator's
   * name and id are stored in the session and the room is shown; otherwise
   * the session is untouched and the answer's text, the fallback, or the
   * thrown error's message is shown.
   */
  function OnCreateReply(session: SessionStorage, user: LoginPage.StoredUser, reply: Fetched<RoomService.RoomResponse>)
    : (out: Handled<Shown, SessionStorage>)
    ensures out.response.Created? <==> reply.Ok?
    ensures reply.Ok? ==>
      && out.response == Created(reply.body.roomId, reply.body.password)
      && Stored(out.state, ROOM_PASSWORD_ITEM, JsString(reply.body.password))
      && Stored(out.state, ROOM_ID_ITEM, JsString(reply.body.roomId))
      && Stored(out.state, USERNAME_ITEM, JsString(user.username))
      && Stored(out.state, USER_ID_ITEM, JsString(user.userId))
      && forall k :: k !in {ROOM_PASSWORD_ITEM, ROOM_ID_ITEM, USERNAME_ITEM, USER_ID_ITEM} ==>
           (k in out.state <==> k in session) && (k in session ==> out.state[k] == session[k])
    ensures !reply.Ok? ==> out.state == session
    ensures reply.NotOk? ==> out.response == Error(OrElse(reply.text, CREATE_FAILED))
    ensures reply.Thrown? ==> out.response == Error(reply.message)
  {
    ItemsDistinct();
    match reply
    case Ok(room) =>
      var s1 := SetItem(session, ROOM_PASSWORD_ITEM, room.password);
      var s2 := SetItem(s1, ROOM_ID_ITEM, room.roomId);
      var s3 := SetItem(s2, USERNAME_ITEM, user.username);
      Handled(Created(room.roomId, room.password), SetItem(s3, USER_ID_ITEM, user.userId))
    case NotOk(text) => Handled(Error(OrElse(text, CREATE_FAILED)), session)
    case Thrown(message) => Handled(Error(message), session)
  }

  /** `sessionStorage.getItem(key)` is truthy: present and not empty. */
  predicate HasItem(session: SessionStorage, key: string) {
    key in session && session[key] != []
  }

  /** Where "enter room" goes, and the alert shown first if any. */
  datatype Navigation = Navigation(alert: Option<string>, url: string)

  /**
   * `enterRoom`: with a room id, a username and a password in the session,
   * open the shared editor for that room and name; otherwise alert and go
   * home.
   */
  function EnterRoom(session: SessionStorage): (nav: Navigation)
    ensures nav.alert.None? <==>
      HasItem(session, ROOM_ID_ITEM) && HasItem(session, USERNAME_ITEM) && HasItem(session, ROOM_PASSWORD_ITEM)
    ensures nav.alert.None? ==>
      nav.url == CollabUrl(session[ROOM_ID_ITEM], Some(session[USERNAME_ITEM]))
    ensures nav.alert.Some? ==> nav == Navigation(Some(ROOM_INFO_MISSING), HOME_PAGE)
  {
    if HasItem(session, ROOM_ID_ITEM) && HasItem(session, USERNAME_ITEM) && HasItem(session, ROOM_PASSWORD_ITEM) then
      Navigation(None, CollabUrl(session[ROOM_ID_ITEM], Some(session[USERNAME_ITEM])))
    else
      Navigation(Some(ROOM_INFO_MISSING), HOME_PAGE)
  }

  /**
   * A created room's details, once stored, let "enter room" through to the
   * editor for that room under the creator's name.
   */
  lemma EnterCreatedRoom(session: SessionStorage, user: LoginPage.StoredUser, room: RoomService.RoomResponse)
    requires room.roomId.Some? && room.roomId.value != []
    requires room.password.Some? && room.password.value != []
    requires user.username.Some? && user.username.value != []
    ensures EnterRoom(OnCreateReply(session, user, Ok(room)).state)
         == Navigation(None, CollabUrl(room.roomId.value, user.username))
  {
    var stored := OnCreateReply(session, user, Ok(room)).state;
    assert Stored(stored, ROOM_ID_ITEM, room.roomId.value);
    assert Stored(stored, USERNAME_ITEM, user.username.value);
    assert Stored(stored, ROOM_PASSWORD_ITEM, room.password.value);
  }

  /**
   * What the form posts for a logged-in user whose name is not blank, with
   * a name that stays non-blank under Java's trim and a long enough
   * password, passes every check of the create service.
   */
  lemma SubmittedRoomIsValid(user: LoginPage.StoredUser, roomName: string, roomPassword: string)
    requires user.username.Some? && !IsBlank(user.username.value)
    requires !IsBlank(JsTrim(roomName)) && |JsTrim(roomPassword)| >= MIN_PASSWORD_LENGTH
    ensures var submitted := SubmitCreate(user, roomName, roomPassword);
      && submitted.Post?
      && RoomService.CreateRequestValid(submitted.request)
  {
    EmptyIsBlank();
    assert JsTrim(roomName) != [];
  }

  /** A room name made of the control character U+0001 alone. */
  const CONTROL_NAME: string := "\U{0001}"

  /**
   * The page's trim and the server's differ: U+0001 is not JavaScript
   * whitespace, so the form posts this name, but Java's trim strips it, so
   * the service refuses the room with "Room name is required". The
   * non-blank requirement of the lemma above cannot be dropped.
   */
  lemma ControlNamePostedButRefused(repo: RoomService.Repo, user: LoginPage.StoredUser, roomId: string, now: Instant)
    requires roomId !in repo
    ensures var submitted := SubmitCreate(user, CONTROL_NAME, "abcd");
      && submitted.Post?
      && submitted.request.name == Some(CONTROL_NAME)
      && !RoomService.CreateRequestValid(submitted.request)
      && RoomService.CreateRoom(repo, submitted.request, roomId, now).response
         == RoomService.Rejected(RoomService.NAME_REQUIRED)
  {
    TrimUnchanged(CONTROL_NAME, JsWhitespace);
    TrimUnchanged("abcd", JsWhitespace);
    assert IsBlank(CONTROL_NAME) by {
      assert forall k :: 0 <= k < |CONTROL_NAME| ==> IsSpace(JavaWhitespace, CONTROL_NAME[k]);
    }
  }

  /** Such a submission is answered 200 with the new room's id and the password as typed, trimmed. */
  lemma SubmittedRoomIsCreated(repo: RoomService.Repo, user: LoginPage.StoredUser,
                               roomName: string, roomPassword: string, roomId: string, now: Instant)
    requires user.username.Some? && !IsBlank(user.username.value)
    requires !IsBlank(JsTrim(roomName)) && |JsTrim(roomPassword)| >= MIN_PASSWORD_LENGTH
    requires RoomService.IsRoomId(roomId) && roomId !in repo
    ensures var submitted := SubmitCreate(user, roomName, roomPassword);
      && submitted.Post?
      && var answer := RoomController.CreateRoom(repo, submitted.request, roomId, now).response;
      && answer.status == RoomController.OK
      && answer.body.RoomBody?
      && answer.body.room.roomId == Some(roomId)
      && answer.body.room.password == Some(JsTrim(roomPassword))
  {
    SubmittedRoomIsValid(user, roomName, roomPassword);
    RoomController.ValidCreateAnswers(repo, SubmitCreate(user, roomName, roomPassword).request, roomId, now);
  }

  /**
   * End to end: after the form above is answered 200, the page stores the
   * new room and "enter room" opens the editor for exactly that room under
   * the user's name.
   */
  lemma CreateThenEnter(repo: RoomService.Repo, session: SessionStorage, user: LoginPage.StoredUser,
                        roomName: string, roomPassword: string, roomId: string, now: Instant)
    requires user.username.Some? && !IsBlank(user.username.value)
    requires !IsBlank(JsTrim(roomName)) && |JsTrim(roomPassword)| >= MIN_PASSWORD_LENGTH
    requires RoomService.IsRoomId(roomId) && roomId !in repo
    ensures var submitted := SubmitCreate(user, roomName, roomPassword);
      && submitted.Post?
      && var answer := RoomController.CreateRoom(repo, submitted.request, roomId, now).response;
      && answer.body.RoomBody?
      && var page := OnCreateReply(session, user, Ok(answer.body.room));
      && page.response == Created(Some(roomId), Some(JsTrim(roomPassword)))
      && EnterRoom(page.state) == Navigation(None, CollabUrl(roomId, user.username))
  {
    SubmittedRoomIsCreated(repo, user, roomName, roomPassword, roomId, now);
    var answer := RoomController.CreateRoom(repo, SubmitCreate(user, roomName, roomPassword).request, roomId, now);
    EmptyIsBlank();
    assert user.username.value != [];
    EnterCreatedRoom(session, user, answer.response.body.room);
  }
}
