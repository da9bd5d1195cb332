/**
 * The join-room page: the typed room id is trimmed and upper-cased, the
 * joiner is always the stored user, and an accepted join stores the
 * password and user id in the tab's session storage and opens the shared
 * editor.
 */
module JoinRoomPage {
  import opened Wrappers
  import opened Text
  import opened Browser
  import opened RoomEntity
  import LoginPage
  import RoomService
  import RoomController

  const FILL_ALL_FIELDS: string := "Please fill in all fields."
  const JOIN_FAILED: string := "Failed to join room."

  /** The page's gate is `!user`, exactly as on the create-room page. */
  predicate FormOffered(storage: LoginPage.Storage) {
    storage.Some?
  }

  /**
   * The submit handler's checks: the room id is trimmed then upper-cased,
   * the password trimmed, and both must be filled in. The joiner is the
   * stored username, never a typed one.
   */
  function SubmitJoin(user: LoginPage.StoredUser, roomIdField: string, passwordField: string)
    : (s: Submission<RoomService.JoinRoomRequest>)
    ensures s.Refused? <==> JsTrim(roomIdField) == [] || JsTrim(passwordField) == []
    ensures s.Refused? ==> s.message == FILL_ALL_FIELDS
    ensures s.Post? ==>
      s.request == RoomService.JoinRoomRequest(Some(Upper(JsTrim(roomIdField))), Some(JsTrim(passwordField)),
                                               user.username)
    ensures s.Post? ==> !RoomService.MissingOrEmpty(s.request.password)
  {
    var roomId := Upper(JsTrim(roomIdField));
    var password := JsTrim(passwordField);
    if roomId == [] || password == [] then Refused(FILL_ALL_FIELDS)
    else Post(RoomService.JoinRoomRequest(Some(roomId), Some(password), user.username))
  }

  /** What the page does with a reply: go to the editor, or show an error. */
  datatype Outcome = Redirect(url: string) | Error(text: string)

  /**
   * The reply handler, given the room id and password sent. On success the password and
   * the user's id are stored in the session and the editor opens for the
   * room id as sent, under the stored username; otherwise the session is
   * untouched and the answer's text, the fallback, or the thrown error's
   * message is shown.
   */
  function OnJoinReply(session: SessionStorage, user: LoginPage.StoredUser, roomId: string, password: string,
                       reply: Fetched<RoomService.RoomResponse>)
    : (out: Handled<Outcome, SessionStorage>)
    ensures out.response.Redirect? <==> reply.Ok?
    ensures reply.Ok? ==>
      && out.response == Redirect(CollabUrl(roomId, user.username))
      && Stored(out.state, ROOM_PASSWORD_ITEM, password)
      && Stored(out.state, USER_ID_ITEM, JsString(user.userId))
      && forall k :: k != ROOM_PASSWORD_ITEM && k != USER_ID_ITEM ==>
           (k in out.state <==> k in session) && (k in session ==> out.state[k] == session[k])
    ensures !reply.Ok? ==> out.state == session
    ensures reply.NotOk? ==> out.response == Error(OrElse(reply.text, JOIN_FAILED))
    ensures reply.Thrown? ==> out.response == Error(reply.message)
  {
    ItemsDistinct();
    match reply
    case Ok(_) =>
      var s1 := SetItem(session, ROOM_PASSWORD_ITEM, Some(password));
      Handled(Redirect(CollabUrl(roomId, user.username)), SetItem(s1, USER_ID_ITEM, user.userId))
    case NotOk(text) => Handled(Error(OrElse(text, JOIN_FAILED)), session)
    case Thrown(message) => Handled(Error(message), session)
  }

  /**
   * A room id typed in lower case and padded with spaces is sent in the
   * generated id's own form, so the server finds the room under it.
   */
  lemma TypedIdIsRoomKey(user: LoginPage.StoredUser, typed: string, passwordField: string, id: string)
    requires RoomService.IsRoomId(id) && JsTrim(typed) == Lower(id)
    requires JsTrim(passwordField) != []
    ensures var submitted := SubmitJoin(user, typed, passwordField);
      && submitted.Post?
      && submitted.request.roomId == Some(id)
      && RoomService.RoomKey(submitted.request.roomId.value) == id
  {
    RoomService.RoomKeyOfRoomId(id);
    assert |JsTrim(typed)| == |id| == RoomService.ROOM_ID_LENGTH;
  }

  /**
   * End to end: a logged-in user whose name is not blank types the id of
   * an active room in lower case, with the room's password; the server
   * answers 200, and the page opens the editor for that room.
   */
  lemma JoinThroughPage(repo: RoomService.Repo, session: SessionStorage, user: LoginPage.StoredUser,
                        typed: string, passwordField: string, id: string, now: Instant)
    requires user.username.Some? && !IsBlank(user.username.value)
    requires RoomService.IsRoomId(id) && JsTrim(typed) == Lower(id)
    requires id in repo && repo[id].isActive && repo[id].password == JsTrim(passwordField)
    requires JsTrim(passwordField) != []
    ensures var submitted := SubmitJoin(user, typed, passwordField);
      && submitted.Post?
      && var answer := RoomController.JoinRoom(repo, submitted.request, now).response;
      && answer.status == RoomController.OK
      && answer.body.RoomBody?
      && var page := OnJoinReply(session, user, submitted.request.roomId.value,
                                 submitted.request.password.value, Ok(answer.body.room));
      && page.response == Redirect(CollabUrl(id, user.username))
      && Stored(page.state, ROOM_PASSWORD_ITEM, repo[id].password)
  {
    SubmittedJoinAdmitted(repo, user, typed, passwordField, id);
  }

  /** The request such a submission posts passes every check of the join service. */
  lemma SubmittedJoinAdmitted(repo: RoomService.Repo, user: LoginPage.StoredUser,
                              typed: string, passwordField: string, id: string)
    requires user.username.Some? && !IsBlank(user.username.value)
    requires RoomService.IsRoomId(id) && JsTrim(typed) == Lower(id)
    requires id in repo && repo[id].isActive && repo[id].password == JsTrim(passwordField)
    requires JsTrim(passwordField) != []
    ensures var submitted := SubmitJoin(user, typed, passwordField);
      && submitted.Post?
      && submitted.request.roomId == Some(id)
      && !RoomService.MissingOrEmpty(submitted.request.username)
      && RoomService.JoinAdmitted(repo, submitted.request)
  {
    TypedIdIsRoomKey(user, typed, passwordField, id);
    RoomService.RoomKeyOfRoomId(id);
    EmptyIsBlank();
    assert user.username.value != [];
  }
}
