/**
 * The room REST endpoints: each one calls the room service and maps its
 * answer to an HTTP status, hiding the password wherever the service would
 * not have returned it.
 */
module RoomController {
  import opened Wrappers
  import opened Text
  import opened RoomEntity
  import RoomService

  const NOT_LOGGED_IN_TO_CREATE: string := "User must be logged in to create rooms"
  const NOT_LOGGED_IN_TO_JOIN: string := "User must be logged in to join rooms"
  const ROOM_FOUND: string := "Room found"

  const OK: nat := 200
  const BAD_REQUEST: nat := 400
  const UNAUTHORIZED: nat := 401
  const NOT_FOUND: nat := 404

  /** The body of an HTTP answer. */
  datatype Body =
    | TextBody(text: string)
    | RoomBody(room: RoomService.RoomResponse)
    | CountBody(roomId: string, usersCount: nat, users: seq<string>)
    | EmptyBody

  datatype Http = Http(status: nat, body: Body)

  /**
   * `POST /api/rooms/create`. The login check only looks for a null or empty
   * creator; `roomId` is the fresh id the service would generate.
   */
  function CreateRoom(repo: RoomService.Repo, req: RoomService.CreateRoomRequest, roomId: string, now: Instant)
    : (out: Handled<Http, RoomService.Repo>)
    requires roomId !in repo
    ensures out.response.status == UNAUTHORIZED <==> RoomService.MissingOrEmpty(req.creatorUsername)
    ensures out.response.status == UNAUTHORIZED ==>
      out.response.body == TextBody(NOT_LOGGED_IN_TO_CREATE) && out.state == repo
    ensures out.response.status == OK <==> RoomService.CreateRequestValid(req)
    ensures out.response.status in {OK, BAD_REQUEST, UNAUTHORIZED}
    ensures out.response.status != UNAUTHORIZED ==>
      var served := RoomService.CreateRoom(repo, req, roomId, now);
      out.response.body == RoomBody(served.response) && out.state == served.state
  {
    if RoomService.MissingOrEmpty(req.creatorUsername) then
      Handled(Http(UNAUTHORIZED, TextBody(NOT_LOGGED_IN_TO_CREATE)), repo)
    else
      var served := RoomService.CreateRoom(repo, req, roomId, now);
      Handled(Http(if served.response.success then OK else BAD_REQUEST, RoomBody(served.response)), served.state)
  }

  /** A request that passes the service's checks is answered 200 with the new room's id and password. */
  lemma ValidCreateAnswers(repo: RoomService.Repo, req: RoomService.CreateRoomRequest, roomId: string, now: Instant)
    requires RoomService.IsRoomId(roomId) && roomId !in repo
    requires RoomService.CreateRequestValid(req)
    ensures var answer := CreateRoom(repo, req, roomId, now).response;
      && answer.status == OK
      && answer.body.RoomBody?
      && answer.body.room.roomId == Some(roomId)
      && answer.body.room.password == req.password
  {
    RoomService.CreateRoomStores(repo, req, roomId, now);
  }

  /**
   * A creator made only of spaces is not empty, so it passes the login check
   * and is turned away by the service instead: 400, not 401.
   */
  lemma BlankCreatorIsBadRequest(repo: RoomService.Repo, req: RoomService.CreateRoomRequest, roomId: string, now: Instant)
    requires roomId !in repo
    requires !RoomService.MissingOrBlank(req.name) && !RoomService.PasswordTooShort(req.password)
    requires req.creatorUsername.Some? && |req.creatorUsername.value| > 0 && IsBlank(req.creatorUsername.value)
    ensures CreateRoom(repo, req, roomId, now).response
         == Http(BAD_REQUEST, RoomBody(RoomService.Rejected(RoomService.CREATOR_REQUIRED)))
  {
  }

  /** `POST /api/rooms/join`: 401 on a null or empty username, else 200 iff the service admits. */
  function JoinRoom(repo: RoomService.Repo, req: RoomService.JoinRoomRequest, now: Instant)
    : (out: Handled<Http, RoomService.Repo>)
    ensures out.response.status == UNAUTHORIZED <==> RoomService.MissingOrEmpty(req.username)
    ensures out.response.status == UNAUTHORIZED ==>
      out.response.body == TextBody(NOT_LOGGED_IN_TO_JOIN) && out.state == repo
    ensures out.response.status == OK <==>
      !RoomService.MissingOrEmpty(req.username) && RoomService.JoinAdmitted(repo, req)
    ensures out.response.status in {OK, BAD_REQUEST, UNAUTHORIZED}
    ensures out.response.status != OK ==> out.state == repo
    ensures out.response.body.RoomBody? ==> out.response.body.room.password.None?
  {
    if RoomService.MissingOrEmpty(req.username) then
      Handled(Http(UNAUTHORIZED, TextBody(NOT_LOGGED_IN_TO_JOIN)), repo)
    else
      var served := RoomService.JoinRoom(repo, req, now);
      Handled(Http(if served.response.success then OK else BAD_REQUEST, RoomBody(served.response)), served.state)
  }

  /** `POST /api/rooms/leave`: always 200, carrying the service's answer even when it failed. */
  function LeaveRoom(repo: RoomService.Repo, roomId: string, username: string, now: Instant)
    : (out: Handled<Http, RoomService.Repo>)
    ensures out.response.status == OK
    ensures out.response.body.RoomBody?
    ensures out.response.body.room.success <==> RoomService.RoomKey(roomId) in repo
    ensures out.state == RoomService.LeaveRoom(repo, roomId, username, now).state
  {
    var served := RoomService.LeaveRoom(repo, roomId, username, now);
    Handled(Http(OK, RoomBody(served.response)), served.state)
  }

  /** `GET /api/rooms/{roomId}`: 404 with no body, or the room as stored with the password blanked. */
  function GetRoom(repo: RoomService.Repo, roomId: string): (r: Http)
    ensures r.status == NOT_FOUND <==> RoomService.RoomKey(roomId) !in repo
    ensures r.status == NOT_FOUND ==> r.body == EmptyBody
    ensures r.status != NOT_FOUND ==>
      var room := repo[RoomService.RoomKey(roomId)];
      && r.status == OK
      && r.body.RoomBody?
      && r.body.room.success
      && r.body.room.password.None?
      && r.body.room.roomId == Some(room.roomId)
      && r.body.room.name == Some(room.name)
      && r.body.room.activeUsers == Some(room.activeUsers)
      && r.body.room.currentCode == Some(room.currentCode)
      && r.body.room.currentLanguage == Some(room.currentLanguage)
  {
    match RoomService.GetRoomById(repo, roomId)
    case None => Http(NOT_FOUND, EmptyBody)
    case Some(room) =>
      Http(OK, RoomBody(RoomService.RoomResponse(
        true, ROOM_FOUND, Some(room.roomId), None, Some(room.name), Some(room.creatorUsername),
        Some(room.activeUsers), Some(room.currentCode), Some(room.currentLanguage))))
  }

  /** `GET /api/rooms/{roomId}/users-count`: the member list and its length. */
  function GetRoomUsersCount(repo: RoomService.Repo, roomId: string): (r: Http)
    ensures r.status == NOT_FOUND <==> RoomService.RoomKey(roomId) !in repo
    ensures r.status == NOT_FOUND ==> r.body == EmptyBody
    ensures r.status != NOT_FOUND ==>
      && r.status == OK
      && r.body.CountBody?
      && r.body.usersCount == |r.body.users|
      && r.body.users == repo[RoomService.RoomKey(roomId)].activeUsers
  {
    match RoomService.GetRoomById(repo, roomId)
    case None => Http(NOT_FOUND, EmptyBody)
    case Some(room) => Http(OK, CountBody(room.roomId, |room.activeUsers|, room.activeUsers))
  }

  /**
   * No read endpoint ever shows a password: neither the room lookup nor a
   * join answer carries one, whatever the repository holds.
   */
  lemma PasswordNeverLeaks(repo: RoomService.Repo, roomId: string, req: RoomService.JoinRoomRequest, now: Instant)
    ensures GetRoom(repo, roomId).body.RoomBody? ==> GetRoom(repo, roomId).body.room.password.None?
    ensures JoinRoom(repo, req, now).response.body.RoomBody? ==>
      JoinRoom(repo, req, now).response.body.room.password.None?
  {
  }

  /**
   * After a 200 join, the users-count endpoint for the same id lists the
   * joining user, and the count grew by one exactly when the user was new.
   */
  lemma JoinThenCount(repo: RoomService.Repo, req: RoomService.JoinRoomRequest, now: Instant)
    requires JoinRoom(repo, req, now).response.status == OK
    ensures var before := GetRoomUsersCount(repo, req.roomId.value);
      var after := GetRoomUsersCount(JoinRoom(repo, req, now).state, req.roomId.value);
      var user := JavaTrim(req.username.value);
      && before.status == OK && after.status == OK
      && user in after.body.users
      && after.body.usersCount == before.body.usersCount + (if user in before.body.users then 0 else 1)
  {
    RoomService.JoinRoomAdmits(repo, req, now);
  }
}
