/**
 * The room directory service: create, join, leave, code update and lookup
 * over a repository of rooms keyed by their short room id.
 */
module RoomService {
  import opened Wrappers
  import opened Seqs
  import opened Text
  import opened RoomEntity

  /** Thirty-two upper-case letters and digits, without the look-alikes I, O, 0 and 1. */
  const ROOM_ID_CHARS: string := "ABCDEFGHJKLMNPQRSTUVWXYZ23456789"
  const ROOM_ID_LENGTH: nat := 6
  const MIN_PASSWORD_LENGTH: nat := 4

  // Response messages.
  const NAME_REQUIRED: string := "Room name is required"
  const PASSWORD_TOO_SHORT: string := "Password must be at least 4 characters"
  const CREATOR_REQUIRED: string := "Creator username is required"
  const CREATED: string := "Room created successfully"
  const ROOM_ID_REQUIRED: string := "Room ID is required"
  const PASSWORD_REQUIRED: string := "Password is required"
  const USERNAME_REQUIRED: string := "Username is required"
  const ROOM_NOT_FOUND: string := "Room not found"
  const ROOM_INACTIVE: string := "This room is no longer active"
  const INVALID_PASSWORD: string := "Invalid password"
  const JOINED: string := "Joined room successfully"
  const LEFT: string := "Left room successfully"

  /** The room repository, keyed by the user-facing room id. */
  type Repo = map<string, Room>

  predicate IsRoomId(id: string) {
    |id| == ROOM_ID_LENGTH && forall i :: 0 <= i < |id| ==> id[i] in ROOM_ID_CHARS
  }

  /** Every room is stored under its own id and has no duplicate member. */
  predicate RepoInvariant(repo: Repo) {
    forall k :: k in repo ==> repo[k].roomId == k && NoDup(repo[k].activeUsers)
  }

  /** Storing a room under its own id with no duplicate member keeps the invariant. */
  lemma PutKeepsInvariant(repo: Repo, key: string, room: Room)
    ensures RepoInvariant(repo) && room.roomId == key && NoDup(room.activeUsers) ==>
      RepoInvariant(repo[key := room])
  {
  }

  datatype CreateRoomRequest = CreateRoomRequest(
    name: Option<string>, password: Option<string>, creatorUsername: Option<string>)

  datatype JoinRoomRequest = JoinRoomRequest(
    roomId: Option<string>, password: Option<string>, username: Option<string>)

  datatype RoomResponse = RoomResponse(
    success: bool,
    message: string,
    roomId: Option<string>,
    password: Option<string>,
    name: Option<string>,
    creatorUsername: Option<string>,
    activeUsers: Option<seq<string>>,
    currentCode: Option<string>,
    currentLanguage: Option<string>)

  /** A failure response: every field but the message is null. */
  function Rejected(message: string): RoomResponse {
    RoomResponse(false, message, None, None, None, None, None, None, None)
  }

  /** `s == null || s.trim().isEmpty()` */
  predicate MissingOrBlank(s: Option<string>) {
    s.None? || IsBlank(s.value)
  }

  /** `s == null || s.isEmpty()` */
  predicate MissingOrEmpty(s: Option<string>) {
    s.None? || |s.value| == 0
  }

  /** `s == null || s.length() < 4` */
  predicate PasswordTooShort(s: Option<string>) {
    s.None? || |s.value| < MIN_PASSWORD_LENGTH
  }

  /** The key a user-supplied room id is looked up under: upper-cased, then trimmed. */
  function RoomKey(roomId: string): string {
    JavaTrim(Upper(roomId))
  }

  /** The alphabet as a character class: A to Z without I and O, then 2 to 9. */
  predicate IsRoomIdChar(c: char) {
    ('A' <= c <= 'Z' && c != 'I' && c != 'O') || ('2' <= c <= '9')
  }

  /** The alphabet holds exactly the characters of that class, so no I, O, 0 or 1. */
  lemma RoomIdAlphabet()
    ensures forall k :: 0 <= k < |ROOM_ID_CHARS| ==> IsRoomIdChar(ROOM_ID_CHARS[k])
    ensures forall c :: IsRoomIdChar(c) ==> c in ROOM_ID_CHARS
  {
  }

  predicate ValidDraws(draws: seq<nat>) {
    |draws| == ROOM_ID_LENGTH && forall i :: 0 <= i < |draws| ==> draws[i] < |ROOM_ID_CHARS|
  }

  /**
   * `generateRoomId`: six characters, each picked from the alphabet by one
   * draw of the random source (passed in as `draws`).
   */
  function GenerateRoomId(draws: seq<nat>): (id: string)
    requires ValidDraws(draws)
    ensures IsRoomId(id)
    ensures forall i :: 0 <= i < |id| ==> id[i] == ROOM_ID_CHARS[draws[i]]
  {
    seq(ROOM_ID_LENGTH, i requires 0 <= i < ROOM_ID_LENGTH => ROOM_ID_CHARS[draws[i]])
  }

  function IndexIn(c: char, s: string): (k: nat)
    requires c in s
    ensures k < |s| && s[k] == c
  {
    if s[0] == c then 0 else 1 + IndexIn(c, s[1..])
  }

  /** Every well-formed room id is produced by some sequence of draws. */
  lemma GenerateRoomIdOnto(id: string)
    requires IsRoomId(id)
    ensures exists draws :: ValidDraws(draws) && GenerateRoomId(draws) == id
  {
    var draws := seq(ROOM_ID_LENGTH, i requires 0 <= i < ROOM_ID_LENGTH => IndexIn(id[i], ROOM_ID_CHARS));
    assert ValidDraws(draws);
    assert GenerateRoomId(draws) == id;
  }

  /**
   * `generateUniqueRoomId`: draw candidates until one is not in the
   * repository. `attempts` is the stream of draws, one entry per candidate;
   * `None` means every candidate in this finite prefix was taken (the source
   * would keep drawing).
   */
  method GenerateUniqueRoomId(repo: Repo, attempts: seq<seq<nat>>) returns (id: Option<string>)
    requires forall k :: 0 <= k < |attempts| ==> ValidDraws(attempts[k])
    ensures id.Some? ==> IsRoomId(id.value) && id.value !in repo
    ensures id.Some? ==> exists k :: (0 <= k < |attempts| && id.value == GenerateRoomId(attempts[k])
      && forall j :: 0 <= j < k ==> GenerateRoomId(attempts[j]) in repo)
    ensures id.None? ==> forall k :: 0 <= k < |attempts| ==> GenerateRoomId(attempts[k]) in repo
  {
    var k := 0;
    while k < |attempts|
      invariant 0 <= k <= |attempts|
      invariant forall j :: 0 <= j < k ==> GenerateRoomId(attempts[j]) in repo
    {
      var candidate := GenerateRoomId(attempts[k]);
      if candidate !in repo {
        return Some(candidate);
      }
      k := k + 1;
    }
    return None;
  }

  /** A generated id is already in the normal form `RoomKey` looks rooms up under. */
  lemma RoomKeyOfRoomId(id: string)
    requires IsRoomId(id)
    ensures RoomKey(id) == id && !IsBlank(id)
    ensures Upper(Lower(id)) == id && RoomKey(Lower(id)) == id
  {
    RoomIdAlphabet();
    assert forall i :: 0 <= i < |id| ==> IsRoomIdChar(id[i]);
    assert Upper(id) == id;
    assert Upper(Lower(id)) == id;
    TrimUnchanged(id, JavaWhitespace);
  }

  /**
   * The lookup key is in normal form: it has no ASCII lower-case letter and
   * no whitespace at either end, so normalising it again changes nothing.
   */
  lemma RoomKeyNormal(roomId: string)
    ensures NoLowerCase(RoomKey(roomId))
    ensures RoomKey(roomId) == [] ||
      (!IsJavaSpace(RoomKey(roomId)[0]) && !IsJavaSpace(RoomKey(roomId)[|RoomKey(roomId)| - 1]))
    ensures RoomKey(RoomKey(roomId)) == RoomKey(roomId)
  {
    var u := Upper(roomId);
    UpperHasNoLowerCase(roomId);
    TrimKeepsNoLowerCase(u, JavaWhitespace);
    UpperFixed(JavaTrim(u));
    TrimIdempotent(u, JavaWhitespace);
  }

  /** The three request checks `createRoom` makes, in order. */
  predicate CreateRequestValid(req: CreateRoomRequest) {
    !MissingOrBlank(req.name) && !PasswordTooShort(req.password) && !MissingOrBlank(req.creatorUsername)
  }

  /**
   * `createRoom`. `roomId` is what `generateUniqueRoomId` returned: a
   * well-formed id not yet in the repository.
   */
  function CreateRoom(repo: Repo, req: CreateRoomRequest, roomId: string, now: Instant)
    : (out: Handled<RoomResponse, Repo>)
    requires roomId !in repo
    ensures out.response.success <==> CreateRequestValid(req)
    ensures !out.response.success ==> out.state == repo && out.response.password.None?
    ensures out.response.success ==> forall k :: k in out.state <==> k in repo || k == roomId
    ensures RepoInvariant(repo) ==> RepoInvariant(out.state)
  {
    if MissingOrBlank(req.name) then
      Handled(Rejected(NAME_REQUIRED), repo)
    else if PasswordTooShort(req.password) then
      Handled(Rejected(PASSWORD_TOO_SHORT), repo)
    else if MissingOrBlank(req.creatorUsername) then
      Handled(Rejected(CREATOR_REQUIRED), repo)
    else
      Establish(repo, roomId, req.password.value, JavaTrim(req.name.value),
                JavaTrim(req.creatorUsername.value), now)
  }

  /**
   * The success branch of `createRoom`: a new active room with the default
   * buffer and `creator` as its only member is stored under `roomId`; the
   * answer includes the password.
   */
  function Establish(repo: Repo, roomId: string, password: string, name: string, creator: string, now: Instant)
    : (out: Handled<RoomResponse, Repo>)
    requires roomId !in repo
    ensures out.response.success
    ensures forall k :: k in out.state <==> k in repo || k == roomId
    ensures forall k :: k in repo ==> out.state[k] == repo[k]
    ensures var room := out.state[roomId];
      && room.roomId == roomId && room.name == name && room.password == password
      && room.creatorUsername == creator && room.activeUsers == [creator]
      && room.currentCode == DEFAULT_CODE && room.currentLanguage == DEFAULT_LANGUAGE && room.isActive
    ensures out.response.roomId == Some(roomId) && out.response.password == Some(password)
    ensures out.response.activeUsers == Some([creator])
    ensures RepoInvariant(repo) ==> RepoInvariant(out.state)
  {
    var room := AddUser(NewRoom(roomId, password, name, None, creator, now), creator, now);
    PutKeepsInvariant(repo, roomId, room);
    Handled(
      RoomResponse(true, CREATED, Some(room.roomId), Some(room.password),
                   Some(room.name), Some(room.creatorUsername), Some(room.activeUsers),
                   Some(room.currentCode), Some(room.currentLanguage)),
      repo[roomId := room])
  }

  /** The three request checks `joinRoom` makes before looking the room up. */
  predicate JoinRequestValid(req: JoinRoomRequest) {
    !MissingOrBlank(req.roomId) && !MissingOrEmpty(req.password) && !MissingOrBlank(req.username)
  }

  /** The request passes every check `joinRoom` makes: the room exists, is active and the password matches. */
  predicate JoinAdmitted(repo: Repo, req: JoinRoomRequest) {
    && JoinRequestValid(req)
    && RoomKey(req.roomId.value) in repo
    && repo[RoomKey(req.roomId.value)].isActive
    && repo[RoomKey(req.roomId.value)].password == req.password.value
  }

  /** `joinRoom`. */
  function JoinRoom(repo: Repo, req: JoinRoomRequest, now: Instant): (out: Handled<RoomResponse, Repo>)
    ensures out.response.success <==> JoinAdmitted(repo, req)
    ensures !out.response.success ==> out.state == repo
    ensures out.response.password.None?
    ensures forall k :: k in out.state <==> k in repo
    ensures RepoInvariant(repo) ==> RepoInvariant(out.state)
  {
    if MissingOrBlank(req.roomId) then
      Handled(Rejected(ROOM_ID_REQUIRED), repo)
    else if MissingOrEmpty(req.password) then
      Handled(Rejected(PASSWORD_REQUIRED), repo)
    else if MissingOrBlank(req.username) then
      Handled(Rejected(USERNAME_REQUIRED), repo)
    else
      var key := RoomKey(req.roomId.value);
      if key !in repo then
        Handled(Rejected(ROOM_NOT_FOUND), repo)
      else if !repo[key].isActive then
        Handled(Rejected(ROOM_INACTIVE), repo)
      else if repo[key].password != req.password.value then
        Handled(Rejected(INVALID_PASSWORD), repo)
      else
        Admit(repo, key, JavaTrim(req.username.value), now)
  }

  /**
   * The success branch of `joinRoom`: `user` joins the room stored under
   * `key`; the answer describes the room as it now is, without its password.
   */
  function Admit(repo: Repo, key: string, user: string, now: Instant): (out: Handled<RoomResponse, Repo>)
    requires key in repo
    ensures out.response.success && out.response.password.None?
    ensures forall k :: k in out.state <==> k in repo
    ensures forall k :: k in repo && k != key ==> out.state[k] == repo[k]
    ensures out.state[key] == AddUser(repo[key], user, now)
    ensures user in out.state[key].activeUsers
    ensures out.response.roomId == Some(repo[key].roomId)
    ensures out.response.activeUsers == Some(out.state[key].activeUsers)
    ensures out.response.currentCode == Some(repo[key].currentCode)
    ensures out.response.currentLanguage == Some(repo[key].currentLanguage)
    ensures RepoInvariant(repo) ==> RepoInvariant(out.state)
  {
    var room := AddUser(repo[key], user, now);
    PutKeepsInvariant(repo, key, room);
    Handled(
      RoomResponse(true, JOINED, Some(room.roomId), None, Some(room.name),
                   Some(room.creatorUsername), Some(room.activeUsers), Some(room.currentCode),
                   Some(room.currentLanguage)),
      repo[key := room])
  }

  /** `createRoom` checks, in order: the name, then the password, then the creator. */
  lemma CreateRoomRejections(repo: Repo, req: CreateRoomRequest, roomId: string, now: Instant)
    requires IsRoomId(roomId) && roomId !in repo
    ensures var out := CreateRoom(repo, req, roomId, now);
      && (MissingOrBlank(req.name) ==> out.response == Rejected(NAME_REQUIRED))
      && (!MissingOrBlank(req.name) && PasswordTooShort(req.password) ==>
            out.response == Rejected(PASSWORD_TOO_SHORT))
      && (!MissingOrBlank(req.name) && !PasswordTooShort(req.password) && MissingOrBlank(req.creatorUsername) ==>
            out.response == Rejected(CREATOR_REQUIRED))
  {
  }

  /**
   * A successful `createRoom` stores, under the fresh id, a room with the
   * trimmed name, the trimmed creator as its only member, the password as
   * given and the default buffer, and hands the password back to the creator.
   */
  lemma CreateRoomStores(repo: Repo, req: CreateRoomRequest, roomId: string, now: Instant)
    requires IsRoomId(roomId) && roomId !in repo
    requires CreateRequestValid(req)
    ensures var out := CreateRoom(repo, req, roomId, now);
      var room := out.state[roomId];
      && roomId in out.state
      && (forall k :: k in repo ==> out.state[k] == repo[k])
      && room.roomId == roomId
      && room.name == JavaTrim(req.name.value)
      && room.creatorUsername == JavaTrim(req.creatorUsername.value)
      && room.activeUsers == [JavaTrim(req.creatorUsername.value)]
      && room.password == req.password.value
      && room.currentCode == "" && room.currentLanguage == "javascript" && room.isActive
      && out.response.roomId == Some(roomId)
      && out.response.password == Some(req.password.value)
      && out.response.activeUsers == Some(room.activeUsers)
  {
    assert CreateRoom(repo, req, roomId, now)
        == Establish(repo, roomId, req.password.value, JavaTrim(req.name.value),
                     JavaTrim(req.creatorUsername.value), now);
  }

  /**
   * `joinRoom` checks, in order: room id, password and username present,
   * then the room exists, then it is active, then the password matches.
   */
  lemma JoinRoomRejections(repo: Repo, req: JoinRoomRequest, now: Instant)
    ensures var out := JoinRoom(repo, req, now);
      && (MissingOrBlank(req.roomId) ==> out.response == Rejected(ROOM_ID_REQUIRED))
      && (!MissingOrBlank(req.roomId) && MissingOrEmpty(req.password) ==>
            out.response == Rejected(PASSWORD_REQUIRED))
      && (!MissingOrBlank(req.roomId) && !MissingOrEmpty(req.password) && MissingOrBlank(req.username) ==>
            out.response == Rejected(USERNAME_REQUIRED))
      && (JoinRequestValid(req) && RoomKey(req.roomId.value) !in repo ==>
            out.response == Rejected(ROOM_NOT_FOUND))
      && (JoinRequestValid(req) && RoomKey(req.roomId.value) in repo
          && !repo[RoomKey(req.roomId.value)].isActive ==>
            out.response == Rejected(ROOM_INACTIVE))
      && (JoinRequestValid(req) && RoomKey(req.roomId.value) in repo
          && repo[RoomKey(req.roomId.value)].isActive
          && repo[RoomKey(req.roomId.value)].password != req.password.value ==>
            out.response == Rejected(INVALID_PASSWORD))
  {
  }

  /**
   * A successful `joinRoom` adds the trimmed username to the looked-up room
   * (idempotently), touches no other room and answers with the room's
   * current buffer and language but no password.
   */
  lemma JoinRoomAdmits(repo: Repo, req: JoinRoomRequest, now: Instant)
    requires JoinAdmitted(repo, req)
    ensures var out := JoinRoom(repo, req, now);
      var key := RoomKey(req.roomId.value);
      var user := JavaTrim(req.username.value);
      && (forall k :: k in repo && k != key ==> out.state[k] == repo[k])
      && out.state[key] == AddUser(repo[key], user, now)
      && user in out.state[key].activeUsers
      && out.response.roomId == Some(repo[key].roomId)
      && out.response.activeUsers == Some(out.state[key].activeUsers)
      && out.response.currentCode == Some(repo[key].currentCode)
      && out.response.currentLanguage == Some(repo[key].currentLanguage)
  {
    assert JoinRoom(repo, req, now) == Admit(repo, RoomKey(req.roomId.value), JavaTrim(req.username.value), now);
  }

  /** `leaveRoom`: the name is removed exactly as given; the raw room id is echoed. */
  function LeaveRoom(repo: Repo, roomId: string, username: string, now: Instant)
    : (out: Handled<RoomResponse, Repo>)
    ensures RoomKey(roomId) !in repo ==> out.response == Rejected(ROOM_NOT_FOUND) && out.state == repo
    ensures RoomKey(roomId) in repo ==>
      && out.response == RoomResponse(true, LEFT, Some(roomId), None, None, None, None, None, None)
      && (forall k :: k in out.state <==> k in repo)
      && (forall k :: k in repo && k != RoomKey(roomId) ==> out.state[k] == repo[k])
      && out.state[RoomKey(roomId)] == RemoveUser(repo[RoomKey(roomId)], username, now)
    ensures RepoInvariant(repo) && RoomKey(roomId) in repo ==>
      username !in out.state[RoomKey(roomId)].activeUsers
    ensures RepoInvariant(repo) ==> RepoInvariant(out.state)
  {
    var key := RoomKey(roomId);
    if key !in repo then
      Handled(Rejected(ROOM_NOT_FOUND), repo)
    else
      var room := RemoveUser(repo[key], username, now);
      PutKeepsInvariant(repo, key, room);
      Handled(
        RoomResponse(true, LEFT, Some(roomId), None, None, None, None, None, None),
        repo[key := room])
  }

  /** `updateRoomCode`: overwrite the buffer and language of an existing room; otherwise do nothing. */
  function UpdateRoomCode(repo: Repo, roomId: string, code: string, language: string): (r: Repo)
    ensures forall k :: k in r <==> k in repo
    ensures forall k :: k in repo && k != RoomKey(roomId) ==> r[k] == repo[k]
    ensures RoomKey(roomId) in repo ==>
      && r[RoomKey(roomId)].currentCode == code
      && r[RoomKey(roomId)].currentLanguage == language
      && r[RoomKey(roomId)].(currentCode := repo[RoomKey(roomId)].currentCode,
                             currentLanguage := repo[RoomKey(roomId)].currentLanguage) == repo[RoomKey(roomId)]
    ensures RoomKey(roomId) !in repo ==> r == repo
    ensures RepoInvariant(repo) ==> RepoInvariant(r)
  {
    var key := RoomKey(roomId);
    if key in repo then
      PutKeepsInvariant(repo, key, repo[key].(currentCode := code, currentLanguage := language));
      repo[key := repo[key].(currentCode := code, currentLanguage := language)]
    else
      repo
  }

  /** `getRoomById`. */
  function GetRoomById(repo: Repo, roomId: string): (r: Option<Room>)
    ensures r.Some? <==> RoomKey(roomId) in repo
    ensures r.Some? ==> r.value == repo[RoomKey(roomId)]
  {
    var key := RoomKey(roomId);
    if key in repo then Some(repo[key]) else None
  }

  /** Last writer wins: a second update to the same room completely hides the first. */
  lemma LastWriterWins(repo: Repo, roomId: string, c1: string, l1: string, c2: string, l2: string)
    ensures UpdateRoomCode(UpdateRoomCode(repo, roomId, c1, l1), roomId, c2, l2)
         == UpdateRoomCode(repo, roomId, c2, l2)
  {
  }

  /** Joining again with the same request leaves the membership as the first join left it. */
  lemma JoinIdempotent(repo: Repo, req: JoinRoomRequest, t1: Instant, t2: Instant)
    requires JoinAdmitted(repo, req)
    ensures var once := JoinRoom(repo, req, t1).state;
      var twice := JoinRoom(once, req, t2).state;
      twice[RoomKey(req.roomId.value)].activeUsers == once[RoomKey(req.roomId.value)].activeUsers
  {
    var once := JoinRoom(repo, req, t1).state;
    assert JoinAdmitted(once, req);
  }

  /**
   * Create-then-join round trip: after alice creates a room and bob joins it
   * with the password she chose, the room has exactly the two of them, in
   * join order, and bob is shown the room's current buffer.
   */
  lemma CreateThenJoin(repo: Repo, create: CreateRoomRequest, roomId: string, bob: string, t1: Instant, t2: Instant)
    requires IsRoomId(roomId) && roomId !in repo
    requires CreateRequestValid(create)
    requires !IsBlank(bob) && JavaTrim(bob) != JavaTrim(create.creatorUsername.value)
    ensures var created := CreateRoom(repo, create, roomId, t1).state;
      var joined := JoinRoom(created, JoinRoomRequest(Some(roomId), create.password, Some(bob)), t2);
      && joined.response.success
      && joined.state[roomId].activeUsers == [JavaTrim(create.creatorUsername.value)] + [JavaTrim(bob)]
      && joined.response.currentCode == Some(created[roomId].currentCode)
  {
    var created := CreateRoom(repo, create, roomId, t1).state;
    var req := JoinRoomRequest(Some(roomId), create.password, Some(bob));
    CreatedRoomAdmits(repo, create, roomId, bob, t1);
    JoinRoomAdmits(created, req, t2);
  }

  /** The room `createRoom` just stored admits a join under its own id and password. */
  lemma CreatedRoomAdmits(repo: Repo, create: CreateRoomRequest, roomId: string, bob: string, t1: Instant)
    requires IsRoomId(roomId) && roomId !in repo
    requires CreateRequestValid(create)
    requires !IsBlank(bob)
    ensures var created := CreateRoom(repo, create, roomId, t1).state;
      && RoomKey(roomId) == roomId
      && JoinAdmitted(created, JoinRoomRequest(Some(roomId), create.password, Some(bob)))
      && created[roomId].activeUsers == [JavaTrim(create.creatorUsername.value)]
  {
    RoomKeyOfRoomId(roomId);
    CreateRoomStores(repo, create, roomId, t1);
  }
}
