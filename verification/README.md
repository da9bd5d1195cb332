# CodeCollab, modelled in Dafny

CodeCollab is a collaborative coding web application: a Spring Boot server
with MongoDB storage and a STOMP-over-WebSocket broker, and plain JavaScript
pages in the browser. This project models its core as pure Dafny functions
and proves what the code promises about it. The core is:

- the password-protected rooms: the `Room` document, creating, joining and
  leaving a room, updating its shared buffer, and the REST endpoints that
  put HTTP statuses on those answers;
- accounts: registration and login, with usernames normalised to trimmed
  lower case;
- the real-time layer:
  - the scoped chat and code-sync endpoints;
  - the older un-scoped endpoints;
  - the disconnect listener;
  - how the simple broker delivers a frame to its subscribers;
- solutions to coding problems: the store, and the endpoints with their
  author checks;
- the table of running interactive programs;
- the browser pages:
  - sign-in and registration;
  - create room and join room;
  - the shared editor, as an event-driven state machine with its 500 ms
    debounce;
  - the stand-alone compiler page;
  - the learning-resources page.

How things are modelled:

- A request handler is a function from the current state and the request to
  a `Handled(response, state)` pair.
- The repositories are maps. The user collection is a sequence, so that
  two documents with one username can be represented: `findByUsername`
  then fails with an exception instead of answering.
- A Java `null` or a missing JSON field is an `Option`.
- Clocks, random draws and database-assigned ids are parameters.
- A page is a function from its inputs (storage, form fields, the fetch
  answer) to what it shows and what it stores.
- The shared editor is a `Step` function folded over a sequence of events.

Each module follows one source file. `Text` holds both trimming functions:
Java's `String.trim` strips every character up to U+0020, and JavaScript's
`String.prototype.trim` strips its own whitespace set. `Browser` holds what
the pages share: `sessionStorage`, `encodeURIComponent`, truthiness and the
address of the shared-editor page. `Topics` holds the broker's destinations
and the delivery rule.

The model has two findings, described under "## Findings":

- Registration checks for an existing user under the name as typed, but
  stores the user under the normalised name.
- The shared-editor page sends code frames without a room, so the server
  relays them to `/topic/code/null`, which no page subscribes to.

## Model

| member | source | states |
|---|---|---|
| RoomEntity.NewRoom | src/main/java/com/codecollab/source/entity/Room.java:34-55 | A new room has the given id, password, name and creator. It has no members, an empty buffer and language "javascript", is active, and is created and last active now. |
| RoomEntity.AddUser | src/main/java/com/codecollab/source/entity/Room.java:57-62 | The user becomes a member. An existing member is not added twice; a new one is appended after the earlier members. Membership is exactly the old members plus the user, and a list without duplicates stays without duplicates. Only the member list and the activity stamp change. |
| RoomEntity.RemoveUser | src/main/java/com/codecollab/source/entity/Room.java:64-67 | The new member multiset is the old one minus one copy of the name. Other members stay. With no duplicates, the user is gone and the list stays duplicate-free. A non-member leaves the list unchanged. Only the members and the activity stamp change. |
| RoomEntity.AddUserIdempotent | src/main/java/com/codecollab/source/entity/Room.java:57-62 | Adding a member twice equals adding it once. |
| RoomEntity.AddThenRemove | src/main/java/com/codecollab/source/entity/Room.java:57-67 | Removing a user who was just added restores the original member list. |
| RoomService.GenerateRoomId | src/main/java/com/codecollab/source/service/RoomService.java:19-20 | An id is six characters. Each character is the alphabet entry chosen by the corresponding random draw. |
| RoomService.GenerateRoomIdOnto | src/main/java/com/codecollab/source/service/RoomService.java:154-160 | Every six-character string over the 32-character alphabet is produced by some sequence of draws. |
| RoomService.RoomIdAlphabet | src/main/java/com/codecollab/source/service/RoomService.java:19 | The alphabet is exactly A-Z without I and O, plus 2-9, so it has no look-alike characters. |
| RoomService.GenerateUniqueRoomId | src/main/java/com/codecollab/source/service/RoomService.java:146-152 | The id returned is a well-formed id not in the repository. It is the first candidate not already taken. If no candidate is returned, every one drawn was taken. |
| RoomService.RoomKeyOfRoomId | src/main/java/com/codecollab/source/service/RoomService.java:82 | A generated id is already in the upper-cased, trimmed form rooms are looked up under. It is not blank. Its lower-case spelling looks up the same room. |
| RoomService.CreateRoom | src/main/java/com/codecollab/source/service/RoomService.java:23-65 | Creation succeeds iff the name and creator are not blank and the password has at least 4 characters. A failure changes nothing and returns no password. A success adds exactly the new id. The repository invariant is kept: every room is stored under its own id, with no duplicate member. |
| RoomService.Establish | src/main/java/com/codecollab/source/service/RoomService.java:37-64 | The new room is stored under the fresh id with the given password, the trimmed name and the creator as its only member. It has the default buffer and is active. Other rooms are untouched. The answer carries the id, the password and the member list. |
| RoomService.CreateRoomRejections | src/main/java/com/codecollab/source/service/RoomService.java:25-35 | The rejections come in source order: name required, then password too short, then creator required. Each has its exact message. |
| RoomService.CreateRoomStores | src/main/java/com/codecollab/source/service/RoomService.java:37-64 | A successful creation stores, under the fresh id: the trimmed name, the password as given, the trimmed creator as the only member, an empty buffer and "javascript". The password is handed back to the creator. |
| RoomService.JoinRoom | src/main/java/com/codecollab/source/service/RoomService.java:67-115 | A join succeeds iff all of these hold: the id, password and username are present; the upper-cased, trimmed id names a stored room; the room is active; the password matches exactly. No room is ever created or deleted. A failure changes nothing. No answer carries the password. The invariant is kept. |
| RoomService.Admit | src/main/java/com/codecollab/source/service/RoomService.java:100-114 | The looked-up room gains the trimmed username, idempotently. No other room changes. The answer shows the room's current buffer and language, without its password. |
| RoomService.JoinRoomRejections | src/main/java/com/codecollab/source/service/RoomService.java:69-98 | The rejections come in source order, each with its exact message: missing id, missing password, missing username, room not found, room inactive, wrong password. |
| RoomService.JoinRoomAdmits | src/main/java/com/codecollab/source/service/RoomService.java:100-114 | An admitted join adds the trimmed user to that room only. It answers with the room's buffer, language and member list. |
| RoomService.LeaveRoom | src/main/java/com/codecollab/source/service/RoomService.java:117-129 | An unknown room gives "Room not found" and no change. Otherwise exactly that room loses the user, and the raw room id is echoed back. Under the invariant the user is no longer a member. |
| RoomService.UpdateRoomCode | src/main/java/com/codecollab/source/service/RoomService.java:131-140 | For an existing room, only its buffer and language change. An unknown room leaves the repository unchanged. |
| RoomService.GetRoomById | src/main/java/com/codecollab/source/service/RoomService.java:142-144 | The lookup is by the upper-cased, trimmed id. It finds a room iff one is stored under that key. |
| RoomService.LastWriterWins | src/main/java/com/codecollab/source/service/RoomService.java:131-140 | A second buffer update completely hides the first. |
| RoomService.JoinIdempotent | src/main/java/com/codecollab/source/service/RoomService.java:100-102 | Joining again with the same request leaves the member list as the first join left it. |
| RoomService.CreateThenJoin | src/main/java/com/codecollab/source/service/RoomService.java:23-115 | After a creation, a second user joining with the room's id and password succeeds. The room then holds the creator and that user, in join order. |
| RoomService.CreatedRoomAdmits | src/main/java/com/codecollab/source/service/RoomService.java:82-98 | A room just created passes every check of a join that uses its own id and password. |
| RoomController.CreateRoom | src/main/java/com/codecollab/source/controller/RoomController.java:26-38 | The answer is 401 iff the creator is null or empty, and then nothing changes. It is 200 iff the service's checks pass. The status is always 200, 400 or 401, and 200 and 400 carry the service's answer. |
| RoomController.ValidCreateAnswers | src/main/java/com/codecollab/source/controller/RoomController.java:33-35 | A valid request is answered 200 with the new room's id and password. |
| RoomController.BlankCreatorIsBadRequest | src/main/java/com/codecollab/source/controller/RoomController.java:29-37 | A creator made only of spaces passes the 401 check and gets 400 "Creator username is required". |
| RoomController.JoinRoom | src/main/java/com/codecollab/source/controller/RoomController.java:44-56 | The answer is 401 iff the username is null or empty, and 200 iff the service admits the join. Any answer other than 200 changes nothing. No answer carries a password. |
| RoomController.LeaveRoom | src/main/java/com/codecollab/source/controller/RoomController.java:61-65 | The answer is always 200. The body says success iff the room exists. |
| RoomController.GetRoom | src/main/java/com/codecollab/source/controller/RoomController.java:71-92 | The answer is 404 with no body iff the room is unknown. Otherwise it shows the stored room's id, name, members, buffer and language, with no password. |
| RoomController.GetRoomUsersCount | src/main/java/com/codecollab/source/controller/RoomController.java:98-111 | The answer is 404 iff the room is unknown. Otherwise it carries the member list, and the count equals the list's length. |
| RoomController.PasswordNeverLeaks | src/main/java/com/codecollab/source/controller/RoomController.java:44-92 | Neither the room lookup nor a join answer ever carries a password. |
| RoomController.JoinThenCount | src/main/java/com/codecollab/source/controller/RoomController.java:44-111 | After a 200 join, the users-count lists the joining user. The count grew by one exactly when the user was new. |
| UserService.Normalize | src/main/java/com/codecollab/source/service/UserService.java:42 | The normal form is never longer than the typed name. It is empty exactly when the name is blank. |
| UserService.IndexOf | src/main/java/com/codecollab/source/service/UserService.java:69 | Gives the position of the first user with exactly this username, and finds none iff no such user exists. |
| UserService.FindByUsername | src/main/java/com/codecollab/source/service/UserService.java:95-97 | The lookup by the normalised name has three outcomes. Missing iff no user has the name. Duplicated iff two users have it, where the single-result query throws. Otherwise the one user with that name, at an index no other user shares. With unique usernames it is never Duplicated. |
| UserService.DisplayName | src/main/java/com/codecollab/source/service/UserService.java:36-39 | The stored display name has no whitespace at either end, and is non-empty whenever the username is not blank. |
| UserService.NewUser | src/main/java/com/codecollab/source/service/UserService.java:41-45 | The stored user has the normalised username, the password verbatim, the assigned id and no last login. |
| UserService.RegisterAsWritten | src/main/java/com/codecollab/source/service/UserService.java:20-56 | As written: registration succeeds iff no user is stored under the name exactly as typed and the fields are valid. A success appends the new user; a failure changes nothing. |
| UserService.RegisterAsWrittenDuplicates | src/main/java/com/codecollab/source/service/UserService.java:22-45 | With "alice" stored, registering "Alice" succeeds, and the collection then has two users named "alice". |
| UserService.DuplicateBreaksLogin | src/main/java/com/codecollab/source/service/UserService.java:69 | After the duplicate registration, logging in as "alice" with any non-empty password ends in a server error, so neither account can sign in. |
| UserService.Register | src/main/java/com/codecollab/source/service/UserService.java:20-56 | Corrected: the existence check uses the normalised name. Registration succeeds iff that name is free and the fields are valid. A success appends the new user, a failure changes nothing, and usernames stay unique. |
| UserService.RegisterRejections | src/main/java/com/codecollab/source/service/UserService.java:22-33 | The rejections come in source order: name taken, username required, password too short. Each has its exact message. |
| UserService.RegisterStores | src/main/java/com/codecollab/source/service/UserService.java:36-55 | The new user has the normalised name and the password verbatim. The display name is the trimmed display name, or the trimmed raw username when none is given or it is blank. The answer carries the id and the username. |
| UserService.Login | src/main/java/com/codecollab/source/service/UserService.java:58-93 | With valid fields and two users under the normalised name, the request fails with a server error and no answer. With unique usernames there is always an answer. Login succeeds iff the fields are valid, exactly one user has the normalised name and the password matches exactly. Only a success changes anything: it stamps that user's last login, and the answer carries that user's id and username. |
| UserService.LoginRejections | src/main/java/com/codecollab/source/service/UserService.java:60-80 | The rejections come in source order, each with its exact message: username required, password required, user not found, invalid password. |
| UserService.RegisterThenLogin | src/main/java/com/codecollab/source/service/UserService.java:20-93 | After a registration, logging in with the same password and the name in any case, with any surrounding spaces, succeeds as the new user. |
| SolutionService.GetSolutionById | src/main/java/com/codecollab/source/service/SolutionService.java:57-59 | Finds a solution iff one is stored under the id. |
| SolutionService.CreateSolution | src/main/java/com/codecollab/source/service/SolutionService.java:25-45 | The new solution has the request's fields and is not accepted, and it is stored under the fresh id. Its id is appended to its problem's list only when that problem exists. Nothing else changes. |
| SolutionService.CreateKeepsValid | src/main/java/com/codecollab/source/service/SolutionService.java:25-45 | Creating a solution keeps the store consistent: ids match, the lists are duplicate-free, and lists and documents agree. |
| SolutionService.UpdateSolution | src/main/java/com/codecollab/source/service/SolutionService.java:71-81 | The result is null iff the solution is absent, and then nothing changes. Otherwise only the title, content and update time change. |
| SolutionService.MarkAsAccepted | src/main/java/com/codecollab/source/service/SolutionService.java:86-95 | The result is null iff the solution is absent. Otherwise only the accepted flag, now set, and the update time change. |
| SolutionService.AcceptIdempotent | src/main/java/com/codecollab/source/service/SolutionService.java:86-95 | Accepting twice is accepting once with the later time. |
| SolutionService.DeleteSolution | src/main/java/com/codecollab/source/service/SolutionService.java:100-117 | The result is true iff the solution existed. Afterwards the id is gone and every other solution is unchanged. The owning problem's list loses the first occurrence of the document's id, and every other problem's list is unchanged. |
| SolutionService.DeleteKeepsValid | src/main/java/com/codecollab/source/service/SolutionService.java:100-117 | Deletion keeps the store consistent, and afterwards no problem lists the deleted id. |
| SolutionService.UnlistKeepsValid | src/main/java/com/codecollab/source/service/SolutionService.java:105-113 | Dropping the document and taking its id off its problem's list keeps the store consistent. |
| SolutionService.EditKeepsValid | src/main/java/com/codecollab/source/service/SolutionService.java:71-95 | Update and accept keep the store consistent. |
| SolutionService.CreateThenDelete | src/main/java/com/codecollab/source/service/SolutionService.java:25-117 | Creating a solution and then deleting it returns true and restores the store exactly. |
| SolutionService.UnlistRestores | src/main/java/com/codecollab/source/service/SolutionService.java:40-41 | Appending a fresh id to a problem's list and then removing it restores the list. |
| SolutionService.CreateThenGet | src/main/java/com/codecollab/source/service/SolutionService.java:25-59 | A solution just created is found under its new id. Every other lookup answers as before. |
| SolutionService.DeleteThenGet | src/main/java/com/codecollab/source/service/SolutionService.java:57-117 | A deleted solution is no longer found. Every other lookup answers as before. |
| SolutionController.CreateSolution | src/main/java/com/codecollab/source/controller/SolutionController.java:30-40 | The answer is 200 iff the username and user id are both non-empty. Otherwise it is 400 with no change. A 200 shows the stored solution. |
| SolutionController.UpdateSolution | src/main/java/com/codecollab/source/controller/SolutionController.java:80-98 | Possible answers: 404 for an unknown id; 500 for a null stored author; 403 when the author differs; otherwise 200 with the service's edit. Anything but 200 changes nothing. |
| SolutionController.MarkAsAccepted | src/main/java/com/codecollab/source/controller/SolutionController.java:104-116 | The answer is 404 iff the id is unknown, otherwise 200 with the service's acceptance. |
| SolutionController.AcceptIgnoresCaller | src/main/java/com/codecollab/source/controller/SolutionController.java:104-116 | Acceptance is the same whoever asks: the caller's user id is never checked. |
| SolutionController.DeleteSolution | src/main/java/com/codecollab/source/controller/SolutionController.java:122-142 | Possible answers: 404 for an unknown id; 500 for a null author; 403 for another user; otherwise 200 after the service deletes. The 400 branch is unreachable. Anything but 200 changes nothing. |
| SolutionController.EndpointsKeepAuthored | src/main/java/com/codecollab/source/controller/SolutionController.java:30-142 | Through the endpoints every solution keeps a non-empty author id, so the 500 never occurs. |
| SolutionController.OnlyAuthorEdits | src/main/java/com/codecollab/source/controller/SolutionController.java:90-135 | For anyone but the author, update and delete leave the store as it was. |
| ProcessManager.EmptyValid | src/main/java/com/codecollab/source/service/manager/ProcessManager.java:13-14 | The empty table is consistent. |
| ProcessManager.GetProcess | src/main/java/com/codecollab/source/service/manager/ProcessManager.java:21-23 | Finds a process iff one is registered for the session. |
| ProcessManager.GetOutputStream | src/main/java/com/codecollab/source/service/manager/ProcessManager.java:25-27 | Finds a stream iff one is registered for the session. |
| ProcessManager.AddProcess | src/main/java/com/codecollab/source/service/manager/ProcessManager.java:16-19 | The session then maps to the process and to its standard input. Other sessions are unaffected, and the two maps stay in step. |
| ProcessManager.RemoveProcess | src/main/java/com/codecollab/source/service/manager/ProcessManager.java:29-35 | Both entries are gone and other sessions are unaffected. The removed process is destroyed iff it was still alive. |
| ProcessManager.RemoveUnknown | src/main/java/com/codecollab/source/service/manager/ProcessManager.java:29-35 | Removing an unknown session changes nothing and destroys nothing. |
| ProcessManager.AddThenRemove | src/main/java/com/codecollab/source/service/manager/ProcessManager.java:16-35 | Adding a process for a new session and then removing it restores the table, and destroys the process if it is alive. |
| ProcessManager.AddReplaces | src/main/java/com/codecollab/source/service/manager/ProcessManager.java:16-19 | A second registration for one session replaces the first. |
| Messages.PutAttribute | src/main/java/com/codecollab/source/controller/ChatController.java:54-55 | Writing a value sets that key and no other. Writing null fails, as the concurrent attribute map throws on a null value. |
| Messages.PutThenGet | src/main/java/com/codecollab/source/controller/ChatMessageController.java:70-71 | A write fails iff its value is null. A written value reads back, and other keys read as before. |
| Topics.RoomTopicsInjective | src/main/java/com/codecollab/source/controller/ChatController.java:41 | Two rooms share a chat topic, or a code topic, iff they are the same room. |
| Topics.TopicsDisjoint | src/main/java/com/codecollab/source/controller/CodeSyncController.java:43 | A chat topic is never a code topic, and neither is "/topic/public". |
| Topics.LegacyRoomTopicReachesChat | src/main/java/com/codecollab/source/controller/ChatMessageController.java:45-49 | A frame room id of r + "/chat" yields room r's chat topic. |
| Topics.Recipients | src/main/java/com/codecollab/source/config/WebSocketConfig.java:28 | A frame reaches exactly the connections subscribed to its destination. |
| Topics.RoomIsolation | src/main/java/com/codecollab/source/controller/ChatController.java:41-70 | A connection following only room b never receives a frame of another room's topics. |
| Topics.RoomDelivery | src/main/java/com/codecollab/source/controller/CodeSyncController.java:43 | A connection following room b receives every frame on that room's topics. |
| ChatController.SendMessage | src/main/java/com/codecollab/source/controller/ChatController.java:34-42 | The frame goes to the room's chat topic, stamped with the path's room id and otherwise unchanged. It is stored iff its type is CHAT. |
| ChatController.AddUser | src/main/java/com/codecollab/source/controller/ChatController.java:49-59 | A JOIN is sent iff the sender is non-null. With a null sender the handler fails and the session is unchanged. Otherwise the session remembers the sender and the room, with no other change, and the JOIN goes to the room's chat topic. |
| ChatController.LeaveRoom | src/main/java/com/codecollab/source/controller/ChatController.java:66-71 | A LEAVE is announced on the room's chat topic. |
| ChatController.ChatStaysInRoom | src/main/java/com/codecollab/source/controller/ChatController.java:34-71 | All three handlers of a room publish to the same topic, which never reaches followers of other rooms. |
| ChatMessageController.SendMessage | src/main/java/com/codecollab/source/controller/ChatMessageController.java:25-37 | The frame goes to "/topic/public" as CHAT and is otherwise unchanged. |
| ChatMessageController.SendRoomMessage | src/main/java/com/codecollab/source/controller/ChatMessageController.java:39-51 | The frame goes to "/topic/room/" + the frame's room id, so a null room id gives "/topic/room/null". It goes out as CHAT. |
| ChatMessageController.AddUser | src/main/java/com/codecollab/source/controller/ChatMessageController.java:53-63 | A JOIN is sent iff the sender is non-null. With a null sender nothing changes. Otherwise the session remembers only the sender, and a JOIN goes to "/topic/public". |
| ChatMessageController.AddRoomUser | src/main/java/com/codecollab/source/controller/ChatMessageController.java:65-79 | With a null sender nothing is sent and nothing changes. With a null room id the sender is already stored, the room attribute is unchanged and nothing is sent. Otherwise the session remembers both, and a JOIN goes to that room's legacy topic. |
| ChatMessageController.SyncCode | src/main/java/com/codecollab/source/controller/ChatMessageController.java:82-92 | The unchanged frame goes to "/topic/code/" + the frame's room id, so a null room id gives "/topic/code/null". |
| ChatMessageController.LegacyRoomMessageCrossesIntoRoomChat | src/main/java/com/codecollab/source/controller/ChatMessageController.java:45-49 | A legacy room message whose room id is r + "/chat" reaches followers of room r's scoped chat. |
| CodeSyncController.Stamped | src/main/java/com/codecollab/source/controller/CodeSyncController.java:35 | The path's room id replaces the frame's room id, and nothing else changes. |
| CodeSyncController.SyncCode | src/main/java/com/codecollab/source/controller/CodeSyncController.java:33-44 | The stamped frame always goes to the room's code topic. The room is written iff the type is UPDATE. |
| CodeSyncController.LastUpdate | src/main/java/com/codecollab/source/controller/CodeSyncController.java:38 | Gives an UPDATE frame of the stream that no later frame of the stream supersedes. Gives none iff the stream has no UPDATE. |
| CodeSyncController.ReplayBroadcastsEach | src/main/java/com/codecollab/source/controller/CodeSyncController.java:43 | Over a stream, each frame is broadcast once, in order, on the room's code topic. |
| CodeSyncController.ReplayLastUpdateWins | src/main/java/com/codecollab/source/controller/CodeSyncController.java:37-40 | The stored buffer and language come from the last UPDATE frame. Other frame types and other rooms stay unchanged. |
| CodeSyncController.SyncDelivery | src/main/java/com/codecollab/source/controller/CodeSyncController.java:43 | A code frame reaches every subscriber of its room's code topic, the sender included. It never reaches followers of another room. |
| WebSocketEventListener.OnDisconnect | src/main/java/com/codecollab/source/listener/WebSocketEventListener.java:27-41 | With no stored username nothing is sent. Otherwise a single LEAVE from that user, with no content or room, goes to "/topic/public". |
| WebSocketEventListener.JoinedThenDisconnected | src/main/java/com/codecollab/source/listener/WebSocketEventListener.java:31-39 | A user who joined through the scoped endpoint and then disconnects is announced only on the public topic. Followers of the room never see the LEAVE. |
| WebSocketEventListener.PublicJoinThenDisconnected | src/main/java/com/codecollab/source/listener/WebSocketEventListener.java:27-41 | A user who joined through the public endpoint and then disconnects is announced once, by name, on "/topic/public". |
| WebSocketEventListener.NullSenderLeavesSilently | src/main/java/com/codecollab/source/listener/WebSocketEventListener.java:27-41 | On a connection that has stored no username, a join with a null sender stores none. The later disconnect then sends nothing, whichever of the three join endpoints was used. |
| WebSocketEventListener.UnannouncedRoomJoinStillLeaves | src/main/java/com/codecollab/source/controller/ChatMessageController.java:65-79 | A legacy room join with a null room id announces nothing, yet the later disconnect sends a LEAVE for the sender. |
| Text.Trim | src/main/java/com/codecollab/source/service/RoomService.java:25 | The result is the input with a leading and a trailing run of whitespace removed, and has no whitespace at either end. It is empty iff the input is all whitespace. |
| Text.TrimIdempotent | src/main/java/com/codecollab/source/service/UserService.java:42 | Trimming twice is trimming once. |
| Text.UpperMapsLetters | src/main/java/com/codecollab/source/service/RoomService.java:82 | Upper-casing keeps the length and leaves no lower-case letter. Each lower-case letter becomes its capital, and every other character is kept. |
| Text.UpperIdempotent | src/main/java/com/codecollab/source/service/RoomService.java:82 | Upper-casing twice is upper-casing once. |
| Text.LowerOfUpper | src/main/java/com/codecollab/source/service/UserService.java:42 | Lower-casing an upper-cased string is lower-casing the original. |
| RoomService.RoomKey | src/main/java/com/codecollab/source/service/RoomService.java:82 | The key a room is looked up by: the id upper-cased, then trimmed as Java trims. |
| RoomService.RoomKeyNormal | src/main/java/com/codecollab/source/service/RoomService.java:82 | A lookup key has no lower-case letter and no whitespace at either end. Normalising it again changes nothing. |
| Topics.RoomChatTopic | src/main/java/com/codecollab/source/controller/ChatController.java:41 | The room's chat topic, "/topic/room/" + room id + "/chat". |
| Topics.RoomCodeTopic | src/main/java/com/codecollab/source/controller/CodeSyncController.java:43 | The room's code topic, "/topic/room/" + room id + "/code". |
| Topics.LegacyRoomTopic | src/main/java/com/codecollab/source/controller/ChatMessageController.java:46 | "/topic/room/" + the frame's room id, with null written as "null". |
| Topics.LegacyCodeTopic | src/main/java/com/codecollab/source/controller/ChatMessageController.java:90 | "/topic/code/" + the frame's room id, with null written as "null". |
| Browser.CollabUrl | src/main/resources/static/js/create_room.js:110 | The editor's address with the room id verbatim and the username percent-encoded, where a missing name is written as "null". |
| Browser.SetItem | src/main/resources/static/js/create_room.js:78-81 | Setting an item sets only that key, and a null value is stored as "null". |
| Browser.EncodeUriComponent | src/main/resources/static/js/create_room.js:110 | The output holds only unreserved characters and percent escapes. A string made only of unreserved characters is unchanged. |
| Browser.EncodedStaysInParameter | src/main/resources/static/js/join_room.js:68 | An encoded name never contains '&', '=', '#' or a space, so it cannot end its query parameter. |
| Browser.DecodeEncode | src/main/resources/static/js/create_room.js:110 | Decoding an encoded string, as `decodeURIComponent` does, gives the string back. |
| Browser.EncodeInjective | src/main/resources/static/js/join_room.js:68 | Two different usernames never encode alike, so the editor's address determines the name. |
| Browser.Utf8RoundTrip | src/main/resources/static/js/create_room.js:110 | The escapes of a character are its UTF-8 bytes: the leading byte gives their number, and the bytes give back the character. |
| LoginPage.SubmitLogin | src/main/resources/static/js/login.js:66-88 | The form is refused iff the trimmed username or the password is empty. Otherwise it posts the trimmed name and the password as typed. |
| LoginPage.OnLoginReply | src/main/resources/static/js/login.js:89-106 | A successful reply stores exactly the id, username and display name, with no error. Any other reply leaves storage untouched and shows the server's message, "Login failed", or the connection error. |
| LoginPage.SubmitRegister | src/main/resources/static/js/login.js:108-141 | The checks come in source order: required fields, then password length, then the confirmation matching. The form posts iff all pass, and posts the trimmed name and display name. |
| LoginPage.OnRegisterReply | src/main/resources/static/js/login.js:144-162 | The success notice is shown iff the server says success. Otherwise the page shows the server's message, the fallback or the connection error. |
| LoginPage.Logout | src/main/resources/static/js/login.js:164-167 | Logout removes the stored user, so afterwards no one is logged in. |
| LoginPage.IsLoggedIn | src/main/resources/static/js/login.js:196-199 | A user is logged in iff a user is stored and its username is truthy, that is non-null and non-empty. |
| LoginPage.RegisterThenLoginThroughPage | src/main/resources/static/js/login.js:66-162 | An accepted registration through the page, followed by a login with the same fields, succeeds as the new account and leaves the page logged in. |
| CreateRoomPage.FormOffered | src/main/resources/static/js/create_room.js:6 | The form is offered iff any user object is stored, whether or not it has a name. |
| CreateRoomPage.GateIsWeakerThanLogin | src/main/resources/static/js/create_room.js:6 | Every logged-in user is offered the form, and so is a stored user without a name, who is not logged in. |
| CreateRoomPage.SubmitCreate | src/main/resources/static/js/create_room.js:39-65 | The form posts iff the trimmed name is non-empty and the trimmed password has at least 4 characters. Each refusal shows its own message. The creator is always the stored username. |
| CreateRoomPage.OnCreateReply | src/main/resources/static/js/create_room.js:68-89 | On success, exactly the four session items are stored and the room is shown. On any other reply the session is untouched and the text, "Failed to create room." or the error message is shown. |
| CreateRoomPage.EnterRoom | src/main/resources/static/js/create_room.js:103-115 | "Enter room" opens the editor for the stored room and name iff all three items are truthy. Otherwise it alerts and goes home. |
| CreateRoomPage.EnterCreatedRoom | src/main/resources/static/js/create_room.js:78-110 | The details stored by a successful create let "enter room" through to that room. |
| CreateRoomPage.SubmittedRoomIsValid | src/main/resources/static/js/create_room.js:39-65 | For a logged-in user, a name that is not blank under Java's trim and a password of at least 4 characters after JavaScript's trim, the page posts, and the post passes every check of the server's create. |
| CreateRoomPage.ControlNamePostedButRefused | src/main/resources/static/js/create_room.js:39-65 | The page's check is weaker than the server's. A name of the single character U+0001 survives JavaScript's trim, so the page posts it, but Java's trim strips it, so the server answers "Room name is required". |
| CreateRoomPage.SubmittedRoomIsCreated | src/main/resources/static/js/create_room.js:54-75 | Such a post is answered 200 with the new id and the trimmed password. |
| CreateRoomPage.CreateThenEnter | src/main/resources/static/js/create_room.js:35-115 | End to end: the page shows the created room, and "enter room" opens the editor for exactly that room under the user's name. |
| JoinRoomPage.FormOffered | src/main/resources/static/js/join_room.js:6 | The form is offered iff any user object is stored. |
| JoinRoomPage.SubmitJoin | src/main/resources/static/js/join_room.js:35-55 | The form is refused iff the trimmed id or password is empty. Otherwise it posts the upper-cased id, the trimmed password and the stored username. |
| JoinRoomPage.OnJoinReply | src/main/resources/static/js/join_room.js:58-73 | On success the password and user id are stored and the page redirects to the editor for the room as sent. Otherwise the session is untouched and the error is shown. |
| JoinRoomPage.TypedIdIsRoomKey | src/main/resources/static/js/join_room.js:36 | An id typed in lower case with spaces is sent in the generated form, which the server looks up unchanged. |
| JoinRoomPage.SubmittedJoinAdmitted | src/main/resources/static/js/join_room.js:35-55 | The page's request for an active room, with its password, passes every check of the server's join. |
| JoinRoomPage.JoinThroughPage | src/main/resources/static/js/join_room.js:31-73 | End to end: 200 from the server, a redirect to the editor of that room, and the room's password stored. |
| ResourcesPage.CheckLoginStatus | src/main/resources/static/js/resources.js:8-32 | The page is shown iff some user is stored, and every logged-in user qualifies. |
| ResourcesPage.ResourcesRequest | src/main/resources/static/js/resources.js:35-43 | A request is made iff a user is stored, to the list URL with the user id, where null renders as "null". |
| ResourcesPage.Display | src/main/resources/static/js/resources.js:64-81 | The empty state is shown iff the list is empty; otherwise the cards are shown. |
| ResourcesPage.OnListReply | src/main/resources/static/js/resources.js:44-60 | A list replaces the cache and is displayed. A 401 changes nothing. Every other failure shows the load error, and only a list changes the cache. |
| ResourcesPage.OfCategory | src/main/resources/static/js/resources.js:98 | Keeps only resources of that category, and never lengthens the list. |
| ResourcesPage.FilterResources | src/main/resources/static/js/resources.js:94-101 | "all" keeps everything; any other category keeps exactly the resources with that category. |
| ResourcesPage.OfCategoryCounts | src/main/resources/static/js/resources.js:98 | The filter keeps each resource of the category as many times as it occurs, and drops all others. |
| ResourcesPage.OfCategoryAppend | src/main/resources/static/js/resources.js:98 | Filtering a concatenation filters each part in place, so order is kept. |
| ResourcesPage.FilterIdempotent | src/main/resources/static/js/resources.js:94-101 | Applying the same filter twice equals applying it once. |
| ResourcesPage.OfCategoryFixed | src/main/resources/static/js/resources.js:98 | A list already of one category is fixed by that category's filter. |
| ResourcesPage.FilteredEmptyState | src/main/resources/static/js/resources.js:94-101 | After filtering, the empty state is shown iff no resource has the category. |
| ResourcesPage.ListedThenAll | src/main/resources/static/js/resources.js:44-101 | After a list arrives, choosing "all" shows exactly what arrived, as cards when it is non-empty. |
| ResourcesPage.LoginThenRequest | src/main/resources/static/js/resources.js:35-43 | After a successful login the page requests the list for the id the server returned. After a failed login it requests what it requested before. |
| ResourcesPage.LogoutLocksPages | src/main/resources/static/js/resources.js:8-43 | After logout neither room form is offered, the resources page is not shown and no list is requested. A stored user without a name is not logged in, yet all three pages open for it. |
| CollabClient.CodeNeverDeliveredAsWritten | src/main/resources/static/js/collab.js:19-114 | As written: over any run of events of the page as written, every code frame it sends has no room. The server relays each one to "/topic/code/null", which no page as written subscribes to. |
| CollabClient.CodeFrame | src/main/resources/static/js/collab.js:101-114 | The frame `sendCodeUpdate` builds. As written, it holds only the sender, code and language. On the corrected page it also names the page's room. |
| CollabClient.RunFramesCarryRoom | src/main/resources/static/js/collab.js:61-182 | Over any run of events, the page keeps its room, and every code frame it sends names exactly that room, or no room as written. |
| CollabClient.CodeDelivered | src/main/resources/static/js/collab.js:26 | Corrected: over any run of events of the page of room r, every code frame it sends reaches a corrected page iff that page is of room r. |
| CollabClient.SendCodeUpdate | src/main/resources/static/js/collab.js:101-114 | Nothing is sent unless connected. Otherwise one frame goes to "/app/code.sync" carrying the buffer and language, and the page's room, which is none as written. |
| CollabClient.Step | src/main/resources/static/js/collab.js:61-182 | Input sends nothing, sets typing and takes the buffer. A timer expiry sends the buffer once. A received frame is applied iff it is not the page's own and the user is not typing. A language change sends. A chat line is sent iff it is non-empty and a client exists. Every code frame sent carries the page's room, which is none as written. |
| CollabClient.RunKeepsDebounced | src/main/resources/static/js/collab.js:164-177 | Over any run of events, the page is typing iff a timer is pending. |
| CollabClient.BurstSendsNothing | src/main/resources/static/js/collab.js:164-177 | A burst of keystrokes sends nothing and leaves the last keystroke's buffer with a pending timer. |
| CollabClient.BurstThenQuietSendsOnce | src/main/resources/static/js/collab.js:164-177 | A burst followed by 500 ms of quiet sends exactly one frame, with the last buffer and the page's room, when connected. |
| CollabClient.CodeFramesAppend | src/main/resources/static/js/collab.js:112 | Code frames of a concatenation are the sum of the code frames of its parts. |
| CollabClient.CodeFramesBounded | src/main/resources/static/js/collab.js:164-182 | Over any run, code frames sent never exceed the timer expiries plus the language changes. |
| CollabClient.TypingLocksEditor | src/main/resources/static/js/collab.js:65 | While typing, a received frame leaves the page unchanged. |
| CollabClient.ChatDelivered | src/main/resources/static/js/collab.js:82-98 | A non-empty chat line is sent once and reaches every subscriber of "/topic/public". |
| CompilerPage.DefaultCode | src/main/resources/static/js/compiler.js:3-67 | There is a starter program exactly for javascript, python, java, cpp and c. Each one is non-empty and starts with a non-space character. |
| CompilerPage.OnLanguageChange | src/main/resources/static/js/compiler.js:80-87 | The editor is overwritten with the starter program, or with "undefined" when there is none. It is never blank. |
| CompilerPage.OnRun | src/main/resources/static/js/compiler.js:90-116 | The page refuses iff the code is all whitespace. Otherwise it sends the code and language unchanged. |
| CompilerPage.StarterProgramsRun | src/main/resources/static/js/compiler.js:80-116 | Whatever language is picked, the editor's program passes the run guard. |
| CompilerPage.ShowReply | src/main/resources/static/js/compiler.js:118-132 | Non-empty output is shown verbatim, with the error style iff the reply says so. Otherwise "No output returned." is shown, or the failure notice on an exception. |
| CompilerPage.ConsoleAfterRun | src/main/resources/static/js/compiler.js:118-132 | The console is never left empty. The error style is shown iff the server is unreachable or sent non-empty output flagged as an error. Any text other than the two notices is the reply's own output. |
| CompilerPage.Substring | src/main/resources/static/js/compiler.js:154-155 | Within bounds, it is the ordinary slice. |
| CompilerPage.Tab | src/main/resources/static/js/compiler.js:147-160 | The selection is replaced by four spaces and the text around it is kept. The caret goes right after the spaces. |
| CompilerPage.TabTwice | src/main/resources/static/js/compiler.js:147-160 | Two Tabs insert eight spaces in place of the selection. |

## Left out

- Clocks, random draws and database-assigned ids are parameters (`now`, `draws`, `newId`). MongoDB's own behaviour is outside the model: a repository is a map or a sequence.
- `generateUniqueRoomId` loops until a free id comes up. The model takes a finite stream of candidates and may find none.
- The unique index on usernames is not modelled. The property that usernames stay unique is proved of the registration logic alone. Without the index, two documents can share a username, and the lookup at login then fails with an exception.
- `CompilerService`, `InteractiveCompilerController`, `CompilerController`, `FileController`, the problem and resource services and controllers, `AuthController`, `WebConfig` and `problems.js` are not part of this model.
- The read-only endpoints are not modelled: `getSolutionsByProblemId`, `getSolutionsByUsername`, the controller's list and single-solution endpoints, `getChatHistory` and `UserService.findById`. Each only queries the repository.
- `MessageService` storage is modelled only as the `SavedMessage` that `sendMessage` asks it to store.
- A `CodeSyncMessage` with a null code or language, and a solution request with a null problem id, are not modelled. The corresponding fields are plain strings.
- Messages.PutAttribute: the NullPointerException that a null attribute value raises is modelled as a failed handler, with no send and no answer. The attributes the failed handler already wrote are kept, since the map was changed before the throw.
- `Problem.java` declares no `solutionIds` field, but `SolutionService` calls `getSolutionIds()` on it. The lists are modelled as a separate map from problem id to solution ids, next to the solution documents.
- LoginPage.OnLoginReply: a login that ends in a server error is not fed to the page. The page would parse the error body, which has no success field, and show its message or "Login failed".
- String lengths count Unicode scalar values, not UTF-16 code units. Case mapping is ASCII-only for both Java and JavaScript.
- JSON encoding, DOM updates, CSS classes, modals, the clipboard, `beforeunload`, the login page's tab switching and its delayed tab change are not modelled.
- The text shown for a 400 from the room endpoints is the raw response text. The model treats it as an opaque string and does not derive it from the JSON body.
- LoginPage.OnLoginReply: a successful login reply whose message is null is not modelled, since the success branch never shows it.
- CollabClient.Step: caret restoration in `onCodeReceived`, and the select element's value for an unknown language, are not modelled.
- CollabClient.Step: the page as written keeps no room. The model's `room` field is `None` for it, and its code frames then carry no room, as `sendCodeUpdate` builds them. `Some(r)` stands for the corrected page of room r described under "## Findings". The debounce lemmas hold for both.
- Topics.Recipients: a frame reaches only subscriptions to exactly its destination. The simple broker also matches pattern subscriptions such as "/topic/room/**", which receive every room's frames, and no interceptor checks who may subscribe to a room's topics. RoomIsolation, ChatStaysInRoom and SyncDelivery are routing facts about literal subscriptions, not access control.
- Requests are handled one at a time, and every invariant is proved per request. Concurrent requests are not modelled: an add and a remove interleaved in `ProcessManager` can leave a session in one map only, and two joins or leaves that read, change and save the same `Room` can lose one update.
- Browser.DecodeUriComponent is the inverse used to state the round trip. It is not JavaScript's `decodeURIComponent` in full. It does not check that the later bytes of a run are written as `%XX` escapes, nor that they are well-formed UTF-8. JavaScript rejects both.
- Browser.JsString: a JSON field that is absent, rather than null, renders as "undefined" in JavaScript, for example in `setItem` or `encodeURIComponent`. The model renders both cases as "null".
- CompilerPage.Tab: a selection is assumed valid (0 <= start <= end <= length), as the browser guarantees. Outside that the contract says nothing.
- The resources page's category buttons are modelled through `FilterResources`, not through the DOM.

## Findings

| source | as written | input that shows it | evidently intended | confidence | as-written member | corrected member |
|---|---|---|---|---|---|---|
| src/main/java/com/codecollab/source/service/UserService.java:22 | `existsByUsername(request.getUsername())` checks the name as typed, but line 42 stores `trim().toLowerCase()` | "alice" is stored and "Alice" registers: the check misses, and a second user named "alice" is stored | The existence check uses the same normal form as the store, so usernames stay unique | high; not executed | UserService.RegisterAsWrittenDuplicates | UserService.Register |
| src/main/resources/static/js/collab.js:26 | The page subscribes to "/topic/code" and sends frames with no roomId (lines 105-109). The server relays to "/topic/code/" + roomId | Any keystroke burst: the frame is relayed to "/topic/code/null", which no page subscribes to | Code typed on one page reaches the other pages of the same room | high; not executed | CollabClient.CodeNeverDeliveredAsWritten | CollabClient.CodeDelivered |
