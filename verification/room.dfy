/** The `Room` document: a password-protected collaboration space with its shared buffer. */
module RoomEntity {
  import opened Wrappers
  import opened Seqs

  /** An opaque timestamp standing in for `LocalDateTime.now()`. */
  type Instant = int

  const DEFAULT_CODE: string := ""
  const DEFAULT_LANGUAGE: string := "javascript"

  datatype Room = Room(
    roomId: string,
    password: string,
    name: string,
    creatorId: Option<string>,
    creatorUsername: string,
    activeUsers: seq<string>,
    currentCode: string,
    currentLanguage: string,
    createdAt: Instant,
    lastActivity: Instant,
    isActive: bool)

  /** The five-argument constructor: empty membership, empty buffer, JavaScript, active. */
  function NewRoom(roomId: string, password: string, name: string, creatorId: Option<string>,
                   creatorUsername: string, now: Instant): (r: Room)
    ensures r.roomId == roomId && r.password == password && r.name == name
    ensures r.creatorId == creatorId && r.creatorUsername == creatorUsername
    ensures r.activeUsers == [] && r.currentCode == "" && r.currentLanguage == "javascript"
    ensures r.isActive
    ensures r.createdAt == now && r.lastActivity == now
  {
    Room(roomId, password, name, creatorId, creatorUsername, [], DEFAULT_CODE, DEFAULT_LANGUAGE,
         now, now, true)
  }

  /** Everything but the membership list and the activity stamp is the same. */
  predicate SameRoomExceptMembers(a: Room, b: Room) {
    a.(activeUsers := b.activeUsers, lastActivity := b.lastActivity) == b
  }

  /**
   * `addUser`: the user becomes a member; an existing member is not added
   * again, a new one is appended after everyone who joined before.
   */
  function AddUser(room: Room, username: string, now: Instant): (r: Room)
    ensures username in r.activeUsers
    ensures username in room.activeUsers ==> r.activeUsers == room.activeUsers
    ensures username !in room.activeUsers ==> r.activeUsers == room.activeUsers + [username]
    ensures forall v :: v in r.activeUsers <==> v in room.activeUsers || v == username
    ensures NoDup(room.activeUsers) ==> NoDup(r.activeUsers)
    ensures SameRoomExceptMembers(room, r) && r.lastActivity == now
  {
    if username in room.activeUsers then
      room.(lastActivity := now)
    else
      AppendFreshNoDupIf(room.activeUsers, username);
      room.(activeUsers := room.activeUsers + [username], lastActivity := now)
  }

  lemma AppendFreshNoDupIf(s: seq<string>, x: string)
    requires x !in s
    ensures NoDup(s) ==> NoDup(s + [x])
  {
    if NoDup(s) {
      AppendFreshNoDup(s, x);
    }
  }

  /**
   * `removeUser`: drops the first occurrence of the name; with no duplicates
   * the user is no longer a member, and no other member is affected.
   */
  function RemoveUser(room: Room, username: string, now: Instant): (r: Room)
    ensures username !in room.activeUsers ==> r.activeUsers == room.activeUsers
    ensures NoDup(room.activeUsers) ==> username !in r.activeUsers && NoDup(r.activeUsers)
    ensures forall v :: v != username ==> (v in r.activeUsers <==> v in room.activeUsers)
    ensures multiset(r.activeUsers) == multiset(room.activeUsers) - multiset{username}
    ensures SameRoomExceptMembers(room, r) && r.lastActivity == now
  {
    RemoveFirstNoDupIf(room.activeUsers, username);
    room.(activeUsers := RemoveFirst(room.activeUsers, username), lastActivity := now)
  }

  lemma RemoveFirstNoDupIf(s: seq<string>, x: string)
    ensures NoDup(s) ==> x !in RemoveFirst(s, x) && NoDup(RemoveFirst(s, x))
  {
    if NoDup(s) {
      RemoveFirstNoDup(s, x);
    }
  }

  /** Adding a member twice is the same as adding it once. */
  lemma AddUserIdempotent(room: Room, username: string, t1: Instant, t2: Instant)
    ensures AddUser(AddUser(room, username, t1), username, t2) == AddUser(room, username, t2)
  {
  }

  /** Removing a member that was just added restores the original membership. */
  lemma AddThenRemove(room: Room, username: string, t1: Instant, t2: Instant)
    requires username !in room.activeUsers
    ensures RemoveUser(AddUser(room, username, t1), username, t2).activeUsers == room.activeUsers
  {
    var s := room.activeUsers;
    RemoveFirstAppended(s, username);
  }
}
