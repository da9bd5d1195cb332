/**
 * The room-scoped chat endpoints. Each handler rewrites the incoming frame
 * (forcing its type and stamping the path's room id) and publishes it to
 * the room's chat topic; only plain chat lines are stored.
 */
module ChatController {
  import opened Wrappers
  import opened Messages
  import opened Topics

  /** What `messageService.saveMessage(sender, content)` is asked to store. */
  datatype SavedMessage = SavedMessage(sender: Option<string>, content: Option<string>)

  /** The effects of one `sendMessage`: at most one stored line and one broadcast. */
  datatype ChatOutcome = ChatOutcome(saved: Option<SavedMessage>, send: Send)

  /** Sender and content are carried over untouched. */
  predicate PassesThrough(msg: ChatMessage, out: Payload) {
    out.Chat? && out.chat.sender == msg.sender && out.chat.content == msg.content
  }

  /** `sendMessage(roomId, message)` on `/app/chat.sendMessage/{roomId}`. */
  function SendMessage(roomId: string, msg: ChatMessage): (out: ChatOutcome)
    ensures out.send.destination == RoomChatTopic(roomId)
    ensures PassesThrough(msg, out.send.payload)
    ensures out.send.payload.chat.roomId == Some(roomId)
    ensures out.send.payload.chat.mtype == msg.mtype
    ensures out.saved.Some? <==> msg.mtype == Some(CHAT)
    ensures out.saved.Some? ==> out.saved.value == SavedMessage(msg.sender, msg.content)
  {
    var stamped := msg.(roomId := Some(roomId));
    var saved := if msg.mtype == Some(CHAT) then Some(SavedMessage(msg.sender, msg.content)) else None;
    ChatOutcome(saved, Send(RoomChatTopic(roomId), Chat(stamped)))
  }

  /**
   * `addUser(roomId, message)` on `/app/chat.addUser/{roomId}`: remembers the
   * sender and the room in the session, then announces a JOIN in the room.
   * A null sender makes the first `put` throw, so nothing is remembered and
   * nothing is announced.
   */
  function AddUser(session: Session, roomId: string, msg: ChatMessage): (out: Handled<Option<Send>, Session>)
    ensures out.response.Some? <==> msg.sender.Some?
    ensures msg.sender.None? ==> out.state == session
    ensures msg.sender.Some? ==>
      && GetAttribute(out.state, USERNAME_ATTRIBUTE) == msg.sender
      && GetAttribute(out.state, ROOM_ID_ATTRIBUTE) == Some(roomId)
    ensures forall k :: k != USERNAME_ATTRIBUTE && k != ROOM_ID_ATTRIBUTE ==>
      GetAttribute(out.state, k) == GetAttribute(session, k)
    ensures out.response.Some? ==>
      && out.response.value.destination == RoomChatTopic(roomId)
      && PassesThrough(msg, out.response.value.payload)
      && out.response.value.payload.chat.mtype == Some(JOIN)
      && out.response.value.payload.chat.roomId == Some(roomId)
  {
    match PutAttribute(session, USERNAME_ATTRIBUTE, msg.sender)
    case None => Handled(None, session)
    case Some(s1) =>
      var s2 := PutAttribute(s1, ROOM_ID_ATTRIBUTE, Some(roomId)).value;
      Handled(Some(Send(RoomChatTopic(roomId), Chat(msg.(mtype := Some(JOIN), roomId := Some(roomId))))), s2)
  }

  /** `leaveRoom(roomId, message)` on `/app/chat.leaveRoom/{roomId}`: announce a LEAVE in the room. */
  function LeaveRoom(roomId: string, msg: ChatMessage): (out: Send)
    ensures out.destination == RoomChatTopic(roomId)
    ensures PassesThrough(msg, out.payload)
    ensures out.payload.chat.mtype == Some(LEAVE)
    ensures out.payload.chat.roomId == Some(roomId)
  {
    Send(RoomChatTopic(roomId), Chat(msg.(mtype := Some(LEAVE), roomId := Some(roomId))))
  }

  /**
   * The three handlers of one room publish to one topic, and nothing they
   * publish for room `a` reaches a connection following only room `b`.
   */
  lemma ChatStaysInRoom(subs: Subscriptions, c: ConnId, a: string, b: string,
                        session: Session, m1: ChatMessage, m2: ChatMessage, m3: ChatMessage)
    requires c in subs && subs[c] <= RoomTopics(b) && a != b
    ensures SendMessage(a, m1).send.destination == LeaveRoom(a, m3).destination
    ensures AddUser(session, a, m2).response.Some? ==>
      AddUser(session, a, m2).response.value.destination == SendMessage(a, m1).send.destination
    ensures c !in Recipients(subs, SendMessage(a, m1).send.destination)
  {
    RoomIsolation(subs, c, a, b);
  }
}
