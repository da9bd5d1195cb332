/**
 * The older, un-scoped chat endpoints: they publish to the public topic or
 * to a topic built from the room id carried in the frame itself, and the
 * code frames they relay are never written to any room.
 */
module ChatMessageController {
  import opened Wrappers
  import opened Messages
  import opened Topics

  /** `sendMessage` on `/app/chat.sendMessage`: a CHAT line to everybody. */
  function SendMessage(msg: ChatMessage): (out: Send)
    ensures out.destination == PUBLIC
    ensures out.payload.Chat? && out.payload.chat.(mtype := msg.mtype) == msg
    ensures out.payload.chat.mtype == Some(CHAT)
  {
    Send(PUBLIC, Chat(msg.(mtype := Some(CHAT))))
  }

  /**
   * `sendRoomMessage` on `/app/chat.sendRoomMessage`: a CHAT line to the
   * legacy topic of the room named in the frame (not in the path).
   */
  function SendRoomMessage(msg: ChatMessage): (out: Send)
    ensures out.destination == LegacyRoomTopic(msg.roomId)
    ensures msg.roomId.None? ==> out.destination == "/topic/room/null"
    ensures out.payload.Chat? && out.payload.chat.(mtype := msg.mtype) == msg
    ensures out.payload.chat.mtype == Some(CHAT)
  {
    Send(LegacyRoomTopic(msg.roomId), Chat(msg.(mtype := Some(CHAT))))
  }

  /**
   * `addUser` on `/app/chat.addUser`: remembers only the sender and
   * announces a JOIN to everybody. A null sender makes the `put` throw
   * before anything is returned, so nothing is announced.
   */
  function AddUser(session: Session, msg: ChatMessage): (out: Handled<Option<Send>, Session>)
    ensures out.response.Some? <==> msg.sender.Some?
    ensures msg.sender.None? ==> out.state == session
    ensures msg.sender.Some? ==> GetAttribute(out.state, USERNAME_ATTRIBUTE) == msg.sender
    ensures forall k :: k != USERNAME_ATTRIBUTE ==> GetAttribute(out.state, k) == GetAttribute(session, k)
    ensures out.response.Some? ==>
      && out.response.value.destination == PUBLIC
      && out.response.value.payload.Chat?
      && out.response.value.payload.chat.(mtype := msg.mtype) == msg
      && out.response.value.payload.chat.mtype == Some(JOIN)
  {
    match PutAttribute(session, USERNAME_ATTRIBUTE, msg.sender)
    case None => Handled(None, session)
    case Some(s1) => Handled(Some(Send(PUBLIC, Chat(msg.(mtype := Some(JOIN))))), s1)
  }

  /**
   * `addRoomUser` on `/app/chat.addRoomUser`: remembers the sender and the
   * frame's room id, then announces a JOIN on that room's legacy topic. A
   * null sender makes the first `put` throw and nothing changes; a null room
   * id makes the second one throw, after the sender has been remembered, and
   * nothing is announced.
   */
  function AddRoomUser(session: Session, msg: ChatMessage): (out: Handled<Option<Send>, Session>)
    ensures out.response.Some? <==> msg.sender.Some? && msg.roomId.Some?
    ensures msg.sender.None? ==> out.state == session
    ensures msg.sender.Some? ==> GetAttribute(out.state, USERNAME_ATTRIBUTE) == msg.sender
    ensures msg.sender.Some? && msg.roomId.Some? ==> GetAttribute(out.state, ROOM_ID_ATTRIBUTE) == msg.roomId
    ensures msg.roomId.None? ==> GetAttribute(out.state, ROOM_ID_ATTRIBUTE) == GetAttribute(session, ROOM_ID_ATTRIBUTE)
    ensures forall k :: k != USERNAME_ATTRIBUTE && k != ROOM_ID_ATTRIBUTE ==>
      GetAttribute(out.state, k) == GetAttribute(session, k)
    ensures out.response.Some? ==>
      && out.response.value.destination == LegacyRoomTopic(msg.roomId)
      && out.response.value.payload.Chat?
      && out.response.value.payload.chat.(mtype := msg.mtype) == msg
      && out.response.value.payload.chat.mtype == Some(JOIN)
  {
    match PutAttribute(session, USERNAME_ATTRIBUTE, msg.sender)
    case None => Handled(None, session)
    case Some(s1) =>
      match PutAttribute(s1, ROOM_ID_ATTRIBUTE, msg.roomId)
      case None => Handled(None, s1)
      case Some(s2) => Handled(Some(Send(LegacyRoomTopic(msg.roomId), Chat(msg.(mtype := Some(JOIN))))), s2)
  }

  /**
   * `syncCode` on `/app/code.sync`: relays the frame unchanged to the legacy
   * code topic of the frame's room id. It has no repository to write to.
   */
  function SyncCode(msg: CodeSyncMessage): (out: Send)
    ensures out.destination == LegacyCodeTopic(msg.roomId)
    ensures msg.roomId.None? ==> out.destination == "/topic/code/null"
    ensures out.payload == Code(msg)
  {
    Send(LegacyCodeTopic(msg.roomId), Code(msg))
  }

  /**
   * The legacy room topic and the scoped chat topic use the same prefix: a
   * frame whose room id is `r + "/chat"` reaches subscribers of room `r`'s
   * chat, so the two families are not isolated from each other.
   */
  lemma LegacyRoomMessageCrossesIntoRoomChat(subs: Subscriptions, c: ConnId, r: string, msg: ChatMessage)
    requires c in subs && RoomChatTopic(r) in subs[c]
    requires msg.roomId == Some(r + CHAT_SUFFIX)
    ensures c in Recipients(subs, SendRoomMessage(msg).destination)
  {
    LegacyRoomTopicReachesChat(r);
  }
}
