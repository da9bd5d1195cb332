/**
 * The socket disconnect listener: a connection that had registered a
 * username announces its departure on the public topic.
 */
module WebSocketEventListener {
  import opened Wrappers
  import opened Messages
  import opened Topics
  import ChatController
  import ChatMessageController

  /** `handleWebSocketDisconnectListener`: the frames published when a connection closes. */
  function OnDisconnect(session: Session): (sends: seq<Send>)
    ensures USERNAME_ATTRIBUTE !in session ==> sends == []
    ensures USERNAME_ATTRIBUTE in session ==>
      && |sends| == 1
      && sends[0].destination == PUBLIC
      && sends[0].payload.Chat?
      && sends[0].payload.chat.mtype == Some(LEAVE)
      && sends[0].payload.chat.sender == GetAttribute(session, USERNAME_ATTRIBUTE)
      && sends[0].payload.chat.content.None?
      && sends[0].payload.chat.roomId.None?
  {
    match GetAttribute(session, USERNAME_ATTRIBUTE)
    case None => []
    case Some(username) => [Send(PUBLIC, Chat(ChatMessage(Some(username), None, Some(LEAVE), None)))]
  }

  /**
   * A user who joined a room through the scoped chat endpoint and then drops
   * the connection is announced as leaving on the public topic only: the
   * room id stored at join time is not used, so followers of that room's
   * topics never see the LEAVE.
   */
  lemma JoinedThenDisconnected(session: Session, roomId: string, msg: ChatMessage,
                               subs: Subscriptions, c: ConnId)
    requires msg.sender.Some?
    requires c in subs && subs[c] <= RoomTopics(roomId)
    ensures var joined := ChatController.AddUser(session, roomId, msg).state;
      var sends := OnDisconnect(joined);
      && |sends| == 1
      && sends[0].payload.chat.sender == msg.sender
      && sends[0].payload.chat.mtype == Some(LEAVE)
      && sends[0].destination != RoomChatTopic(roomId)
      && c !in Recipients(subs, sends[0].destination)
  {
    TopicsDisjoint(roomId, roomId);
  }

  /**
   * A user who joined through the public endpoint and then drops the
   * connection is announced on the same topic that carried the JOIN, under
   * the same name.
   */
  lemma PublicJoinThenDisconnected(session: Session, msg: ChatMessage)
    requires msg.sender.Some?
    ensures var joined := ChatMessageController.AddUser(session, msg);
      var sends := OnDisconnect(joined.state);
      && joined.response.Some?
      && |sends| == 1
      && sends[0].destination == joined.response.value.destination == PUBLIC
      && sends[0].payload.chat.sender == joined.response.value.payload.chat.sender == msg.sender
      && sends[0].payload.chat.mtype == Some(LEAVE)
  {
  }

  /**
   * A join whose sender is null is refused before anything is stored, so a
   * connection that had no username still leaves without an announcement.
   */
  lemma NullSenderLeavesSilently(session: Session, roomId: string, msg: ChatMessage)
    requires msg.sender.None? && USERNAME_ATTRIBUTE !in session
    ensures OnDisconnect(ChatController.AddUser(session, roomId, msg).state) == []
    ensures OnDisconnect(ChatMessageController.AddUser(session, msg).state) == []
    ensures OnDisconnect(ChatMessageController.AddRoomUser(session, msg).state) == []
  {
  }

  /**
   * A room join whose frame carries no room id is never announced, but the
   * sender was stored before the second `put` threw: dropping the
   * connection then announces a LEAVE for a JOIN nobody saw.
   */
  lemma UnannouncedRoomJoinStillLeaves(session: Session, msg: ChatMessage)
    requires msg.sender.Some? && msg.roomId.None?
    ensures var joined := ChatMessageController.AddRoomUser(session, msg);
      var sends := OnDisconnect(joined.state);
      && joined.response.None?
      && |sends| == 1
      && sends[0].payload.chat.sender == msg.sender
      && sends[0].payload.chat.mtype == Some(LEAVE)
  {
  }
}
