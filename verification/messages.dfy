/**
 * The STOMP payloads exchanged over the socket, what the server sends
 * (a payload addressed to a destination), and the per-connection session
 * attributes the handlers write.
 */
module Messages {
  import opened Wrappers

  datatype ChatType = CHAT | JOIN | LEAVE

  /** A chat frame; any field may be null on the wire. */
  datatype ChatMessage = ChatMessage(
    sender: Option<string>,
    content: Option<string>,
    mtype: Option<ChatType>,
    roomId: Option<string>)

  datatype CodeType = UPDATE | TYPING | STOPPED_TYPING | CURSOR_ACTIVITY

  datatype CursorPosition = CursorPosition(line: int, ch: int)
  datatype TextSelection = TextSelection(anchor: Option<CursorPosition>, head: Option<CursorPosition>)

  /** A code-sync frame: the whole buffer, its language and editing metadata. */
  datatype CodeSyncMessage = CodeSyncMessage(
    sender: Option<string>,
    code: string,
    language: string,
    roomId: Option<string>,
    mtype: Option<CodeType>,
    cursor: Option<CursorPosition>,
    selection: Option<TextSelection>)

  datatype Payload = Chat(chat: ChatMessage) | Code(code: CodeSyncMessage)

  /** One `convertAndSend` (or `@SendTo` return): a payload published to a destination. */
  datatype Send = Send(destination: string, payload: Payload)

  /** The session attributes of one socket connection. */
  type Session = map<string, string>

  const USERNAME_ATTRIBUTE: string := "username"
  const ROOM_ID_ATTRIBUTE: string := "roomId"

  /**
   * `attributes.put(key, value)`. A socket session's attribute map is a
   * `ConcurrentHashMap`, which refuses null: storing null throws a
   * `NullPointerException`, modelled as `None`, and the map is left as it
   * was. Any other value replaces that one key.
   */
  function PutAttribute(session: Session, key: string, value: Option<string>): (r: Option<Session>)
    ensures r.Some? <==> value.Some?
    ensures r.Some? ==> key in r.value && r.value[key] == value.value
    ensures r.Some? ==> forall k :: k != key ==> (k in r.value <==> k in session)
    ensures r.Some? ==> forall k :: k != key && k in session ==> r.value[k] == session[k]
  {
    match value
    case Some(v) => Some(session[key := v])
    case None => None
  }

  /** `attributes.get(key)`, null when absent. */
  function GetAttribute(session: Session, key: string): (r: Option<string>)
    ensures r.Some? <==> key in session
    ensures r.Some? ==> r.value == session[key]
  {
    if key in session then Some(session[key]) else None
  }

  /**
   * A value written reads back as written while every other attribute
   * reads as before; a null write is refused.
   */
  lemma PutThenGet(session: Session, key: string, value: Option<string>)
    ensures PutAttribute(session, key, value).None? <==> value.None?
    ensures value.Some? ==> GetAttribute(PutAttribute(session, key, value).value, key) == value
    ensures value.Some? ==> forall k :: k != key ==>
      GetAttribute(PutAttribute(session, key, value).value, k) == GetAttribute(session, k)
  {
  }
}
