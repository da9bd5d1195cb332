/**
 * The shared-editor page: a small event-driven state machine. Events are
 * the username form, the socket coming up, keystrokes, the debounce timer
 * firing, code frames from the server, a language change and the chat
 * form; each step yields the frames the page sends.
 */
module CollabClient {
  import opened Wrappers
  import opened Seqs
  import opened Text
  import opened Messages
  import opened Topics
  import ChatMessageController

  const APP_ADD_USER: string := "/app/chat.addUser"
  const APP_SEND_MESSAGE: string := "/app/chat.sendMessage"
  const APP_CODE_SYNC: string := "/app/code.sync"
  /** The code topic the page subscribes to. */
  const CODE_TOPIC: string := "/topic/code"
  /** Quiet time, in milliseconds, before a burst of keystrokes is sent. */
  const DEBOUNCE_MS: nat := 500
  const LAST_EDITED_BY: string := "Last edited by: "

  /**
   * The socket client: none yet, created and connecting, or connected
   * (`stompClient` set, and `stompClient.connected`).
   */
  datatype Link = NoClient | Connecting | Connected

  /** What the page shows: the editor text, the language select, the last-editor caption. */
  datatype Editor = Editor(code: string, language: string, caption: string)

  /**
   * The page's variables. `timerArmed` is a pending `typingTimeout`.
   * `room` is `None` for the page as written, which keeps no room at all,
   * and `Some(r)` for the corrected page of room `r`, whose code frames
   * name that room.
   */
  datatype Client = Client(
    username: Option<string>,
    link: Link,
    isTyping: bool,
    timerArmed: bool,
    editor: Editor,
    room: Option<string>)

  datatype Event =
    | UsernameSubmitted(text: string)
    | SocketConnected
    | Input(code: string)
    | Timeout
    | CodeReceived(msg: CodeSyncMessage)
    | LanguageChanged(language: string)
    | ChatSubmitted(text: string)

  function Start(editor: Editor, room: Option<string>): Client {
    Client(None, NoClient, false, false, editor, room)
  }

  /** The debounce invariant: the page is typing exactly while a timer is pending. */
  predicate Debounced(c: Client) {
    c.isTyping == c.timerArmed
  }

  /** The topics `onConnected` subscribes to. */
  function PageTopicsAsWritten(): set<string> {
    {PUBLIC, CODE_TOPIC}
  }

  /** The code frame `sendCodeUpdate` builds: sender, code and language only. */
  function CodeFrameAsWritten(c: Client): CodeSyncMessage {
    CodeSyncMessage(c.username, c.editor.code, c.editor.language, None, None, None, None)
  }

  /** The corrected subscriptions: the public chat and the code topic of the page's room. */
  function PageTopics(room: string): (topics: set<string>)
    ensures PUBLIC in topics
  {
    {PUBLIC, LegacyCodeTopic(Some(room))}
  }

  /**
   * The code frame `sendCodeUpdate` builds: as written, sender, code and
   * language only; on the corrected page, also the page's room.
   */
  function CodeFrame(c: Client): (m: CodeSyncMessage)
    ensures m.(roomId := None) == CodeFrameAsWritten(c)
    ensures m.roomId == c.room
    ensures c.room.None? ==> m == CodeFrameAsWritten(c)
  {
    CodeFrameAsWritten(c).(roomId := c.room)
  }

  /** A frame without a room is relayed to "/topic/code/null", which a page as written does not follow. */
  lemma NullRelayMissed(msg: CodeSyncMessage, subs: Subscriptions, peer: ConnId)
    requires msg.roomId.None?
    requires peer in subs && subs[peer] <= PageTopicsAsWritten()
    ensures var relayed := ChatMessageController.SyncCode(msg);
      && relayed.destination == "/topic/code/null"
      && peer !in Recipients(subs, relayed.destination)
  {
    var relayed := ChatMessageController.SyncCode(msg);
    assert relayed.destination[|CODE_TOPIC|] == '/';
  }

  /** A frame naming a room reaches a corrected page iff the page is of that room. */
  lemma RoomRelayDelivered(msg: CodeSyncMessage, subs: Subscriptions, peer: ConnId, peerRoom: string)
    requires msg.roomId.Some?
    requires peer in subs && subs[peer] == PageTopics(peerRoom)
    ensures var relayed := ChatMessageController.SyncCode(msg);
      peer in Recipients(subs, relayed.destination) <==> peerRoom == msg.roomId.value
  {
    var d := ChatMessageController.SyncCode(msg).destination;
    assert d == LEGACY_CODE_PREFIX + msg.roomId.value;
    assert d != PUBLIC by {
      assert d[7] == 'c' && PUBLIC[7] == 'p';
    }
    if LegacyCodeTopic(Some(peerRoom)) == d {
      WrapInjective(LEGACY_CODE_PREFIX, peerRoom, msg.roomId.value, "");
    }
  }

  /** Every code frame among `sends` names `room` (or no room, when `room` is `None`). */
  predicate FramesCarry(sends: seq<Send>, room: Option<string>) {
    forall i :: 0 <= i < |sends| && sends[i].payload.Code? ==> sends[i].payload.code.roomId == room
  }

  lemma FramesCarryAppend(a: seq<Send>, b: seq<Send>, room: Option<string>)
    requires FramesCarry(a, room) && FramesCarry(b, room)
    ensures FramesCarry(a + b, room)
  {
    forall i | 0 <= i < |a + b| && (a + b)[i].payload.Code?
      ensures (a + b)[i].payload.code.roomId == room
    {
      if i >= |a| {
        assert (a + b)[i] == b[i - |a|];
      }
    }
  }

  /** `sendCodeUpdate`: the current buffer and language, only over a connected socket. */
  function SendCodeUpdate(c: Client): (sends: seq<Send>)
    ensures c.link != Connected ==> sends == []
    ensures c.link == Connected ==>
      && |sends| == 1
      && sends[0].destination == APP_CODE_SYNC
      && sends[0].payload == Code(CodeFrame(c))
      && sends[0].payload.code.roomId == c.room
      && sends[0].payload.code.code == c.editor.code
      && sends[0].payload.code.language == c.editor.language
  {
    if c.link == Connected then [Send(APP_CODE_SYNC, Code(CodeFrame(c)))] else []
  }

  /** `onCodeReceived`'s test: the frame is not the page's own and the user is not typing. */
  predicate Accepts(c: Client, msg: CodeSyncMessage) {
    msg.sender != c.username && !c.isTyping
  }

  /** One event: the new page state and the frames sent. */
  function Step(c: Client, e: Event): (out: Handled<seq<Send>, Client>)
    ensures c.username == out.state.username || e.UsernameSubmitted?
    ensures Debounced(c) ==> Debounced(out.state)
    ensures out.state.room == c.room
    ensures FramesCarry(out.response, c.room)
    ensures e.Input? ==> out.response == [] && out.state.isTyping && out.state.editor.code == e.code
    ensures e.Timeout? && c.timerArmed ==>
      && !out.state.isTyping && !out.state.timerArmed
      && out.response == SendCodeUpdate(out.state)
      && out.state.editor == c.editor
    ensures e.Timeout? && !c.timerArmed ==> out == Handled([], c)
    ensures e.CodeReceived? ==>
      && out.response == []
      && out.state.isTyping == c.isTyping
      && (Accepts(c, e.msg) ==>
            && out.state.editor.code == e.msg.code
            && out.state.editor.language == e.msg.language
            && out.state.editor.caption == LAST_EDITED_BY + JavaString(e.msg.sender))
      && (!Accepts(c, e.msg) ==> out.state == c)
    ensures e.LanguageChanged? ==>
      && out.state.editor.language == e.language
      && out.response == SendCodeUpdate(out.state)
    ensures e.ChatSubmitted? ==> out.state == c
    ensures e.ChatSubmitted? ==>
      (out.response != [] <==> JsTrim(e.text) != [] && c.link != NoClient)
    ensures e.ChatSubmitted? && out.response != [] ==>
      out.response == [Send(APP_SEND_MESSAGE, Chat(ChatMessage(c.username, Some(JsTrim(e.text)), Some(CHAT), None)))]
  {
    match e
    case UsernameSubmitted(text) =>
      var name := JsTrim(text);
      var link := if name != [] then Connecting else c.link;
      Handled([], c.(username := Some(name), link := link))
    case SocketConnected =>
      var join := Send(APP_ADD_USER, Chat(ChatMessage(c.username, None, Some(JOIN), None)));
      Handled([join], c.(link := Connected))
    case Input(code) =>
      Handled([], c.(isTyping := true, timerArmed := true, editor := c.editor.(code := code)))
    case Timeout =>
      if c.timerArmed then
        var quiet := c.(isTyping := false, timerArmed := false);
        Handled(SendCodeUpdate(quiet), quiet)
      else Handled([], c)
    case CodeReceived(msg) =>
      if Accepts(c, msg) then
        var shown := Editor(msg.code, msg.language, LAST_EDITED_BY + JavaString(msg.sender));
        Handled([], c.(editor := shown))
      else Handled([], c)
    case LanguageChanged(language) =>
      var next := c.(editor := c.editor.(language := language));
      Handled(SendCodeUpdate(next), next)
    case ChatSubmitted(text) =>
      var content := JsTrim(text);
      if content != [] && c.link != NoClient then
        Handled([Send(APP_SEND_MESSAGE, Chat(ChatMessage(c.username, Some(content), Some(CHAT), None)))], c)
      else Handled([], c)
  }

  /** A run of events, in order: the final state and every frame sent. */
  function Run(c: Client, events: seq<Event>): Handled<seq<Send>, Client> {
    Fold(Step, c, events)
  }

  /** Every run keeps the debounce invariant. */
  lemma {:induction false} RunKeepsDebounced(c: Client, events: seq<Event>)
    requires Debounced(c)
    ensures Debounced(Run(c, events).state)
    decreases |events|
  {
    if events != [] {
      RunKeepsDebounced(Step(c, events[0]).state, events[1..]);
    }
  }

  /** Over any run, the page keeps its room, and every code frame it sends names exactly that room. */
  lemma {:induction false} RunFramesCarryRoom(c: Client, events: seq<Event>)
    ensures Run(c, events).state.room == c.room
    ensures FramesCarry(Run(c, events).response, c.room)
    decreases |events|
  {
    if events != [] {
      var first := Step(c, events[0]);
      RunFramesCarryRoom(first.state, events[1..]);
      FramesCarryAppend(first.response, Run(first.state, events[1..]).response, c.room);
    }
  }

  /**
   * As written, code typed on one page never reaches another: over any run
   * of the page as written, every code frame it sends has no room, so the
   * server relays it to "/topic/code/null", which no page as written
   * subscribes to.
   */
  lemma CodeNeverDeliveredAsWritten(c: Client, events: seq<Event>, subs: Subscriptions, peer: ConnId)
    requires c.room.None?
    requires peer in subs && subs[peer] <= PageTopicsAsWritten()
    ensures var sent := Run(c, events).response;
      forall i :: 0 <= i < |sent| && sent[i].payload.Code? ==>
        && sent[i].payload.code.roomId.None?
        && ChatMessageController.SyncCode(sent[i].payload.code).destination == "/topic/code/null"
        && peer !in Recipients(subs, ChatMessageController.SyncCode(sent[i].payload.code).destination)
  {
    var sent := Run(c, events).response;
    RunFramesCarryRoom(c, events);
    forall i | 0 <= i < |sent| && sent[i].payload.Code?
      ensures && sent[i].payload.code.roomId.None?
              && ChatMessageController.SyncCode(sent[i].payload.code).destination == "/topic/code/null"
              && peer !in Recipients(subs, ChatMessageController.SyncCode(sent[i].payload.code).destination)
    {
      NullRelayMissed(sent[i].payload.code, subs, peer);
    }
  }

  /**
   * Corrected: over any run of the page of room `r`, every code frame it
   * sends reaches a corrected page iff that page is of room `r`.
   */
  lemma CodeDelivered(c: Client, events: seq<Event>, subs: Subscriptions, peer: ConnId, peerRoom: string)
    requires c.room.Some?
    requires peer in subs && subs[peer] == PageTopics(peerRoom)
    ensures var sent := Run(c, events).response;
      forall i :: 0 <= i < |sent| && sent[i].payload.Code? ==>
        (peer in Recipients(subs, ChatMessageController.SyncCode(sent[i].payload.code).destination)
         <==> peerRoom == c.room.value)
  {
    var sent := Run(c, events).response;
    RunFramesCarryRoom(c, events);
    forall i | 0 <= i < |sent| && sent[i].payload.Code?
      ensures peer in Recipients(subs, ChatMessageController.SyncCode(sent[i].payload.code).destination)
              <==> peerRoom == c.room.value
    {
      RoomRelayDelivered(sent[i].payload.code, subs, peer, peerRoom);
    }
  }

  /** The events of a burst of keystrokes, one per buffer state typed. */
  function Keystrokes(codes: seq<string>): (events: seq<Event>)
    ensures |events| == |codes|
    ensures forall i :: 0 <= i < |codes| ==> events[i] == Input(codes[i])
  {
    seq(|codes|, i requires 0 <= i < |codes| => Input(codes[i]))
  }

  /**
   * A burst of keystrokes sends nothing: it leaves the page typing, with a
   * pending timer and the last keystroke's buffer.
   */
  lemma {:induction false} BurstSendsNothing(c: Client, codes: seq<string>)
    requires codes != []
    ensures var out := Run(c, Keystrokes(codes));
      && out.response == []
      && out.state == c.(isTyping := true, timerArmed := true, editor := c.editor.(code := codes[|codes| - 1]))
    decreases |codes|
  {
    var events := Keystrokes(codes);
    var first := Step(c, events[0]);
    assert events[1..] == Keystrokes(codes[1..]);
    var rest := Run(first.state, events[1..]);
    assert Run(c, events) == Handled(first.response + rest.response, rest.state);
    if |codes| > 1 {
      BurstSendsNothing(first.state, codes[1..]);
    } else {
      assert rest == Handled([], first.state);
    }
  }

  /**
   * The debounce: a burst of keystrokes followed by 500 ms of quiet sends
   * exactly one code frame, over a connected socket, carrying the buffer
   * as it was at the last keystroke; afterwards the page is no longer
   * typing.
   */
  lemma BurstThenQuietSendsOnce(c: Client, codes: seq<string>)
    requires codes != []
    ensures var out := Run(c, Keystrokes(codes) + [Timeout]);
      && !out.state.isTyping
      && |out.response| == (if c.link == Connected then 1 else 0)
      && (c.link == Connected ==>
            && out.response[0].destination == APP_CODE_SYNC
            && out.response[0].payload.Code?
            && out.response[0].payload.code.code == codes[|codes| - 1]
            && out.response[0].payload.code.roomId == c.room)
  {
    BurstSendsNothing(c, codes);
    FoldAppend(Step, c, Keystrokes(codes), [Timeout]);
  }

  /** Frames sent to the code endpoint. */
  function CodeFrames(sends: seq<Send>): (n: nat)
    ensures n <= |sends|
  {
    if sends == [] then 0
    else (if sends[0].destination == APP_CODE_SYNC then 1 else 0) + CodeFrames(sends[1..])
  }

  lemma {:induction false} CodeFramesAppend(a: seq<Send>, b: seq<Send>)
    ensures CodeFrames(a + b) == CodeFrames(a) + CodeFrames(b)
    decreases |a|
  {
    if a == [] {
      assert a + b == b;
    } else {
      SplitAppend(a, b);
      CodeFramesAppend(a[1..], b);
    }
  }

  /** The events that may send the buffer: timer expiries and language changes. */
  function Flushes(events: seq<Event>): (n: nat)
    ensures n <= |events|
  {
    if events == [] then 0
    else (if events[0].Timeout? || events[0].LanguageChanged? then 1 else 0) + Flushes(events[1..])
  }

  /**
   * Keystrokes never send code themselves: over any run, the code frames
   * sent are at most the timer expiries plus the language changes.
   */
  lemma {:induction false} CodeFramesBounded(c: Client, events: seq<Event>)
    ensures CodeFrames(Run(c, events).response) <= Flushes(events)
    decreases |events|
  {
    if events != [] {
      var first := Step(c, events[0]);
      CodeFramesBounded(first.state, events[1..]);
      CodeFramesAppend(first.response, Run(first.state, events[1..]).response);
      assert CodeFrames(first.response) <= (if events[0].Timeout? || events[0].LanguageChanged? then 1 else 0) by {
        if first.response != [] {
          assert first.response[1..] == [];
        }
      }
    }
  }

  /** The soft lock: while the user is typing, frames from elsewhere never touch the editor. */
  lemma TypingLocksEditor(c: Client, msg: CodeSyncMessage)
    requires c.isTyping
    ensures Step(c, CodeReceived(msg)).state == c
  {
  }

  /**
   * A chat line, unlike a code frame, is relayed to the public topic the page
   * subscribes to, so every page receives it.
   */
  lemma ChatDelivered(c: Client, text: string, subs: Subscriptions, peer: ConnId)
    requires JsTrim(text) != [] && c.link != NoClient
    requires peer in subs && PUBLIC in subs[peer]
    ensures var sent := Step(c, ChatSubmitted(text)).response;
      && |sent| == 1
      && sent[0].destination == APP_SEND_MESSAGE
      && peer in Recipients(subs, ChatMessageController.SendMessage(sent[0].payload.chat).destination)
  {
  }
}
