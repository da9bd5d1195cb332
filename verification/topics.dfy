/**
 * Broker destinations and delivery. The simple broker delivers a published
 * frame to every connection holding a subscription whose destination equals
 * the frame's destination; clients here subscribe to literal destinations.
 */
module Topics {
  import opened Wrappers

  const PUBLIC: string := "/topic/public"
  const ROOM_PREFIX: string := "/topic/room/"
  const CHAT_SUFFIX: string := "/chat"
  const CODE_SUFFIX: string := "/code"
  const LEGACY_CODE_PREFIX: string := "/topic/code/"

  /** Java string concatenation renders a null reference as "null". */
  function JavaString(s: Option<string>): string {
    s.GetOr("null")
  }

  /** `"/topic/room/" + roomId + "/chat"` */
  function RoomChatTopic(roomId: string): string {
    ROOM_PREFIX + roomId + CHAT_SUFFIX
  }

  /** `"/topic/room/" + roomId + "/code"` */
  function RoomCodeTopic(roomId: string): string {
    ROOM_PREFIX + roomId + CODE_SUFFIX
  }

  /** `"/topic/room/" + roomId`, the legacy room topic, with a null room id rendered as "null". */
  function LegacyRoomTopic(roomId: Option<string>): string {
    ROOM_PREFIX + JavaString(roomId)
  }

  /** `"/topic/code/" + roomId`, the legacy code topic. */
  function LegacyCodeTopic(roomId: Option<string>): string {
    LEGACY_CODE_PREFIX + JavaString(roomId)
  }

  /** The part of `prefix + middle + suffix` between the fixed ends is `middle`. */
  lemma {:induction false} Middle(prefix: string, middle: string, suffix: string)
    ensures (prefix + middle + suffix)[|prefix|..|prefix| + |middle|] == middle
    ensures (prefix + middle + suffix)[|prefix| + |middle|..] == suffix
  {
    var t := prefix + middle + suffix;
    assert t == prefix + (middle + suffix);
    assert t[|prefix|..] == middle + suffix;
    assert t[|prefix|..][..|middle|] == middle;
  }

  /** Wrapping room ids in the same fixed prefix and suffix is injective. */
  lemma {:induction false} WrapInjective(prefix: string, a: string, b: string, suffix: string)
    requires prefix + a + suffix == prefix + b + suffix
    ensures a == b
  {
    Middle(prefix, a, suffix);
    Middle(prefix, b, suffix);
  }

  /**
   * Room isolation at the level of names: two rooms share a chat topic, or a
   * code topic, only if they are the same room.
   */
  lemma RoomTopicsInjective(a: string, b: string)
    ensures RoomChatTopic(a) == RoomChatTopic(b) <==> a == b
    ensures RoomCodeTopic(a) == RoomCodeTopic(b) <==> a == b
  {
    if RoomChatTopic(a) == RoomChatTopic(b) {
      WrapInjective(ROOM_PREFIX, a, b, CHAT_SUFFIX);
    }
    if RoomCodeTopic(a) == RoomCodeTopic(b) {
      WrapInjective(ROOM_PREFIX, a, b, CODE_SUFFIX);
    }
  }

  /** A room's chat topic is never any room's code topic, and neither is the public topic. */
  lemma TopicsDisjoint(a: string, b: string)
    ensures RoomChatTopic(a) != RoomCodeTopic(b)
    ensures RoomChatTopic(a) != PUBLIC && RoomCodeTopic(a) != PUBLIC
  {
    var chat, code := RoomChatTopic(a), RoomCodeTopic(b);
    Middle(ROOM_PREFIX, a, CHAT_SUFFIX);
    Middle(ROOM_PREFIX, b, CODE_SUFFIX);
    assert chat[|chat| - 3] == CHAT_SUFFIX[2] == 'h';
    assert code[|code| - 3] == CODE_SUFFIX[2] == 'o';
    assert RoomChatTopic(a)[7] == 'r' != PUBLIC[7];
    assert RoomCodeTopic(a)[7] == 'r' != PUBLIC[7];
  }

  /**
   * The legacy room topic is a prefix family of its own: a payload room id
   * that ends in "/chat" lands on that room's chat topic.
   */
  lemma LegacyRoomTopicReachesChat(a: string)
    ensures LegacyRoomTopic(Some(a + CHAT_SUFFIX)) == RoomChatTopic(a)
  {
    assert ROOM_PREFIX + (a + CHAT_SUFFIX) == ROOM_PREFIX + a + CHAT_SUFFIX;
  }

  /** A connection (its session id) and the destinations it subscribed to. */
  type ConnId = string
  type Subscriptions = map<ConnId, set<string>>

  /** The connections a frame published to `destination` reaches. */
  function Recipients(subs: Subscriptions, destination: string): (r: set<ConnId>)
    ensures forall c :: c in r <==> c in subs && destination in subs[c]
  {
    set c | c in subs && destination in subs[c]
  }

  /** The two topics a room page subscribes to. */
  function RoomTopics(roomId: string): set<string> {
    {RoomChatTopic(roomId), RoomCodeTopic(roomId)}
  }

  /**
   * Room isolation: a connection subscribed only to room `b`'s topics never
   * receives a frame published to a topic of another room `a`.
   */
  lemma RoomIsolation(subs: Subscriptions, c: ConnId, a: string, b: string)
    requires c in subs && subs[c] <= RoomTopics(b)
    requires a != b
    ensures c !in Recipients(subs, RoomChatTopic(a))
    ensures c !in Recipients(subs, RoomCodeTopic(a))
  {
    RoomTopicsInjective(a, b);
    TopicsDisjoint(a, b);
    TopicsDisjoint(b, a);
  }

  /** And it does receive every frame published to its own room's topics. */
  lemma RoomDelivery(subs: Subscriptions, c: ConnId, b: string)
    requires c in subs && RoomTopics(b) <= subs[c]
    ensures c in Recipients(subs, RoomChatTopic(b)) && c in Recipients(subs, RoomCodeTopic(b))
  {
  }
}
