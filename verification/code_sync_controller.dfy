/**
 * The room-scoped code-sync endpoint: every frame is stamped with the room
 * from its path and rebroadcast to that room's code topic; only full
 * updates are written to the room.
 */
module CodeSyncController {
  import opened Wrappers
  import opened RoomEntity
  import opened Messages
  import opened Topics
  import RoomService

  /** The frame as rebroadcast: the path's room id replaces whatever the client sent. */
  function Stamped(msg: CodeSyncMessage, roomId: string): (m: CodeSyncMessage)
    ensures m.roomId == Some(roomId)
    ensures m.(roomId := msg.roomId) == msg
  {
    msg.(roomId := Some(roomId))
  }

  /** `syncCode(roomId, message)` on `/app/code.sync/{roomId}`. */
  function SyncCode(repo: RoomService.Repo, roomId: string, msg: CodeSyncMessage)
    : (out: Handled<Send, RoomService.Repo>)
    ensures out.response == Send(RoomCodeTopic(roomId), Code(Stamped(msg, roomId)))
    ensures msg.mtype != Some(UPDATE) ==> out.state == repo
    ensures msg.mtype == Some(UPDATE) ==>
      out.state == RoomService.UpdateRoomCode(repo, roomId, msg.code, msg.language)
    ensures RoomService.RepoInvariant(repo) ==> RoomService.RepoInvariant(out.state)
  {
    var state := if msg.mtype == Some(UPDATE)
      then RoomService.UpdateRoomCode(repo, roomId, msg.code, msg.language)
      else repo;
    Handled(Send(RoomCodeTopic(roomId), Code(Stamped(msg, roomId))), state)
  }

  /** The last full update of a sequence of frames, if there is one. */
  function LastUpdate(msgs: seq<CodeSyncMessage>): (r: Option<CodeSyncMessage>)
    ensures r.None? <==> forall i :: 0 <= i < |msgs| ==> msgs[i].mtype != Some(UPDATE)
    ensures r.Some? ==> r.value.mtype == Some(UPDATE)
    ensures r.Some? ==>
      exists i :: (0 <= i < |msgs| && msgs[i] == r.value &&
                   forall j :: i < j < |msgs| ==> msgs[j].mtype != Some(UPDATE))
  {
    if |msgs| == 0 then None
    else if msgs[|msgs| - 1].mtype == Some(UPDATE) then Some(msgs[|msgs| - 1])
    else
      var init := msgs[..|msgs| - 1];
      assert forall j :: 0 <= j < |init| ==> init[j] == msgs[j];
      LastUpdate(init)
  }

  /** Handling a stream of frames for one room, in arrival order. */
  function Replay(repo: RoomService.Repo, roomId: string, msgs: seq<CodeSyncMessage>)
    : Handled<seq<Send>, RoomService.Repo>
  {
    if |msgs| == 0 then Handled([], repo)
    else
      var before := Replay(repo, roomId, msgs[..|msgs| - 1]);
      var step := SyncCode(before.state, roomId, msgs[|msgs| - 1]);
      Handled(before.response + [step.response], step.state)
  }

  /** Over any stream of frames for a room: one broadcast per frame, in order, all on the room's code topic. */
  lemma {:induction false} ReplayBroadcastsEach(repo: RoomService.Repo, roomId: string, msgs: seq<CodeSyncMessage>)
    ensures var out := Replay(repo, roomId, msgs);
      && |out.response| == |msgs|
      && (forall i :: 0 <= i < |msgs| ==>
            out.response[i] == Send(RoomCodeTopic(roomId), Code(Stamped(msgs[i], roomId))))
  {
    if |msgs| > 0 {
      var init := msgs[..|msgs| - 1];
      ReplayBroadcastsEach(repo, roomId, init);
      var before := Replay(repo, roomId, init);
      assert Replay(repo, roomId, msgs).response
          == before.response + [SyncCode(before.state, roomId, msgs[|msgs| - 1]).response];
    }
  }

  /**
   * Last writer wins over a stream: the stored buffer and language are those
   * of the last full update (typing and cursor frames change nothing), and
   * no other room is touched.
   */
  lemma {:induction false} ReplayLastUpdateWins(repo: RoomService.Repo, roomId: string, msgs: seq<CodeSyncMessage>)
    ensures var out := Replay(repo, roomId, msgs);
      var key := RoomService.RoomKey(roomId);
      && (forall k :: k in out.state <==> k in repo)
      && (forall k :: k in repo && k != key ==> out.state[k] == repo[k])
      && (key in repo && LastUpdate(msgs).None? ==> out.state[key] == repo[key])
      && (key in repo && LastUpdate(msgs).Some? ==>
            out.state[key] == repo[key].(currentCode := LastUpdate(msgs).value.code,
                                         currentLanguage := LastUpdate(msgs).value.language))
  {
    if |msgs| > 0 {
      var init := msgs[..|msgs| - 1];
      ReplayLastUpdateWins(repo, roomId, init);
      if msgs[|msgs| - 1].mtype != Some(UPDATE) {
        assert LastUpdate(msgs) == LastUpdate(init);
      }
    }
  }

  /**
   * Who sees a code frame: every connection subscribed to the room's code
   * topic, the sender's own connection included, and no connection that
   * only follows another room.
   */
  lemma SyncDelivery(subs: Subscriptions, c: ConnId, repo: RoomService.Repo, roomId: string, msg: CodeSyncMessage)
    requires c in subs
    ensures var dest := SyncCode(repo, roomId, msg).response.destination;
      && (RoomCodeTopic(roomId) in subs[c] ==> c in Recipients(subs, dest))
      && (forall b :: b != roomId && subs[c] <= RoomTopics(b) ==> c !in Recipients(subs, dest))
  {
    forall b | b != roomId && subs[c] <= RoomTopics(b)
      ensures c !in Recipients(subs, RoomCodeTopic(roomId))
    {
      RoomIsolation(subs, c, roomId, b);
    }
  }
}
