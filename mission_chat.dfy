/** `MissionChatUseCase` of both revisions: persist a chat message (and, in
    the later revision, publish it to the mission's subscribers) and read a
    mission's messages. */
module MissionChat {
  import opened Wrappers
  import opened Domain
  import MessageLog
  import opened Db

  /** The persisted chat row: authored, type "chat". */
  function ChatRow(m: int, u: int, content: string, now: int): Message {
    Message(m, Some(u), content, "chat", now)
  }

  /** The published event: the author's id but no display name or avatar. */
  function ChatEvent(m: int, u: int, content: string): ChatMessage {
    ChatMessage(m, Some(u), None, None, content, "chat")
  }

  /** `send_message(mission_id, user_id, content)`: persist, then (later
      revision only) publish; a failed persist publishes nothing. */
  function SendSpec(rev: Revision, s: Store, m: int, u: int, content: string, now: int, f: Faults): Run<()> {
    var c := MessageLog.Create(s, ChatRow(m, u, content, now), f);
    if c.r.Err? then Run(c.s, c.r, [])
    else if rev == Later then Run(c.s, Ok(()), [Publish(m, ChatEvent(m, u, content))])
    else Run(c.s, Ok(()), [])
  }

  /** `get_messages`: the repository's page, unchanged. */
  function GetMessages(s: Store, m: int, f: Faults): (r: Result<seq<MessageLog.MessageView>, Error>)
    ensures r.Ok? <==> !Fails(f, MessageRead)
    ensures r.Ok? ==> |r.value| == |MessageLog.Page(s.messages, m)|
    ensures r.Ok? ==> forall i :: 0 <= i < |r.value| ==>
      r.value[i] == MessageLog.ViewOf(s.brawlers, MessageLog.Page(s.messages, m)[i])
    ensures r.Ok? ==> forall i :: 0 <= i < |r.value| ==> r.value[i].missionId == m
  {
    MessageLog.PageSpec(s.messages, m);
    MessageLog.GetByMissionId(s, m, f)
  }

  /** A send succeeds exactly when the persist does; it then appends the one
      chat row, changes nothing else, and publishes exactly one event with
      the same content in the later revision and none in the earlier; a
      failed send changes nothing and publishes nothing. */
  lemma SendOkIff(rev: Revision, s: Store, m: int, u: int, content: string, now: int, f: Faults)
    ensures SendSpec(rev, s, m, u, content, now, f).r.Ok? <==> !InsertFails(f, ChatRow(m, u, content, now))
    ensures var o := SendSpec(rev, s, m, u, content, now, f);
      o.r.Ok? ==> o.s == s.(messages := s.messages + [ChatRow(m, u, content, now)])
    ensures var o := SendSpec(rev, s, m, u, content, now, f);
      o.r.Ok? ==> o.fx == if rev == Later then [Publish(m, ChatEvent(m, u, content))] else []
    ensures var o := SendSpec(rev, s, m, u, content, now, f);
      o.r.Err? ==> o.s == s && o.fx == []
  {
  }

  method Send(db: Database, rev: Revision, m: int, u: int, content: string, now: int, f: Faults) returns (r: Result<(), Error>, fx: seq<Effect>)
    modifies db
    ensures Run(db.Snapshot(), r, fx) == SendSpec(rev, old(db.Snapshot()), m, u, content, now, f)
  {
    fx := [];
    r := db.CreateMessage(ChatRow(m, u, content, now), f);
    if r.Err? {
      return;
    }
    if rev == Later {
      fx := [Publish(m, ChatEvent(m, u, content))];
    }
  }
}
