/** The client's mission chat component: the message filter, the timestamp
    fix applied to loaded history, appending live messages and the send
    guard. */
module MissionChatView {
  import opened Wrappers
  import opened Text
  import ClientLists

  /** `MissionMessage` as the client receives it. */
  datatype ViewMessage = ViewMessage(
    id: int,
    userId: Option<int>,
    content: string,
    kind: string,
    createdAt: string)

  /** The component's `filter` field. */
  datatype MessageFilter = All | ChatOnly | Activity

  predicate IsSystem(m: ViewMessage) { m.kind == "system" }
  predicate IsChat(m: ViewMessage) { m.kind == "chat" }

  /** `filteredMessages` for a message list and a filter. */
  function Filtered(ms: seq<ViewMessage>, f: MessageFilter): (r: seq<ViewMessage>)
    ensures f == All ==> r == ms
    ensures f == Activity ==> r == ClientLists.Filter(ms, IsSystem)
    ensures f == ChatOnly ==> r == ClientLists.Filter(ms, IsChat)
  {
    match f
    case All => ms
    case Activity => ClientLists.Filter(ms, IsSystem)
    case ChatOnly => ClientLists.Filter(ms, IsChat)
  }

  /** The 'activity' and 'chat' filters keep exactly the messages of their
      type, as often as they occur, in their original order. */
  lemma FilteredKeepsType(ms: seq<ViewMessage>, f: MessageFilter)
    requires f != All
    ensures var r := Filtered(ms, f);
      (forall i :: 0 <= i < |r| ==> r[i].kind == (if f == Activity then "system" else "chat"))
      && (forall m :: multiset(r)[m] == if m.kind == (if f == Activity then "system" else "chat") then multiset(ms)[m] else 0)
      && ClientLists.Subsequence(r, ms)
  {
    var p := if f == Activity then IsSystem else IsChat;
    ClientLists.FilterCounts(ms, p);
    ClientLists.FilterSubsequence(ms, p);
  }

  /** The timezone fix of `loadMessages`: a non-empty `created_at` that does
      not end in 'Z' gets one appended. */
  function Normalise(createdAt: string): (r: string)
    ensures createdAt == [] ==> r == []
    ensures createdAt != [] ==> EndsWith(r, "Z") && StartsWith(r, createdAt)
    ensures EndsWith(createdAt, "Z") ==> r == createdAt
  {
    if createdAt != [] && !EndsWith(createdAt, "Z") then createdAt + "Z" else createdAt
  }

  /** Applying the fix twice is applying it once. */
  lemma NormaliseIdempotent(createdAt: string)
    ensures Normalise(Normalise(createdAt)) == Normalise(createdAt)
  {
  }

  /** The list after the fix: every message with its timestamp fixed. */
  function NormaliseAll(ms: seq<ViewMessage>): (r: seq<ViewMessage>)
    ensures |r| == |ms|
    ensures forall i :: 0 <= i < |ms| ==> r[i] == ms[i].(createdAt := Normalise(ms[i].createdAt))
  {
    seq(|ms|, i requires 0 <= i < |ms| => ms[i].(createdAt := Normalise(ms[i].createdAt)))
  }

  /** Reloading already fixed history changes nothing. */
  lemma NormaliseAllIdempotent(ms: seq<ViewMessage>)
    ensures NormaliseAll(NormaliseAll(ms)) == NormaliseAll(ms)
  {
    forall i | 0 <= i < |ms| ensures NormaliseAll(NormaliseAll(ms))[i] == NormaliseAll(ms)[i] {
      NormaliseIdempotent(ms[i].createdAt);
    }
  }

  /** `MissionChatComponent`: the loaded and received messages, the input
      box and the selected filter. */
  class ChatComponent {
    var messages: seq<ViewMessage>
    var newMessage: string
    var filter: MessageFilter

    constructor ()
      ensures messages == [] && newMessage == "" && filter == All
    {
      messages := [];
      newMessage := "";
      filter := All;
    }

    /** The `filteredMessages` getter. */
    function FilteredMessages(): (r: seq<ViewMessage>)
      reads this
      ensures ClientLists.Subsequence(r, messages)
      ensures filter == All ==> r == messages
    {
      if filter != All then
        FilteredKeepsType(messages, filter);
        Filtered(messages, filter)
      else
        ClientLists.SubsequenceRefl(messages);
        messages
    }

    /** `loadMessages`: `fetched` is the history request's result, `None` when
        it throws, in which case the list is left as it was. The fetched list
        replaces the messages and each timestamp is then fixed in place. */
    method LoadMessages(fetched: Option<seq<ViewMessage>>)
      modifies this
      ensures messages == (if fetched.Some? then NormaliseAll(fetched.value) else old(messages))
      ensures newMessage == old(newMessage) && filter == old(filter)
    {
      if fetched.None? {
        return;
      }
      messages := fetched.value;
      var i := 0;
      while i < |messages|
        invariant 0 <= i <= |messages| == |fetched.value|
        invariant messages[..i] == NormaliseAll(fetched.value)[..i]
        invariant messages[i..] == fetched.value[i..]
        invariant newMessage == old(newMessage) && filter == old(filter)
      {
        var m := messages[i];
        if m.createdAt != [] && !EndsWith(m.createdAt, "Z") {
          messages := messages[i := m.(createdAt := m.createdAt + "Z")];
        }
        assert messages[i] == NormaliseAll(fetched.value)[i];
        i := i + 1;
      }
      assert messages == messages[..i];
    }

    /** The socket subscription: each incoming message goes at the end. */
    method Receive(msg: ViewMessage)
      modifies this
      ensures messages == old(messages) + [msg]
      ensures newMessage == old(newMessage) && filter == old(filter)
    {
      messages := messages + [msg];
    }

    /** `sendMessage`: nothing happens for input that is blank once trimmed;
        otherwise the untrimmed input is sent and the box is cleared. */
    method SendMessage() returns (sent: Option<string>)
      modifies this
      ensures Trim(old(newMessage), JsWhitespace) == [] ==> sent.None? && newMessage == old(newMessage)
      ensures Trim(old(newMessage), JsWhitespace) != [] ==> sent == Some(old(newMessage)) && newMessage == ""
      ensures messages == old(messages) && filter == old(filter)
    {
      if Trim(newMessage, JsWhitespace) == [] {
        sent := None;
        return;
      }
      var content := newMessage;
      newMessage := "";
      sent := Some(content);
    }
  }
}
