/** The per-subscriber transform of the notification stream in the later
    revision's `sse_handler`: a welcome event, then one event for every
    item received from the global notification channel. Serialisation to
    JSON is not modelled; a data event carries the value it would
    serialise. */
module Sse {
  import opened Wrappers
  import opened Domain

  /** What a `BroadcastStream` yields: a notification, or a receive error
      (the receiver lagged behind the channel). */
  datatype Item = Got(n: Notification) | Missed

  /** The JSON body of a data event. */
  datatype Payload =
    | Welcome(title: string, message: string, kind: string, metadata: Metadata, recipient: int)
    | Forwarded(n: Notification)

  /** A server-sent event: a data line or a comment line. */
  datatype Event = Data(payload: Payload) | Comment(text: string)

  /** The first event of every stream, addressed to the connected user. */
  function WelcomeEvent(user: int): Event {
    Data(Welcome("System", "Connected to notification server", "System", NoMeta, user))
  }

  /** A notification is for `user` when it has no recipient or is addressed
      to them. */
  predicate ForUser(n: Notification, user: int) {
    n.recipient.None? || n.recipient == Some(user)
  }

  /** The map applied to each received item. */
  function Translate(user: int, item: Item): (e: Event)
    ensures e.Data? <==> item.Got? && ForUser(item.n, user)
    ensures e.Data? ==> e.payload == Forwarded(item.n)
    ensures item.Got? && !ForUser(item.n, user) ==> e == Comment("ignore")
    ensures item.Missed? ==> e == Comment("missed message")
  {
    match item
    case Got(n) => if ForUser(n, user) then Data(Forwarded(n)) else Comment("ignore")
    case Missed => Comment("missed message")
  }

  /** `stream.map(...)`: item by item, in order. */
  function TranslateAll(user: int, items: seq<Item>): (out: seq<Event>)
    ensures |out| == |items|
    ensures forall i :: 0 <= i < |items| ==> out[i] == Translate(user, items[i])
  {
    seq(|items|, i requires 0 <= i < |items| => Translate(user, items[i]))
  }

  /** `welcome_stream.chain(main_stream)`. */
  function Stream(user: int, items: seq<Item>): seq<Event> {
    [WelcomeEvent(user)] + TranslateAll(user, items)
  }

  /** The notifications of `items` that are for `user`, in order. */
  function Deliverable(user: int, items: seq<Item>): (ns: seq<Notification>)
    ensures |ns| <= |items|
  {
    if items == [] then []
    else
      var rest := Deliverable(user, items[..|items| - 1]);
      var last := items[|items| - 1];
      if last.Got? && ForUser(last.n, user) then rest + [last.n] else rest
  }

  /** The notifications carried by the data events of `events`, in order. */
  function Forwards(events: seq<Event>): seq<Notification> {
    if events == [] then []
    else
      var rest := Forwards(events[..|events| - 1]);
      var last := events[|events| - 1];
      if last.Data? && last.payload.Forwarded? then rest + [last.payload.n] else rest
  }

  // ---------------------------------------------------------------------
  // Properties
  // ---------------------------------------------------------------------

  /** The stream opens with the welcome addressed to the user and then has
      exactly one event per item, in the order of the items. */
  lemma StreamShape(user: int, items: seq<Item>)
    ensures |Stream(user, items)| == 1 + |items|
    ensures Stream(user, items)[0] == WelcomeEvent(user)
    ensures Stream(user, items)[0].payload.recipient == user
    ensures forall i :: 0 <= i < |items| ==> Stream(user, items)[i + 1] == Translate(user, items[i])
  {
    var out := TranslateAll(user, items);
    var s := [WelcomeEvent(user)] + out;
    forall i | 0 <= i < |items| ensures s[i + 1] == Translate(user, items[i]) {
      assert s[i + 1] == out[i];
    }
  }

  /** The data events after the welcome carry exactly the notifications for
      the user, in the order they were received: none is lost, duplicated,
      reordered or delivered to someone else. */
  lemma {:induction false} ForwardsDeliverable(user: int, items: seq<Item>)
    ensures Forwards(TranslateAll(user, items)) == Deliverable(user, items)
  {
    if items != [] {
      var init := items[..|items| - 1];
      ForwardsDeliverable(user, init);
      var out := TranslateAll(user, items);
      assert out[..|out| - 1] == TranslateAll(user, init);
    }
  }

  /** The welcome forwards no notification, so the whole stream forwards
      exactly the deliverable ones. */
  lemma StreamForwards(user: int, items: seq<Item>)
    ensures Forwards(Stream(user, items)) == Deliverable(user, items)
  {
    ForwardsPrefix([WelcomeEvent(user)], TranslateAll(user, items));
    ForwardsDeliverable(user, items);
  }

  /** `Forwards` distributes over concatenation. */
  lemma {:induction false} ForwardsPrefix(a: seq<Event>, b: seq<Event>)
    ensures Forwards(a + b) == Forwards(a) + Forwards(b)
  {
    if b == [] {
      assert a + b == a;
    } else {
      var init := b[..|b| - 1];
      ForwardsPrefix(a, init);
      assert (a + b)[..|a + b| - 1] == a + init;
      assert (a + b)[|a + b| - 1] == b[|b| - 1];
    }
  }

  /** A user sees a notification addressed to someone else only as an
      "ignore" comment. */
  lemma OthersIgnored(user: int, items: seq<Item>, i: int)
    requires 0 <= i < |items| && items[i].Got? && items[i].n.recipient.Some? && items[i].n.recipient.value != user
    ensures Stream(user, items)[i + 1] == Comment("ignore")
  {
  }
}
