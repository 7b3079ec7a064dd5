/** The fan-out registries. A tokio broadcast channel is modelled by the
    history of everything sent into it; a receiver is a position in that
    history, so what a receiver gets is the part of the history sent after
    it subscribed. The ring buffer of 100 slots and its lag reports are not
    modelled here: a receiver is taken to keep up. */
module Realtime {
  import opened Wrappers
  import opened Domain

  /** The capacity every mission channel and room is created with. */
  const ChannelCapacity: nat := 100

  /** A broadcast channel (`broadcast::Sender<T>` and its shared queue). */
  class Channel<T> {
    /** Every value sent so far, oldest first. */
    var sent: seq<T>
    const capacity: nat

    constructor (capacity: nat)
      ensures sent == [] && this.capacity == capacity
    {
      sent := [];
      this.capacity := capacity;
    }

    /** `Sender::send` with its result ignored: a value with no receiver is
        simply seen by nobody. */
    method Send(x: T)
      modifies this
      ensures sent == old(sent) + [x]
    {
      sent := sent + [x];
    }

    /** `Sender::subscribe`: a receiver that starts at the current end. */
    method Subscribe() returns (rx: Receiver<T>)
      ensures rx.channel == this && rx.from == |sent|
      ensures Received(rx) == []
    {
      rx := Receiver(this, |sent|);
    }
  }

  /** `broadcast::Receiver<T>`: the channel and the position it started at. */
  datatype Receiver<T> = Receiver(channel: Channel<T>, from: nat)

  /** A receiver is live while its start lies within the history, which it
      does forever once it does, since histories only grow. */
  predicate Live<T>(rx: Receiver<T>)
    reads rx.channel
  {
    rx.from <= |rx.channel.sent|
  }

  /** What a receiver has been handed so far, in send order. */
  function Received<T>(rx: Receiver<T>): seq<T>
    reads rx.channel
    requires Live(rx)
  {
    rx.channel.sent[rx.from..]
  }

  /** Distinct keys never share a channel. */
  ghost predicate Injective<T>(m: map<int, Channel<T>>) {
    forall a, b :: a in m && b in m && a != b ==> m[a] != m[b]
  }

  // ---------------------------------------------------------------------
  // MissionRealtimeService (later revision)
  // ---------------------------------------------------------------------

  /** `MissionRealtimeService`: mission id to chat channel. */
  class MissionRealtime {
    var channels: map<int, Channel<ChatMessage>>

    ghost predicate Valid()
      reads this
    {
      Injective(channels)
    }

    constructor ()
      ensures Valid() && channels == map[]
    {
      channels := map[];
    }

    /** `get_channel`: the registered channel of the mission, or a new empty
        one of capacity 100 that is registered and returned. No entry is
        ever removed or replaced. */
    method GetChannel(missionId: int) returns (tx: Channel<ChatMessage>)
      requires Valid()
      modifies this
      ensures Valid()
      ensures missionId in channels && tx == channels[missionId]
      ensures missionId in old(channels) ==> channels == old(channels)
      ensures missionId !in old(channels) ==>
        fresh(tx) && tx.sent == [] && tx.capacity == ChannelCapacity
        && channels == old(channels)[missionId := tx]
    {
      if missionId in channels {
        tx := channels[missionId];
        return;
      }
      tx := new Channel(ChannelCapacity);
      channels := channels[missionId := tx];
    }

    /** `subscribe`: a receiver on the mission's channel, created if need
        be, that has received nothing yet. */
    method Subscribe(missionId: int) returns (rx: Receiver<ChatMessage>)
      requires Valid()
      modifies this
      ensures Valid()
      ensures missionId in channels && rx.channel == channels[missionId]
      ensures Live(rx) && Received(rx) == []
      ensures missionId in old(channels) ==> channels == old(channels)
      ensures missionId !in old(channels) ==> fresh(rx.channel) && channels == old(channels)[missionId := rx.channel]
    {
      var tx := GetChannel(missionId);
      rx := tx.Subscribe();
    }

    /** `broadcast`: creates the channel when absent and sends. Every live
        receiver of this mission gets the event at the end of what it has
        received; every receiver of another mission gets nothing. */
    method Broadcast(missionId: int, message: ChatMessage)
      requires Valid()
      modifies this, channels.Values
      ensures Valid()
      ensures missionId in channels
      ensures missionId in old(channels) ==> channels == old(channels)
      ensures missionId !in old(channels) ==> fresh(channels[missionId]) && channels == old(channels)[missionId := channels[missionId]]
      ensures channels[missionId].sent == (if missionId in old(channels) then old(channels[missionId].sent) else []) + [message]
      ensures forall k :: k in old(channels) && k != missionId ==> channels[k].sent == old(channels[k].sent)
      ensures forall rx: Receiver<ChatMessage> {:trigger Received(rx)} ::
        rx.channel in old(channels.Values) && old(Live(rx)) ==>
          Live(rx)
          && Received(rx) == old(Received(rx)) + (if rx.channel == channels[missionId] then [message] else [])
    {
      var tx := GetChannel(missionId);
      tx.Send(message);
      forall rx: Receiver<ChatMessage> | rx.channel in old(channels.Values) && old(Live(rx))
        ensures Live(rx) && Received(rx) == old(Received(rx)) + (if rx.channel == tx then [message] else [])
      {
        if rx.channel == tx {
          assert rx.channel.sent == old(rx.channel.sent) + [message];
          assert rx.channel.sent[rx.from..] == old(rx.channel.sent)[rx.from..] + [message];
        }
      }
    }
  }

  // ---------------------------------------------------------------------
  // MissionWebSocketService (earlier revision)
  // ---------------------------------------------------------------------

  /** `MissionWebSocketService`: mission id to a room carrying text frames. */
  class MissionRooms {
    var rooms: map<int, Channel<string>>

    ghost predicate Valid()
      reads this
    {
      Injective(rooms)
    }

    constructor ()
      ensures Valid() && rooms == map[]
    {
      rooms := map[];
    }

    /** `get_or_create_room`: the registered room, or a new one of capacity
        100, registered and returned. */
    method GetOrCreateRoom(missionId: int) returns (tx: Channel<string>)
      requires Valid()
      modifies this
      ensures Valid()
      ensures missionId in rooms && tx == rooms[missionId]
      ensures missionId in old(rooms) ==> rooms == old(rooms)
      ensures missionId !in old(rooms) ==>
        fresh(tx) && tx.sent == [] && tx.capacity == ChannelCapacity
        && rooms == old(rooms)[missionId := tx]
    {
      if missionId in rooms {
        tx := rooms[missionId];
        return;
      }
      tx := new Channel(ChannelCapacity);
      rooms := rooms[missionId := tx];
    }

    /** `broadcast`: the text goes unchanged into the mission's room when
        there is one; without a room nothing happens and no room is
        created. The registry itself never changes. */
    method Broadcast(missionId: int, message: string)
      requires Valid()
      modifies rooms.Values
      ensures rooms == old(rooms)
      ensures missionId in rooms ==> rooms[missionId].sent == old(rooms[missionId].sent) + [message]
      ensures forall k :: k in rooms && k != missionId ==> rooms[k].sent == old(rooms[k].sent)
      ensures missionId !in rooms ==> forall k :: k in rooms ==> rooms[k].sent == old(rooms[k].sent)
    {
      if missionId in rooms {
        rooms[missionId].Send(message);
      }
    }
  }

  // ---------------------------------------------------------------------
  // NotificationServiceImpl (earlier revision)
  // ---------------------------------------------------------------------

  /** `NotificationServiceImpl`: one global notification channel. */
  class NotificationHub {
    const sender: Channel<Notification>

    constructor (sender: Channel<Notification>)
      ensures this.sender == sender
    {
      this.sender := sender;
    }

    /** `send`: always `Ok`; the notification is put on the global channel
        unchanged, whoever it is addressed to, and with no receiver it is
        seen by nobody. */
    method Send(n: Notification) returns (r: Result<(), Error>)
      modifies sender
      ensures r == Ok(())
      ensures sender.sent == old(sender.sent) + [n]
    {
      sender.Send(n);
      r := Ok(());
    }
  }
}
