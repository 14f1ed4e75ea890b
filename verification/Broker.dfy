/** The in-memory broker (graphql/subscriptions/bus.go): the calls Publish, Subscribe and
    cancel, each running alone. BrokerInterleaving runs them concurrently. */
module Broker {
  import opened Results

  /** Payloads are opaque to the broker. */
  type Payload = string

  /** A bounded Go channel. */
  datatype Channel = Channel(capacity: nat, buffered: seq<Payload>, closed: bool)

  /** A channel is named by the id under which Subscribe registers it. */
  datatype Registry = Registry(subs: map<string, set<nat>>, channels: map<nat, Channel>, nextID: nat, buffer: nat)

  datatype BrokerError = InvalidTopic | ContextDone

  predicate Full(ch: Channel) { |ch.buffered| >= ch.capacity }

  /** `select { case ch <- payload: default: }` on an open channel. */
  function Offer(ch: Channel, payload: Payload): (r: Channel)
    ensures r.capacity == ch.capacity && r.closed == ch.closed
    ensures ch.buffered <= r.buffered && (r.buffered == ch.buffered <==> Full(ch))
  {
    if Full(ch) then ch else ch.(buffered := ch.buffered + [payload])
  }

  function Subscribers(subs: map<string, set<nat>>, topic: string): set<nat> {
    if topic in subs then subs[topic] else {}
  }

  ghost predicate OnTopic(subs: map<string, set<nat>>, topic: string, id: nat) {
    topic in subs && id in subs[topic]
  }

  ghost predicate Registered(subs: map<string, set<nat>>, id: nat) {
    exists topic :: OnTopic(subs, topic, id)
  }

  /** No registered topic is empty, an id is on one topic only, ids are never reused, a channel
      is open exactly while it is registered, and it holds no more than its capacity. */
  ghost predicate Consistent(b: Registry) {
    && b.buffer > 0
    && (forall topic :: topic in b.subs ==> b.subs[topic] != {})
    && (forall id: nat :: id in b.channels <==> id < b.nextID)
    && (forall topic, id {:trigger OnTopic(b.subs, topic, id)} :: OnTopic(b.subs, topic, id) ==> id in b.channels)
    && (forall topic, other, id {:trigger OnTopic(b.subs, topic, id), OnTopic(b.subs, other, id)} ::
      OnTopic(b.subs, topic, id) && OnTopic(b.subs, other, id) ==> topic == other)
    && (forall id {:trigger b.channels[id]} :: id in b.channels ==>
      (!b.channels[id].closed <==> Registered(b.subs, id)))
    && (forall id :: id in b.channels ==>
      0 < b.channels[id].capacity && |b.channels[id].buffered| <= b.channels[id].capacity)
  }

  /** `payload` offered to the channels of `ids`. */
  function Offered(b: Registry, ids: set<nat>, payload: Payload): Registry {
    b.(channels := map id | id in b.channels :: if id in ids then Offer(b.channels[id], payload) else b.channels[id])
  }

  /** A new channel on the topic. */
  function Joined(b: Registry, topic: string, capacity: nat): Registry {
    b.(subs := b.subs[topic := Subscribers(b.subs, topic) + {b.nextID}],
    channels := b.channels[b.nextID := Channel(capacity, [], false)],
    nextID := b.nextID + 1)
  }

  /** The channel is off the topic and closed; a topic without channels is removed. */
  function Left(b: Registry, topic: string, id: nat): Registry
    requires id in b.channels
  {
    if topic !in b.subs || id !in b.subs[topic] then b
    else
      var rest := b.subs[topic] - {id};
      b.(subs := if rest == {} then b.subs - {topic} else b.subs[topic := rest],
      channels := b.channels[id := b.channels[id].(closed := true)])
  }

  lemma OfferedConsistent(b: Registry, ids: set<nat>, payload: Payload)
    requires Consistent(b)
    ensures Consistent(Offered(b, ids, payload))
  {
    hide Registered, OnTopic;
  }

  lemma JoinedConsistent(b: Registry, topic: string, capacity: nat)
    requires Consistent(b) && capacity > 0
    ensures Consistent(Joined(b, topic, capacity))
    ensures forall t, id :: OnTopic(Joined(b, topic, capacity).subs, t, id) <==>
      OnTopic(b.subs, t, id) || (t == topic && id == b.nextID)
  {
    var b' := Joined(b, topic, capacity);
    assert forall t, id :: OnTopic(b'.subs, t, id) <==> OnTopic(b.subs, t, id) || (t == topic && id == b.nextID);
    assert OnTopic(b'.subs, topic, b.nextID);
    forall id | id in b.channels ensures Registered(b'.subs, id) <==> Registered(b.subs, id) {
      if Registered(b.subs, id) {
        var t :| OnTopic(b.subs, t, id);
        assert OnTopic(b'.subs, t, id);
      }
    }
  }

  lemma LeftSubs(b: Registry, topic: string, id: nat)
    requires Consistent(b) && id in b.channels && OnTopic(b.subs, topic, id)
    ensures forall t, i :: OnTopic(Left(b, topic, id).subs, t, i) <==> OnTopic(b.subs, t, i) && i != id
  {
    var b' := Left(b, topic, id);
    forall t, i ensures OnTopic(b'.subs, t, i) <==> OnTopic(b.subs, t, i) && i != id {
      if t == topic {
        assert i in b.subs[topic] && i != id <==> i in b.subs[topic] - {id};
      } else {
        assert i == id && OnTopic(b.subs, t, i) && OnTopic(b.subs, topic, id) ==> t == topic;
      }
    }
  }

  lemma LeftConsistent(b: Registry, topic: string, id: nat)
    requires Consistent(b) && id in b.channels
    ensures Consistent(Left(b, topic, id))
  {
    if OnTopic(b.subs, topic, id) {
      LeftSubs(b, topic, id);
      var b' := Left(b, topic, id);
      forall i | i in b.channels ensures Registered(b'.subs, i) <==> Registered(b.subs, i) && i != id {
        if Registered(b.subs, i) && i != id {
          var t :| OnTopic(b.subs, t, i);
          assert OnTopic(b'.subs, t, i);
        }
      }
      assert Registered(b.subs, id);
    }
  }

  class InMemoryBroker {
    var subs: map<string, set<nat>>
    var channels: map<nat, Channel>
    var nextID: nat
    var buffer: nat

    function Value(): Registry
      reads this
    {
      Registry(subs, channels, nextID, buffer)
    }

    ghost predicate Valid()
      reads this
    {
      Consistent(Value())
    }

    constructor ()
      ensures Valid() && Value() == Registry(map[], map[], 0, 1)
    {
      subs, channels, nextID, buffer := map[], map[], 0, 1;
    }

    method WithBuffer(size: int)
      requires Valid()
      modifies this`buffer
      ensures Valid() && buffer == if size <= 0 then 1 else size
    {
      buffer := if size <= 0 then 1 else size;
    }

    /** Offers the payload to every channel of the topic; if the context ends meanwhile,
        only to some of them. No send is on a closed channel. */
    method Publish(topic: string, payload: Payload) returns (r: Result<(), BrokerError>)
      requires Valid()
      modifies this`channels
      ensures Valid()
      ensures r == Err(InvalidTopic) <==> topic == ""
      ensures r.Ok? ==> Value() == Offered(old(Value()), Subscribers(subs, topic), payload)
      ensures r.Err? ==>
        exists reached :: reached <= Subscribers(subs, topic) && Value() == Offered(old(Value()), reached, payload)
      ensures r.Err? && r.error.ContextDone? ==> topic in subs
    {
      ghost var reached: set<nat> := {};
      OfferedNone(Value(), payload);
      if topic == "" {
        return Err(InvalidTopic);
      }
      if topic !in subs {
        return Ok(());
      }
      var remaining := subs[topic];
      while remaining != {}
        invariant remaining <= subs[topic] && reached == subs[topic] - remaining
        invariant Value() == Offered(old(Value()), reached, payload)
        invariant Valid()
        decreases |remaining|
      {
        var done := *;
        if done {
          return Err(ContextDone);
        }
        var id :| id in remaining;
        assert OnTopic(subs, topic, id) && !channels[id].closed;
        OfferedMore(old(Value()), reached, id, payload);
        OfferedConsistent(old(Value()), reached + {id}, payload);
        channels := channels[id := Offer(channels[id], payload)];
        remaining, reached := remaining - {id}, reached + {id};
      }
      assert reached == subs[topic];
      return Ok(());
    }

    /** A new id and a new open channel on the topic; the others are as before. */
    method Subscribe(topic: string) returns (r: Result<nat, BrokerError>)
      requires Valid()
      modifies this`subs, this`channels, this`nextID
      ensures Valid()
      ensures r.Err? <==> topic == ""
      ensures r.Err? ==> r.error.InvalidTopic? && Value() == old(Value())
      ensures r.Ok? ==> r.value == old(nextID) && Value() == Joined(old(Value()), topic, buffer)
      ensures r.Ok? ==> nextID == r.value + 1 && r.value !in old(channels)
      ensures r.Ok? ==> channels == old(channels)[r.value := Channel(buffer, [], false)]
      ensures r.Ok? ==> subs == old(subs)[topic := (if topic in old(subs) then old(subs)[topic] else {}) + {r.value}]
    {
      if topic == "" {
        return Err(InvalidTopic);
      }
      JoinedConsistent(Value(), topic, buffer);
      var ch := Channel(buffer, [], false);
      if topic !in subs {
        subs := subs[topic := {}];
      }
      var id := nextID;
      nextID := nextID + 1;
      subs := subs[topic := subs[topic] + {id}];
      channels := channels[id := ch];
      assert subs == Joined(old(Value()), topic, buffer).subs;
      return Ok(id);
    }

    /** The body of the cancel function that Subscribe returned for `topic` and `id`; it
        closes no closed channel, however often it runs. */
    method Cancel(topic: string, id: nat)
      requires Valid() && id in channels
      modifies this`subs, this`channels
      ensures Valid()
      ensures Value() == Left(old(Value()), topic, id)
      ensures var registered := topic in old(subs) && id in old(subs)[topic];
        && channels == (if registered then old(channels)[id := old(channels)[id].(closed := true)] else old(channels))
        && subs == (if !registered then old(subs)
          else if old(subs)[topic] == {id} then old(subs) - {topic}
          else old(subs)[topic := old(subs)[topic] - {id}])
    {
      LeftConsistent(Value(), topic, id);
      if topic in subs {
        assert subs[topic] != {};
        var rest := subs[topic];
        if id in rest {
          assert OnTopic(subs, topic, id) && !channels[id].closed;
          rest := rest - {id};
          subs := subs[topic := rest];
          channels := channels[id := channels[id].(closed := true)];
        }
        if |rest| == 0 {
          subs := subs - {topic};
        }
        assert subs == Left(old(Value()), topic, id).subs;
      }
    }
  }

  lemma OfferedNone(b: Registry, payload: Payload)
    ensures Offered(b, {}, payload) == b
  {
    assert Offered(b, {}, payload).channels == b.channels;
  }

  /** An offer to some channels: each of them with room takes the payload at the end of its buffer,
      and nothing else changes. */
  lemma OfferedAt(b: Registry, ids: set<nat>, payload: Payload)
    ensures var b' := Offered(b, ids, payload);
      && b' == b.(channels := b'.channels) && b'.channels.Keys == b.channels.Keys
      && forall id :: id in b.channels ==> var ch := b.channels[id];
        b'.channels[id] == if id in ids && |ch.buffered| < ch.capacity then
          Channel(ch.capacity, ch.buffered + [payload], ch.closed) else ch
  {
  }

  lemma OfferedMore(b: Registry, ids: set<nat>, id: nat, payload: Payload)
    requires id in b.channels && id !in ids
    ensures id in Offered(b, ids, payload).channels
    ensures Offered(b, ids + {id}, payload).channels
      == Offered(b, ids, payload).channels[id := Offer(Offered(b, ids, payload).channels[id], payload)]
  {
  }
}
