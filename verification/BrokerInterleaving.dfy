/** Publish, Subscribe, cancel and receive of any number of goroutines, interleaved under the
    read-write lock of the broker (graphql/subscriptions/bus.go). A publisher holds the read
    lock from the start to the end of its loop; the sections under the write lock are single
    steps that no publisher overlaps. Go's panics on closed channels are part of the state. */
module BrokerInterleaving {
  import opened Broker

  /** One call of Publish: its targets are the channels of the topic when it took the lock,
      `reached` those to which it has offered the payload so far, and `failed` says that its
      context ended before it was through. */
  datatype Publication = Publication(topic: string, payload: Payload, targets: set<nat>, reached: set<nat>,
      failed: bool)

  /** An offer to a channel: publisher, number of its Publish call, and whether there was room. */
  datatype Message = Message(publisher: nat, number: nat, payload: Payload, kept: bool)

  /** `joined` counts the calls that each publisher had made when the subscriber registered. */
  datatype Subscriber = Subscriber(topic: string, joined: map<nat, nat>, offers: seq<Message>, received: seq<Payload>)

  datatype State = State(
    broker: Registry,
    making: map<nat, (string, nat)>,
    active: set<nat>,
    published: map<nat, seq<Publication>>,
    subscribers: map<nat, Subscriber>,
    cancelled: set<nat>,
    panicked: bool)

  datatype Step =
    | MakeChannel(thread: nat, topic: string)
    | Register(thread: nat)
    | Cancel(id: nat)
    | SetBuffer(size: int)
    | StartPublish(publisher: nat, topic: string, payload: Payload)
    | Send(publisher: nat, id: nat)
    | EndPublish(publisher: nat)
    | ContextEnds(publisher: nat)
    | Receive(id: nat)

  ghost predicate Init(s: State) {
    s == State(Registry(map[], map[], 0, 1), map[], {}, map[], map[], {}, false)
  }

  function Calls(published: map<nat, seq<Publication>>, p: nat): seq<Publication> {
    if p in published then published[p] else []
  }

  function JoinedAt(sub: Subscriber, p: nat): nat {
    if p in sub.joined then sub.joined[p] else 0
  }

  /** The channels that the publisher in its loop has still to visit. */
  function Remaining(s: State, p: nat): set<nat> {
    var calls := Calls(s.published, p);
    if calls == [] then {} else calls[|calls| - 1].targets - calls[|calls| - 1].reached
  }

  function Sent(s: State, p: nat, id: nat): State
    requires Calls(s.published, p) != [] && id in s.broker.channels && id in s.subscribers
  {
    var calls := s.published[p];
    var n := |calls| - 1;
    var ch, sub := s.broker.channels[id], s.subscribers[id];
    s.(broker := Offered(s.broker, {id}, calls[n].payload),
    published := s.published[p := calls[n := calls[n].(reached := calls[n].reached + {id})]],
    subscribers := s.subscribers[id := sub.(offers := sub.offers + [Message(p, n, calls[n].payload, !Full(ch))])],
    panicked := s.panicked || ch.closed)
  }

  function Failed(s: State, p: nat): State
    requires Calls(s.published, p) != []
  {
    var calls := s.published[p];
    var n := |calls| - 1;
    s.(active := s.active - {p}, published := s.published[p := calls[n := calls[n].(failed := true)]])
  }

  function Cancelled(s: State, id: nat): State
    requires id in s.broker.channels && id in s.subscribers
  {
    var topic := s.subscribers[id].topic;
    var closes := topic in s.broker.subs && id in s.broker.subs[topic];
    s.(broker := Left(s.broker, topic, id),
    cancelled := s.cancelled + {id},
    panicked := s.panicked || (closes && s.broker.channels[id].closed))
  }

  function Registers(s: State, thread: nat): State
    requires thread in s.making
  {
    var (topic, capacity) := s.making[thread];
    s.(broker := Joined(s.broker, topic, capacity),
    making := s.making - {thread},
    subscribers :=
      s.subscribers[s.broker.nextID := Subscriber(topic, map p | p in s.published :: |s.published[p]|, [], [])])
  }

  function Received(s: State, id: nat): State
    requires id in s.broker.channels && s.broker.channels[id].buffered != [] && id in s.subscribers
  {
    var ch, sub := s.broker.channels[id], s.subscribers[id];
    s.(broker := s.broker.(channels := s.broker.channels[id := ch.(buffered := ch.buffered[1..])]),
    subscribers := s.subscribers[id := sub.(received := sub.received + [ch.buffered[0]])])
  }

  ghost predicate NextStep(s: State, s': State, step: Step) {
    match step
    // The buffer size is read before the lock is taken.
    case MakeChannel(thread, topic) =>
      topic != "" && thread !in s.making && s' == s.(making := s.making[thread := (topic, s.broker.buffer)])
    case Register(thread) =>
      s.active == {} && thread in s.making && s' == Registers(s, thread)
    // An explicit cancel or the end of the subscriber's context; only the first has an effect.
    case Cancel(id) =>
      && id in s.broker.channels && id in s.subscribers
      && if id in s.cancelled then s' == s else s.active == {} && s' == Cancelled(s, id)
    case SetBuffer(size) =>
      s.active == {} && s' == s.(broker := s.broker.(buffer := if size <= 0 then 1 else size))
    case StartPublish(p, topic, payload) =>
      && topic != "" && p !in s.active
      && s' == s.(active := s.active + {p},
      published :=
        s.published[p :=
          Calls(s.published, p) + [Publication(topic, payload, Subscribers(s.broker.subs, topic), {}, false)]])
    case Send(p, id) =>
      p in s.active && id in Remaining(s, p) && id in s.broker.channels && id in s.subscribers && s' == Sent(s, p, id)
    case EndPublish(p) =>
      p in s.active && Remaining(s, p) == {} && s' == s.(active := s.active - {p})
    case ContextEnds(p) =>
      p in s.active && Remaining(s, p) != {} && s' == Failed(s, p)
    // Also possible after the channel is closed, which leaves its buffer readable.
    case Receive(id) =>
      id in s.broker.channels && id in s.subscribers && s.broker.channels[id].buffered != [] && s' == Received(s, id)
  }

  ghost predicate Next(s: State, s': State) {
    exists step :: NextStep(s, s', step)
  }

  ghost predicate Reaches(trace: seq<State>) {
    trace != [] && Init(trace[0]) && forall i {:trigger trace[i]} :: 0 < i < |trace| ==> Next(trace[i - 1], trace[i])
  }

  // Registration

  /** The registry is consistent, each id has one subscriber, registered until it is cancelled,
      and while a publisher is in its loop its targets are the channels of its topic. */
  ghost predicate Registrations(s: State) {
    && Consistent(s.broker)
    && (forall thread :: thread in s.making ==> s.making[thread].1 > 0)
    && s.subscribers.Keys == s.broker.channels.Keys
    && s.cancelled <= s.subscribers.Keys
    && (forall topic, id {:trigger OnTopic(s.broker.subs, topic, id)} ::
      OnTopic(s.broker.subs, topic, id) <==>
        id in s.subscribers && id !in s.cancelled && topic == s.subscribers[id].topic)
  }

  ghost predicate Publishing(s: State, p: nat) {
    var calls := Calls(s.published, p);
    && calls != []
    && var last := calls[|calls| - 1];
      last.targets == Subscribers(s.broker.subs, last.topic)
  }

  ghost predicate Publishers(s: State) {
    forall p :: p in s.active ==> Publishing(s, p)
  }

  lemma RegisterKeeps(s: State, thread: nat)
    requires Registrations(s) && thread in s.making
    ensures Registrations(Registers(s, thread))
  {
    JoinedConsistent(s.broker, s.making[thread].0, s.making[thread].1);
    NextIdIsNew(s.broker);
    hide Consistent, OnTopic;
  }

  lemma CancelKeeps(s: State, id: nat)
    requires Registrations(s) && id in s.subscribers && id !in s.cancelled
    ensures Registrations(Cancelled(s, id))
  {
    var topic := s.subscribers[id].topic;
    LeftConsistent(s.broker, topic, id);
    assert OnTopic(s.broker.subs, topic, id);
    LeftSubs(s.broker, topic, id);
    assert Left(s.broker, topic, id).channels.Keys == s.broker.channels.Keys;
    hide Consistent, OnTopic, Left;
  }

  lemma SendKeeps(s: State, p: nat, id: nat)
    requires Registrations(s) && id in s.broker.channels && id in s.subscribers && Calls(s.published, p) != []
    ensures Registrations(Sent(s, p, id))
  {
    OfferedConsistent(s.broker, {id}, s.published[p][|s.published[p]| - 1].payload);
    hide Consistent, OnTopic, Full;
  }

  lemma BufferKeeps(b: Registry, b': Registry)
    requires Consistent(b) && b'.subs == b.subs && b'.nextID == b.nextID && b'.buffer > 0
    requires b'.channels.Keys == b.channels.Keys
    requires forall id :: id in b.channels ==> var ch, ch' := b.channels[id], b'.channels[id];
      ch'.closed == ch.closed && ch'.capacity == ch.capacity && |ch'.buffered| <= |ch.buffered|
    ensures Consistent(b')
  {
    hide OnTopic, Registered;
  }

  lemma ReceiveKeeps(s: State, id: nat)
    requires Registrations(s) && id in s.broker.channels && s.broker.channels[id].buffered != [] && id in s.subscribers
    ensures Registrations(Received(s, id))
  {
    BufferKeeps(s.broker, Received(s, id).broker);
    hide Consistent, OnTopic;
  }

  lemma SetBufferKeeps(s: State, size: int)
    requires Registrations(s)
    ensures Registrations(s.(broker := s.broker.(buffer := if size <= 0 then 1 else size)))
  {
    BufferKeeps(s.broker, s.broker.(buffer := if size <= 0 then 1 else size));
    hide Consistent, OnTopic;
  }

  /** Steps that leave the registry and the subscribers alone. */
  lemma OthersKeep(s: State, s': State)
    requires Registrations(s) && s'.broker == s.broker && s'.subscribers == s.subscribers && s'.cancelled == s.cancelled
    requires forall thread :: thread in s'.making ==> s'.making[thread].1 > 0
    ensures Registrations(s')
  {
    hide Consistent, OnTopic;
  }

  lemma RegistrationsStep(s: State, s': State, step: Step)
    requires Registrations(s) && NextStep(s, s', step)
    ensures Registrations(s')
  {
    PositiveBuffer(s.broker);
    assert forall thread :: thread in s.making ==> s.making[thread].1 > 0;
    hide Registrations, Consistent, OnTopic, Full, Sent, Failed, Registers, Cancelled, Received;
    match step
    case Register(thread) => RegisterKeeps(s, thread);
    case Cancel(id) => if id !in s.cancelled { CancelKeeps(s, id); }
    case Send(p, id) => SendKeeps(s, p, id);
    case Receive(id) => ReceiveKeeps(s, id);
    case SetBuffer(size) => SetBufferKeeps(s, size);
    case ContextEnds(p) => FailedKeeps(s, p);
    case _ => OthersKeep(s, s');
  }

  lemma FailedKeeps(s: State, p: nat)
    requires Registrations(s) && Calls(s.published, p) != []
    ensures Registrations(Failed(s, p))
  {
    OthersKeep(s, Failed(s, p));
  }

  lemma PositiveBuffer(b: Registry)
    requires Consistent(b)
    ensures b.buffer > 0
  {
  }

  lemma NextIdIsNew(b: Registry)
    requires Consistent(b)
    ensures b.nextID !in b.channels
  {
  }

  lemma PublishersStep(s: State, s': State, step: Step)
    requires Publishers(s) && NextStep(s, s', step)
    ensures Publishers(s')
  {
    hide Full;
    forall p | p in s'.active ensures Publishing(s', p) {
      assert p in s.active ==> Publishing(s, p);
    }
  }

  /** A channel that a publisher has still to visit is registered, hence open. */
  lemma TargetsAreOpen(s: State, p: nat, id: nat)
    requires Registrations(s) && Publishing(s, p) && id in Remaining(s, p)
    ensures id in s.broker.channels && !s.broker.channels[id].closed
  {
    var calls := Calls(s.published, p);
    assert OnTopic(s.broker.subs, calls[|calls| - 1].topic, id);
  }

  /** The channel is opened or closed by the step. */
  ghost predicate Closes(s: State, s': State, id: nat) {
    && id in s.broker.channels && id in s'.broker.channels
    && s.broker.channels[id].closed != s'.broker.channels[id].closed
  }

  /** No step sends on a closed channel or closes one; and a channel is closed by its first cancel
      alone. */
  lemma NoPanic(s: State, s': State, step: Step)
    requires Registrations(s) && Publishers(s) && !s.panicked && NextStep(s, s', step)
    ensures !s'.panicked
    ensures step.Send? ==> !s.broker.channels[step.id].closed
    ensures step.Cancel? && step.id !in s.cancelled ==>
      !s.broker.channels[step.id].closed && s'.broker.channels[step.id].closed
    ensures forall id :: Closes(s, s', id) ==> step == Cancel(id) && id !in s.cancelled
  {
    hide Consistent, Offered, Joined;
    forall id | Closes(s, s', id) ensures step == Cancel(id) && id !in s.cancelled { ClosedByCancel(s, s', step, id); }
    match step
    case Send(p, id) => TargetsAreOpen(s, p, id);
    case Cancel(id) =>
      if id !in s.cancelled {
        OpenUntilCancelled(s, id);
        FirstCancelCloses(s, id);
      }
    case _ =>
  }

  lemma ClosedByCancel(s: State, s': State, step: Step, id: nat)
    requires Registrations(s) && NextStep(s, s', step) && Closes(s, s', id)
    ensures step == Cancel(id) && id !in s.cancelled
  {
    assert s.broker.nextID !in s.broker.channels;
    hide Consistent;
  }

  lemma FirstCancelCloses(s: State, id: nat)
    requires Registrations(s) && id in s.subscribers && id !in s.cancelled
    ensures id in s.broker.channels && Cancelled(s, id).broker.channels[id].closed
  {
    hide Consistent;
    assert OnTopic(s.broker.subs, s.subscribers[id].topic, id);
  }

  lemma OpenUntilCancelled(s: State, id: nat)
    requires Registrations(s) && id in s.subscribers
    ensures s.broker.channels[id].closed <==> id in s.cancelled
  {
    if id !in s.cancelled {
      assert OnTopic(s.broker.subs, s.subscribers[id].topic, id);
    } else {
      assert forall topic :: !OnTopic(s.broker.subs, topic, id);
    }
  }

  // Delivery

  function Kept(offers: seq<Message>): seq<Payload> {
    if offers == [] then []
    else
      var last := offers[|offers| - 1];
      Kept(offers[..|offers| - 1]) + (if last.kept then [last.payload] else [])
  }

  /** The numbers of one publisher's calls among the offers. */
  function NumbersFrom(offers: seq<Message>, p: nat): seq<nat> {
    if offers == [] then []
    else
      var last := offers[|offers| - 1];
      NumbersFrom(offers[..|offers| - 1], p) + (if last.publisher == p then [last.number] else [])
  }

  /** In ascending order, the numbers of the calls that have reached the subscriber. */
  function Reached(calls: seq<Publication>, id: nat): (r: seq<nat>)
    ensures forall n :: n in r ==> n < |calls|
  {
    if calls == [] then []
    else
      var n := |calls| - 1;
      Reached(calls[..n], id) + (if id in calls[n].reached then [n] else [])
  }

  /** What a subscriber has received followed by what its channel holds is what it was offered,
      less what found the channel full; and each publisher's calls were offered once, in order,
      with the payload published. */
  ghost predicate Delivered(published: map<nat, seq<Publication>>, id: nat, sub: Subscriber, buffered: seq<Payload>) {
    && sub.received + buffered == Kept(sub.offers)
    && (forall p :: NumbersFrom(sub.offers, p) == Reached(Calls(published, p), id))
    && (forall m :: m in sub.offers ==> OfferOf(published, m))
  }

  ghost predicate OfferOf(published: map<nat, seq<Publication>>, m: Message) {
    m.number < |Calls(published, m.publisher)| && Calls(published, m.publisher)[m.number].payload == m.payload
  }

  /** A call targets a registered subscriber exactly if it is on the topic and joined before. */
  ghost predicate Targets(call: Publication, n: nat, id: nat, sub: Subscriber, from: nat, cancelled: bool) {
    && (id in call.targets ==> from <= n && call.topic == sub.topic)
    && (from <= n && call.topic == sub.topic && !cancelled ==> id in call.targets)
  }

  ghost predicate Targeted(published: map<nat, seq<Publication>>, id: nat, sub: Subscriber, cancelled: bool) {
    forall p, n {:trigger Calls(published, p)[n]} :: 0 <= n < |Calls(published, p)| ==>
      Targets(Calls(published, p)[n], n, id, sub, JoinedAt(sub, p), cancelled)
  }

  /** A call offers to its targets only, and to all of them unless it fails. */
  ghost predicate Progress(s: State, p: nat, n: nat)
    requires n < |Calls(s.published, p)|
  {
    var call := Calls(s.published, p)[n];
    && call.reached <= call.targets <= s.subscribers.Keys
    && (call.failed || call.reached == call.targets || (p in s.active && n == |Calls(s.published, p)| - 1))
  }

  ghost predicate AllProgress(s: State) {
    forall p, n {:trigger Calls(s.published, p)[n]} :: 0 <= n < |Calls(s.published, p)| ==> Progress(s, p, n)
  }

  ghost predicate AllDelivered(s: State) {
    forall id :: id in s.subscribers ==>
      id in s.broker.channels && Delivered(s.published, id, s.subscribers[id], s.broker.channels[id].buffered)
  }

  ghost predicate AllTargeted(s: State) {
    forall id :: id in s.subscribers ==> Targeted(s.published, id, s.subscribers[id], id in s.cancelled)
  }

  lemma ReachedLast(calls: seq<Publication>, last: Publication, id: nat)
    ensures Reached(calls + [last], id) == Reached(calls, id) + (if id in last.reached then [|calls|] else [])
  {
    assert (calls + [last])[..|calls|] == calls;
  }

  /** Changing the last call without reaching a further channel. */
  lemma ReachedSame(calls: seq<Publication>, last: Publication, id: nat)
    requires calls != [] && (id in last.reached <==> id in calls[|calls| - 1].reached)
    ensures Reached(calls[|calls| - 1 := last], id) == Reached(calls, id)
  {
    var init := calls[..|calls| - 1];
    ReachedLast(init, last, id);
    assert calls[|calls| - 1 := last] == init + [last];
  }

  lemma ReachedMore(calls: seq<Publication>, last: Publication, id: nat)
    requires calls != [] && id in last.reached && id !in calls[|calls| - 1].reached
    ensures Reached(calls[|calls| - 1 := last], id) == Reached(calls, id) + [|calls| - 1]
  {
    var init := calls[..|calls| - 1];
    ReachedLast(init, last, id);
    assert calls[|calls| - 1 := last] == init + [last];
    assert Reached(init, id) + [] == Reached(init, id);
  }

  lemma {:induction false} ReachedNone(calls: seq<Publication>, id: nat)
    requires forall n :: 0 <= n < |calls| ==> id !in calls[n].reached
    ensures Reached(calls, id) == []
  {
    if calls != [] { ReachedNone(calls[..|calls| - 1], id); }
  }

  lemma NumbersLast(offers: seq<Message>, m: Message, p: nat)
    ensures NumbersFrom(offers + [m], p) == NumbersFrom(offers, p) + (if m.publisher == p then [m.number] else [])
  {
    assert (offers + [m])[..|offers|] == offers;
  }

  lemma KeptLast(offers: seq<Message>, m: Message)
    ensures Kept(offers + [m]) == Kept(offers) + (if m.kept then [m.payload] else [])
  {
    assert (offers + [m])[..|offers|] == offers;
  }

  /** The calls reach the channel as before, with the same payloads. */
  ghost predicate Similar(published: map<nat, seq<Publication>>, published': map<nat, seq<Publication>>, id: nat) {
    forall p: nat :: SimilarCalls(Calls(published, p), Calls(published', p), id)
  }

  ghost predicate SimilarCalls(calls: seq<Publication>, calls': seq<Publication>, id: nat) {
    && Reached(calls', id) == Reached(calls, id) && |calls| <= |calls'|
    && forall n :: 0 <= n < |calls| ==> calls'[n].payload == calls[n].payload
  }

  /** Calls that offer nothing new leave a delivery as it is. */
  lemma DeliveredFrame(published: map<nat, seq<Publication>>, published': map<nat, seq<Publication>>, id: nat,
      sub: Subscriber, buffered: seq<Payload>)
    requires Delivered(published, id, sub, buffered) && Similar(published, published', id)
    ensures Delivered(published', id, sub, buffered)
  {
    hide Reached, NumbersFrom, Kept, Calls;
    forall p: nat ensures NumbersFrom(sub.offers, p) == Reached(Calls(published', p), id) {
      assert SimilarCalls(Calls(published, p), Calls(published', p), id);
    }
    forall m | m in sub.offers ensures OfferOf(published', m) {
      assert OfferOf(published, m);
      assert SimilarCalls(Calls(published, m.publisher), Calls(published', m.publisher), id);
    }
  }

  lemma OneChanged(published: map<nat, seq<Publication>>, p: nat, calls: seq<Publication>, id: nat)
    requires SimilarCalls(Calls(published, p), calls, id)
    ensures Similar(published, published[p := calls], id)
  {
    hide Reached;
    forall q: nat ensures SimilarCalls(Calls(published, q), Calls(published[p := calls], q), id) {
      assert Calls(published[p := calls], q) == if q == p then calls else Calls(published, q);
    }
  }

  lemma NewCallSimilar(calls: seq<Publication>, call: Publication, id: nat)
    requires id !in call.reached
    ensures SimilarCalls(calls, calls + [call], id)
  {
    ReachedLast(calls, call, id);
    hide Reached;
    assert Reached(calls, id) + [] == Reached(calls, id);
  }

  lemma LastCallSimilar(calls: seq<Publication>, last: Publication, id: nat)
    requires calls != [] && last.payload == calls[|calls| - 1].payload
    requires id in last.reached <==> id in calls[|calls| - 1].reached
    ensures SimilarCalls(calls, calls[|calls| - 1 := last], id)
  {
    ReachedSame(calls, last, id);
    hide Reached;
  }

  lemma StartDelivers(s: State, s': State, p: nat, topic: string, payload: Payload, id: nat)
    requires NextStep(s, s', StartPublish(p, topic, payload)) && id in s.subscribers && AllDelivered(s)
    ensures Delivered(s'.published, id, s'.subscribers[id], s'.broker.channels[id].buffered)
  {
    hide Reached, Delivered, SimilarCalls, Similar;
    var call := Publication(topic, payload, Subscribers(s.broker.subs, topic), {}, false);
    NewCallSimilar(Calls(s.published, p), call, id);
    OneChanged(s.published, p, Calls(s.published, p) + [call], id);
    DeliveredFrame(s.published, s'.published, id, s.subscribers[id], s.broker.channels[id].buffered);
  }

  lemma FailDelivers(s: State, p: nat, id: nat)
    requires Calls(s.published, p) != [] && id in s.subscribers && AllDelivered(s)
    ensures Delivered(Failed(s, p).published, id, s.subscribers[id], s.broker.channels[id].buffered)
  {
    hide Reached, Delivered, SimilarCalls, Similar;
    var calls := Calls(s.published, p);
    LastCallSimilar(calls, calls[|calls| - 1].(failed := true), id);
    OneChanged(s.published, p, calls[|calls| - 1 := calls[|calls| - 1].(failed := true)], id);
    DeliveredFrame(s.published, Failed(s, p).published, id, s.subscribers[id], s.broker.channels[id].buffered);
  }

  lemma SendDeliversOthers(s: State, p: nat, other: nat, id: nat)
    requires Calls(s.published, p) != [] && other in s.broker.channels && other in s.subscribers
    requires id in s.subscribers && id != other
    requires AllDelivered(s)
    ensures var s' := Sent(s, p, other);
      Delivered(s'.published, id, s'.subscribers[id], s'.broker.channels[id].buffered)
  {
    hide Reached, Delivered, SimilarCalls, Similar;
    var calls := Calls(s.published, p);
    var last := calls[|calls| - 1];
    LastCallSimilar(calls, last.(reached := last.reached + {other}), id);
    OneChanged(s.published, p, calls[|calls| - 1 := last.(reached := last.reached + {other})], id);
    DeliveredFrame(s.published, Sent(s, p, other).published, id, s.subscribers[id], s.broker.channels[id].buffered);
  }

  /** The published calls after the one of `p` has reached the channel. */
  function Reach(published: map<nat, seq<Publication>>, p: nat, id: nat): map<nat, seq<Publication>>
    requires Calls(published, p) != []
  {
    var calls := published[p];
    published[p := calls[|calls| - 1 := calls[|calls| - 1].(reached := calls[|calls| - 1].reached + {id})]]
  }

  lemma SendNumbers(published: map<nat, seq<Publication>>, p: nat, id: nat, offers: seq<Message>, m: Message, q: nat)
    requires Calls(published, p) != [] && id !in published[p][|published[p]| - 1].reached
    requires m.publisher == p && m.number == |published[p]| - 1
    requires NumbersFrom(offers, q) == Reached(Calls(published, q), id)
    ensures NumbersFrom(offers + [m], q) == Reached(Calls(Reach(published, p, id), q), id)
  {
    NumbersLast(offers, m, q);
    if q == p {
      var last := published[p][|published[p]| - 1];
      ReachedMore(published[p], last.(reached := last.reached + {id}), id);
    }
  }

  lemma SendDelivers(published: map<nat, seq<Publication>>, p: nat, id: nat, sub: Subscriber, ch: Channel)
    requires Calls(published, p) != [] && id !in published[p][|published[p]| - 1].reached
    requires Delivered(published, id, sub, ch.buffered)
    ensures var last := published[p][|published[p]| - 1];
      var m := Message(p, |published[p]| - 1, last.payload, !Full(ch));
      Delivered(Reach(published, p, id), id, sub.(offers := sub.offers + [m]), Offer(ch, last.payload).buffered)
  {
    hide Reached, NumbersFrom, Kept;
    var published' := Reach(published, p, id);
    var last := published[p][|published[p]| - 1];
    var m := Message(p, |published[p]| - 1, last.payload, !Full(ch));
    KeptLast(sub.offers, m);
    assert sub.received + (ch.buffered + [last.payload]) == (sub.received + ch.buffered) + [last.payload];
    forall q ensures NumbersFrom(sub.offers + [m], q) == Reached(Calls(published', q), id) {
      SendNumbers(published, p, id, sub.offers, m, q);
    }
    forall m' | m' in sub.offers + [m] ensures OfferOf(published', m') {
      assert m' in sub.offers ==> OfferOf(published, m');
    }
  }

  lemma RegisterDelivers(s: State, id: nat, topic: string)
    requires AllProgress(s) && id !in s.subscribers
    ensures Delivered(s.published, id, Subscriber(topic, map p | p in s.published :: |s.published[p]|, [], []), [])
  {
    forall p ensures Reached(Calls(s.published, p), id) == [] {
      var calls := Calls(s.published, p);
      forall n | 0 <= n < |calls| ensures id !in calls[n].reached {
        assert Progress(s, p, n);
      }
      ReachedNone(calls, id);
    }
  }

  lemma ReceiveDelivers(published: map<nat, seq<Publication>>, id: nat, sub: Subscriber, buffered: seq<Payload>)
    requires buffered != [] && Delivered(published, id, sub, buffered)
    ensures Delivered(published, id, sub.(received := sub.received + [buffered[0]]), buffered[1..])
  {
    assert (sub.received + [buffered[0]]) + buffered[1..] == sub.received + buffered;
  }

  lemma DeliveredAt(s: State, id: nat)
    requires AllDelivered(s) && id in s.subscribers
    ensures id in s.broker.channels && Delivered(s.published, id, s.subscribers[id], s.broker.channels[id].buffered)
  {
    hide Delivered;
  }

  lemma SendDelivers1(s: State, p: nat, id: nat)
    requires AllDelivered(s) && id in s.broker.channels && id in s.subscribers && Calls(s.published, p) != []
    requires id !in s.published[p][|s.published[p]| - 1].reached
    ensures var s' := Sent(s, p, id);
      Delivered(s'.published, id, s'.subscribers[id], s'.broker.channels[id].buffered)
  {
    DeliveredAt(s, id);
    hide Delivered, AllDelivered, Full;
    SendDelivers(s.published, p, id, s.subscribers[id], s.broker.channels[id]);
  }

  lemma RegisterDelivers1(s: State, thread: nat, id: nat)
    requires Registrations(s) && AllProgress(s) && AllDelivered(s) && thread in s.making
    requires id in Registers(s, thread).subscribers
    ensures var s' := Registers(s, thread);
      id in s'.broker.channels && Delivered(s'.published, id, s'.subscribers[id], s'.broker.channels[id].buffered)
  {
    NextIdIsNew(s.broker);
    hide Delivered, Consistent, OnTopic, Progress;
    if id == s.broker.nextID {
      RegisterDelivers(s, id, s.making[thread].0);
    } else {
      DeliveredAt(s, id);
    }
  }

  lemma CancelDelivers(s: State, other: nat, id: nat)
    requires AllDelivered(s) && other in s.broker.channels && other in s.subscribers && id in s.subscribers
    ensures var s' := Cancelled(s, other);
      id in s'.broker.channels && Delivered(s'.published, id, s'.subscribers[id], s'.broker.channels[id].buffered)
  {
    DeliveredAt(s, id);
    hide Delivered, AllDelivered;
  }

  lemma ReceiveDelivers1(s: State, other: nat, id: nat)
    requires AllDelivered(s) && other in s.broker.channels && s.broker.channels[other].buffered != []
    requires other in s.subscribers
    requires id in s.subscribers
    ensures var s' := Received(s, other);
      id in s'.broker.channels && Delivered(s'.published, id, s'.subscribers[id], s'.broker.channels[id].buffered)
  {
    DeliveredAt(s, id);
    hide Delivered, AllDelivered;
    if id == other {
      ReceiveDelivers(s.published, id, s.subscribers[id], s.broker.channels[id].buffered);
    }
  }

  lemma DeliveredStep(s: State, s': State, step: Step, id: nat)
    requires Registrations(s) && AllProgress(s) && AllDelivered(s) && NextStep(s, s', step) && id in s'.subscribers
    ensures id in s'.broker.channels && Delivered(s'.published, id, s'.subscribers[id], s'.broker.channels[id].buffered)
  {
    hide Delivered, Consistent, Registrations, AllProgress, AllDelivered, Registers, Cancelled, Received, Full, OnTopic;
    match step
    case StartPublish(p, topic, payload) =>
      DeliveredAt(s, id);
      StartDelivers(s, s', p, topic, payload, id);
    case ContextEnds(p) =>
      DeliveredAt(s, id);
      FailDelivers(s, p, id);
    case Send(p, other) =>
      DeliveredAt(s, id);
      if id == other { SendDelivers1(s, p, id); } else { SendDeliversOthers(s, p, other, id); }
    case Register(thread) => RegisterDelivers1(s, thread, id);
    case Cancel(other) =>
      TakeCancelled(s, other);
      DeliveredAt(s, id);
      if other !in s.cancelled { CancelDelivers(s, other, id); }
    case Receive(other) =>
      TakeSubscribers(s, other, id);
      ReceiveDelivers1(s, other, id);
    case _ => DeliveredAt(s, id);
  }

  lemma TakeCancelled(s: State, other: nat)
    requires other in s.broker.channels && other in s.subscribers
    ensures Cancelled(s, other).subscribers == s.subscribers
  {
  }

  lemma TakeSubscribers(s: State, other: nat, id: nat)
    requires other in s.broker.channels && s.broker.channels[other].buffered != [] && other in s.subscribers
    requires id in Received(s, other).subscribers
    ensures id in s.subscribers
  {
  }

  lemma ProgressStep(s: State, s': State, step: Step)
    requires Registrations(s) && AllProgress(s) && NextStep(s, s', step)
    ensures AllProgress(s')
  {
    hide Consistent, Full;
    forall p, n | 0 <= n < |Calls(s'.published, p)| ensures Progress(s', p, n) {
      assert n < |Calls(s.published, p)| ==> Progress(s, p, n);
      if step.StartPublish? && n == |Calls(s.published, p)| {
        TargetsAreSubscribers(s, step.topic);
      }
      if step.EndPublish? && p == step.publisher && n == |Calls(s.published, p)| - 1 {
        var call := Calls(s.published, p)[n];
        assert Progress(s, p, n);
        assert call.targets <= (call.targets - call.reached) + call.reached;
      }
    }
  }

  lemma TargetsAreSubscribers(s: State, topic: string)
    requires Registrations(s)
    ensures forall id :: id in Subscribers(s.broker.subs, topic) <==>
      id in s.subscribers && id !in s.cancelled && s.subscribers[id].topic == topic
  {
    hide Consistent;
    forall id
      ensures id in Subscribers(s.broker.subs, topic) <==>
        id in s.subscribers && id !in s.cancelled && s.subscribers[id].topic == topic
    {
      assert id in Subscribers(s.broker.subs, topic) <==> OnTopic(s.broker.subs, topic, id);
    }
  }

  ghost predicate JoinedBefore(s: State) {
    forall id, p :: id in s.subscribers ==> JoinedAt(s.subscribers[id], p) <= |Calls(s.published, p)|
  }

  lemma JoinedBeforeStep(s: State, s': State, step: Step)
    requires NextStep(s, s', step) && JoinedBefore(s)
    ensures JoinedBefore(s')
  {
    hide Full, Consistent;
    assert forall p :: |Calls(s.published, p)| <= |Calls(s'.published, p)|;
    forall id, p | id in s'.subscribers ensures JoinedAt(s'.subscribers[id], p) <= |Calls(s'.published, p)| {
      if id in s.subscribers && !(step.Register? && id == s.broker.nextID) {
        assert s'.subscribers[id].joined == s.subscribers[id].joined;
        assert JoinedAt(s.subscribers[id], p) <= |Calls(s.published, p)|;
      }
    }
  }

  lemma StartTargets(s: State, s': State, p: nat, topic: string, payload: Payload, id: nat)
    requires Registrations(s) && JoinedBefore(s) && AllTargeted(s) && id in s.subscribers
    requires NextStep(s, s', StartPublish(p, topic, payload))
    ensures Targeted(s'.published, id, s.subscribers[id], id in s.cancelled)
  {
    TargetsAreSubscribers(s, topic);
    hide Consistent, Full;
    var sub, cancelled := s.subscribers[id], id in s.cancelled;
    assert Targeted(s.published, id, sub, cancelled);
    forall q, n | 0 <= n < |Calls(s'.published, q)|
      ensures Targets(Calls(s'.published, q)[n], n, id, sub, JoinedAt(sub, q), cancelled)
    {
      if n < |Calls(s.published, q)| {
        assert Targets(Calls(s.published, q)[n], n, id, sub, JoinedAt(sub, q), cancelled);
      }
    }
  }

  lemma RegisterTargets(s: State, id: nat, topic: string)
    requires AllProgress(s) && id !in s.subscribers
    ensures Targeted(s.published, id, Subscriber(topic, map p | p in s.published :: |s.published[p]|, [], []), false)
  {
    var sub := Subscriber(topic, map p | p in s.published :: |s.published[p]|, [], []);
    forall p, n | 0 <= n < |Calls(s.published, p)|
      ensures Targets(Calls(s.published, p)[n], n, id, sub, JoinedAt(sub, p), false)
    {
      assert Progress(s, p, n);
    }
  }

  /** Changing neither topics nor targets, nor taking back a cancel, leaves all as it is. */
  lemma TargetedFrame(published: map<nat, seq<Publication>>, published': map<nat, seq<Publication>>, id: nat,
      sub: Subscriber, sub': Subscriber, cancelled: bool, cancelled': bool)
    requires Targeted(published, id, sub, cancelled)
    requires sub'.topic == sub.topic && sub'.joined == sub.joined && (cancelled ==> cancelled')
    requires forall p :: |Calls(published', p)| <= |Calls(published, p)|
    requires forall p, n :: 0 <= n < |Calls(published', p)| ==>
      && Calls(published', p)[n].topic == Calls(published, p)[n].topic
      && Calls(published', p)[n].targets == Calls(published, p)[n].targets
    ensures Targeted(published', id, sub', cancelled')
  {
    forall p, n | 0 <= n < |Calls(published', p)|
      ensures Targets(Calls(published', p)[n], n, id, sub', JoinedAt(sub', p), cancelled')
    {
      assert Targets(Calls(published, p)[n], n, id, sub, JoinedAt(sub, p), cancelled);
    }
  }

  lemma TargetedStep(s: State, s': State, step: Step, id: nat)
    requires Registrations(s) && AllProgress(s) && JoinedBefore(s) && AllTargeted(s) && NextStep(s, s', step)
    requires id in s'.subscribers
    ensures Targeted(s'.published, id, s'.subscribers[id], id in s'.cancelled)
  {
    if step.StartPublish? {
      StartTargets(s, s', step.publisher, step.topic, step.payload, id);
    } else if step.Register? && id == s.broker.nextID {
      NextIdIsNew(s.broker);
      hide Consistent, Targeted;
      RegisterTargets(s, id, s.making[step.thread].0);
    } else {
      OtherTargets(s, s', step, id);
    }
  }

  lemma OtherTargets(s: State, s': State, step: Step, id: nat)
    requires AllTargeted(s) && NextStep(s, s', step) && id in s'.subscribers
    requires !step.StartPublish? && !(step.Register? && id == s.broker.nextID)
    ensures Targeted(s'.published, id, s'.subscribers[id], id in s'.cancelled)
  {
    hide Consistent, Targeted, Full, Left, Joined, Offered;
    TargetedFrame(s.published, s'.published, id, s.subscribers[id], s'.subscribers[id], id in s.cancelled,
      id in s'.cancelled);
  }

  // Every run

  ghost predicate Safe(s: State) {
    && Registrations(s) && Publishers(s) && !s.panicked
    && AllProgress(s) && JoinedBefore(s) && AllTargeted(s) && AllDelivered(s)
  }

  lemma InitSafe(s: State)
    requires Init(s)
    ensures Safe(s)
  {
    assert forall p :: Calls(s.published, p) == [];
  }

  lemma SafeStep(s: State, s': State)
    requires Safe(s) && Next(s, s')
    ensures Safe(s')
  {
    hide NextStep, Registrations, Publishers, AllProgress, JoinedBefore, Targeted, Delivered;
    var step :| NextStep(s, s', step);
    RegistrationsStep(s, s', step);
    PublishersStep(s, s', step);
    NoPanic(s, s', step);
    ProgressStep(s, s', step);
    JoinedBeforeStep(s, s', step);
    forall id | id in s'.subscribers ensures Targeted(s'.published, id, s'.subscribers[id], id in s'.cancelled) {
      TargetedStep(s, s', step, id);
    }
    forall id | id in s'.subscribers
      ensures id in s'.broker.channels
      ensures Delivered(s'.published, id, s'.subscribers[id], s'.broker.channels[id].buffered)
    {
      DeliveredStep(s, s', step, id);
    }
  }

  /** In every interleaving: no panic, a channel is open exactly while it is registered, no
      registered topic is empty, ids are not reused, and deliveries are in order. */
  lemma {:induction false} AlwaysSafe(trace: seq<State>, i: nat)
    requires Reaches(trace) && i < |trace|
    ensures Safe(trace[i])
  {
    hide NextStep, Safe;
    if i == 0 {
      InitSafe(trace[0]);
    } else {
      AlwaysSafe(trace, i - 1);
      assert Next(trace[i - 1], trace[i]);
      SafeStep(trace[i - 1], trace[i]);
    }
  }

  /** A registered subscriber has been offered, once and in order, every call on its topic since
      it joined that is neither in progress nor failed, and no other call. */
  lemma OffersAreExact(trace: seq<State>, i: nat, id: nat, p: nat, n: nat)
    requires Reaches(trace) && i < |trace| && id in trace[i].subscribers && n < |Calls(trace[i].published, p)|
    ensures var s := trace[i];
      var sub, call := s.subscribers[id], Calls(s.published, p)[n];
      && (n in NumbersFrom(sub.offers, p) ==> JoinedAt(sub, p) <= n && call.topic == sub.topic)
      && (JoinedAt(sub, p) <= n && call.topic == sub.topic && id !in s.cancelled ==>
        n in NumbersFrom(sub.offers, p) || call.failed || (p in s.active && n == |Calls(s.published, p)| - 1))
    ensures Ascending(NumbersFrom(trace[i].subscribers[id].offers, p))
  {
    AlwaysSafe(trace, i);
    var s := trace[i];
    assert Progress(s, p, n);
    assert Targeted(s.published, id, s.subscribers[id], id in s.cancelled);
    assert Targets(Calls(s.published, p)[n], n, id, s.subscribers[id], JoinedAt(s.subscribers[id], p),
      id in s.cancelled);
    ReachedMembers(Calls(s.published, p), id);
    assert NumbersFrom(s.subscribers[id].offers, p) == Reached(Calls(s.published, p), id);
  }

  ghost predicate Ascending(numbers: seq<nat>) {
    forall i, j :: 0 <= i < j < |numbers| ==> numbers[i] < numbers[j]
  }

  lemma {:induction false} ReachedMembers(calls: seq<Publication>, id: nat)
    ensures forall n :: n in Reached(calls, id) <==> 0 <= n < |calls| && id in calls[n].reached
    ensures Ascending(Reached(calls, id))
  {
    if calls != [] {
      var init := calls[..|calls| - 1];
      ReachedMembers(init, id);
      assert forall i :: 0 <= i < |Reached(init, id)| ==> Reached(init, id)[i] in Reached(init, id);
      assert forall n :: 0 <= n < |init| ==> init[n] == calls[n];
    }
  }

  // One publisher

  /** `a` is `b` with some elements left out. */
  ghost predicate Subsequence(a: seq<Payload>, b: seq<Payload>) {
    a == [] || (b != [] &&
      ((a[|a| - 1] == b[|b| - 1] && Subsequence(a[..|a| - 1], b[..|b| - 1])) || Subsequence(a, b[..|b| - 1])))
  }

  lemma {:induction false} SubsequenceTransitive(a: seq<Payload>, b: seq<Payload>, c: seq<Payload>)
    requires Subsequence(a, b) && Subsequence(b, c)
    ensures Subsequence(a, c)
    decreases |b| + |c|
  {
    if a != [] {
      var b0, c0 := b[..|b| - 1], c[..|c| - 1];
      if Subsequence(b, c0) {
        SubsequenceTransitive(a, b, c0);
      } else if Subsequence(a, b0) {
        SubsequenceTransitive(a, b0, c0);
      } else {
        SubsequenceTransitive(a[..|a| - 1], b0, c0);
      }
    }
  }

  lemma SubsequenceLast(a: seq<Payload>, b: seq<Payload>, x: Payload)
    requires Subsequence(a, b)
    ensures Subsequence(a + [x], b + [x]) && Subsequence(a, b + [x])
  {
    assert (a + [x])[..|a|] == a && (b + [x])[..|b|] == b;
  }

  function Payloads(offers: seq<Message>): seq<Payload> {
    if offers == [] then [] else Payloads(offers[..|offers| - 1]) + [offers[|offers| - 1].payload]
  }

  /** The payloads published on the topic from a call number on. */
  function Due(calls: seq<Publication>, from: nat, topic: string): seq<Payload> {
    if |calls| <= from then []
    else
      var last := calls[|calls| - 1];
      Due(calls[..|calls| - 1], from, topic) + (if last.topic == topic then [last.payload] else [])
  }

  function ReachedPayloads(calls: seq<Publication>, id: nat): seq<Payload> {
    if calls == [] then []
    else
      var last := calls[|calls| - 1];
      ReachedPayloads(calls[..|calls| - 1], id) + (if id in last.reached then [last.payload] else [])
  }

  lemma {:induction false} KeptIsSubsequence(offers: seq<Message>)
    ensures Subsequence(Kept(offers), Payloads(offers))
  {
    if offers != [] {
      var init, last := offers[..|offers| - 1], offers[|offers| - 1];
      KeptIsSubsequence(init);
      SubsequenceLast(Kept(init), Payloads(init), last.payload);
      assert Kept(init) + [] == Kept(init);
    }
  }

  lemma {:induction false} ReachedIsDue(calls: seq<Publication>, id: nat, from: nat, topic: string)
    requires forall n :: 0 <= n < |calls| && id in calls[n].reached ==> from <= n && calls[n].topic == topic
    ensures Subsequence(ReachedPayloads(calls, id), Due(calls, from, topic))
  {
    if calls != [] {
      var init, last := calls[..|calls| - 1], calls[|calls| - 1];
      assert forall n :: 0 <= n < |init| ==> init[n] == calls[n];
      ReachedIsDue(init, id, from, topic);
      var a, b := ReachedPayloads(init, id), Due(init, from, topic);
      SubsequenceLast(a, b, last.payload);
      assert a + [] == a && b + [] == b;
    }
  }

  lemma {:induction false} PayloadsAt(offers: seq<Message>)
    ensures |Payloads(offers)| == |offers| && forall i :: 0 <= i < |offers| ==> Payloads(offers)[i] == offers[i].payload
  {
    if offers != [] { PayloadsAt(offers[..|offers| - 1]); }
  }

  lemma {:induction false} NumbersAt(offers: seq<Message>, p: nat)
    requires forall m :: m in offers ==> m.publisher == p
    ensures |NumbersFrom(offers, p)| == |offers|
    ensures forall i :: 0 <= i < |offers| ==> NumbersFrom(offers, p)[i] == offers[i].number
  {
    if offers != [] {
      assert offers[|offers| - 1] in offers;
      NumbersAt(offers[..|offers| - 1], p);
    }
  }

  lemma {:induction false} ReachedAt(calls: seq<Publication>, id: nat)
    ensures |ReachedPayloads(calls, id)| == |Reached(calls, id)|
    ensures forall i {:trigger Reached(calls, id)[i]} :: 0 <= i < |Reached(calls, id)| ==>
      Reached(calls, id)[i] < |calls| && ReachedPayloads(calls, id)[i] == calls[Reached(calls, id)[i]].payload
  {
    if calls != [] { ReachedAt(calls[..|calls| - 1], id); }
  }

  lemma OffersOfOne(published: map<nat, seq<Publication>>, id: nat, sub: Subscriber, buffered: seq<Payload>, p: nat)
    requires Delivered(published, id, sub, buffered) && forall m :: m in sub.offers ==> m.publisher == p
    ensures Payloads(sub.offers) == ReachedPayloads(Calls(published, p), id)
  {
    PayloadsAt(sub.offers);
    NumbersAt(sub.offers, p);
    ReachedAt(Calls(published, p), id);
    hide Payloads, NumbersFrom, Reached, ReachedPayloads, Kept, Calls;
    assert NumbersFrom(sub.offers, p) == Reached(Calls(published, p), id);
    forall i | 0 <= i < |sub.offers| ensures Payloads(sub.offers)[i] == ReachedPayloads(Calls(published, p), id)[i] {
      assert sub.offers[i] in sub.offers && OfferOf(published, sub.offers[i]);
      assert Reached(Calls(published, p), id)[i] == sub.offers[i].number;
    }
  }

  /** With one publisher, what a subscriber has received and has buffered is a subsequence of
      what was published on its topic since it joined. */
  lemma OnePublisher(trace: seq<State>, i: nat, id: nat, p: nat)
    requires Reaches(trace) && i < |trace| && id in trace[i].subscribers
    requires forall q :: q in trace[i].published ==> q == p
    ensures id in trace[i].broker.channels
    ensures var s := trace[i];
      var sub := s.subscribers[id];
      Subsequence(sub.received + s.broker.channels[id].buffered,
        Due(Calls(s.published, p), JoinedAt(sub, p), sub.topic))
  {
    AlwaysSafe(trace, i);
    var s := trace[i];
    var sub, calls := s.subscribers[id], Calls(s.published, p);
    assert Delivered(s.published, id, sub, s.broker.channels[id].buffered);
    forall m | m in sub.offers ensures m.publisher == p {
      assert OfferOf(s.published, m);
    }
    OffersOfOne(s.published, id, sub, s.broker.channels[id].buffered, p);
    KeptIsSubsequence(sub.offers);
    assert Targeted(s.published, id, sub, id in s.cancelled);
    forall n | 0 <= n < |calls| && id in calls[n].reached ensures JoinedAt(sub, p) <= n && calls[n].topic == sub.topic {
      assert Progress(s, p, n);
      assert Targets(Calls(s.published, p)[n], n, id, sub, JoinedAt(sub, p), id in s.cancelled);
    }
    ReachedIsDue(calls, id, JoinedAt(sub, p), sub.topic);
    SubsequenceTransitive(Kept(sub.offers), Payloads(sub.offers), Due(calls, JoinedAt(sub, p), sub.topic));
  }

  /** A payload is dropped only where the buffer is full. */
  lemma DropsOnlyWhenFull(s: State, s': State, id: nat)
    requires Next(s, s') && id in s.subscribers && id in s'.subscribers && id in s.broker.channels
    requires id in s'.broker.channels
    requires |s'.subscribers[id].offers| > |s.subscribers[id].offers|
    ensures |s'.subscribers[id].offers| == |s.subscribers[id].offers| + 1
    ensures var last := s'.subscribers[id].offers[|s.subscribers[id].offers|];
      && (!last.kept <==> Full(s.broker.channels[id]))
      && s'.broker.channels[id].buffered == s.broker.channels[id].buffered + (if last.kept then [last.payload] else [])
  {
    hide Consistent, Joined, Left;
  }
}
