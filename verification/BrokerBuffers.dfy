/** What the buffer size of the broker means for its subscribers (graphql/subscriptions/bus.go). */
module BrokerBuffers {
  import opened Broker
  import opened BrokerInterleaving

  // The capacity of a channel

  /** Step m of the run made a channel for the topic, with the buffer size of that moment. */
  ghost predicate Made(trace: seq<State>, m: nat, thread: nat, topic: string, capacity: nat) {
    && m + 1 < |trace| && trace[m].broker.buffer == capacity
    && NextStep(trace[m], trace[m + 1], MakeChannel(thread, topic))
  }

  /** The channel of the id was made in step m and registered in step r. */
  ghost predicate RegisteredAs(trace: seq<State>, m: nat, r: nat, thread: nat, topic: string, id: nat) {
    && m < r && r + 1 < |trace| && trace[r].broker.nextID == id && thread in trace[r].making
    && NextStep(trace[r], trace[r + 1], Register(thread))
    && Made(trace, m, thread, topic, trace[m].broker.buffer)
  }

  ghost predicate MadeBefore(trace: seq<State>, i: nat, thread: nat, topic: string, capacity: nat) {
    exists m: nat :: m < i && Made(trace, m, thread, topic, capacity)
  }

  ghost predicate ChannelFrom(trace: seq<State>, i: nat, id: nat, topic: string, capacity: nat) {
    exists m: nat, r: nat, thread: nat ::
      m < r < i && RegisteredAs(trace, m, r, thread, topic, id) && trace[m].broker.buffer == capacity
  }

  ghost predicate Sized(trace: seq<State>, i: nat)
    requires i < |trace|
  {
    var s := trace[i];
    && (forall thread :: thread in s.making ==> MadeBefore(trace, i, thread, s.making[thread].0, s.making[thread].1))
    && (forall id :: id in s.subscribers ==>
      id in s.broker.channels && ChannelFrom(trace, i, id, s.subscribers[id].topic, s.broker.channels[id].capacity))
  }

  lemma MadeLater(trace: seq<State>, i: nat, thread: nat, topic: string, capacity: nat)
    requires MadeBefore(trace, i, thread, topic, capacity)
    ensures MadeBefore(trace, i + 1, thread, topic, capacity)
  {
    hide Made;
  }

  lemma ChannelLater(trace: seq<State>, i: nat, id: nat, topic: string, capacity: nat)
    requires ChannelFrom(trace, i, id, topic, capacity)
    ensures ChannelFrom(trace, i + 1, id, topic, capacity)
  {
    hide RegisteredAs;
  }

  lemma MakingStep(trace: seq<State>, i: nat, step: Step, thread: nat)
    requires i + 1 < |trace| && NextStep(trace[i], trace[i + 1], step) && thread in trace[i + 1].making
    requires forall t :: t in trace[i].making ==>
      MadeBefore(trace, i, t, trace[i].making[t].0, trace[i].making[t].1)
    ensures MadeBefore(trace, i + 1, thread, trace[i + 1].making[thread].0, trace[i + 1].making[thread].1)
  {
    var s, s' := trace[i], trace[i + 1];
    hide MadeBefore, Full, Offered, Joined, Left, Consistent;
    if step.MakeChannel? && step.thread == thread {
      assert Made(trace, i, thread, step.topic, s.broker.buffer);
      MadeNow(trace, i, thread, step.topic, s.broker.buffer);
    } else {
      assert thread in s.making && s'.making[thread] == s.making[thread];
      MadeLater(trace, i, thread, s.making[thread].0, s.making[thread].1);
    }
  }

  lemma MadeNow(trace: seq<State>, i: nat, thread: nat, topic: string, capacity: nat)
    requires Made(trace, i, thread, topic, capacity)
    ensures MadeBefore(trace, i + 1, thread, topic, capacity)
  {
    hide Made;
  }

  lemma RegisteredNow(trace: seq<State>, i: nat, thread: nat, topic: string, capacity: nat)
    requires i + 1 < |trace| && thread in trace[i].making && MadeBefore(trace, i, thread, topic, capacity)
    requires NextStep(trace[i], trace[i + 1], Register(thread))
    ensures ChannelFrom(trace, i + 1, trace[i].broker.nextID, topic, capacity)
  {
    hide NextStep;
    var m: nat :| m < i && Made(trace, m, thread, topic, capacity);
    assert RegisteredAs(trace, m, i, thread, topic, trace[i].broker.nextID);
  }

  /** No step but its registration changes the topic of a subscriber or the capacity of a channel. */
  lemma OldChannel(s: State, s': State, step: Step, id: nat)
    requires NextStep(s, s', step) && id in s'.subscribers && !(step.Register? && id == s.broker.nextID)
    requires id in s.subscribers ==> id in s.broker.channels
    ensures id in s.subscribers && s'.subscribers[id].topic == s.subscribers[id].topic
    ensures id in s'.broker.channels && s'.broker.channels[id].capacity == s.broker.channels[id].capacity
  {
    hide Full, Consistent;
  }

  lemma ChannelStep(trace: seq<State>, i: nat, step: Step, id: nat)
    requires i + 1 < |trace| && NextStep(trace[i], trace[i + 1], step) && Sized(trace, i)
    requires id in trace[i + 1].subscribers
    ensures var s' := trace[i + 1];
      id in s'.broker.channels
        && ChannelFrom(trace, i + 1, id, s'.subscribers[id].topic, s'.broker.channels[id].capacity)
  {
    var s, s' := trace[i], trace[i + 1];
    if step.Register? && id == s.broker.nextID {
      var (topic, capacity) := s.making[step.thread];
      assert s'.broker.channels[id] == Channel(capacity, [], false) && s'.subscribers[id].topic == topic;
      hide NextStep;
      RegisteredNow(trace, i, step.thread, topic, capacity);
    } else {
      hide ChannelFrom, MadeBefore;
      OldChannel(s, s', step, id);
      hide NextStep;
      ChannelLater(trace, i, id, s.subscribers[id].topic, s.broker.channels[id].capacity);
    }
  }

  lemma {:induction false} AlwaysSized(trace: seq<State>, i: nat)
    requires Reaches(trace) && i < |trace|
    ensures Sized(trace, i)
  {
    if i > 0 {
      AlwaysSized(trace, i - 1);
      assert Next(trace[i - 1], trace[i]);
      var step :| NextStep(trace[i - 1], trace[i], step);
      hide NextStep, ChannelFrom, MadeBefore;
      forall thread | thread in trace[i].making
        ensures MadeBefore(trace, i, thread, trace[i].making[thread].0, trace[i].making[thread].1)
      {
        MakingStep(trace, i - 1, step, thread);
      }
      forall id | id in trace[i].subscribers
        ensures id in trace[i].broker.channels
        ensures ChannelFrom(trace, i, id, trace[i].subscribers[id].topic, trace[i].broker.channels[id].capacity)
      {
        ChannelStep(trace, i - 1, step, id);
      }
    }
  }

  /** The capacity of every channel is the buffer size at the step in which it was made for the
      topic under which it was registered later. */
  lemma CapacityIsBuffer(trace: seq<State>, i: nat, id: nat) returns (m: nat, r: nat, thread: nat)
    requires Reaches(trace) && i < |trace| && id in trace[i].subscribers
    ensures m < r < i && RegisteredAs(trace, m, r, thread, trace[i].subscribers[id].topic, id)
    ensures id in trace[i].broker.channels && trace[i].broker.channels[id].capacity == trace[m].broker.buffer
  {
    hide RegisteredAs, Reaches;
    AlwaysSized(trace, i);
    var s := trace[i];
    m, r, thread :| m < r < i && RegisteredAs(trace, m, r, thread, s.subscribers[id].topic, id)
      && trace[m].broker.buffer == s.broker.channels[id].capacity;
  }

  // The first offers

  /** A subscriber that has received nothing has in its buffer the first payloads offered, as many as
      the channel takes, and was refused the others. */
  ghost predicate Unread(s: State, id: nat)
    requires id in s.subscribers && id in s.broker.channels
  {
    var sub, ch := s.subscribers[id], s.broker.channels[id];
    sub.received == [] ==>
      && |ch.buffered| == (if |sub.offers| <= ch.capacity then |sub.offers| else ch.capacity)
      && (forall k :: 0 <= k < |sub.offers| ==> (sub.offers[k].kept <==> k < ch.capacity))
      && (forall k :: 0 <= k < |ch.buffered| ==> ch.buffered[k] == sub.offers[k].payload)
  }

  lemma UnreadStep(s: State, s': State, step: Step, id: nat)
    requires NextStep(s, s', step) && id in s'.subscribers && id in s'.broker.channels
    requires !(step.Register? && id == s.broker.nextID)
    requires id in s.subscribers && id in s.broker.channels && Unread(s, id)
    ensures Unread(s', id)
  {
    hide Consistent, Subscribers;
  }

  lemma UnreadAtFirst(s: State, s': State, step: Step, id: nat)
    requires NextStep(s, s', step) && step.Register? && id == s.broker.nextID
    ensures id in s'.subscribers && id in s'.broker.channels && Unread(s', id)
  {
    hide Consistent;
  }

  /** In every interleaving, a subscriber that has received nothing yet holds the first payloads that
      it was offered, up to the capacity of its channel, and only the others were dropped. */
  lemma {:induction false} FirstOffersAreKept(trace: seq<State>, i: nat, id: nat)
    requires Reaches(trace) && i < |trace| && id in trace[i].subscribers
    ensures id in trace[i].broker.channels && Unread(trace[i], id)
  {
    hide NextStep, Unread;
    AlwaysSized(trace, i);
    if i > 0 {
      assert Next(trace[i - 1], trace[i]);
      var step :| NextStep(trace[i - 1], trace[i], step);
      AlwaysSized(trace, i - 1);
      if step.Register? && id == trace[i - 1].broker.nextID {
        UnreadAtFirst(trace[i - 1], trace[i], step, id);
      } else {
        OldChannel(trace[i - 1], trace[i], step, id);
        FirstOffersAreKept(trace, i - 1, id);
        UnreadStep(trace[i - 1], trace[i], step, id);
      }
    }
  }
}
