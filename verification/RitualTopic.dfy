/** The shared topic: an append-only log that each handle reads from its own offset. */
module RitualTopic {
  import opened Wrappers
  import opened Mailbox

  datatype Envelope = Envelope(performance: nat, kind: string, sent: int, ttl: nat, encrypted: bool, body: Payload,
                               source: Option<string>, target: Option<string>, correlation: Option<nat>,
                               topicPath: Option<string>, tags: Option<seq<string>>)

  /** Where an envelope comes from and goes to; nothing of this for a broadcast. */
  datatype Address = Address(source: Option<string>, target: Option<string>, correlation: Option<nat>,
                             topicPath: Option<string>, tags: Option<seq<string>>)

  const BROADCAST := Address(None, None, None, None, None)

  function Addressed(performance: nat, kind: string, sent: int, ttl: nat, body: Payload, a: Address): Envelope {
    Envelope(performance, kind, sent, ttl, false, body, a.source, a.target, a.correlation, a.topicPath, a.tags)
  }

  const DEFAULT_TTL := 60_000

  predicate Expired(e: Envelope, now: int) {
    now - e.sent > 0 && now - e.sent > e.ttl
  }

  function Unexpired(es: seq<Envelope>, now: int): seq<Envelope> {
    if es == [] then [] else (if Expired(es[0], now) then [] else [es[0]]) + Unexpired(es[1..], now)
  }

  function Log(topics: map<string, seq<Envelope>>, topic: string): seq<Envelope> {
    if topic in topics then topics[topic] else []
  }

  /** Where a read from `offset` starts: offsets outside the log are clamped. */
  function Start(log: seq<Envelope>, offset: int): (n: nat)
    ensures n <= |log|
  {
    if offset < 0 then 0 else if offset < |log| then offset else |log|
  }

  class InMemoryBroker {
    var topics: map<string, seq<Envelope>>

    constructor ()
      ensures topics == map[]
    {
      topics := map[];
    }

    method Publish(topic: string, e: Envelope)
      modifies this
      ensures topics == old(topics)[topic := Log(old(topics), topic) + [e]]
    {
      topics := topics[topic := Log(topics, topic) + [e]];
    }

    method Poll(topic: string, since: int) returns (fetched: seq<Envelope>, next: int)
      ensures var log := Log(topics, topic); fetched == log[Start(log, since)..] && next == |log|
    {
      var entries := Log(topics, topic);
      var start := Start(entries, since);
      fetched := entries[start..];
      next := start + |fetched|;
    }

    method LatestOffset(topic: string) returns (n: int)
      ensures n == |Log(topics, topic)|
    {
      n := |Log(topics, topic)|;
    }
  }

  class RitualHandle {
    const performance: nat
    const domain: string
    const broker: InMemoryBroker
    const topic: string
    var offset: int

    constructor (performance: nat, domain: string, broker: InMemoryBroker, topic: string, offset: int)
      ensures this.performance == performance && this.domain == domain && this.broker == broker
      ensures this.topic == topic && this.offset == offset
    {
      this.performance, this.domain, this.broker, this.topic := performance, domain, broker, topic;
      this.offset := offset;
    }

    /** Publishes under this handle's own performance. */
    method PublishBody(body: Payload, kind: string, ttl: Option<nat>, a: Address, now: int)
      modifies broker
      ensures broker.topics == old(broker.topics)[topic := Log(old(broker.topics), topic)
        + [Addressed(performance, kind, now, if ttl == None then DEFAULT_TTL else ttl.value, body, a)]]
    {
      var lifetime := if ttl == None then DEFAULT_TTL else ttl.value;
      broker.Publish(topic, Envelope(performance, kind, now, lifetime, false, body,
                                     a.source, a.target, a.correlation, a.topicPath, a.tags));
    }

    /** Reads on from the offset, moves the offset past everything read, and drops
        what has expired. */
    method PollIncoming(now: int) returns (unexpired: seq<Envelope>)
      modifies this
      ensures var log := Log(broker.topics, topic);
        unexpired == Unexpired(log[Start(log, old(offset))..], now) && offset == |log|
    {
      var fetched, next := broker.Poll(topic, offset);
      offset := next;
      unexpired := Unexpired(fetched, now);
    }
  }

  // Runs of publishers and handles on one topic

  datatype TopicOp = Publish(envelope: Envelope) | Join(handle: nat) | Poll(handle: nat, now: int)

  /** An envelope together with the time of the poll that read it. */
  datatype Read = Read(envelope: Envelope, now: int)

  /** `joined` and `seen` record what the run did; `received` is what polls gave out. */
  datatype TopicState = TopicState(log: seq<Envelope>, offsets: map<nat, int>, joined: map<nat, nat>,
                                   seen: map<nat, seq<Read>>, received: map<nat, seq<Envelope>>)

  function ReadAt(es: seq<Envelope>, now: int): seq<Read> {
    seq(|es|, k requires 0 <= k < |es| => Read(es[k], now))
  }

  predicate Known(s: TopicState) {
    s.offsets.Keys == s.joined.Keys == s.seen.Keys == s.received.Keys
  }

  /** A handle joins once, at the end of the log; only a joined handle polls. */
  function Do(s: TopicState, op: TopicOp): (s': TopicState)
    requires Known(s)
    ensures Known(s')
  {
    match op
    case Publish(e) => s.(log := s.log + [e])
    case Join(h) =>
      if h in s.offsets then s
      else s.(offsets := s.offsets[h := |s.log|], joined := s.joined[h := |s.log|], seen := s.seen[h := []],
              received := s.received[h := []])
    case Poll(h, now) =>
      if h !in s.offsets then s
      else
        var fetched := s.log[Start(s.log, s.offsets[h])..];
        s.(offsets := s.offsets[h := |s.log|],
           seen := s.seen[h := s.seen[h] + ReadAt(fetched, now)],
           received := s.received[h := s.received[h] + Unexpired(fetched, now)])
  }

  function Run(s: TopicState, ops: seq<TopicOp>): (s': TopicState)
    requires Known(s)
    ensures Known(s')
    decreases ops
  {
    if ops == [] then s else Run(Do(s, ops[0]), ops[1..])
  }

  const EMPTY_TOPIC := TopicState([], map[], map[], map[], map[])

  function Envelopes(taken: seq<Read>): seq<Envelope> {
    seq(|taken|, k requires 0 <= k < |taken| => taken[k].envelope)
  }

  /** The reads that had not expired when they were made. */
  function Live(taken: seq<Read>): seq<Envelope> {
    if taken == [] then []
    else (if Expired(taken[0].envelope, taken[0].now) then [] else [taken[0].envelope]) + Live(taken[1..])
  }

  /** What one handle has seen: the log from where it joined to its offset, each
      position once and in order, of which it received what was unexpired. */
  predicate DeliveredTo(s: TopicState, h: nat)
    requires Known(s) && h in s.offsets
  {
    && s.joined[h] <= s.offsets[h] <= |s.log|
    && Envelopes(s.seen[h]) == s.log[s.joined[h]..s.offsets[h]]
    && s.received[h] == Live(s.seen[h])
  }

  ghost predicate Delivered(s: TopicState)
    requires Known(s)
  {
    forall h | h in s.offsets :: DeliveredTo(s, h)
  }

  lemma {:induction false} LiveAppends(a: seq<Read>, b: seq<Read>)
    ensures Live(a + b) == Live(a) + Live(b)
  {
    if a == [] {
      assert a + b == b;
    } else {
      assert (a + b)[1..] == a[1..] + b;
      LiveAppends(a[1..], b);
    }
  }

  lemma {:induction false} LiveReadAt(es: seq<Envelope>, now: int)
    ensures Live(ReadAt(es, now)) == Unexpired(es, now)
  {
    if es != [] {
      assert ReadAt(es, now)[1..] == ReadAt(es[1..], now);
      LiveReadAt(es[1..], now);
    }
  }

  lemma PollDelivers(s: TopicState, h: nat, now: int)
    requires Known(s) && h in s.offsets && DeliveredTo(s, h)
    ensures DeliveredTo(Do(s, Poll(h, now)), h)
  {
    hide Live, Unexpired;
    var fetched := s.log[Start(s.log, s.offsets[h])..];
    LiveAppends(s.seen[h], ReadAt(fetched, now));
    LiveReadAt(fetched, now);
    assert Envelopes(s.seen[h] + ReadAt(fetched, now)) == Envelopes(s.seen[h]) + fetched;
    assert s.log[s.joined[h]..] == s.log[s.joined[h]..s.offsets[h]] + fetched;
  }

  lemma PublishDelivers(s: TopicState, e: Envelope, h: nat)
    requires Known(s) && h in s.offsets && DeliveredTo(s, h)
    ensures DeliveredTo(Do(s, Publish(e)), h)
  {
    hide Live, Unexpired, Envelopes;
    assert (s.log + [e])[s.joined[h]..s.offsets[h]] == s.log[s.joined[h]..s.offsets[h]];
  }

  lemma JoinDelivers(s: TopicState, h: nat)
    requires Known(s) && h !in s.offsets
    ensures DeliveredTo(Do(s, Join(h)), h)
  {
  }

  lemma OthersKeep(s: TopicState, op: TopicOp, h: nat)
    requires Known(s) && h in s.offsets && DeliveredTo(s, h)
    requires (op.Join? || op.Poll?) && op.handle != h
    ensures DeliveredTo(Do(s, op), h)
  {
    hide Live, Unexpired, Envelopes;
  }

  lemma StepDelivers(s: TopicState, op: TopicOp)
    requires Known(s) && Delivered(s)
    ensures Delivered(Do(s, op))
  {
    hide DeliveredTo;
    var s' := Do(s, op);
    forall h | h in s'.offsets ensures DeliveredTo(s', h) {
      if op.Publish? {
        PublishDelivers(s, op.envelope, h);
      } else if op.handle != h {
        OthersKeep(s, op, h);
      } else if op.Poll? {
        PollDelivers(s, h, op.now);
      } else if h !in s.offsets {
        JoinDelivers(s, h);
      }
    }
  }

  lemma {:induction false} RunDelivers(s: TopicState, ops: seq<TopicOp>)
    requires Known(s) && Delivered(s)
    ensures Delivered(Run(s, ops))
    decreases ops
  {
    hide Delivered, Do;
    if ops != [] {
      StepDelivers(s, ops[0]);
      RunDelivers(Do(s, ops[0]), ops[1..]);
    }
  }

  /** Over any interleaving of publishers and handles, every handle has read the
      positions from its join offset to its current offset, in publish order and
      each once, and has received those that were unexpired when read. */
  lemma EveryHandleReadsTheLog(ops: seq<TopicOp>, h: nat)
    requires h in Run(EMPTY_TOPIC, ops).offsets
    ensures DeliveredTo(Run(EMPTY_TOPIC, ops), h)
  {
    RunDelivers(EMPTY_TOPIC, ops);
  }

  /** Offsets only grow, join offsets stay, and the log is only appended to. */
  lemma {:induction false} OffsetsOnlyGrow(s: TopicState, ops: seq<TopicOp>, h: nat)
    requires Known(s) && Delivered(s) && h in s.offsets
    ensures var s' := Run(s, ops);
      h in s'.offsets && s.offsets[h] <= s'.offsets[h] && s'.joined[h] == s.joined[h] && s.log <= s'.log
    decreases ops
  {
    hide Do, Delivered;
    if ops != [] {
      StepDelivers(s, ops[0]);
      StepGrows(s, ops[0], h);
      OffsetsOnlyGrow(Do(s, ops[0]), ops[1..], h);
    }
  }

  lemma StepGrows(s: TopicState, op: TopicOp, h: nat)
    requires Known(s) && Delivered(s) && h in s.offsets
    ensures var s' := Do(s, op);
      h in s'.offsets && s.offsets[h] <= s'.offsets[h] && s'.joined[h] == s.joined[h] && s.log <= s'.log
  {
    hide Envelopes, Live, Unexpired, ReadAt;
    assert DeliveredTo(s, h);
  }
}
