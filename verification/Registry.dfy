/** The registry of rituals, its write-through store, and restarts. */
module Registry {
  import opened Wrappers
  import opened Text
  import opened Mailbox
  import opened RitualTopic

  datatype RitualState = Active | Terminated {
    function AsString(): string { if Active? then "active" else "terminated" }
  }

  function StateFromString(s: string): Option<RitualState> {
    if s == "active" then Some(Active) else if s == "terminated" then Some(Terminated) else None
  }

  datatype Config = Config(name: string, participants: seq<string>)

  datatype Ritual = Ritual(config: Config, state: RitualState, topic: string, participants: map<string, nat>)

  /** A stored ritual. Its state is text; configuration and participants are JSON
      there, taken to round-trip. */
  datatype Row = Row(name: string, config: Config, state: string, topic: string, participants: map<string, nat>)

  // Topic names

  function DotSlashes(s: string): (r: string)
    ensures |r| == |s|
  {
    if s == "" then "" else [if s[0] == '/' then '.' else s[0]] + DotSlashes(s[1..])
  }

  predicate IsTopicChar(c: char) { IsAlphanumeric(c) || c == '.' || c == '-' || c == '_' }

  predicate IsTopicName(s: string) {
    s != "" && s != "." && s != ".." && |s| <= 249 && forall k | 0 <= k < |s| :: IsTopicChar(s[k])
  }

  function TopicName(domain: string, id: string): Option<string> {
    var name := DotSlashes(domain) + ".ritual." + id;
    if IsTopicName(name) then Some(name) else None
  }

  // Storing and restoring

  function Stored(r: Ritual): Row {
    Row(r.config.name, r.config, r.state.AsString(), r.topic, r.participants)
  }

  /** Rows whose state is unknown are skipped. */
  function Restored(rows: map<string, Row>): map<string, Ritual> {
    map id | id in rows && StateFromString(rows[id].state).Some? ::
      Ritual(rows[id].config, StateFromString(rows[id].state).value, rows[id].topic, rows[id].participants)
  }

  function StoredAll(rituals: map<string, Ritual>): map<string, Row> {
    map id | id in rituals :: Stored(rituals[id])
  }

  /** Restoring what was stored gives the same rituals. */
  lemma StoreRoundTrip(rituals: map<string, Ritual>)
    ensures Restored(StoredAll(rituals)) == rituals
  {
    assert forall r: Ritual :: StateFromString(Stored(r).state) == Some(r.state);
    assert Restored(StoredAll(rituals)).Keys == rituals.Keys;
  }

  class RitualStore {
    var rows: map<string, Row>

    constructor ()
      ensures rows == map[]
    {
      rows := map[];
    }

    method UpsertRitual(id: string, row: Row)
      modifies this
      ensures rows == old(rows)[id := row]
    {
      rows := rows[id := row];
    }

    method SetRitualState(id: string, state: string)
      modifies this
      ensures rows == if id in old(rows) then old(rows)[id := old(rows)[id].(state := state)] else old(rows)
    {
      if id in rows {
        rows := rows[id := rows[id].(state := state)];
      }
    }

    method SetRitualParticipants(id: string, participants: map<string, nat>)
      modifies this
      ensures rows == if id in old(rows) then old(rows)[id := old(rows)[id].(participants := participants)]
        else old(rows)
    {
      if id in rows {
        rows := rows[id := rows[id].(participants := participants)];
      }
    }
  }

  // The calls, on the rituals in memory and the rows in the store

  datatype Server = Server(rituals: map<string, Ritual>, rows: map<string, Row>)

  datatype Call =
    | Create(id: string, config: Config)
    | JoinRitual(id: string, key: Option<string>, issued: nat)
    | Terminate(id: string)
    | Restart

  datatype Reply = Created | Joined(performance: nat, topic: string) | Done | NotFound | NotActive | BadTopicName

  function UpdateRow(rows: map<string, Row>, id: string, f: Row -> Row): map<string, Row> {
    if id in rows then rows[id := f(rows[id])] else rows
  }

  /** What a call does and replies. A restart forgets the rituals in memory and
      loads the stored ones. */
  function Serve(domain: string, s: Server, call: Call): (Server, Reply) {
    match call
    case Create(id, config) =>
      (match TopicName(domain, id)
       case None => (s, BadTopicName)
       case Some(topic) =>
         (Server(s.rituals[id := Ritual(config, Active, topic, map[])],
                 s.rows[id := Row(config.name, config, "active", topic, map[])]), Created))
    case JoinRitual(id, key, issued) =>
      if id !in s.rituals then (s, NotFound)
      else if s.rituals[id].state != Active then (s, NotActive)
      else
        var r := s.rituals[id];
        if key == None then (s, Joined(issued, r.topic))
        else if key.value in r.participants then (s, Joined(r.participants[key.value], r.topic))
        else
          var participants := r.participants[key.value := issued];
          (Server(s.rituals[id := r.(participants := participants)],
                  UpdateRow(s.rows, id, (row: Row) => row.(participants := participants))), Joined(issued, r.topic))
    case Terminate(id) =>
      if id !in s.rituals then (s, NotFound)
      else
        (Server(s.rituals[id := s.rituals[id].(state := Terminated)],
                UpdateRow(s.rows, id, (row: Row) => row.(state := "terminated"))), Done)
    case Restart => (s.(rituals := Restored(s.rows)), Done)
  }

  class RitualRegistry {
    const domain: string
    const broker: InMemoryBroker
    const store: RitualStore
    var rituals: map<string, Ritual>

    function Contents(): Server
      reads this, store
    {
      Server(rituals, store.rows)
    }

    constructor (domain: string, broker: InMemoryBroker, store: RitualStore)
      ensures this.domain == domain && this.broker == broker && this.store == store && rituals == map[]
    {
      this.domain, this.broker, this.store := domain, broker, store;
      rituals := map[];
    }

    method CreateRitual(id: string, config: Config) returns (reply: Reply)
      modifies this, store
      ensures (Contents(), reply) == Serve(domain, old(Contents()), Create(id, config))
    {
      var topic := TopicName(domain, id);
      if topic == None {
        return BadTopicName;
      }
      rituals := rituals[id := Ritual(config, Active, topic.value, map[])];
      store.UpsertRitual(id, Row(config.name, config, "active", topic.value, map[]));
      reply := Created;
    }

    /** Joins at the end of the topic, so that earlier messages are not replayed. */
    method Join(id: string, key: Option<string>, issued: nat) returns (reply: Reply, handle: RitualHandle?)
      modifies this, store
      ensures (Contents(), reply) == Serve(domain, old(Contents()), JoinRitual(id, key, issued))
      ensures reply.Joined? == (handle != null)
      ensures reply.Joined? ==> fresh(handle) && handle.broker == broker
      ensures reply.Joined? ==> handle.performance == reply.performance && handle.topic == reply.topic
      ensures reply.Joined? ==> handle.offset == |Log(broker.topics, reply.topic)|
    {
      if id !in rituals {
        return NotFound, null;
      }
      var ritual := rituals[id];
      if ritual.state != Active {
        return NotActive, null;
      }
      var performance := issued;
      if key.Some? {
        if key.value in ritual.participants {
          performance := ritual.participants[key.value];
        } else {
          var participants := ritual.participants[key.value := issued];
          rituals := rituals[id := ritual.(participants := participants)];
          store.SetRitualParticipants(id, participants);
        }
      }
      var offset := broker.LatestOffset(ritual.topic);
      handle := new RitualHandle(performance, domain, broker, ritual.topic, offset);
      reply := Joined(performance, ritual.topic);
    }

    method TerminateRitual(id: string) returns (reply: Reply)
      modifies this, store
      ensures (Contents(), reply) == Serve(domain, old(Contents()), Terminate(id))
    {
      if id !in rituals {
        return NotFound;
      }
      rituals := rituals[id := rituals[id].(state := Terminated)];
      store.SetRitualState(id, "terminated");
      reply := Done;
    }

    /** Puts the stored rituals into the registry, row by row, over those of the same
        identifier. */
    method RestoreFromStore() returns (restored: nat)
      modifies this
      ensures rituals == old(rituals) + Restored(store.rows) && restored == |Restored(store.rows)|
    {
      hide *;
      restored := 0;
      var rows := store.rows;
      var todo := rows.Keys;
      ghost var base, done := rituals, rows - todo;
      NoneLeft(rows);
      NothingRestored(base);
      while todo != {}
        invariant todo <= rows.Keys && rows == store.rows && done == rows - todo
        invariant rituals == base + Restored(done) && restored == |Restored(done)|
        decreases todo
      {
        var id :| id in todo;
        MergeStep(base, done, id, rows[id]);
        OneFewer(rows, todo, id);
        todo := todo - {id};
        done := rows - todo;
        var state := StateFromString(rows[id].state);
        if state.Some? {
          rituals := rituals[id := Ritual(rows[id].config, state.value, rows[id].topic, rows[id].participants)];
          restored := restored + 1;
        }
      }
      NoneLeft(rows);
    }
  }

  lemma OneFewer(rows: map<string, Row>, todo: set<string>, id: string)
    requires id in todo && todo <= rows.Keys
    ensures rows - (todo - {id}) == (rows - todo)[id := rows[id]]
  {
  }

  lemma NoneLeft(rows: map<string, Row>)
    ensures rows - {} == rows && rows - rows.Keys == map[]
  {
  }

  lemma NothingRestored(base: map<string, Ritual>)
    ensures Restored(map[]) == map[] && base + Restored(map[]) == base
  {
  }

  /** Restoring one more row over what is there. */
  lemma MergeStep(base: map<string, Ritual>, rows: map<string, Row>, id: string, row: Row)
    requires id !in rows
    ensures var more := rows[id := row];
      match StateFromString(row.state)
      case Some(state) =>
        && base + Restored(more)
          == (base + Restored(rows))[id := Ritual(row.config, state, row.topic, row.participants)]
        && |Restored(more)| == |Restored(rows)| + 1
      case None => Restored(more) == Restored(rows)
  {
    hide Restored, StateFromString;
    RestoredStep(rows, id, row);
  }

  lemma RestoredStep(rows: map<string, Row>, id: string, row: Row)
    requires id !in rows
    ensures id !in Restored(rows)
    ensures Restored(rows[id := row]) ==
      match StateFromString(row.state)
      case Some(state) => Restored(rows)[id := Ritual(row.config, state, row.topic, row.participants)]
      case None => Restored(rows)
  {
    hide StateFromString;
  }

  /** A restart: a new registry over the same store. */
  method RestartRegistry(before: RitualRegistry) returns (after: RitualRegistry)
    ensures fresh(after) && after.store == before.store && after.domain == before.domain
    ensures after.Contents() == Serve(before.domain, before.Contents(), Restart).0
  {
    after := new RitualRegistry(before.domain, before.broker, before.store);
    var n := after.RestoreFromStore();
    assert map[] + Restored(before.store.rows) == Restored(before.store.rows);
  }

  // Runs of calls

  /** The store mirrors the rituals in memory. */
  predicate Mirrored(s: Server) { s.rows == StoredAll(s.rituals) }

  lemma ServingKeepsTheMirror(domain: string, s: Server, call: Call)
    requires Mirrored(s)
    ensures Mirrored(Serve(domain, s, call).0)
    ensures call.Restart? ==> Serve(domain, s, call).0 == s
  {
    hide TopicName, Restored;
    if call.Restart? {
      StoreRoundTrip(s.rituals);
    }
  }

  function After(domain: string, s: Server, calls: seq<Call>): Server
    decreases calls
  {
    if calls == [] then s else After(domain, Serve(domain, s, calls[0]).0, calls[1..])
  }

  function Replies(domain: string, s: Server, calls: seq<Call>): seq<Reply>
    decreases calls
  {
    if calls == [] then []
    else
      (if calls[0].Restart? then [] else [Serve(domain, s, calls[0]).1])
      + Replies(domain, Serve(domain, s, calls[0]).0, calls[1..])
  }

  function WithoutRestarts(calls: seq<Call>): seq<Call> {
    if calls == [] then []
    else (if calls[0].Restart? then [] else [calls[0]]) + WithoutRestarts(calls[1..])
  }

  /** Restarts anywhere in a sequence of calls change no ritual and no reply. */
  lemma {:induction false} RestartsAreInvisible(domain: string, s: Server, calls: seq<Call>)
    requires Mirrored(s)
    ensures After(domain, s, calls) == After(domain, s, WithoutRestarts(calls))
    ensures Replies(domain, s, calls) == Replies(domain, s, WithoutRestarts(calls))
    decreases calls
  {
    hide Serve, Mirrored;
    if calls != [] {
      ServingKeepsTheMirror(domain, s, calls[0]);
      RestartsAreInvisible(domain, Serve(domain, s, calls[0]).0, calls[1..]);
      var kept := WithoutRestarts(calls);
      assert calls[0].Restart? ==> kept == WithoutRestarts(calls[1..]);
      assert !calls[0].Restart? ==> kept[0] == calls[0] && kept[1..] == WithoutRestarts(calls[1..]);
    }
  }

  /** No later call creates the ritual anew. */
  predicate NotRecreated(id: string, calls: seq<Call>) {
    forall k | 0 <= k < |calls| && calls[k].Create? :: calls[k].id != id
  }

  /** A key keeps its performance, a topic stays, and Terminated is absorbing, over
      any later calls and restarts. */
  lemma {:induction false} RitualPersists(domain: string, s: Server, calls: seq<Call>, id: string, key: string)
    requires Mirrored(s) && id in s.rituals && NotRecreated(id, calls)
    ensures var now, later := s.rituals, After(domain, s, calls).rituals;
      && id in later && later[id].topic == now[id].topic && later[id].config == now[id].config
      && (now[id].state == Terminated ==> later[id] == now[id])
      && (key in now[id].participants ==>
            key in later[id].participants && later[id].participants[key] == now[id].participants[key])
    decreases calls
  {
    hide TopicName, Mirrored, Restored;
    if calls != [] {
      ServingKeepsTheMirror(domain, s, calls[0]);
      assert NotRecreated(id, calls[1..]);
      RitualPersists(domain, Serve(domain, s, calls[0]).0, calls[1..], id, key);
    }
  }

  /** Two successful joins under one key, with any calls and restarts in between,
      give the same performance. */
  lemma KeyedJoinsAgree(domain: string, s: Server, calls: seq<Call>, id: string, key: string, m: nat, n: nat)
    requires Mirrored(s) && NotRecreated(id, calls)
    requires Serve(domain, s, JoinRitual(id, Some(key), m)).1.Joined?
    requires var next := Serve(domain, s, JoinRitual(id, Some(key), m)).0;
      Serve(domain, After(domain, next, calls), JoinRitual(id, Some(key), n)).1.Joined?
    ensures var (next, reply) := Serve(domain, s, JoinRitual(id, Some(key), m));
      Serve(domain, After(domain, next, calls), JoinRitual(id, Some(key), n)).1 == reply
  {
    hide After, Mirrored;
    ServingKeepsTheMirror(domain, s, JoinRitual(id, Some(key), m));
    RitualPersists(domain, Serve(domain, s, JoinRitual(id, Some(key), m)).0, calls, id, key);
  }

  /** After termination every join is refused. */
  lemma TerminatedRefusesJoins(domain: string, s: Server, calls: seq<Call>, id: string, key: Option<string>, n: nat)
    requires Mirrored(s) && id in s.rituals && NotRecreated(id, calls)
    ensures var next := Serve(domain, s, Terminate(id)).0;
      Serve(domain, After(domain, next, calls), JoinRitual(id, key, n)).1 == NotActive
  {
    hide After, Mirrored;
    ServingKeepsTheMirror(domain, s, Terminate(id));
    RitualPersists(domain, Serve(domain, s, Terminate(id)).0, calls, id, "");
  }
}
