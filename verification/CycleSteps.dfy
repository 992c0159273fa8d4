/** What the stages of a deduction cycle do to the mailboxes, the pending offers and the
    ritual topic. */
module CycleSteps {
  import opened Wrappers
  import opened Text
  import opened Mailbox
  import opened Relay
  import opened RitualTopic
  import opened Offers

  /** An event that an engine writes, to its own mailbox or another. */
  datatype Emission = Emission(session: nat, origin: string, payload: Payload)

  /** What an engine does to the mailboxes in one pass: which events it consumes, and
      what it emits. Any choice is possible. */
  datatype Activity = Activity(consumed: set<nat>, emitted: seq<Emission>)

  /** The mailbox table and its supply of identifiers. */
  datatype Box = Box(rows: seq<Event>, nextId: nat)

  /** What replies change: the pending offers and the mailboxes. */
  datatype Desk = Desk(table: Table, box: Box)

  /** Where envelopes are taken in: the engines, the performance (none without a
      ritual), the graph node and the time. */
  datatype Site = Site(engines: Engines, performance: Option<nat>, node: Option<string>, now: int)

  /** All that the cycle depends on from outside: the engines, the peers, the clock,
      and the answers of the engine and tableau queries. */
  datatype CycleInput = CycleInput(prolog: Activity, clips: Activity, peers: seq<Envelope>, now: int,
                                   agendaEmpty: bool, requery: Activity, tableauStable: bool, rootResolved: bool,
                                   interrupted: bool)

  /** What happened in one cycle. */
  datatype Report = Report(converged: bool, published: nat, ingested: nat, relayed: nat, timedOut: nat)

  /** A converging cycle is one in which nothing happened. */
  predicate Quiet(r: Report) {
    r.converged ==> r.published == 0 && r.ingested == 0 && r.relayed == 0 && r.timedOut == 0
  }

  datatype RunStatus = Converged | Interrupted | MaxCyclesExceeded

  // Mailbox effects of the controller's own messages

  function RoutingOf(e: Envelope): Option<Routing> {
    if e.correlation == None && e.source == None && e.topicPath == None then None
    else Some(Routing(e.correlation, e.source, e.topicPath))
  }

  /** The body of an ingested envelope, with its routing merged in. */
  function IngestedPayload(e: Envelope): Payload {
    if RoutingOf(e) == None then e.body else e.body.(routing := RoutingOf(e))
  }

  /** The same event, posted to both engines. */
  function Both(s: Engines, origin: string, payload: Payload, id: nat, now: int): seq<Event> {
    [Event(id, s.prolog, origin, now, payload, Pending), Event(id + 1, s.clips, origin, now, payload, Pending)]
  }

  function TimeoutPayload(id: Option<nat>): Payload {
    Payload(None, None, None, if id == None then None else Some(Routing(id, None, None)), "evaluator_timeout")
  }

  function Waiting(rows: seq<Event>, session: nat, f: Filter): nat { |Selected(rows, session, f)| }

  lemma {:induction false} SelectedAppends(a: seq<Event>, b: seq<Event>, session: nat, f: Filter)
    ensures Selected(a + b, session, f) == Selected(a, session, f) + Selected(b, session, f)
  {
    hide Selects;
    if a == [] {
      SelectedStart(b, session, f);
      assert a + b == b && [] + Selected(b, session, f) == Selected(b, session, f);
    } else {
      assert (a + b)[1..] == a[1..] + b && (a + b)[0] == a[0];
      SelectedAppends(a[1..], b, session, f);
      SelectedFirst(a, session, f, Selected(b, session, f));
      SelectedFirst(a + b, session, f, []);
    }
  }

  lemma SelectedFirst(rows: seq<Event>, session: nat, f: Filter, more: seq<Event>)
    requires rows != []
    ensures Selected(rows, session, f) + more
         == (if Selects(rows[0], session, f) then [rows[0]] else []) + (Selected(rows[1..], session, f) + more)
  {
    hide Selects;
    var first, rest := if Selects(rows[0], session, f) then [rows[0]] else [], Selected(rows[1..], session, f);
    assert first + rest + more == first + (rest + more);
  }

  lemma {:induction false} AllSelected(rows: seq<Event>, session: nat, f: Filter)
    requires forall k | 0 <= k < |rows| :: Selects(rows[k], session, f)
    ensures Selected(rows, session, f) == rows
  {
    hide Selects;
    if rows != [] {
      AllSelected(rows[1..], session, f);
    }
  }

  lemma BothAreSeen(s: Engines, origin: string, payload: Payload, id: nat, now: int, rows: seq<Event>)
    requires s.prolog != s.clips
    ensures Waiting(rows + Both(s, origin, payload, id, now), s.clips, AnyOrigin)
      == Waiting(rows, s.clips, AnyOrigin) + 1
    ensures Waiting(rows + Both(s, origin, payload, id, now), s.prolog, Prefix("relay-"))
      >= Waiting(rows, s.prolog, Prefix("relay-"))
  {
    var both := Both(s, origin, payload, id, now);
    SelectedAppends(rows, both, s.clips, AnyOrigin);
    SelectedAppends(rows, both, s.prolog, Prefix("relay-"));
    assert both == [both[0]] + [both[1]];
    SelectedAppends([both[0]], [both[1]], s.clips, AnyOrigin);
    assert Selected([both[0]], s.clips, AnyOrigin) == [] && Selected([both[1]], s.clips, AnyOrigin) == [both[1]];
  }

  /** Every copy that the relay to Prolog makes counts against convergence. */
  lemma RelayedAreSeen(s: Engines, rows: seq<Event>, id: nat, now: int)
    ensures Waiting(Relayed(ToProlog, s, rows, id, now), s.prolog, Prefix("relay-")) >= |Taken(ToProlog, s, rows)|
  {
    hide Selected, Translate, Restatus, ByTime;
    var copies := Copies(ToProlog, s, Taken(ToProlog, s, rows), id, now);
    assert "relay-" <= Tag(ToProlog);
    AllSelected(copies, s.prolog, Prefix("relay-"));
    SelectedAppends(Restatus(rows, From(ToProlog, s), Emitted(ToProlog), Processed), copies, s.prolog,
                    Prefix("relay-"));
  }

  // Publishing

  /** The correlation id, and the next free id, for an outbound event. */
  function CorrelationFor(e: Event, nextId: nat): (r: (nat, nat))
    ensures nextId <= r.1 <= nextId + 1
  {
    if e.payload.caws.Some? && e.payload.caws.value.correlation.Some?
      then (e.payload.caws.value.correlation.value, nextId)
    else (nextId, nextId + 1)
  }

  predicate ExpectsReply(e: Event) { e.payload.caws == None || e.payload.caws.value.expectsReply }

  function DefaultPath(domain: string, performance: nat): string { domain + "/ritual/" + Numeral(performance) }

  function PathFor(d: Directive, domain: string, performance: nat): Option<string> {
    if d.topicPath.Some? then d.topicPath else Some(DefaultPath(domain, performance))
  }

  function KindOf(d: Directive): string {
    if d.kind == "event" || d.kind == "hohi" || d.kind == "tabu" then d.kind else "offering"
  }

  function OfferFor(e: Event, domain: string, performance: nat): Offer {
    match e.payload.caws
    case None => Offer(0, false, None)
    case Some(d) => Offer(0, true, PathFor(d, domain, performance))
  }

  /** Pending offers and registered ids after publishing events in order. */
  datatype Book = Book(table: Table, registered: set<nat>, nextId: nat)

  function Enter1(b: Book, e: Event, domain: string, performance: nat): Book {
    var (id, next) := CorrelationFor(e, b.nextId);
    if ExpectsReply(e) then Book(b.table[id := OfferFor(e, domain, performance)], b.registered + {id}, next)
    else b.(nextId := next)
  }

  function EnterAll(b: Book, events: seq<Event>, domain: string, performance: nat): Book
    decreases events
  {
    if events == [] then b else EnterAll(Enter1(b, events[0], domain, performance), events[1..], domain, performance)
  }

  /** Ids under which publishing the events registers offers. */
  function NewOffers(nextId: nat, events: seq<Event>): set<nat>
    decreases events
  {
    if events == [] then {}
    else
      var (id, next) := CorrelationFor(events[0], nextId);
      (if ExpectsReply(events[0]) then {id} else {}) + NewOffers(next, events[1..])
  }

  function Expecting(events: seq<Event>): nat {
    if events == [] then 0 else (if ExpectsReply(events[0]) then 1 else 0) + Expecting(events[1..])
  }

  lemma {:induction false} EnteringRegisters(b: Book, events: seq<Event>, domain: string, performance: nat)
    ensures var after, ids := EnterAll(b, events, domain, performance), NewOffers(b.nextId, events);
      && after.table.Keys == b.table.Keys + ids && after.registered == b.registered + ids
      && b.nextId <= after.nextId
      && (Expecting(events) > 0 ==> ids != {})
    decreases events
  {
    hide ExpectsReply, OfferFor, CorrelationFor;
    if events != [] {
      EnteringRegisters(Enter1(b, events[0], domain, performance), events[1..], domain, performance);
      assert ExpectsReply(events[0]) ==> CorrelationFor(events[0], b.nextId).0 in NewOffers(b.nextId, events);
    }
  }

  function OfferingFor(e: Event, id: nat, performance: nat, domain: string, now: int): Envelope {
    match e.payload.caws
    case None => Addressed(performance, "offering", now, DEFAULT_TTL, e.payload, BROADCAST)
    case Some(d) =>
      Addressed(performance, KindOf(d), now, DEFAULT_TTL, e.payload.(caws := None),
                Address(d.source, d.target, Some(id), PathFor(d, domain, performance), d.tags))
  }

  /** The envelopes that publishing the events puts on the topic, in order. */
  function Offerings(events: seq<Event>, nextId: nat, performance: nat, domain: string, now: int): seq<Envelope>
    decreases events
  {
    if events == [] then []
    else
      var (id, next) := CorrelationFor(events[0], nextId);
      [OfferingFor(events[0], id, performance, domain, now)] + Offerings(events[1..], next, performance, domain, now)
  }

  lemma EnterStep(b: Book, events: seq<Event>, domain: string, performance: nat)
    requires events != []
    ensures EnterAll(b, events, domain, performance)
         == EnterAll(Enter1(b, events[0], domain, performance), events[1..], domain, performance)
  {
    hide Enter1;
  }

  lemma OfferingsStep(events: seq<Event>, nextId: nat, performance: nat, domain: string, now: int, log: seq<Envelope>)
    requires events != []
    ensures var (id, next) := CorrelationFor(events[0], nextId);
      log + Offerings(events, nextId, performance, domain, now)
        == log + [OfferingFor(events[0], id, performance, domain, now)]
            + Offerings(events[1..], next, performance, domain, now)
  {
    hide OfferingFor, CorrelationFor;
  }

  function Outbound(rows: seq<Event>, s: Engines): seq<Event> {
    SetProcessed(ByTime(Selected(rows, s.prolog, Prefix("evaluator/"))))
  }

  function EnginePosts(emitted: seq<Emission>, id: nat, now: int): seq<Event> {
    seq(|emitted|, k
        requires 0 <= k < |emitted| =>
        Event(id + k, emitted[k].session, emitted[k].origin, now, emitted[k].payload, Pending))
  }

  function EngineStep(b: Box, a: Activity, now: int): Box {
    Box(MarkIds(b.rows, a.consumed) + EnginePosts(a.emitted, b.nextId, now), b.nextId + |a.emitted|)
  }

  function RelayStep(b: Box, d: Direction, s: Engines, now: int): Box {
    Box(Relayed(d, s, b.rows, b.nextId, now), b.nextId + |Taken(d, s, b.rows)|)
  }

  /** The mailboxes after the CLIPS pass. */
  function EnginesRun(b: Box, s: Engines, input: CycleInput): Box {
    EngineStep(RelayStep(EngineStep(b, input.prolog, input.now), ToClips, s, input.now), input.clips, input.now)
  }

  lemma RelayIsSeen(b: Box, s: Engines, now: int)
    ensures Waiting(RelayStep(b, ToProlog, s, now).rows, s.prolog, Prefix("relay-")) >= |Taken(ToProlog, s, b.rows)|
  {
    hide Waiting, Relayed, Taken;
    RelayedAreSeen(s, b.rows, b.nextId, now);
  }

  // The evaluator pass

  /** What the evaluator pass changes: besides the desk, the ids ever registered and
      the topic. */
  datatype Scene = Scene(desk: Desk, registered: set<nat>, log: seq<Envelope>)

  /** Takes the evaluator events out of the Prolog mailbox, appends their envelopes
      to the topic, and registers the offers. */
  function PublishStep(before: Scene, s: Engines, domain: string, performance: nat, now: int): Scene {
    var box := before.desk.box;
    var out := Outbound(box.rows, s);
    var book := EnterAll(Book(before.desk.table, before.registered, box.nextId), out, domain, performance);
    Scene(Desk(book.table, Box(Restatus(box.rows, s.prolog, Prefix("evaluator/"), Processed), book.nextId)),
          book.registered, before.log + Offerings(out, box.nextId, performance, domain, now))
  }

  /** A whole pass of a controller with a ritual: what has been posted by now and is
      unexpired is taken in, in order; then the evaluator events are published. */
  predicate PassFrom(before: Scene, offset: int, site: Site, domain: string, performance: nat, peers: seq<Envelope>,
                     resolved: seq<Option<nat>>, after: Scene, published: nat, ingested: nat)
  {
    var log := before.log + peers;
    var es := Arrivals(log, offset, site.now);
    && |resolved| == |es| && AllMayResolve(before.desk, site, es, resolved)
      && ingested == Admissions(site, es, resolved)
    && var took := Scene(IngestedAll(before.desk, site, es, resolved), before.registered, log);
       && published == Expecting(Outbound(took.desk.box.rows, site.engines))
       && after == PublishStep(took, site.engines, domain, performance, site.now)
  }

  /** Whatever a pass takes in or sends out stands in the way of convergence. */
  lemma PassIsSeen(before: Scene, offset: int, site: Site, domain: string, performance: nat, peers: seq<Envelope>,
                   resolved: seq<Option<nat>>, after: Scene, published: nat, ingested: nat)
    requires site.engines.prolog != site.engines.clips
    requires PassFrom(before, offset, site, domain, performance, peers, resolved, after, published, ingested)
    ensures var s, b, a := site.engines, before.desk.box.rows, after.desk.box.rows;
      && Waiting(a, s.clips, AnyOrigin) == Waiting(b, s.clips, AnyOrigin) + ingested
      && Waiting(a, s.prolog, Prefix("relay-")) >= Waiting(b, s.prolog, Prefix("relay-"))
      && (published > 0 ==> after.desk.table != map[]) && before.registered <= after.registered
  {
    hide Waiting, AllMayResolve, IngestedAll, Admissions, PublishStep, Expecting, Outbound, Arrivals;
    var log := before.log + peers;
    var es := Arrivals(log, offset, site.now);
    IngestedAreSeen(before.desk, site, es, resolved);
    PublishingIsUnseen(Scene(IngestedAll(before.desk, site, es, resolved), before.registered, log), site.engines,
                       domain, performance, site.now);
  }

  lemma LogGrows(topics: map<string, seq<Envelope>>, topic: string, e: Envelope)
    ensures Log(topics[topic := Log(topics, topic) + [e]], topic) == Log(topics, topic) + [e]
  {
  }

  function Arrivals(log: seq<Envelope>, offset: int, now: int): seq<Envelope> {
    Unexpired(log[Start(log, offset)..], now)
  }

  /** Without a ritual every reply counts as this performance's own. */
  predicate Own(site: Site, e: Envelope) {
    site.performance == None || site.performance == Some(e.performance)
  }

  /** `resolved` is a possible outcome of taking in `e`. An encrypted envelope
      resolves nothing. */
  predicate MayResolve(table: Table, site: Site, e: Envelope, resolved: Option<nat>) {
    if !e.encrypted && IsReply(e) then Resolves(table, Own(site, e), e.correlation, resolved) else resolved == None
  }

  predicate Admitted(site: Site, e: Envelope, resolved: Option<nat>) {
    !e.encrypted && Accepted(e, site.performance, site.node, resolved)
  }

  /** What is admitted goes to both mailboxes. */
  function Ingest1(desk: Desk, site: Site, e: Envelope, resolved: Option<nat>): Desk {
    Desk(Remove(desk.table, resolved),
         if Admitted(site, e, resolved) then
           Box(desk.box.rows + Both(site.engines, "ritual/" + e.kind, IngestedPayload(e), desk.box.nextId, site.now),
               desk.box.nextId + 2)
         else desk.box)
  }

  function IngestedAll(desk: Desk, site: Site, es: seq<Envelope>, resolved: seq<Option<nat>>): Desk
    requires |resolved| == |es|
  {
    if es == [] then desk
    else
      var n := |es| - 1;
      Ingest1(IngestedAll(desk, site, es[..n], resolved[..n]), site, es[n], resolved[n])
  }

  predicate AllMayResolve(desk: Desk, site: Site, es: seq<Envelope>, resolved: seq<Option<nat>>)
    requires |resolved| == |es|
  {
    forall k | 0 <= k < |es| ::
      MayResolve(IngestedAll(desk, site, es[..k], resolved[..k]).table, site, es[k], resolved[k])
  }

  function Admissions(site: Site, es: seq<Envelope>, resolved: seq<Option<nat>>): nat
    requires |resolved| == |es|
  {
    if es == [] then 0
    else
      var n := |es| - 1;
      Admissions(site, es[..n], resolved[..n]) + if Admitted(site, es[n], resolved[n]) then 1 else 0
  }

  lemma IngestStep(desk: Desk, site: Site, es: seq<Envelope>, resolved: seq<Option<nat>>, e: Envelope,
                   last: Option<nat>)
    requires |resolved| == |es|
    requires AllMayResolve(desk, site, es, resolved)
      && MayResolve(IngestedAll(desk, site, es, resolved).table, site, e, last)
    ensures IngestedAll(desk, site, es + [e], resolved + [last])
      == Ingest1(IngestedAll(desk, site, es, resolved), site, e, last)
    ensures Admissions(site, es + [e], resolved + [last]) == Admissions(site, es, resolved) + if Admitted(site, e, last)
      then 1 else 0
    ensures AllMayResolve(desk, site, es + [e], resolved + [last])
  {
    hide Ingest1, Admitted, MayResolve, IngestedAll;
    assert (es + [e])[..|es|] == es && (resolved + [last])[..|es|] == resolved;
    assert forall k | 0 <= k <= |es| :: (es + [e])[..k] == es[..k] && (resolved + [last])[..k] == resolved[..k];
    IngestedLast(desk, site, es + [e], resolved + [last]);
  }

  lemma IngestNone(desk: Desk, site: Site)
    ensures AllMayResolve(desk, site, [], []) && Admissions(site, [], []) == 0
      && IngestedAll(desk, site, [], []) == desk
  {
  }

  lemma IngestedLast(desk: Desk, site: Site, es: seq<Envelope>, resolved: seq<Option<nat>>)
    requires |resolved| == |es| > 0
    ensures var n := |es| - 1;
      IngestedAll(desk, site, es, resolved)
          == Ingest1(IngestedAll(desk, site, es[..n], resolved[..n]), site, es[n], resolved[n])
  {
    hide Ingest1;
  }

  /** Every envelope taken in counts against convergence. */
  lemma {:induction false} IngestedAreSeen(desk: Desk, site: Site, es: seq<Envelope>, resolved: seq<Option<nat>>)
    requires |resolved| == |es| && site.engines.prolog != site.engines.clips
    ensures var s, after := site.engines, IngestedAll(desk, site, es, resolved).box.rows;
      && Waiting(after, s.clips, AnyOrigin) == Waiting(desk.box.rows, s.clips, AnyOrigin)
        + Admissions(site, es, resolved)
      && Waiting(after, s.prolog, Prefix("relay-")) >= Waiting(desk.box.rows, s.prolog, Prefix("relay-"))
  {
    hide Waiting, Both, Admitted, IngestedPayload;
    if es != [] {
      var n := |es| - 1;
      IngestedAreSeen(desk, site, es[..n], resolved[..n]);
      var box := IngestedAll(desk, site, es[..n], resolved[..n]).box;
      BothAreSeen(site.engines, "ritual/" + es[n].kind, IngestedPayload(es[n]), box.nextId, site.now, box.rows);
    }
  }

  /** The time-out messages for offers taken in some order: to both engines, with
      the offer's id if it was correlated. */
  function TimeoutPosts(s: Engines, order: seq<nat>, table: Table, id: nat, now: int): seq<Event> {
    if order == [] then []
    else
      var last := order[|order| - 1];
      TimeoutPosts(s, order[..|order| - 1], table, id, now)
      + Both(s, "ritual/tabu-timeout",
             TimeoutPayload(if last in table && table[last].correlated then Some(last) else None),
             id + 2 * (|order| - 1), now)
  }

  /** Taking the evaluator events changes neither count that convergence looks at. */
  lemma TakingIsUnseen(s: Engines, rows: seq<Event>)
    requires s.prolog != s.clips
    ensures var after := Restatus(rows, s.prolog, Prefix("evaluator/"), Processed);
      Waiting(after, s.clips, AnyOrigin) == Waiting(rows, s.clips, AnyOrigin)
      && Waiting(after, s.prolog, Prefix("relay-")) == Waiting(rows, s.prolog, Prefix("relay-"))
  {
    hide Selected, Restatus;
    SelectionsAreIndependent(rows, s.prolog, Prefix("evaluator/"), AnyOrigin, s.clips);
    forall o: string ensures !(Matches(Prefix("evaluator/"), o) && Matches(Prefix("relay-"), o)) {
      SelectorsAreDisjoint(o);
    }
    SelectionsAreIndependent(rows, s.prolog, Prefix("evaluator/"), Prefix("relay-"), s.prolog);
  }

  /** Publishing hides nothing from the convergence check, and an event that expects
      a reply leaves an offer pending. */
  lemma PublishingIsUnseen(before: Scene, s: Engines, domain: string, performance: nat, now: int)
    requires s.prolog != s.clips
    ensures var b, after := before.desk.box.rows, PublishStep(before, s, domain, performance, now);
      && Waiting(after.desk.box.rows, s.clips, AnyOrigin) == Waiting(b, s.clips, AnyOrigin)
      && Waiting(after.desk.box.rows, s.prolog, Prefix("relay-")) == Waiting(b, s.prolog, Prefix("relay-"))
      && (Expecting(Outbound(b, s)) > 0 ==> after.desk.table != map[])
      && before.registered <= after.registered
  {
    hide Selected, Restatus, EnterAll, NewOffers, Outbound, Offerings;
    var box := before.desk.box;
    EnteringRegisters(Book(before.desk.table, before.registered, box.nextId), Outbound(box.rows, s), domain,
                      performance);
    TakingIsUnseen(s, box.rows);
  }

  function Older(table: Table): Table { map id | id in table :: table[id].(waiting := table[id].waiting + 1) }

  function Elements(order: seq<nat>): set<nat> { set id | id in order }

  lemma NoTimeouts(s: Engines, table: Table, id: nat, now: int)
    ensures TimeoutPosts(s, [], table, id, now) == [] && Elements([]) == {}
  {
  }

  lemma TimeoutStep(s: Engines, order: seq<nat>, last: nat, table: Table, id: nat, now: int, rows: seq<Event>)
    requires last in table
    ensures rows + TimeoutPosts(s, order + [last], table, id, now) == rows + TimeoutPosts(s, order, table, id, now)
      + Both(s, "ritual/tabu-timeout", TimeoutPayload(if table[last].correlated then Some(last) else None),
             id + 2 * |order|, now)
    ensures Elements(order + [last]) == Elements(order) + {last}
  {
    hide Both, TimeoutPayload;
    assert (order + [last])[..|order|] == order;
  }

  lemma DropsOne(table: Table, late: set<nat>, todo: set<nat>, id: nat)
    requires id in todo && todo <= late <= table.Keys
    ensures table - (late - (todo - {id})) == (table - (late - todo)) - {id}
    ensures id in table - (late - todo)
    ensures late - (todo - {id}) == late - todo + {id}
  {
  }

  lemma AgeingSplits(table: Table, patience: nat)
    ensures Older(table) - TimedOutBy(table, patience) == Aged(table, patience)
    ensures TimedOutBy(table, patience) <= Older(table).Keys
  {
  }

  /** A check that leaves nothing pending and times nothing out began with nothing
      pending: an offer leaves the table only by an answer or a time-out. */
  lemma NothingLeftMeansNothingThere(table: Table, patience: nat)
    ensures Aged(table, patience) == map[] && TimedOutBy(table, patience) == {} <==> table == map[]
  {
    if table != map[] {
      var id :| id in table;
      assert id in Aged(table, patience) || id in TimedOutBy(table, patience);
    }
  }

  lemma {:induction false} SameTimeouts(s: Engines, order: seq<nat>, table: Table, id: nat, now: int)
    ensures TimeoutPosts(s, order, Older(table), id, now) == TimeoutPosts(s, order, table, id, now)
  {
    hide Both, TimeoutPayload;
    if order != [] {
      SameTimeouts(s, order[..|order| - 1], table, id, now);
    }
  }
}
