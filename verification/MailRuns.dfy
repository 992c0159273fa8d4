/** A whole deduction as one run of the engines and the two relays over the mailboxes, so
    that exactly-once delivery and freedom from loops hold of all of it. */
module MailRuns {
  import opened Wrappers
  import opened Mailbox
  import opened Relay
  import opened RitualTopic
  import opened Offers
  import opened CycleSteps
  import opened DeductionRuns

  function BoxOf(w: World): Box { Box(w.rows, w.nextId) }

  // The steps of each stage

  function Emits(emitted: seq<Emission>, now: int): seq<Relay.Step>
    decreases emitted
  {
    if emitted == [] then []
    else [Emit(emitted[0].session, emitted[0].origin, now, emitted[0].payload)] + Emits(emitted[1..], now)
  }

  function EngineSteps(a: Activity, now: int): seq<Relay.Step> {
    [Consume(Process(a.consumed))] + Emits(a.emitted, now)
  }

  /** The engines take turns, and each is relayed to the other. */
  function RelaySteps(input: CycleInput): seq<Relay.Step> {
    EngineSteps(input.prolog, input.now) + [DoRelay(ToClips, input.now)]
    + EngineSteps(input.clips, input.now) + [DoRelay(ToProlog, input.now)]
  }

  function BothSteps(s: Engines, origin: string, payload: Payload, now: int): seq<Relay.Step> {
    [Emit(s.prolog, origin, now, payload), Emit(s.clips, origin, now, payload)]
  }

  function IngestSteps(site: Site, es: seq<Envelope>, resolved: seq<Option<nat>>): seq<Relay.Step>
    requires |resolved| == |es|
  {
    if es == [] then []
    else
      var n := |es| - 1;
      IngestSteps(site, es[..n], resolved[..n])
      + if Admitted(site, es[n], resolved[n])
          then BothSteps(site.engines, "ritual/" + es[n].kind, IngestedPayload(es[n]), site.now) else []
  }

  /** The evaluator events are taken, and their correlation ids issued. */
  function PublishSteps(s: Engines, issued: nat): seq<Relay.Step> {
    [Consume(Take(s.prolog, Prefix("evaluator/"))), Reserve(issued)]
  }

  function TimeoutSteps(s: Engines, order: seq<nat>, table: Table, now: int): seq<Relay.Step> {
    if order == [] then []
    else
      var last := order[|order| - 1];
      TimeoutSteps(s, order[..|order| - 1], table, now)
      + BothSteps(s, "ritual/tabu-timeout",
                  TimeoutPayload(if last in table && table[last].correlated then Some(last) else None), now)
  }

  /** What was posted by the time of the pass. */
  function ArrivedIn(setup: Setup, before: State, input: CycleInput): seq<Envelope> {
    Arrivals(AfterRelays(setup, before, input).log + input.peers, before.offset, input.now)
  }

  predicate AllResolved(setup: Setup, before: State, input: CycleInput, t: Trace) {
    setup.performance.Some? ==> |t.resolved| == |ArrivedIn(setup, before, input)|
  }

  /** Up to where the evaluator events are taken. */
  function StepsToPublishing(setup: Setup, before: State, input: CycleInput, t: Trace): seq<Relay.Step>
    requires AllResolved(setup, before, input, t)
  {
    RelaySteps(input) + if setup.performance.Some?
        then IngestSteps(setup.At(input.now), ArrivedIn(setup, before, input), t.resolved) else []
  }

  /** The mailboxes then. */
  function BoxAtPublishing(setup: Setup, before: State, input: CycleInput, t: Trace): Box
    requires AllResolved(setup, before, input, t)
  {
    var relayed := AfterRelays(setup, before, input);
    if setup.performance.Some?
      then IngestedAll(relayed.desk, setup.At(input.now), ArrivedIn(setup, before, input), t.resolved).box
    else relayed.desk.box
  }

  function StepsFromPublishing(setup: Setup, before: State, input: CycleInput, t: Trace): seq<Relay.Step>
    requires AllResolved(setup, before, input, t)
  {
    var id := BoxAtPublishing(setup, before, input, t).nextId;
    var box := t.pass.desk.box;
    (if setup.performance.Some? && id <= box.nextId then PublishSteps(setup.engines, box.nextId - id) else [])
    + CheckSteps(setup.engines, QueuesEmpty(setup.engines, box.rows), t.pass.desk.table, t.order, input)
  }

  function CheckSteps(s: Engines, quiet: bool, table: Table, order: seq<nat>, input: CycleInput): seq<Relay.Step> {
    (if quiet && input.agendaEmpty then EngineSteps(input.requery, input.now) else [])
        + TimeoutSteps(s, order, table, input.now)
  }

  /** The steps of a whole cycle. */
  function MailSteps(setup: Setup, before: State, input: CycleInput, t: Trace): seq<Relay.Step>
    requires AllResolved(setup, before, input, t)
  {
    StepsToPublishing(setup, before, input, t) + StepsFromPublishing(setup, before, input, t)
  }

  // Each stage is a run of its steps

  lemma {:induction false} RunAppends(w: World, s: Engines, a: seq<Relay.Step>, b: seq<Relay.Step>)
    ensures Relay.Run(w, s, a + b) == Relay.Run(Relay.Run(w, s, a), s, b)
    decreases a
  {
    hide Relay.Do;
    if a == [] {
      assert a + b == b;
    } else {
      assert (a + b)[1..] == a[1..] + b && (a + b)[0] == a[0];
      RunAppends(Relay.Do(w, s, a[0]), s, a[1..], b);
    }
  }

  lemma RunOne(w: World, s: Engines, step: Relay.Step)
    ensures Relay.Run(w, s, [step]) == Relay.Do(w, s, step)
  {
    hide Relay.Do;
    assert [step][1..] == [];
  }

  lemma PostsStep(emitted: seq<Emission>, id: nat, now: int)
    requires emitted != []
    ensures var e := emitted[0];
      EnginePosts(emitted, id, now)
        == [Event(id, e.session, e.origin, now, e.payload, Pending)] + EnginePosts(emitted[1..], id + 1, now)
  {
  }

  lemma {:induction false} EmitsRun(w: World, s: Engines, emitted: seq<Emission>, now: int)
    ensures BoxOf(Relay.Run(w, s, Emits(emitted, now)))
         == Box(w.rows + EnginePosts(emitted, w.nextId, now), w.nextId + |emitted|)
    decreases emitted
  {
    hide EnginePosts, Relayed, Apply, Links, Taken;
    if emitted == [] {
      NoPosts(w.nextId, now);
      assert w.rows + [] == w.rows;
    } else {
      var e, more := emitted[0], EnginePosts(emitted[1..], w.nextId + 1, now);
      var step := Emit(e.session, e.origin, now, e.payload);
      var first := Event(w.nextId, e.session, e.origin, now, e.payload, Pending);
      assert Emits(emitted, now)[0] == step && Emits(emitted, now)[1..] == Emits(emitted[1..], now);
      EmitsRun(World(w.rows + [first], w.nextId + 1, w.links), s, emitted[1..], now);
      PostsStep(emitted, w.nextId, now);
      assert w.rows + [first] + more == w.rows + ([first] + more);
    }
  }

  lemma NoPosts(id: nat, now: int)
    ensures EnginePosts([], id, now) == []
  {
  }

  lemma EngineRuns(w: World, s: Engines, a: Activity, now: int)
    ensures BoxOf(Relay.Run(w, s, EngineSteps(a, now))) == EngineStep(BoxOf(w), a, now)
  {
    hide Emits, MarkIds, EnginePosts;
    var consume := Consume(Process(a.consumed));
    RunAppends(w, s, [consume], Emits(a.emitted, now));
    RunOne(w, s, consume);
    EmitsRun(Relay.Do(w, s, consume), s, a.emitted, now);
  }

  lemma RelayRuns(w: World, s: Engines, d: Direction, now: int)
    ensures BoxOf(Relay.Run(w, s, [DoRelay(d, now)])) == RelayStep(BoxOf(w), d, s, now)
  {
    hide Relayed, Taken, Links;
    RunOne(w, s, DoRelay(d, now));
  }

  lemma RelaysRun(w: World, s: Engines, input: CycleInput)
    ensures BoxOf(Relay.Run(w, s, RelaySteps(input)))
      == RelayStep(EnginesRun(BoxOf(w), s, input), ToProlog, s, input.now)
  {
    hide EngineSteps, EngineStep, RelayStep, BoxOf;
    var now := input.now;
    var a, b := EngineSteps(input.prolog, now), EngineSteps(input.clips, now);
    RunAppends(w, s, a, [DoRelay(ToClips, now)]);
    RunAppends(w, s, a + [DoRelay(ToClips, now)], b);
    RunAppends(w, s, a + [DoRelay(ToClips, now)] + b, [DoRelay(ToProlog, now)]);
    EngineRuns(w, s, input.prolog, now);
    RelayRuns(Relay.Run(w, s, a), s, ToClips, now);
    EngineRuns(Relay.Run(w, s, a + [DoRelay(ToClips, now)]), s, input.clips, now);
    RelayRuns(Relay.Run(w, s, a + [DoRelay(ToClips, now)] + b), s, ToProlog, now);
  }

  lemma BothRun(w: World, s: Engines, origin: string, payload: Payload, now: int)
    ensures BoxOf(Relay.Run(w, s, BothSteps(s, origin, payload, now)))
         == Box(w.rows + Both(s, origin, payload, w.nextId, now), w.nextId + 2)
  {
    var first, second := Emit(s.prolog, origin, now, payload), Emit(s.clips, origin, now, payload);
    RunAppends(w, s, [first], [second]);
    RunOne(w, s, first);
    RunOne(Relay.Do(w, s, first), s, second);
    assert [first] + [second] == BothSteps(s, origin, payload, now);
    var events := Both(s, origin, payload, w.nextId, now);
    assert w.rows + [events[0]] + [events[1]] == w.rows + events;
  }

  lemma {:induction false} IngestRuns(w: World, desk: Desk, site: Site, es: seq<Envelope>, resolved: seq<Option<nat>>)
    requires |resolved| == |es| && BoxOf(w) == desk.box
    ensures BoxOf(Relay.Run(w, site.engines, IngestSteps(site, es, resolved)))
      == IngestedAll(desk, site, es, resolved).box
  {
    hide Relay.Do, Both, BothSteps, Admitted, IngestedPayload;
    if es != [] {
      var s, n := site.engines, |es| - 1;
      var steps := IngestSteps(site, es[..n], resolved[..n]);
      IngestRuns(w, desk, site, es[..n], resolved[..n]);
      var more := if Admitted(site, es[n], resolved[n])
        then BothSteps(s, "ritual/" + es[n].kind, IngestedPayload(es[n]), site.now) else [];
      RunAppends(w, s, steps, more);
      BothRun(Relay.Run(w, s, steps), s, "ritual/" + es[n].kind, IngestedPayload(es[n]), site.now);
    }
  }

  lemma PublishRuns(w: World, s: Engines, issued: nat)
    ensures BoxOf(Relay.Run(w, s, PublishSteps(s, issued)))
         == Box(Restatus(w.rows, s.prolog, Prefix("evaluator/"), Processed), w.nextId + issued)
  {
    hide Restatus;
    var take := Consume(Take(s.prolog, Prefix("evaluator/")));
    assert PublishSteps(s, issued) == [take] + [Reserve(issued)];
    RunAppends(w, s, [take], [Reserve(issued)]);
    RunOne(w, s, take);
    RunOne(Relay.Do(w, s, take), s, Reserve(issued));
  }

  lemma {:induction false} TimeoutsRun(w: World, s: Engines, order: seq<nat>, table: Table, now: int)
    ensures BoxOf(Relay.Run(w, s, TimeoutSteps(s, order, table, now)))
         == Box(w.rows + TimeoutPosts(s, order, table, w.nextId, now), w.nextId + 2 * |order|)
  {
    hide Relay.Do, Both, BothSteps, TimeoutPayload;
    if order == [] {
      assert w.rows + [] == w.rows;
    } else {
      var last, before := order[|order| - 1], order[..|order| - 1];
      var payload := TimeoutPayload(if last in table && table[last].correlated then Some(last) else None);
      TimeoutsRun(w, s, before, table, now);
      RunAppends(w, s, TimeoutSteps(s, before, table, now), BothSteps(s, "ritual/tabu-timeout", payload, now));
      BothRun(Relay.Run(w, s, TimeoutSteps(s, before, table, now)), s, "ritual/tabu-timeout", payload, now);
      var posts := TimeoutPosts(s, before, table, w.nextId, now);
      var both := Both(s, "ritual/tabu-timeout", payload, w.nextId + 2 * |before|, now);
      assert w.rows + posts + both == w.rows + (posts + both);
    }
  }

  lemma CheckRuns(w: World, setup: Setup, pass: Scene, order: seq<nat>, input: CycleInput)
    requires BoxOf(w) == pass.desk.box
    ensures var s := setup.engines;
      BoxOf(Relay.Run(w, s, CheckSteps(s, QueuesEmpty(s, pass.desk.box.rows), pass.desk.table, order, input)))
        == Checked(setup, pass, order, input).desk.box
  {
    hide Relay.Do, EngineSteps, EngineStep, TimeoutSteps, TimeoutPosts, QueuesEmpty, Aged;
    var s, box := setup.engines, pass.desk.box;
    var steps := if QueuesEmpty(s, box.rows) && input.agendaEmpty then EngineSteps(input.requery, input.now) else [];
    EngineRuns(w, s, input.requery, input.now);
    RunAppends(w, s, steps, TimeoutSteps(s, order, pass.desk.table, input.now));
    TimeoutsRun(Relay.Run(w, s, steps), s, order, pass.desk.table, input.now);
  }

  // A cycle, and a deduction

  lemma PassResolves(setup: Setup, before: State, input: CycleInput, t: Trace, report: Report)
    requires PassOf(setup, before, input, t, report)
    ensures AllResolved(setup, before, input, t)
    ensures var at := BoxAtPublishing(setup, before, input, t);
      if setup.performance.Some? then
        at.nextId <= t.pass.desk.box.nextId
            && t.pass.desk.box.rows == Restatus(at.rows, setup.engines.prolog, Prefix("evaluator/"), Processed)
      else t.pass.desk.box == at
  {
    hide EnginesRun, RelayStep, AllMayResolve, IngestedAll, Admissions, EnterAll, NewOffers, Expecting, Outbound,
        Arrivals, Offerings, Restatus;
    if setup.performance.Some? {
      var relayed := AfterRelays(setup, before, input);
      var desk := IngestedAll(relayed.desk, setup.At(input.now), ArrivedIn(setup, before, input), t.resolved);
      EnteringRegisters(Book(desk.table, relayed.registered, desk.box.nextId), Outbound(desk.box.rows, setup.engines),
                        setup.domain, setup.performance.value);
    }
  }

  lemma RunsToPublishing(w: World, setup: Setup, before: State, input: CycleInput, t: Trace)
    requires AllResolved(setup, before, input, t) && BoxOf(w) == before.scene.desk.box
    ensures BoxOf(Relay.Run(w, setup.engines, StepsToPublishing(setup, before, input, t)))
      == BoxAtPublishing(setup, before, input, t)
  {
    hide Relay.Do, RelaySteps, IngestSteps, EnginesRun, RelayStep, IngestedAll, ArrivedIn;
    var s := setup.engines;
    RelaysRun(w, s, input);
    var relayed := Relay.Run(w, s, RelaySteps(input));
    if setup.performance.Some? {
      var es := ArrivedIn(setup, before, input);
      RunAppends(w, s, RelaySteps(input), IngestSteps(setup.At(input.now), es, t.resolved));
      IngestRuns(relayed, AfterRelays(setup, before, input).desk, setup.At(input.now), es, t.resolved);
    } else {
      assert RelaySteps(input) + [] == RelaySteps(input);
    }
  }

  /** What a cycle does to the mailboxes is a run of the engines and the relays. */
  lemma CycleIsAMailRun(w: World, setup: Setup, before: State, input: CycleInput, t: Trace, after: State,
                        report: Report)
    requires CycleFrom(setup, before, input, t, after, report) && BoxOf(w) == before.scene.desk.box
    ensures AllResolved(setup, before, input, t)
    ensures BoxOf(Relay.Run(w, setup.engines, MailSteps(setup, before, input, t))) == after.scene.desk.box
  {
    hide PassOf, StepsToPublishing, BoxAtPublishing, PublishSteps, CheckSteps, Restatus, Checked, QueuesEmpty,
        AllResolved, EnginesRun, Taken, Elements, TimedOutBy;
    var s, table, box := setup.engines, t.pass.desk.table, t.pass.desk.box;
    PassResolves(setup, before, input, t, report);
    RunsToPublishing(w, setup, before, input, t);
    var at := Relay.Run(w, s, StepsToPublishing(setup, before, input, t));
    var publish := if setup.performance.Some? then PublishSteps(s, box.nextId - at.nextId) else [];
    var check := CheckSteps(s, QueuesEmpty(s, box.rows), table, t.order, input);
    RunAppends(w, s, StepsToPublishing(setup, before, input, t), publish + check);
    RunAppends(at, s, publish, check);
    if setup.performance.Some? {
      PublishRuns(at, s, box.nextId - at.nextId);
    }
    CheckRuns(Relay.Run(at, s, publish), setup, t.pass, t.order, input);
  }

  /** The world after the first `n` cycles of a deduction. */
  ghost function WorldAfter(w: World, setup: Setup, states: seq<State>, inputs: seq<CycleInput>, traces: seq<Trace>,
                            n: nat): World
    requires n <= |states| && n <= |inputs| && n <= |traces|
    requires forall k | 0 <= k < n :: AllResolved(setup, states[k], inputs[k], traces[k])
  {
    if n == 0 then w
    else
      Relay.Run(WorldAfter(w, setup, states, inputs, traces, n - 1), setup.engines,
                MailSteps(setup, states[n - 1], inputs[n - 1], traces[n - 1]))
  }

  lemma RunResolves(setup: Setup, states: seq<State>, inputs: seq<CycleInput>, traces: seq<Trace>, reports: seq<Report>)
    requires IsRun(setup, states, inputs, traces, reports)
    ensures forall k | 0 <= k < |reports| :: AllResolved(setup, states[k], inputs[k], traces[k])
  {
    hide PassOf, AllResolved, Checked, QueuesEmpty, EnginesRun, Taken, Elements, TimedOutBy, ReadTo;
    forall k | 0 <= k < |reports| ensures AllResolved(setup, states[k], inputs[k], traces[k]) {
      assert CycleFrom(setup, states[k], inputs[k], traces[k], states[k + 1], reports[k]);
      PassResolves(setup, states[k], inputs[k], traces[k], reports[k]);
    }
  }

  /** Over a whole deduction the mailboxes go through a run of the engines and the relays:
      after every cycle they are as that run leaves them, no event has been relayed twice,
      no copy relayed on, and what was relayed is no longer pending. */
  lemma {:induction false} DeductionNeverLoops(w: World, setup: Setup, states: seq<State>, inputs: seq<CycleInput>,
                                               traces: seq<Trace>, reports: seq<Report>, n: nat)
    requires IsRun(setup, states, inputs, traces, reports) && n <= |reports|
    requires Relay.Sound(w) && BoxOf(w) == states[0].scene.desk.box
    ensures forall k | 0 <= k < |reports| :: AllResolved(setup, states[k], inputs[k], traces[k])
    ensures var after := WorldAfter(w, setup, states, inputs, traces, n);
      && BoxOf(after) == states[n].scene.desk.box && Relay.Sound(after) && OneToOne(after.links)
        && w.nextId <= after.nextId
      && forall k | 0 <= k < |after.links| :: Gone(states[n].scene.desk.box.rows, after.links[k].source)
  {
    hide CycleFrom, AllResolved, MailSteps, Relay.Run, Gone, OneToOne, Distinct;
    RunResolves(setup, states, inputs, traces, reports);
    if n > 0 {
      var k := n - 1;
      DeductionNeverLoops(w, setup, states, inputs, traces, reports, k);
      var before := WorldAfter(w, setup, states, inputs, traces, k);
      CycleIsAMailRun(before, setup, states[k], inputs[k], traces[k], states[n], reports[k]);
      Relay.RunKeepsSound(before, setup.engines, MailSteps(setup, states[k], inputs[k], traces[k]));
      IdsOnlyGrow(before, setup.engines, MailSteps(setup, states[k], inputs[k], traces[k]));
    }
  }

  lemma {:induction false} IdsOnlyGrow(w: World, s: Engines, steps: seq<Relay.Step>)
    ensures w.nextId <= Relay.Run(w, s, steps).nextId
    decreases steps
  {
    hide Relayed, Taken, Links, Apply;
    if steps != [] {
      IdsOnlyGrow(Relay.Do(w, s, steps[0]), s, steps[1..]);
    }
  }

  // What has been handed out stays so

  lemma RelayKeepsGone(w: World, s: Engines, d: Direction, now: int, id: nat)
    requires id < w.nextId && Gone(w.rows, id)
    ensures Gone(Relayed(d, s, w.rows, w.nextId, now), id)
  {
    hide ByTime, Selected, Translate, Selects;
  }

  /** In such a run identifiers are always new, so an event that is not pending never is
      again. */
  lemma {:induction false} GoneOverRuns(w: World, s: Engines, steps: seq<Relay.Step>, id: nat)
    requires id < w.nextId && Gone(w.rows, id)
    ensures Gone(Relay.Run(w, s, steps).rows, id)
    decreases steps
  {
    hide Gone, Relayed, Taken, Links, Apply;
    if steps != [] {
      var step, w' := steps[0], Relay.Do(w, s, steps[0]);
      if step.Emit? {
        EmitKeepsGone(w, s, step, id);
      } else if step.Consume? && !step.op.Write? {
        GoneStays(w.rows, step.op, id);
      } else if step.DoRelay? {
        RelayKeepsGone(w, s, step.direction, step.now, id);
      }
      GoneOverRuns(w', s, steps[1..], id);
    }
  }

  lemma EmitKeepsGone(w: World, s: Engines, step: Relay.Step, id: nat)
    requires step.Emit? && id < w.nextId && Gone(w.rows, id)
    ensures Gone(Relay.Do(w, s, step).rows, id)
  {
  }

  /** The evaluator events that a cycle publishes. */
  function PublishedIn(setup: Setup, before: State, input: CycleInput, t: Trace): seq<Event> {
    if setup.performance.Some? && AllResolved(setup, before, input, t) then
      Outbound(BoxAtPublishing(setup, before, input, t).rows, setup.engines)
    else []
  }

  lemma OutboundIsGone(rows: seq<Event>, s: Engines, e: Event)
    requires Distinct(rows) && e in Outbound(rows, s)
    ensures Gone(Restatus(rows, s.prolog, Prefix("evaluator/"), Processed), e.id) && exists k | 0 <= k < |rows| ::
      rows[k].id == e.id
  {
    hide Gone, Selected, ByTime, Restatus, SetProcessed;
    var take := Take(s.prolog, Prefix("evaluator/"));
    assert Output(rows, take) == Outbound(rows, s)
      && Apply(rows, take) == Restatus(rows, s.prolog, Prefix("evaluator/"), Processed);
    OutputIsGone(rows, take, e);
    OutputWasPending(rows, take, e);
  }

  /** An event that a cycle publishes has left Pending when the cycle ends. */
  lemma PublishedIsGone(w: World, setup: Setup, before: State, input: CycleInput, t: Trace, after: State,
                        report: Report, e: Event)
    requires CycleFrom(setup, before, input, t, after, report) && BoxOf(w) == before.scene.desk.box && Relay.Sound(w)
    requires e in PublishedIn(setup, before, input, t)
    ensures AllResolved(setup, before, input, t)
    ensures var w' := Relay.Run(w, setup.engines, MailSteps(setup, before, input, t));
      Gone(w'.rows, e.id) && e.id < w'.nextId
  {
    hide PassOf, StepsToPublishing, BoxAtPublishing, PublishSteps, CheckSteps, Restatus, Checked, QueuesEmpty,
        AllResolved, EnginesRun, Taken, Elements, TimedOutBy, Outbound, Gone, Distinct, OneToOne;
    var s, box := setup.engines, t.pass.desk.box;
    PassResolves(setup, before, input, t, report);
    RunsToPublishing(w, setup, before, input, t);
    var steps := StepsToPublishing(setup, before, input, t);
    var at := Relay.Run(w, s, steps);
    Relay.RunKeepsSound(w, s, steps);
    OutboundIsGone(at.rows, s, e);
    var publish := PublishSteps(s, box.nextId - at.nextId);
    var check := CheckSteps(s, QueuesEmpty(s, box.rows), t.pass.desk.table, t.order, input);
    RunAppends(w, s, steps, publish + check);
    RunAppends(at, s, publish, check);
    PublishRuns(at, s, box.nextId - at.nextId);
    GoneOverRuns(Relay.Run(at, s, publish), s, check, e.id);
    IdsOnlyGrow(Relay.Run(at, s, publish), s, check);
  }

  lemma {:induction false} GoneOverCycles(w: World, setup: Setup, states: seq<State>, inputs: seq<CycleInput>,
                                          traces: seq<Trace>, reports: seq<Report>, id: nat, from: nat, until: nat)
    requires IsRun(setup, states, inputs, traces, reports) && from <= until <= |reports|
    requires Relay.Sound(w) && BoxOf(w) == states[0].scene.desk.box
    ensures forall k | 0 <= k < |reports| :: AllResolved(setup, states[k], inputs[k], traces[k])
    ensures var first, last := WorldAfter(w, setup, states, inputs, traces, from),
      WorldAfter(w, setup, states, inputs, traces, until);
      id < first.nextId && Gone(first.rows, id) ==> id < last.nextId && Gone(last.rows, id)
    decreases until - from
  {
    hide CycleFrom, AllResolved, MailSteps, Relay.Run, Gone, Relay.Sound, BoxOf;
    DeductionNeverLoops(w, setup, states, inputs, traces, reports, 0);
    if from < until {
      GoneOverCycles(w, setup, states, inputs, traces, reports, id, from, until - 1);
      var k := until - 1;
      var before := WorldAfter(w, setup, states, inputs, traces, k);
      IdsOnlyGrow(before, setup.engines, MailSteps(setup, states[k], inputs[k], traces[k]));
      if id < before.nextId && Gone(before.rows, id) {
        GoneOverRuns(before, setup.engines, MailSteps(setup, states[k], inputs[k], traces[k]), id);
      }
    }
  }

  /** Over a whole deduction no evaluator event is published twice. */
  lemma PublishedOnce(w: World, setup: Setup, states: seq<State>, inputs: seq<CycleInput>, traces: seq<Trace>,
                      reports: seq<Report>, i: nat, j: nat, e: Event, e': Event)
    requires IsRun(setup, states, inputs, traces, reports) && i < j < |reports|
    requires Relay.Sound(w) && BoxOf(w) == states[0].scene.desk.box
    requires e in PublishedIn(setup, states[i], inputs[i], traces[i])
      && e' in PublishedIn(setup, states[j], inputs[j], traces[j])
    ensures e.id != e'.id
  {
    hide CycleFrom, AllResolved, MailSteps, Relay.Run, Gone, Relay.Sound, BoxAtPublishing, Outbound, StepsToPublishing;
    DeductionNeverLoops(w, setup, states, inputs, traces, reports, i);
    DeductionNeverLoops(w, setup, states, inputs, traces, reports, j);
    var first := WorldAfter(w, setup, states, inputs, traces, i);
    PublishedIsGone(first, setup, states[i], inputs[i], traces[i], states[i + 1], reports[i], e);
    GoneOverCycles(w, setup, states, inputs, traces, reports, e.id, i + 1, j);
    var last := WorldAfter(w, setup, states, inputs, traces, j);
    GoneOverRuns(last, setup.engines, StepsToPublishing(setup, states[j], inputs[j], traces[j]), e.id);
    RunsToPublishing(last, setup, states[j], inputs[j], traces[j]);
    NotOutbound(BoxAtPublishing(setup, states[j], inputs[j], traces[j]).rows, setup.engines, e.id, e');
  }

  lemma NotOutbound(rows: seq<Event>, s: Engines, id: nat, e: Event)
    requires Gone(rows, id) && e in Outbound(rows, s)
    ensures e.id != id
  {
    hide Selected, ByTime, Restatus, SetProcessed;
    var take := Take(s.prolog, Prefix("evaluator/"));
    assert Output(rows, take) == Outbound(rows, s);
    StillGone(rows, take, id, e);
  }
}
