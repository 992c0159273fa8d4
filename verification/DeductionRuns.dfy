/** Runs of the deduction cycle, state by state, and what becomes of every offer. */
module DeductionRuns {
  import opened Wrappers
  import opened Mailbox
  import opened Relay
  import opened RitualTopic
  import opened Offers
  import opened CycleSteps

  /** What stays the same over a run. Without a ritual there is no performance. */
  datatype Setup = Setup(engines: Engines, performance: Option<nat>, domain: string, node: Option<string>,
                         patience: nat) {
    function At(now: int): Site { Site(engines, performance, node, now) }
  }

  /** The mailboxes, the offers and the topic between two cycles, and the offset up to
      which the topic has been read. */
  datatype State = State(scene: Scene, offset: int)

  /** What a cycle decided: which offers the envelopes resolved, where the evaluator pass
      left things, and the order in which late offers were dropped. */
  datatype Trace = Trace(resolved: seq<Option<nat>>, pass: Scene, order: seq<nat>)

  // One cycle

  /** Both counts of the convergence check are zero. */
  predicate QueuesEmpty(s: Engines, rows: seq<Event>) {
    Waiting(rows, s.prolog, Prefix("relay-")) == 0 && Waiting(rows, s.clips, AnyOrigin) == 0
  }

  /** After the engines and the relays. */
  function AfterRelays(setup: Setup, before: State, input: CycleInput): Scene {
    var box := RelayStep(EnginesRun(before.scene.desk.box, setup.engines, input), ToProlog, setup.engines, input.now);
    before.scene.(desk := Desk(before.scene.desk.table, box))
  }

  predicate PassOf(setup: Setup, before: State, input: CycleInput, t: Trace, report: Report) {
    match setup.performance
    case None => t.pass == AfterRelays(setup, before, input) && t.resolved == [] && report.published == 0
      && report.ingested == 0
    case Some(p) =>
      PassFrom(AfterRelays(setup, before, input), before.offset, setup.At(input.now), setup.domain, p, input.peers,
               t.resolved, t.pass, report.published, report.ingested)
  }

  /** The mailboxes after the check: the root goal may be asked again, and both engines
      are told of each offer that was dropped. */
  function CheckedBox(s: Engines, box: Box, quiet: bool, table: Table, order: seq<nat>, input: CycleInput): Box {
    var asked := if quiet && input.agendaEmpty then EngineStep(box, input.requery, input.now) else box;
    Box(asked.rows + TimeoutPosts(s, order, table, asked.nextId, input.now), asked.nextId + 2 * |order|)
  }

  function Checked(setup: Setup, pass: Scene, order: seq<nat>, input: CycleInput): Scene {
    var box := CheckedBox(setup.engines, pass.desk.box, QueuesEmpty(setup.engines, pass.desk.box.rows), pass.desk.table,
                          order, input);
    Scene(Desk(Aged(pass.desk.table, setup.patience), box), pass.registered, pass.log)
  }

  function ReadTo(setup: Setup, before: State, input: CycleInput): int {
    if setup.performance == None then before.offset else |before.scene.log + input.peers|
  }

  /** One cycle, from one state to the next: the engines and relays, the evaluator pass,
      and the check, which looks at the mailboxes before the root goal is asked again. */
  predicate CycleFrom(setup: Setup, before: State, input: CycleInput, t: Trace, after: State, report: Report) {
    var s, table := setup.engines, t.pass.desk.table;
    && report.relayed == |Taken(ToProlog, s, EnginesRun(before.scene.desk.box, s, input).rows)|
    && PassOf(setup, before, input, t, report)
    && Elements(t.order) == TimedOutBy(table, setup.patience)
      && |t.order| == report.timedOut == |TimedOutBy(table, setup.patience)|
    && after == State(Checked(setup, t.pass, t.order, input), ReadTo(setup, before, input))
    && (report.converged <==>
          QueuesEmpty(s, t.pass.desk.box.rows) && input.agendaEmpty && table == map[]
              && (input.tableauStable || input.rootResolved))
  }

  /** A cycle in which something happened does not converge, and one that converges
      leaves no offer pending. */
  lemma ConvergingIsQuiet(setup: Setup, before: State, input: CycleInput, t: Trace, after: State, report: Report)
    requires setup.engines.prolog != setup.engines.clips && CycleFrom(setup, before, input, t, after, report)
    ensures Quiet(report) && before.scene.registered <= after.scene.registered
    ensures report.converged ==> after.scene.desk.table == map[]
  {
    hide EnginesRun, RelayStep, Waiting, Aged, TimedOutBy, Taken, PassFrom, CheckedBox, Elements;
    RelayIsSeen(EnginesRun(before.scene.desk.box, setup.engines, input), setup.engines, input.now);
    NothingLeftMeansNothingThere(t.pass.desk.table, setup.patience);
    if setup.performance.Some? {
      PassIsSeen(AfterRelays(setup, before, input), before.offset, setup.At(input.now), setup.domain,
                 setup.performance.value, input.peers, t.resolved, t.pass, report.published, report.ingested);
    }
  }

  // Runs

  predicate IsRun(setup: Setup, states: seq<State>, inputs: seq<CycleInput>, traces: seq<Trace>, reports: seq<Report>) {
    && |states| == |reports| + 1 && |traces| == |reports| <= |inputs|
    && forall k | 0 <= k < |reports| :: CycleFrom(setup, states[k], inputs[k], traces[k], states[k + 1], reports[k])
  }

  lemma RunGrows(setup: Setup, states: seq<State>, inputs: seq<CycleInput>, traces: seq<Trace>, reports: seq<Report>,
                 t: Trace, after: State, report: Report)
    requires IsRun(setup, states, inputs, traces, reports) && |reports| < |inputs|
    requires CycleFrom(setup, states[|reports|], inputs[|reports|], t, after, report)
    ensures IsRun(setup, states + [after], inputs, traces + [t], reports + [report])
  {
    hide CycleFrom;
  }

  // What becomes of the offers

  function ResolvedIds(resolved: seq<Option<nat>>): set<nat> {
    set k | 0 <= k < |resolved| && resolved[k].Some? :: resolved[k].value
  }

  /** The offers that a cycle answered or timed out. */
  function SettledIn(t: Trace, patience: nat): set<nat> {
    ResolvedIds(t.resolved) + TimedOutBy(t.pass.desk.table, patience)
  }

  function SettledBy(traces: seq<Trace>, patience: nat): set<nat> {
    if traces == [] then {} else SettledBy(traces[..|traces| - 1], patience) + SettledIn(traces[|traces| - 1], patience)
  }

  lemma ResolvedLast(resolved: seq<Option<nat>>)
    requires resolved != []
    ensures var n := |resolved| - 1;
      ResolvedIds(resolved) == ResolvedIds(resolved[..n]) + if resolved[n].Some? then {resolved[n].value} else {}
  {
  }

  lemma ResolvesPending(table: Table, site: Site, e: Envelope, resolved: Option<nat>)
    requires MayResolve(table, site, e, resolved)
    ensures resolved.Some? ==> resolved.value in table
    ensures Remove(table, resolved).Keys == table.Keys - if resolved.Some? then {resolved.value} else {}
  {
  }

  /** A batch removes exactly the offers that it resolved, all of them pending. */
  lemma {:induction false} IngestAccounts(desk: Desk, site: Site, es: seq<Envelope>, resolved: seq<Option<nat>>)
    requires |resolved| == |es| && AllMayResolve(desk, site, es, resolved)
    ensures ResolvedIds(resolved) <= desk.table.Keys
    ensures IngestedAll(desk, site, es, resolved).table.Keys == desk.table.Keys - ResolvedIds(resolved)
  {
    hide MayResolve, Ingest1, IngestedAll, AllMayResolve, ResolvedIds;
    if es == [] {
      IngestNone(desk, site);
      NothingResolved();
    } else {
      var n := |es| - 1;
      ResolvesInOrder(desk, site, es, resolved);
      IngestAccounts(desk, site, es[..n], resolved[..n]);
      ResolvesPending(IngestedAll(desk, site, es[..n], resolved[..n]).table, site, es[n], resolved[n]);
      IngestedLast(desk, site, es, resolved);
      IngestRemoves(IngestedAll(desk, site, es[..n], resolved[..n]), site, es[n], resolved[n]);
      ResolvedLast(resolved);
    }
  }

  lemma NothingResolved()
    ensures ResolvedIds([]) == {}
  {
  }

  lemma IngestRemoves(desk: Desk, site: Site, e: Envelope, resolved: Option<nat>)
    ensures Ingest1(desk, site, e, resolved).table == Remove(desk.table, resolved)
  {
  }

  lemma ResolvesInOrder(desk: Desk, site: Site, es: seq<Envelope>, resolved: seq<Option<nat>>)
    requires |resolved| == |es| > 0 && AllMayResolve(desk, site, es, resolved)
    ensures var n := |es| - 1;
      && AllMayResolve(desk, site, es[..n], resolved[..n])
      && MayResolve(IngestedAll(desk, site, es[..n], resolved[..n]).table, site, es[n], resolved[n])
  {
    hide MayResolve, IngestedAll;
    var n := |es| - 1;
    assert forall k | 0 <= k < n :: es[..n][..k] == es[..k] && resolved[..n][..k] == resolved[..k];
  }

  /** Registered offers are those pending and those settled. */
  predicate Accounted(scene: Scene, settled: set<nat>) { scene.registered == scene.desk.table.Keys + settled }

  lemma PublishAccounts(before: Scene, s: Engines, domain: string, performance: nat, now: int, settled: set<nat>)
    requires Accounted(before, settled)
    ensures Accounted(PublishStep(before, s, domain, performance, now), settled)
  {
    hide EnterAll, NewOffers, Outbound, Offerings, Restatus, Expecting;
    var box := before.desk.box;
    EnteringRegisters(Book(before.desk.table, before.registered, box.nextId), Outbound(box.rows, s), domain,
                      performance);
  }

  lemma PassAccounts(setup: Setup, before: State, input: CycleInput, t: Trace, report: Report, settled: set<nat>)
    requires PassOf(setup, before, input, t, report) && Accounted(before.scene, settled)
    ensures Accounted(t.pass, settled + ResolvedIds(t.resolved))
  {
    hide EnginesRun, RelayStep, AllMayResolve, IngestedAll, Admissions, PublishStep, Expecting, Outbound, Arrivals;
    if setup.performance.Some? {
      var relayed := AfterRelays(setup, before, input);
      var log := relayed.log + input.peers;
      var es := Arrivals(log, before.offset, input.now);
      IngestAccounts(relayed.desk, setup.At(input.now), es, t.resolved);
      var took := Scene(IngestedAll(relayed.desk, setup.At(input.now), es, t.resolved), relayed.registered, log);
      PublishAccounts(took, setup.engines, setup.domain, setup.performance.value, input.now,
                      settled + ResolvedIds(t.resolved));
    }
  }

  lemma CheckAccounts(table: Table, patience: nat)
    ensures Aged(table, patience).Keys + TimedOutBy(table, patience) == table.Keys
  {
  }

  /** A cycle settles exactly what it answered and timed out. */
  lemma CycleAccounts(setup: Setup, before: State, input: CycleInput, t: Trace, after: State, report: Report,
                      settled: set<nat>)
    requires CycleFrom(setup, before, input, t, after, report) && Accounted(before.scene, settled)
    ensures Accounted(after.scene, settled + SettledIn(t, setup.patience))
  {
    hide PassOf, Aged, TimedOutBy, ResolvedIds, CheckedBox, QueuesEmpty, EnginesRun, Taken, Elements;
    PassAccounts(setup, before, input, t, report, settled);
    CheckAccounts(t.pass.desk.table, setup.patience);
  }

  lemma {:induction false} RunAccounts(setup: Setup, states: seq<State>, inputs: seq<CycleInput>, traces: seq<Trace>,
                                       reports: seq<Report>, settled: set<nat>)
    requires IsRun(setup, states, inputs, traces, reports) && Accounted(states[0].scene, settled)
    ensures Accounted(states[|reports|].scene, settled + SettledBy(traces, setup.patience))
  {
    hide CycleFrom, SettledIn;
    if reports != [] {
      var n := |reports| - 1;
      assert IsRun(setup, states[..n + 1], inputs, traces[..n], reports[..n]);
      RunAccounts(setup, states[..n + 1], inputs, traces[..n], reports[..n], settled);
      CycleAccounts(setup, states[n], inputs[n], traces[n], states[n + 1], reports[n],
                    settled + SettledBy(traces[..n], setup.patience));
      assert settled + SettledBy(traces, setup.patience)
          == settled + SettledBy(traces[..n], setup.patience) + SettledIn(traces[n], setup.patience);
    } else {
      assert settled + {} == settled;
    }
  }

  predicate SettledAt(traces: seq<Trace>, patience: nat, id: nat, k: nat)
    requires k < |traces|
  {
    id in SettledIn(traces[k], patience)
  }

  lemma {:induction false} SettledSomewhere(traces: seq<Trace>, patience: nat, id: nat)
    requires id in SettledBy(traces, patience)
    ensures exists k: nat :: k < |traces| && SettledAt(traces, patience, id, k)
  {
    hide SettledIn;
    var n := |traces| - 1;
    if id in SettledIn(traces[n], patience) {
      assert SettledAt(traces, patience, id, n);
    } else {
      SettledSomewhere(traces[..n], patience, id);
      var k: nat :| k < n && SettledAt(traces[..n], patience, id, k);
      assert SettledAt(traces, patience, id, k);
    }
  }

  /** When a run has converged, every offer registered in it, and every one pending when it
      began, was answered by an envelope or timed out in one of its cycles. */
  lemma ConvergedRunSettledAll(setup: Setup, states: seq<State>, inputs: seq<CycleInput>, traces: seq<Trace>,
                               reports: seq<Report>, settled: set<nat>, id: nat)
    requires setup.engines.prolog != setup.engines.clips
    requires IsRun(setup, states, inputs, traces, reports) && Accounted(states[0].scene, settled)
    requires reports != [] && reports[|reports| - 1].converged
    requires id in states[|reports|].scene.registered && id !in settled
    ensures exists k: nat :: k < |traces| && SettledAt(traces, setup.patience, id, k)
  {
    hide CycleFrom, SettledBy, SettledIn, SettledAt;
    var n := |reports| - 1;
    ConvergingIsQuiet(setup, states[n], inputs[n], traces[n], states[n + 1], reports[n]);
    RunAccounts(setup, states, inputs, traces, reports, settled);
    SettledSomewhere(traces, setup.patience, id);
  }

  // How long an offer can be pending

  /** The ids under which a cycle registers offers. */
  function RegisteredIn(setup: Setup, before: State, input: CycleInput, t: Trace): set<nat> {
    var relayed := AfterRelays(setup, before, input);
    var es := Arrivals(relayed.log + input.peers, before.offset, input.now);
    if setup.performance == None || |t.resolved| != |es| then {}
    else
      var box := IngestedAll(relayed.desk, setup.At(input.now), es, t.resolved).box;
      NewOffers(box.nextId, Outbound(box.rows, setup.engines))
  }

  /** An offer of the one table is the same in the other. */
  predicate SameOffer(now: Table, before: Table, id: nat) { id in now ==> id in before && now[id] == before[id] }

  lemma {:induction false} IngestingKeepsOffers(desk: Desk, site: Site, es: seq<Envelope>,
                                                resolved: seq<Option<nat>>, id: nat)
    requires |resolved| == |es|
    ensures SameOffer(IngestedAll(desk, site, es, resolved).table, desk.table, id)
  {
    hide Ingest1;
    if es != [] {
      var n := |es| - 1;
      IngestingKeepsOffers(desk, site, es[..n], resolved[..n], id);
      IngestRemoves(IngestedAll(desk, site, es[..n], resolved[..n]), site, es[n], resolved[n]);
    }
  }

  lemma {:induction false} EnteringKeepsOffers(b: Book, events: seq<Event>, domain: string, performance: nat, id: nat)
    requires id !in NewOffers(b.nextId, events)
    ensures SameOffer(EnterAll(b, events, domain, performance).table, b.table, id)
    decreases events
  {
    hide ExpectsReply, OfferFor, CorrelationFor;
    if events != [] {
      EnteringKeepsOffers(Enter1(b, events[0], domain, performance), events[1..], domain, performance, id);
    }
  }

  lemma PassKeepsOffers(setup: Setup, before: State, input: CycleInput, t: Trace, report: Report, id: nat)
    requires PassOf(setup, before, input, t, report) && id !in RegisteredIn(setup, before, input, t)
    ensures SameOffer(t.pass.desk.table, before.scene.desk.table, id)
  {
    hide EnginesRun, RelayStep, AllMayResolve, IngestedAll, Admissions, EnterAll, NewOffers, Expecting, Outbound,
        Arrivals, Offerings, Restatus;
    if setup.performance.Some? {
      var relayed := AfterRelays(setup, before, input);
      var log := relayed.log + input.peers;
      var es := Arrivals(log, before.offset, input.now);
      IngestingKeepsOffers(relayed.desk, setup.At(input.now), es, t.resolved, id);
      var desk := IngestedAll(relayed.desk, setup.At(input.now), es, t.resolved);
      EnteringKeepsOffers(Book(desk.table, relayed.registered, desk.box.nextId), Outbound(desk.box.rows, setup.engines),
                          setup.domain, setup.performance.value, id);
    }
  }

  /** An offer that survives a cycle has waited one check more, and not too long. */
  lemma CycleAges(setup: Setup, before: State, input: CycleInput, t: Trace, after: State, report: Report, id: nat)
    requires CycleFrom(setup, before, input, t, after, report) && id !in RegisteredIn(setup, before, input, t)
    ensures var was, now := before.scene.desk.table, after.scene.desk.table;
      id in now ==> id in was && now[id].waiting == was[id].waiting + 1 < setup.patience
  {
    hide PassOf, RegisteredIn, CheckedBox, QueuesEmpty, EnginesRun, Taken, Elements, TimedOutBy;
    PassKeepsOffers(setup, before, input, t, report, id);
  }

  predicate NotRegistered(setup: Setup, states: seq<State>, inputs: seq<CycleInput>, traces: seq<Trace>, id: nat,
                          from: nat, to: nat)
    requires to <= |states| && to <= |inputs| && to <= |traces|
  {
    forall k | from <= k < to :: id !in RegisteredIn(setup, states[k], inputs[k], traces[k])
  }

  lemma {:induction false} WaitingCountsCycles(setup: Setup, states: seq<State>, inputs: seq<CycleInput>,
                                               traces: seq<Trace>, reports: seq<Report>, id: nat, from: nat, n: nat)
    requires IsRun(setup, states, inputs, traces, reports) && from + n <= |reports|
    requires NotRegistered(setup, states, inputs, traces, id, from, from + n)
    ensures var was, now := states[from].scene.desk.table, states[from + n].scene.desk.table;
      id in now ==> id in was && now[id].waiting == was[id].waiting + n && (n > 0 ==> now[id].waiting < setup.patience)
  {
    hide CycleFrom, RegisteredIn;
    if n > 0 {
      WaitingCountsCycles(setup, states, inputs, traces, reports, id, from, n - 1);
      var k := from + n - 1;
      CycleAges(setup, states[k], inputs[k], traces[k], states[k + 1], reports[k], id);
    }
  }

  /** However a deduction goes on, an offer that is not registered again is gone after as
      many cycles as the patience, or after one. */
  lemma NoOfferOutstaysPatience(setup: Setup, states: seq<State>, inputs: seq<CycleInput>, traces: seq<Trace>,
                                reports: seq<Report>, id: nat, from: nat, n: nat)
    requires IsRun(setup, states, inputs, traces, reports) && from + n <= |reports| && 0 < n && setup.patience <= n
    requires NotRegistered(setup, states, inputs, traces, id, from, from + n)
    ensures id !in states[from + n].scene.desk.table
  {
    hide CycleFrom, NotRegistered;
    WaitingCountsCycles(setup, states, inputs, traces, reports, id, from, n);
  }
}
