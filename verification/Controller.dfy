/** The deduction cycle: engine passes, relays, the evaluator pass and the
    convergence check, over the shared mailboxes and the ritual topic. */
module Controller {
  import opened Wrappers
  import opened Text
  import opened Mailbox
  import opened Relay
  import opened RitualTopic
  import opened Offers
  import opened CycleSteps
  import opened DeductionRuns

  class CycleController {
    const coire: Coire
    const engines: Engines
    const handle: RitualHandle?
    const node: Option<string>
    const patience: nat
    var pending: Table
    ghost var registered: set<nat>

    /** Every pending offer was registered. */
    ghost predicate Valid()
      reads this, coire
    {
      && coire.Valid() && engines.prolog != engines.clips
      && pending.Keys <= registered
    }

    ghost function Footprint(): set<object> {
      if handle == null then {this, coire} else {this, coire, handle, handle.broker}
    }

    constructor (coire: Coire, engines: Engines, handle: RitualHandle?, node: Option<string>, patience: nat)
      requires coire.Valid() && engines.prolog != engines.clips
      ensures Valid() && this.coire == coire && this.engines == engines && this.handle == handle
      ensures this.node == node && this.patience == patience && pending == map[] && registered == {}
    {
      this.coire, this.engines, this.handle, this.node, this.patience := coire, engines, handle, node, patience;
      pending, registered := map[], {};
    }

    function Performance(): Option<nat> {
      if handle == null then None else Some(handle.performance)
    }

    function Here(now: int): Site { Site(engines, Performance(), node, now) }

    function Setting(): Setup {
      Setup(engines, Performance(), if handle == null then "" else handle.domain, node, patience)
    }

    function PrologWaiting(): nat
      reads coire
    {
      Waiting(coire.events, engines.prolog, Prefix("relay-"))
    }

    function ClipsWaiting(): nat
      reads coire
    {
      Waiting(coire.events, engines.clips, AnyOrigin)
    }

    function Mailboxes(): Box
      reads coire
    {
      Box(coire.events, coire.nextId)
    }

    function OnDesk(): Desk
      reads this, coire
    {
      Desk(pending, Mailboxes())
    }

    ghost function OnScene(h: RitualHandle): Scene
      reads this, coire, h.broker
    {
      Scene(OnDesk(), registered, Log(h.broker.topics, h.topic))
    }

    /** An engine pass: the engine consumes and emits as it likes. */
    method EnginePass(a: Activity, now: int)
      requires Valid()
      modifies coire
      ensures Valid() && Mailboxes() == EngineStep(old(Mailboxes()), a, now)
    {
      coire.events := MarkIds(coire.events, a.consumed);
      ghost var posts := EnginePosts(a.emitted, coire.nextId, now);
      for k := 0 to |a.emitted|
        invariant Valid() && coire.nextId == old(coire.nextId) + k
        invariant coire.events == MarkIds(old(coire.events), a.consumed) + posts[..k]
      {
        var id := coire.Post(a.emitted[k].session, a.emitted[k].origin, now, a.emitted[k].payload);
        assert posts[k] == Event(id, a.emitted[k].session, a.emitted[k].origin, now, a.emitted[k].payload, Pending);
      }
    }

    /** Matches a reply to a pending offer and removes that. */
    method ResolvePendingOffer(e: Envelope) returns (resolved: Option<nat>)
      modifies this`pending
      ensures Resolves(old(pending), Own(Here(0), e), e.correlation, resolved)
      ensures pending == Remove(old(pending), resolved) && (resolved.Some? ==> resolved.value in old(pending))
    {
      resolved := None;
      if handle != null && handle.performance != e.performance {
        return;
      }
      if e.correlation.Some? {
        if e.correlation.value in pending {
          resolved := e.correlation;
        }
      } else {
        resolved := OldestUncorrelated();
      }
      pending := Remove(pending, resolved);
    }

    method OldestUncorrelated() returns (choice: Option<nat>)
      ensures IsOldest(pending, choice)
    {
      choice := None;
      var todo := pending.Keys;
      while todo != {}
        invariant todo <= pending.Keys
        invariant choice == None ==> forall k | k in pending.Keys - todo :: pending[k].correlated
        invariant choice.Some? ==> choice.value in pending && !pending[choice.value].correlated
        invariant choice.Some? ==>
          forall k | k in pending.Keys - todo && !pending[k].correlated ::
            pending[k].waiting <= pending[choice.value].waiting
        decreases todo
      {
        var k :| k in todo;
        todo := todo - {k};
        if !pending[k].correlated && (choice == None || pending[choice.value].waiting <= pending[k].waiting) {
          choice := Some(k);
        }
      }
    }

    method PostBoth(origin: string, payload: Payload, now: int)
      requires Valid()
      modifies coire
      ensures Valid() && coire.nextId == old(coire.nextId) + 2
      ensures coire.events == old(coire.events) + Both(engines, origin, payload, old(coire.nextId), now)
    {
      var a := coire.Post(engines.prolog, origin, now, payload);
      var b := coire.Post(engines.clips, origin, now, payload);
    }

    /** Takes in one envelope. */
    method IngestTephra(e: Envelope, now: int) returns (accepted: bool, resolved: Option<nat>)
      requires Valid()
      modifies this, coire
      ensures Valid() && registered == old(registered)
      ensures MayResolve(old(pending), Here(now), e, resolved) && accepted == Admitted(Here(now), e, resolved)
      ensures OnDesk() == Ingest1(old(OnDesk()), Here(now), e, resolved)
    {
      hide Both, IngestedPayload, Resolves;
      accepted, resolved := false, None;
      if !e.encrypted {
        if IsReply(e) {
          resolved := ResolvePendingOffer(e);
          assert Own(Here(now), e) == Own(Here(0), e);
          var own := handle == null || handle.performance == e.performance;
          var addressed := node.Some? && e.target == node;
          accepted := resolved.Some? || (!own && addressed);
        } else {
          var echo := handle != null && e.performance == handle.performance;
          var elsewhere := node.Some? && e.target.Some? && node != e.target;
          accepted := !echo && !elsewhere;
        }
        if accepted {
          PostBoth("ritual/" + e.kind, IngestedPayload(e), now);
        }
      }
    }

    /** Takes in a batch, in order. */
    method IngestAll(es: seq<Envelope>, now: int) returns (ingested: nat, ghost resolved: seq<Option<nat>>)
      requires Valid()
      modifies this, coire
      ensures Valid() && registered == old(registered) && |resolved| == |es|
      ensures AllMayResolve(old(OnDesk()), Here(now), es, resolved) && ingested == Admissions(Here(now), es, resolved)
      ensures OnDesk() == IngestedAll(old(OnDesk()), Here(now), es, resolved)
    {
      hide Ingest1, AllMayResolve, MayResolve, Admitted, IngestedAll, Admissions;
      ingested, resolved := 0, [];
      ghost var desk, site := OnDesk(), Here(now);
      IngestNone(desk, site);
      for k := 0 to |es|
        invariant Valid() && registered == old(registered) && |resolved| == k
        invariant AllMayResolve(desk, site, es[..k], resolved) && ingested == Admissions(site, es[..k], resolved)
        invariant OnDesk() == IngestedAll(desk, site, es[..k], resolved)
      {
        var accepted, one := IngestTephra(es[k], now);
        if accepted {
          ingested := ingested + 1;
        }
        IngestStep(desk, site, es[..k], resolved, es[k], one);
        resolved := resolved + [one];
        assert es[..k] + [es[k]] == es[..k + 1];
      }
      assert es[..|es|] == es;
    }

    /** Publishes what the rules addressed to evaluators, and registers an offer for
        each event that expects a reply. */
    method PublishEvaluatorEvents(h: RitualHandle, now: int) returns (expecting: nat)
      requires Valid() && h == handle
      modifies this, coire, h.broker
      ensures Valid()
      ensures expecting == Expecting(Outbound(old(coire.events), engines))
      ensures OnScene(h) == PublishStep(old(OnScene(h)), engines, h.domain, h.performance, now)
    {
      hide Selected, Restatus, ByTime, Enter1, ExpectsReply, CorrelationFor, OfferingFor, NewOffers;
      var taken := coire.Poll(engines.prolog, Prefix("evaluator/"));
      ghost var rest, rows := taken, coire.events;
      ghost var b0 := Book(pending, registered, coire.nextId);
      expecting := 0;
      EnteringRegisters(b0, taken, h.domain, h.performance);
      for k := 0 to |taken|
        invariant rest == taken[k..] && coire.events == rows && Valid()
        invariant expecting + Expecting(rest) == Expecting(taken)
        invariant EnterAll(Book(pending, registered, coire.nextId), rest, h.domain, h.performance)
               == EnterAll(b0, taken, h.domain, h.performance)
        invariant Log(h.broker.topics, h.topic) + Offerings(rest, coire.nextId, h.performance, h.domain, now)
               == Log(old(h.broker.topics), h.topic) + Offerings(taken, b0.nextId, h.performance, h.domain, now)
      {
        ghost var log, id := Log(h.broker.topics, h.topic), coire.nextId;
        OfferingsStep(rest, id, h.performance, h.domain, now, log);
        EnterStep(Book(pending, registered, id), rest, h.domain, h.performance);
        RegisterOne(taken[k], h, now);
        if ExpectsReply(taken[k]) {
          expecting := expecting + 1;
        }
        rest := rest[1..];
      }
    }

    method RegisterOne(e: Event, h: RitualHandle, now: int)
      requires Valid()
      modifies this`pending, this`registered, coire`nextId, h.broker
      ensures Valid()
      ensures Book(pending, registered, coire.nextId)
           == Enter1(Book(old(pending), old(registered), old(coire.nextId)), e, h.domain, h.performance)
      ensures coire.nextId == CorrelationFor(e, old(coire.nextId)).1
      ensures Log(h.broker.topics, h.topic) == Log(old(h.broker.topics), h.topic)
        + [OfferingFor(e, CorrelationFor(e, old(coire.nextId)).0, h.performance, h.domain, now)]
    {
      hide OfferingFor, OfferFor, ExpectsReply, CorrelationFor;
      var id := PublishOne(e, h, now);
      if ExpectsReply(e) {
        pending := pending[id := OfferFor(e, h.domain, h.performance)];
        registered := registered + {id};
      }
    }

    method PublishOne(e: Event, h: RitualHandle, now: int) returns (id: nat)
      requires coire.Valid()
      modifies coire`nextId, h.broker
      ensures coire.Valid() && (id, coire.nextId) == CorrelationFor(e, old(coire.nextId))
      ensures Log(h.broker.topics, h.topic) == Log(old(h.broker.topics), h.topic)
        + [OfferingFor(e, id, h.performance, h.domain, now)]
    {
      if e.payload.caws.Some? && e.payload.caws.value.correlation.Some? {
        id := e.payload.caws.value.correlation.value;
      } else {
        id := coire.FreshId();
      }
      match e.payload.caws {
        case None => h.PublishBody(e.payload, "offering", None, BROADCAST, now);
        case Some(d) =>
          var a := Address(d.source, d.target, Some(id), PathFor(d, h.domain, h.performance), d.tags);
          h.PublishBody(e.payload.(caws := None), KindOf(d), None, a, now);
      }
    }

    /** The evaluator pass; without a ritual there is none. */
    method EvaluatorPass(peers: seq<Envelope>, now: int)
        returns (published: nat, ingested: nat, ghost resolved: seq<Option<nat>>)
      requires Valid()
      modifies Footprint()
      ensures Valid()
      ensures handle == null ==>
        OnDesk() == old(OnDesk()) && registered == old(registered) && published == 0 && ingested == 0 && resolved == []
      ensures handle != null ==>
        && PassFrom(old(OnScene(handle)), old(handle.offset), Here(now), handle.domain, handle.performance, peers,
                    resolved, OnScene(handle), published, ingested)
        && handle.offset == |old(Log(handle.broker.topics, handle.topic)) + peers|
    {
      published, ingested, resolved := 0, 0, [];
      if handle != null {
        published, ingested, resolved := RitualPass(handle, peers, now);
      }
    }

    method RitualPass(h: RitualHandle, peers: seq<Envelope>, now: int)
      returns (published: nat, ingested: nat, ghost resolved: seq<Option<nat>>)
      requires Valid() && h == handle
      modifies this, coire, h, h.broker
      ensures Valid() && h.offset == |old(Log(h.broker.topics, h.topic)) + peers|
      ensures PassFrom(old(OnScene(h)), old(h.offset), Here(now), h.domain, h.performance, peers, resolved,
                       OnScene(h), published, ingested)
    {
      hide AllMayResolve, Admissions, IngestedAll, Expecting, Outbound, PublishStep, Unexpired;
      PeersPost(h, peers);
      var es := h.PollIncoming(now);
      ingested, resolved := IngestAll(es, now);
      published := PublishEvaluatorEvents(h, now);
    }

    method PeersPost(h: RitualHandle, peers: seq<Envelope>)
      modifies h.broker
      ensures Log(h.broker.topics, h.topic) == old(Log(h.broker.topics, h.topic)) + peers
    {
      hide Log;
      for k := 0 to |peers|
        invariant Log(h.broker.topics, h.topic) == old(Log(h.broker.topics, h.topic)) + peers[..k]
      {
        LogGrows(h.broker.topics, h.topic, peers[k]);
        h.broker.Publish(h.topic, peers[k]);
        assert peers[..k + 1] == peers[..k] + [peers[k]];
      }
    }

    /** Every offer waits one more cycle; those that have waited long enough are
        dropped, and both engines are told of each. */
    method AgeOffers(now: int) returns (timedOut: nat, ghost order: seq<nat>)
      requires Valid()
      modifies this, coire
      ensures Valid() && registered == old(registered)
      ensures pending == Aged(old(pending), patience) && timedOut == |TimedOutBy(old(pending), patience)|
      ensures Elements(order) == TimedOutBy(old(pending), patience) && |order| == timedOut
      ensures coire.events == old(coire.events) + TimeoutPosts(engines, order, old(pending), old(coire.nextId), now)
      ensures coire.nextId == old(coire.nextId) + 2 * |order|
    {
      hide *;
      AgeingSplits(pending, patience);
      ghost var before, first := pending, coire.nextId;
      var late := CollectLate();
      timedOut := |late|;
      order := NotifyLate(late, now);
      SameTimeouts(engines, order, before, first, now);
    }

    /** Drops late offers, in some order. */
    method NotifyLate(late: set<nat>, now: int) returns (ghost order: seq<nat>)
      requires Valid() && late <= pending.Keys
      modifies this, coire
      ensures Valid() && registered == old(registered)
      ensures pending == old(pending) - late && Elements(order) == late && |order| == |late|
      ensures coire.events == old(coire.events) + TimeoutPosts(engines, order, old(pending), old(coire.nextId), now)
      ensures coire.nextId == old(coire.nextId) + 2 * |order|
    {
      hide *;
      ghost var older, rows, first := pending, coire.events, coire.nextId;
      order := [];
      var todo := late;
      NoTimeouts(engines, older, first, now);
      while todo != {}
        invariant todo <= late && Valid() && registered == old(registered) && |order| == |late| - |todo|
        invariant Elements(order) == late - todo
        invariant pending == older - (late - todo)
        invariant coire.nextId == first + 2 * |order|
        invariant coire.events == rows + TimeoutPosts(engines, order, older, first, now)
        decreases todo
      {
        var id :| id in todo;
        TimeoutStep(engines, order, id, older, first, now, rows);
        DropsOne(older, late, todo, id);
        todo := todo - {id};
        order := order + [id];
        DropLate(id, now);
      }
    }

    /** Drops one offer and tells both engines. */
    method DropLate(id: nat, now: int)
      requires Valid() && id in pending
      modifies this, coire
      ensures Valid() && registered == old(registered) && pending == old(pending) - {id}
      ensures coire.nextId == old(coire.nextId) + 2
      ensures coire.events == old(coire.events) + Both(engines, "ritual/tabu-timeout",
        TimeoutPayload(if old(pending)[id].correlated then Some(id) else None), old(coire.nextId), now)
    {
      hide Both, TimeoutPayload;
      var correlated := pending[id].correlated;
      pending := pending - {id};
      PostBoth("ritual/tabu-timeout", TimeoutPayload(if correlated then Some(id) else None), now);
    }

    /** The convergence check, on the counts taken before it. A check converges
        exactly when the counts are zero, the agenda is empty, nothing was pending
        before the check, and the tableau is stable or the root goal resolved. Then, or
        else, the mailboxes get what asking the root goal again and dropping the late
        offers put there. */
    method HasConverged(relayedWaiting: nat, clipsWaiting: nat, input: CycleInput)
      returns (converged: bool, timedOut: nat, ghost order: seq<nat>)
      requires Valid()
      modifies this, coire
      ensures Valid() && registered == old(registered)
      ensures pending == Aged(old(pending), patience)
      ensures Elements(order) == TimedOutBy(old(pending), patience)
        && |order| == timedOut == |TimedOutBy(old(pending), patience)|
      ensures Mailboxes()
        == CheckedBox(engines, old(Mailboxes()), relayedWaiting == 0 && clipsWaiting == 0, old(pending), order, input)
      ensures converged <==>
        && relayedWaiting == 0 && clipsWaiting == 0 && input.agendaEmpty && old(pending) == map[]
        && (input.tableauStable || input.rootResolved)
    {
      hide EngineStep, TimeoutPosts, Elements, Aged, TimedOutBy;
      NothingLeftMeansNothingThere(pending, patience);
      var empty := relayedWaiting == 0 && clipsWaiting == 0;
      if empty && input.agendaEmpty {
        EnginePass(input.requery, input.now);
      }
      timedOut, order := AgeOffers(input.now);
      converged := empty && input.agendaEmpty && pending == map[] && timedOut == 0
          && (input.tableauStable || input.rootResolved);
    }

    /** The engines take turns, and each is relayed to the other. */
    method EnginesAndRelays(input: CycleInput) returns (relayed: nat)
      requires Valid()
      modifies coire
      ensures Valid()
      ensures var clips := EnginesRun(old(Mailboxes()), engines, input);
        Mailboxes() == RelayStep(clips, ToProlog, engines, input.now)
            && relayed == |Taken(ToProlog, engines, clips.rows)|
    {
      hide EngineStep, Relayed, Taken;
      EnginePass(input.prolog, input.now);
      var forwarded := RelayEvents(coire, ToClips, engines, input.now);
      EnginePass(input.clips, input.now);
      relayed := RelayEvents(coire, ToProlog, engines, input.now);
    }

    ghost function Now(): Scene
      reads this, coire, if handle == null then {} else {handle.broker}
    {
      if handle == null then Scene(OnDesk(), registered, []) else OnScene(handle)
    }

    ghost function Snapshot(): State
      reads this, coire, if handle == null then {} else {handle, handle.broker}
    {
      State(Now(), if handle == null then 0 else handle.offset)
    }

    /** One cycle. A cycle that published an event expecting a reply, took in an
        envelope, relayed an event to Prolog or timed an offer out does not converge;
        and when one converges, no offer is pending. */
    method RunCycle(input: CycleInput) returns (report: Report, ghost t: Trace)
      requires Valid()
      modifies Footprint()
      ensures Valid() && old(registered) <= registered
      ensures CycleFrom(Setting(), old(Snapshot()), input, t, Snapshot(), report)
      ensures Quiet(report) && (report.converged ==> pending == map[])
    {
      hide CycleFrom;
      ghost var before := Snapshot();
      report, t := RunStages(input);
      ConvergingIsQuiet(Setting(), before, input, t, Snapshot(), report);
    }

    /** The stages of a cycle, in order: the engines and relays, the evaluator pass,
        the convergence check. */
    method RunStages(input: CycleInput) returns (report: Report, ghost t: Trace)
      requires Valid()
      modifies Footprint()
      ensures Valid() && CycleFrom(Setting(), old(Snapshot()), input, t, Snapshot(), report)
    {
      hide EnginesRun, RelayStep, Waiting, Aged, TimedOutBy, Taken, PassFrom, CheckedBox, Elements;
      ghost var before := Snapshot();
      var relayed := EnginesAndRelays(input);
      assert Now() == AfterRelays(Setting(), before, input);
      var published, ingested;
      ghost var resolved, order;
      published, ingested, resolved := EvaluatorPass(input.peers, input.now);
      ghost var pass := Now();
      var converged, timedOut;
      converged, timedOut, order := HasConverged(PrologWaiting(), ClipsWaiting(), input);
      report := Report(converged, published, ingested, relayed, timedOut);
      t := Trace(resolved, pass, order);
      assert PassOf(Setting(), before, input, t, report);
      assert Now() == Checked(Setting(), pass, order, input);
    }

    /** The whole deduction: one input for each cycle allowed. It stops at the first
        cycle that converges, or after one that is interrupted. Its states are chained by
        cycles, from the first to the last; and when it has converged, every offer
        registered in it, or pending when it began, was answered or timed out in one of
        its cycles. */
    method RunCycles(inputs: seq<CycleInput>)
      returns (status: RunStatus, reports: seq<Report>, ghost states: seq<State>, ghost traces: seq<Trace>)
      requires Valid()
      modifies Footprint()
      ensures Valid() && IsRun(Setting(), states, inputs, traces, reports)
      ensures states[0] == old(Snapshot()) && states[|reports|] == Snapshot()
      ensures forall k | 0 <= k < |reports| ::
        Quiet(reports[k]) && (reports[k].converged <==> k == |reports| - 1 && status == Converged)
      ensures forall k | 0 <= k < |reports| - 1 :: !inputs[k].interrupted
      ensures status == Converged ==> reports != [] && pending == map[]
      ensures status == Converged ==>
        forall id | id in registered && id !in old(registered) - old(pending.Keys) ::
          exists k: nat :: k < |traces| && SettledAt(traces, patience, id, k)
      ensures status == Interrupted ==> reports != [] && inputs[|reports| - 1].interrupted
      ensures status == MaxCyclesExceeded ==> |reports| == |inputs|
    {
      hide CycleFrom, SettledAt, SettledBy;
      ghost var settled := registered - pending.Keys;
      reports, states, traces := [], [Snapshot()], [];
      for k := 0 to |inputs|
        invariant Valid() && |reports| == k && IsRun(Setting(), states, inputs, traces, reports)
        invariant states[0] == old(Snapshot()) && states[k] == Snapshot()
        invariant forall i | 0 <= i < k :: Quiet(reports[i]) && !reports[i].converged && !inputs[i].interrupted
      {
        var report;
        ghost var t;
        report, t := RunCycle(inputs[k]);
        RunGrows(Setting(), states, inputs, traces, reports, t, Snapshot(), report);
        reports, states, traces := reports + [report], states + [Snapshot()], traces + [t];
        if report.converged {
          AllSettled(states, inputs, traces, reports, settled);
          return Converged, reports, states, traces;
        }
        if inputs[k].interrupted {
          return Interrupted, reports, states, traces;
        }
      }
      status := MaxCyclesExceeded;
    }

    lemma AllSettled(states: seq<State>, inputs: seq<CycleInput>, traces: seq<Trace>, reports: seq<Report>,
                     settled: set<nat>)
      requires Valid() && IsRun(Setting(), states, inputs, traces, reports)
      requires reports != [] && reports[|reports| - 1].converged && states[|reports|] == Snapshot()
      requires Accounted(states[0].scene, settled)
      ensures forall id | id in registered && id !in settled :: exists k: nat ::
        k < |traces| && SettledAt(traces, patience, id, k)
    {
      hide CycleFrom, SettledAt, Accounted;
      forall id | id in registered && id !in settled
        ensures exists k: nat :: k < |traces| && SettledAt(traces, patience, id, k) {
        ConvergedRunSettledAll(Setting(), states, inputs, traces, reports, settled, id);
      }
    }

    /** Adds one to every offer's wait, and collects the offers that are late. */
    method CollectLate() returns (late: set<nat>)
      requires Valid()
      modifies this`pending
      ensures Valid()
      ensures pending == Older(old(pending))
      ensures late == TimedOutBy(old(pending), patience)
    {
      late := {};
      var todo := pending.Keys;
      while todo != {}
        invariant todo <= pending.Keys == old(pending).Keys
        invariant forall id | id in pending ::
          pending[id] == if id in todo then old(pending)[id]
              else old(pending)[id].(waiting := old(pending)[id].waiting + 1)
        invariant late == set id | id in old(pending) && id !in todo && old(pending)[id].waiting + 1 >= patience
        decreases todo
      {
        var id :| id in todo;
        todo := todo - {id};
        var offer := pending[id].(waiting := pending[id].waiting + 1);
        pending := pending[id := offer];
        if offer.waiting >= patience {
          late := late + {id};
        }
      }
    }
  }
}
