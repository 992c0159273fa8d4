/** What the controller does is a run of the offer protocol, so that what holds of
    every run of the protocol holds of the controllers. */
module Refinement {
  import opened Wrappers
  import opened Mailbox
  import RitualTopic
  import opened Offers
  import opened CycleSteps
  import opened DeductionRuns
  import Relay

  type Envelope = RitualTopic.Envelope

  /** The protocol's view of one controller's desk. */
  ghost predicate Shows(s: System, p: nat, table: Table, registered: set<nat>, offset: nat, log: seq<Envelope>) {
    && p in s.parties && s.log == log
    && s.parties[p].table == table && s.parties[p].registered == registered && s.parties[p].offset == offset
  }

  /** The other controllers are as they were. */
  ghost predicate OthersSame(s: System, s': System, p: nat) {
    && s'.patience == s.patience && s'.parties.Keys == s.parties.Keys
    && forall q | q in s.parties && q != p :: s'.parties[q] == s.parties[q]
  }

  lemma {:induction false} RunAppends(s: System, a: seq<Step>, b: seq<Step>)
    ensures Run(s, a + b) == Run(Run(s, a), b)
    decreases a
  {
    hide Do;
    if a == [] {
      assert a + b == b;
    } else {
      assert (a + b)[1..] == a[1..] + b && (a + b)[0] == a[0];
      RunAppends(Do(s, a[0]), a[1..], b);
    }
  }

  // The others

  /** Steps of peers and of other controllers. */
  predicate ByOthers(others: seq<Step>, p: nat) {
    forall k | 0 <= k < |others| :: others[k].Peer? || others[k].performance != p
  }

  lemma {:induction false} OthersRun(s: System, others: seq<Step>, p: nat)
    requires p in s.parties && ByOthers(others, p)
    ensures p in Run(s, others).parties && Run(s, others).parties[p] == s.parties[p]
      && Run(s, others).patience == s.patience
    decreases others
  {
    hide Do;
    if others != [] {
      OthersAreUntouched(s, others[0], p);
      PartiesStay(s, others[0], p);
      assert forall k | 0 <= k < |others[1..]| :: others[1..][k] == others[k + 1];
      OthersRun(Do(s, others[0]), others[1..], p);
    }
  }

  // Reading

  /** One read for each position of the log from `from` on; what has expired
      resolves nothing. */
  function Readings(p: nat, now: int, rest: seq<Envelope>, resolved: seq<Option<nat>>): seq<Step>
    requires |resolved| == |RitualTopic.Unexpired(rest, now)|
    decreases rest
  {
    if rest == [] then []
    else if RitualTopic.Expired(rest[0], now) then [ReadNext(p, now, None)] + Readings(p, now, rest[1..], resolved)
    else [ReadNext(p, now, resolved[0])] + Readings(p, now, rest[1..], resolved[1..])
  }

  /** Taking in a batch, from its first envelope on. */
  lemma {:induction false} IngestedFromTheFront(desk: Desk, site: Site, es: seq<Envelope>, resolved: seq<Option<nat>>)
    requires |resolved| == |es| > 0
    ensures IngestedAll(desk, site, es, resolved)
      == IngestedAll(Ingest1(desk, site, es[0], resolved[0]), site, es[1..], resolved[1..])
    decreases es
  {
    hide Ingest1;
    var n := |es| - 1;
    if n > 0 {
      IngestedFromTheFront(desk, site, es[..n], resolved[..n]);
      assert es[..n][1..] == es[1..][..n - 1] && resolved[..n][1..] == resolved[1..][..n - 1];
    }
  }

  lemma ResolvingFromTheFront(desk: Desk, site: Site, es: seq<Envelope>, resolved: seq<Option<nat>>)
    requires |resolved| == |es| > 0 && AllMayResolve(desk, site, es, resolved)
    ensures MayResolve(desk.table, site, es[0], resolved[0])
    ensures AllMayResolve(Ingest1(desk, site, es[0], resolved[0]), site, es[1..], resolved[1..])
  {
    hide Ingest1, MayResolve, IngestedAll;
    assert es[..0] == [] && resolved[..0] == [];
    IngestNone(desk, site);
    var next := Ingest1(desk, site, es[0], resolved[0]);
    forall k | 0 <= k < |es| - 1
      ensures MayResolve(IngestedAll(next, site, es[1..][..k], resolved[1..][..k]).table, site, es[1..][k],
                         resolved[1..][k])
    {
      assert es[..k + 1][1..] == es[1..][..k] && resolved[..k + 1][1..] == resolved[1..][..k];
      IngestedFromTheFront(desk, site, es[..k + 1], resolved[..k + 1]);
    }
  }

  /** One read, of an envelope that has not expired. */
  lemma ReadStep(s: System, p: nat, site: Site, resolved: Option<nat>)
    requires p in s.parties && s.parties[p].offset < |s.log| && site.performance == Some(p)
    requires var e := s.log[s.parties[p].offset];
      !RitualTopic.Expired(e, site.now) && MayResolve(s.parties[p].table, site, e, resolved)
    ensures var s' := Do(s, ReadNext(p, site.now, resolved));
      && Shows(s', p, Remove(s.parties[p].table, resolved), s.parties[p].registered, s.parties[p].offset + 1, s.log)
        && OthersSame(s, s', p)
  {
    hide Resolves, AllRegistered;
    assert Enabled(s, ReadNext(p, site.now, resolved));
  }

  lemma SkipStep(s: System, p: nat, now: int)
    requires p in s.parties && s.parties[p].offset < |s.log| && RitualTopic.Expired(s.log[s.parties[p].offset], now)
    ensures var s' := Do(s, ReadNext(p, now, None));
      Shows(s', p, s.parties[p].table, s.parties[p].registered, s.parties[p].offset + 1, s.log) && OthersSame(s, s', p)
  {
    hide Resolves, AllRegistered;
    assert Enabled(s, ReadNext(p, now, None));
  }

  lemma {:induction false} ReadingRuns(s: System, p: nat, site: Site, desk: Desk, rest: seq<Envelope>,
                                       resolved: seq<Option<nat>>)
    requires p in s.parties && s.parties[p].offset <= |s.log| && rest == s.log[s.parties[p].offset..]
    requires desk.table == s.parties[p].table && site.performance == Some(p)
    requires var es := RitualTopic.Unexpired(rest, site.now);
      |resolved| == |es| && AllMayResolve(desk, site, es, resolved)
    ensures var s' := Run(s, Readings(p, site.now, rest, resolved));
      && Shows(s', p, IngestedAll(desk, site, RitualTopic.Unexpired(rest, site.now), resolved).table,
               s.parties[p].registered, |s.log|, s.log)
      && OthersSame(s, s', p)
    decreases rest
  {
    hide Do, MayResolve, AllMayResolve, IngestedAll, RitualTopic.Expired;
    var es := RitualTopic.Unexpired(rest, site.now);
    if rest == [] {
      assert es == [] && resolved == [];
      IngestNone(desk, site);
    } else if RitualTopic.Expired(rest[0], site.now) {
      SkipStep(s, p, site.now);
      var next := Do(s, ReadNext(p, site.now, None));
      var more := RitualTopic.Unexpired(rest[1..], site.now);
      assert es == [] + more == more;
      ReadingRuns(next, p, site, desk, rest[1..], resolved);
    } else {
      assert es[0] == rest[0] && es[1..] == RitualTopic.Unexpired(rest[1..], site.now);
      ResolvingFromTheFront(desk, site, es, resolved);
      IngestedFromTheFront(desk, site, es, resolved);
      ReadStep(s, p, site, resolved[0]);
      ReadingRuns(Do(s, ReadNext(p, site.now, resolved[0])), p, site, Ingest1(desk, site, es[0], resolved[0]),
                  rest[1..], resolved[1..]);
    }
  }

  // Publishing

  function Publishing(p: nat, domain: string, now: int, events: seq<Event>, nextId: nat): seq<Step>
    decreases events
  {
    if events == [] then []
    else
      var (id, next) := CorrelationFor(events[0], nextId);
      var envelope := OfferingFor(events[0], id, p, domain, now);
      [if ExpectsReply(events[0]) then Offering(p, id, OfferFor(events[0], domain, p), envelope) else Peer(envelope)]
      + Publishing(p, domain, now, events[1..], next)
  }

  /** No offer is registered under an identifier that any controller ever used. */
  predicate FreshIds(used: set<nat>, events: seq<Event>, nextId: nat)
    decreases events
  {
    events == [] ||
    var (id, next) := CorrelationFor(events[0], nextId);
    if ExpectsReply(events[0]) then id !in used && FreshIds(used + {id}, events[1..], next)
      else FreshIds(used, events[1..], next)
  }

  lemma OfferStep(s: System, p: nat, id: nat, offer: Offer, e: Envelope)
    requires p in s.parties && id !in AllRegistered(s) && offer.waiting == 0 && e.performance == p
    ensures var s' := Do(s, Offering(p, id, offer, e));
      && Shows(s', p, s.parties[p].table[id := offer], s.parties[p].registered + {id}, s.parties[p].offset, s.log + [e])
      && OthersSame(s, s', p) && AllRegistered(s') == AllRegistered(s) + {id}
  {
    var s' := Do(s, Offering(p, id, offer, e));
    assert forall q | q in s.parties :: s.parties[q].registered <= s'.parties[q].registered;
    assert id in s'.parties[p].registered;
  }

  lemma PeerStep(s: System, p: nat, e: Envelope)
    requires p in s.parties
    ensures var s' := Do(s, Peer(e));
      Shows(s', p, s.parties[p].table, s.parties[p].registered, s.parties[p].offset, s.log + [e])
          && OthersSame(s, s', p)
      && AllRegistered(s') == AllRegistered(s)
  {
  }

  lemma PublishedEnvelope(e: Event, id: nat, p: nat, domain: string, now: int)
    ensures OfferingFor(e, id, p, domain, now).performance == p && OfferFor(e, domain, p).waiting == 0
  {
  }

  lemma {:induction false} PublishingRuns(s: System, p: nat, domain: string, now: int, events: seq<Event>, nextId: nat)
    requires p in s.parties && FreshIds(AllRegistered(s), events, nextId)
    ensures var s' := Run(s, Publishing(p, domain, now, events, nextId));
      var b := EnterAll(Book(s.parties[p].table, s.parties[p].registered, nextId), events, domain, p);
      && Shows(s', p, b.table, b.registered, s.parties[p].offset, s.log + Offerings(events, nextId, p, domain, now))
      && OthersSame(s, s', p)
    decreases events
  {
    hide Do, ExpectsReply, OfferFor, OfferingFor, CorrelationFor, AllRegistered;
    if events != [] {
      var id := CorrelationFor(events[0], nextId).0;
      var envelope := OfferingFor(events[0], id, p, domain, now);
      PublishedEnvelope(events[0], id, p, domain, now);
      OfferingsStep(events, nextId, p, domain, now, s.log);
      var step := if ExpectsReply(events[0]) then Offering(p, id, OfferFor(events[0], domain, p), envelope)
        else Peer(envelope);
      if ExpectsReply(events[0]) {
        OfferStep(s, p, id, OfferFor(events[0], domain, p), envelope);
      } else {
        PeerStep(s, p, envelope);
      }
      PublishingRuns(Do(s, step), p, domain, now, events[1..], CorrelationFor(events[0], nextId).1);
    }
  }

  // The pass and the check

  /** The others do what they do; the controller reads on to the end of the log, position
      by position, and registers its offerings. */
  function PassSteps(p: nat, site: Site, domain: string, others: seq<Step>, rest: seq<Envelope>,
                     resolved: seq<Option<nat>>, out: seq<Event>, nextId: nat): seq<Step>
    requires |resolved| == |RitualTopic.Unexpired(rest, site.now)|
  {
    others + (Readings(p, site.now, rest, resolved) + Publishing(p, domain, site.now, out, nextId))
  }

  function Took(before: Scene, peers: seq<Envelope>, offset: int, site: Site, resolved: seq<Option<nat>>): Desk
    requires |resolved| == |Arrivals(before.log + peers, offset, site.now)|
  {
    IngestedAll(before.desk, site, Arrivals(before.log + peers, offset, site.now), resolved)
  }

  /** A controller's evaluator pass is a run of the protocol, made of the others' steps,
      one read for each new position of the log, and one step for each envelope
      published, provided the identifiers of the offers are fresh. */
  lemma PassIsARun(s: System, p: nat, before: Scene, others: seq<Step>, peers: seq<Envelope>, site: Site,
                   domain: string, resolved: seq<Option<nat>>, after: Scene, published: nat, ingested: nat)
    requires Sound(s) && site.performance == Some(p)
    requires p in s.parties && Shows(s, p, before.desk.table, before.registered, s.parties[p].offset, before.log)
    requires s.parties[p].offset <= |before.log| && ByOthers(others, p) && Run(s, others).log == before.log + peers
    requires PassFrom(before, s.parties[p].offset, site, domain, p, peers, resolved, after, published, ingested)
    requires var took := Took(before, peers, s.parties[p].offset, site, resolved);
      FreshIds(AllRegistered(Run(s, others)), Outbound(took.box.rows, site.engines), took.box.nextId)
    ensures var took, log := Took(before, peers, s.parties[p].offset, site, resolved), before.log + peers;
      var steps := PassSteps(p, site, domain, others, log[s.parties[p].offset..], resolved,
                             Outbound(took.box.rows, site.engines), took.box.nextId);
      var s' := Run(s, steps);
      Sound(s') && OthersSame(Run(s, others), s', p)
          && Shows(s', p, after.desk.table, after.registered, |log|, after.log)
  {
    hide Sound, Run, Do, AllMayResolve, IngestedAll, Outbound, RitualTopic.Unexpired, FreshIds, EnterAll, Offerings,
        Readings, Publishing, AllRegistered, ByOthers;
    var log, offset := before.log + peers, s.parties[p].offset;
    var took := Took(before, peers, offset, site, resolved);
    var out := Outbound(took.box.rows, site.engines);
    OthersRun(s, others, p);
    var s1 := Run(s, others);
    ReadingRuns(s1, p, site, before.desk, log[offset..], resolved);
    var s2 := Run(s1, Readings(p, site.now, log[offset..], resolved));
    ReadingRegistersNothing(s1, s2, p);
    PublishingRuns(s2, p, domain, site.now, out, took.box.nextId);
    RunAppends(s, others,
               Readings(p, site.now, log[offset..], resolved) + Publishing(p, domain, site.now, out, took.box.nextId));
    RunAppends(s1, Readings(p, site.now, log[offset..], resolved),
               Publishing(p, domain, site.now, out, took.box.nextId));
    RunKeepsSound(s, PassSteps(p, site, domain, others, log[offset..], resolved, out, took.box.nextId));
  }

  lemma ReadingRegistersNothing(s: System, s': System, p: nat)
    requires p in s.parties && p in s'.parties && s'.parties[p].registered == s.parties[p].registered
      && OthersSame(s, s', p)
    ensures AllRegistered(s') == AllRegistered(s)
  {
  }

  /** A convergence check is the protocol's check. */
  lemma CheckIsAStep(s: System, p: nat)
    requires Sound(s) && p in s.parties
    ensures var s' := Do(s, Check(p));
      && Sound(s') && OthersSame(s, s', p)
      && Shows(s', p, Aged(s.parties[p].table, s.patience), s.parties[p].registered, s.parties[p].offset, s.log)
  {
    hide Sound, Aged, TimeOuts;
    StepKeepsSound(s, Check(p));
  }

  // Whole runs

  /** The protocol's steps in one cycle of the controller: those of its evaluator pass, and
      then the check. */
  function CycleRun(setup: Setup, p: nat, before: State, input: CycleInput, t: Trace, others: seq<Step>): seq<Step> {
    var relayed, site := AfterRelays(setup, before, input), setup.At(input.now);
    var log := relayed.log + input.peers;
    if 0 <= before.offset <= |log| && |t.resolved| == |Arrivals(log, before.offset, input.now)| then
      var took := Took(relayed, input.peers, before.offset, site, t.resolved);
      PassSteps(p, site, setup.domain, others, log[before.offset..], t.resolved, Outbound(took.box.rows, setup.engines),
                took.box.nextId)
      + [Check(p)]
    else []
  }

  /** What the others do in the cycle is what the peers post, and the controller's new
      offers have fresh identifiers. */
  ghost predicate Concurs(setup: Setup, p: nat, before: State, input: CycleInput, t: Trace, s: System,
                          others: seq<Step>) {
    && ByOthers(others, p) && Run(s, others).log == before.scene.log + input.peers
    && |t.resolved| == |Arrivals(before.scene.log + input.peers, before.offset, input.now)|
    && var took := Took(AfterRelays(setup, before, input), input.peers, before.offset, setup.At(input.now), t.resolved);
       FreshIds(AllRegistered(Run(s, others)), Outbound(took.box.rows, setup.engines), took.box.nextId)
  }

  ghost predicate ShowsState(s: System, p: nat, state: State) {
    && 0 <= state.offset <= |state.scene.log|
    && Shows(s, p, state.scene.desk.table, state.scene.registered, state.offset, state.scene.log)
  }

  lemma CycleIsARun(setup: Setup, p: nat, s: System, before: State, input: CycleInput, t: Trace, after: State,
                    report: Report, others: seq<Step>)
    requires Sound(s) && ShowsState(s, p, before) && setup.performance == Some(p) && s.patience == setup.patience
    requires CycleFrom(setup, before, input, t, after, report) && Concurs(setup, p, before, input, t, s, others)
    ensures var s' := Run(s, CycleRun(setup, p, before, input, t, others));
      Sound(s') && ShowsState(s', p, after) && OthersSame(Run(s, others), s', p) && s'.patience == s.patience
  {
    hide Sound, Run, Do, EnginesRun, Relay.Taken, PassSteps, Outbound, FreshIds, AllRegistered, ByOthers, IngestedAll,
        RitualTopic.Unexpired, CheckedBox, Aged, QueuesEmpty, AllMayResolve, Admissions, Expecting, TimedOutBy,
            Elements;
    var relayed, site := AfterRelays(setup, before, input), setup.At(input.now);
    var log := relayed.log + input.peers;
    var took := Took(relayed, input.peers, before.offset, site, t.resolved);
    OthersRun(s, others, p);
    PassIsARun(s, p, relayed, others, input.peers, site, setup.domain, t.resolved, t.pass, report.published,
               report.ingested);
    var pass := PassSteps(p, site, setup.domain, others, log[before.offset..], t.resolved,
                          Outbound(took.box.rows, setup.engines), took.box.nextId);
    var s1 := Run(s, pass);
    RunAppends(s, pass, [Check(p)]);
    RunOne(s1, Check(p));
    CheckIsAStep(s1, p);
    LogOnlyGrows(relayed, site, setup, p, input, t, report, before.offset);
  }

  lemma LogOnlyGrows(relayed: Scene, site: Site, setup: Setup, p: nat, input: CycleInput, t: Trace, report: Report,
                     offset: int)
    requires PassFrom(relayed, offset, site, setup.domain, p, input.peers, t.resolved, t.pass, report.published,
                      report.ingested)
    ensures |relayed.log + input.peers| <= |t.pass.log|
  {
    hide IngestedAll, AllMayResolve, Admissions, Expecting, Outbound, EnterAll, Offerings, Arrivals, Mailbox.Restatus;
  }

  lemma RunOne(s: System, step: Step)
    ensures Run(s, [step]) == Do(s, step)
  {
    hide Do;
    assert [step][1..] == [];
  }

  /** The steps of the first `n` cycles. */
  function RunSteps(setup: Setup, p: nat, states: seq<State>, inputs: seq<CycleInput>, traces: seq<Trace>,
                    others: seq<seq<Step>>, n: nat): seq<Step>
    requires n <= |traces| && n <= |inputs| && n < |states| && n <= |others|
  {
    if n == 0 then []
    else
      RunSteps(setup, p, states, inputs, traces, others, n - 1)
      + CycleRun(setup, p, states[n - 1], inputs[n - 1], traces[n - 1], others[n - 1])
  }

  ghost predicate AllConcur(setup: Setup, p: nat, states: seq<State>, inputs: seq<CycleInput>, traces: seq<Trace>,
                            s: System, others: seq<seq<Step>>, n: nat)
    requires n <= |traces| && n <= |inputs| && n < |states| && n <= |others|
  {
    forall k | 0 <= k < n ::
      Concurs(setup, p, states[k], inputs[k], traces[k], Run(s, RunSteps(setup, p, states, inputs, traces, others, k)),
              others[k])
  }

  /** A whole deduction of one controller, among any others on the topic, is a run of the
      protocol: so everything that runs of the protocol keep holds after every cycle. */
  lemma {:induction false} DeductionIsARun(setup: Setup, p: nat, s: System, states: seq<State>, inputs: seq<CycleInput>,
                                           traces: seq<Trace>, reports: seq<Report>, others: seq<seq<Step>>, n: nat)
    requires Sound(s) && setup.performance == Some(p) && s.patience == setup.patience
    requires IsRun(setup, states, inputs, traces, reports) && ShowsState(s, p, states[0])
    requires n <= |reports| && n <= |others| && AllConcur(setup, p, states, inputs, traces, s, others, n)
    ensures var s' := Run(s, RunSteps(setup, p, states, inputs, traces, others, n));
      Sound(s') && ShowsState(s', p, states[n]) && s'.patience == s.patience
  {
    hide Sound, Run, CycleFrom, Concurs, ShowsState, CycleRun;
    if n == 0 {
      NothingRuns(s);
    } else {
      var m := n - 1;
      DeductionIsARun(setup, p, s, states, inputs, traces, reports, others, m);
      var steps := RunSteps(setup, p, states, inputs, traces, others, m);
      var s1 := Run(s, steps);
      CycleIsARun(setup, p, s1, states[m], inputs[m], traces[m], states[n], reports[m], others[m]);
      RunAppends(s, steps, CycleRun(setup, p, states[m], inputs[m], traces[m], others[m]));
    }
  }

  lemma NothingRuns(s: System)
    ensures Run(s, []) == s
  {
  }

  /** When a deduction converges, every offer its controller ever registered has exactly one
      outcome: an answer, by a reply in the log to its performance, or a time-out. */
  lemma ConvergedDeductionHasOutcomes(setup: Setup, p: nat, s: System, states: seq<State>, inputs: seq<CycleInput>,
                                      traces: seq<Trace>, reports: seq<Report>, others: seq<seq<Step>>)
    requires Sound(s) && setup.performance == Some(p) && s.patience == setup.patience
      && setup.engines.prolog != setup.engines.clips
    requires IsRun(setup, states, inputs, traces, reports) && ShowsState(s, p, states[0])
    requires |reports| <= |others| && AllConcur(setup, p, states, inputs, traces, s, others, |reports|)
    requires reports != [] && reports[|reports| - 1].converged
    ensures var s' := Run(s, RunSteps(setup, p, states, inputs, traces, others, |reports|));
      && p in s'.parties
      && OutcomeIds(s'.parties[p].outcomes) == states[|reports|].scene.registered
        && DistinctOutcomes(s'.parties[p].outcomes)
      && AnswersGenuine(s'.parties[p], p, s'.log)
  {
    hide Run, CycleFrom, Concurs, CycleRun, OutcomeIds, DistinctOutcomes, AnswersGenuine, NoSharedOffers;
    var n := |reports| - 1;
    DeductionIsARun(setup, p, s, states, inputs, traces, reports, others, |reports|);
    ConvergingIsQuiet(setup, states[n], inputs[n], traces[n], states[n + 1], reports[n]);
    var s' := Run(s, RunSteps(setup, p, states, inputs, traces, others, |reports|));
    assert Conserved(s'.parties[p], s'.patience);
  }
}
