/** The offer protocol: offers wait, are answered, or time out. Many controllers
    share one topic. */
module Offers {
  import opened Wrappers
  import opened Mailbox
  import opened RitualTopic

  datatype Offer = Offer(waiting: nat, correlated: bool, topicPath: Option<string>)

  type Table = map<nat, Offer>

  // One convergence check ages every offer

  function TimedOutBy(table: Table, patience: nat): set<nat> {
    set id | id in table && table[id].waiting + 1 >= patience
  }

  function Aged(table: Table, patience: nat): Table {
    map id | id in table && table[id].waiting + 1 < patience :: table[id].(waiting := table[id].waiting + 1)
  }

  // A reply resolves at most one offer

  /** An uncorrelated offer that has waited longest, if there is an uncorrelated one. */
  predicate IsOldest(table: Table, choice: Option<nat>) {
    match choice
    case Some(id) =>
      && id in table && !table[id].correlated
      && forall k | k in table && !table[k].correlated :: table[k].waiting <= table[id].waiting
    case None => forall k | k in table :: table[k].correlated
  }

  /** `resolved` is an offer that this reply resolves: by its correlation id, or by
      age when it echoes none; never one for a reply to another performance. */
  predicate Resolves(table: Table, own: bool, correlation: Option<nat>, resolved: Option<nat>) {
    if !own then resolved == None
    else
      match correlation
      case Some(id) => resolved == (if id in table then Some(id) else None)
      case None => IsOldest(table, resolved)
  }

  function Remove(table: Table, resolved: Option<nat>): Table {
    if resolved.Some? then table - {resolved.value} else table
  }

  predicate IsReply(e: Envelope) { e.kind == "hohi" || e.kind == "tabu" }

  /** Whether an unencrypted envelope goes into the mailboxes. A reply that resolved
      nothing is dropped, unless it is a foreign one addressed to this node; other
      messages are dropped if they are this performance's own echo, or addressed to
      another node. `performance` is absent when there is no ritual. */
  predicate Accepted(e: Envelope, performance: Option<nat>, node: Option<string>, resolved: Option<nat>) {
    if IsReply(e) then
      || resolved.Some?
      || (performance.Some? && performance.value != e.performance && node.Some? && e.target == node)
    else
      && performance != Some(e.performance)
      && (node.Some? && e.target.Some? ==> node == e.target)
  }

  // What became of the offers

  datatype Outcome = Answered(id: nat, position: nat) | TimedOut(id: nat)

  function OutcomeIds(outcomes: seq<Outcome>): set<nat> { set k | 0 <= k < |outcomes| :: outcomes[k].id }

  predicate DistinctOutcomes(outcomes: seq<Outcome>) {
    forall i, j | 0 <= i < j < |outcomes| :: outcomes[i].id != outcomes[j].id
  }

  /** The time-outs of a set of offers, in some order. */
  function TimeOuts(ids: set<nat>): (outcomes: seq<Outcome>)
    ensures OutcomeIds(outcomes) == ids && DistinctOutcomes(outcomes)
    ensures forall k | 0 <= k < |outcomes| :: outcomes[k].TimedOut?
  {
    if ids == {} then []
    else
      var id := Least(ids);
      var rest := TimeOuts(ids - {id});
      assert forall k | 0 <= k < |rest| :: rest[k].id in OutcomeIds(rest);
      OutcomeIdsAppend([TimedOut(id)], rest);
      assert OutcomeIds([TimedOut(id)]) == {[TimedOut(id)][0].id};
      [TimedOut(id)] + rest
  }

  lemma OutcomeIdsAppend(a: seq<Outcome>, b: seq<Outcome>)
    ensures OutcomeIds(a + b) == OutcomeIds(a) + OutcomeIds(b)
  {
    assert forall k | 0 <= k < |a| :: (a + b)[k] == a[k];
    assert forall k | 0 <= k < |b| :: (a + b)[|a| + k] == b[k];
  }

  function Least(ids: set<nat>): (id: nat)
    requires ids != {}
    ensures id in ids && forall k | k in ids :: id <= k
  {
    HasLeast(ids);
    var id :| id in ids && forall k | k in ids :: id <= k;
    id
  }

  lemma {:induction false} HasLeast(ids: set<nat>)
    requires ids != {}
    ensures exists id :: id in ids && forall k | k in ids :: id <= k
  {
    var x :| x in ids;
    if ids != {x} {
      HasLeast(ids - {x});
      var y :| y in ids - {x} && forall k | k in ids - {x} :: y <= k;
      SmallerIsLeast(ids, x, y);
    } else {
      assert x in ids && forall k | k in ids :: x <= k;
    }
  }

  lemma SmallerIsLeast(ids: set<nat>, x: nat, y: nat)
    requires x in ids && y in ids && forall k | k in ids - {x} :: y <= k
    ensures exists id :: id in ids && forall k | k in ids :: id <= k
  {
    var least := if x <= y then x else y;
    assert forall k | k in ids :: k == x || k in ids - {x};
    assert least in ids && forall k | k in ids :: least <= k;
  }

  // Many controllers on one topic

  /** One controller: its offers, every id it ever registered, and the outcomes so far. */
  datatype Party = Party(table: Table, registered: set<nat>, outcomes: seq<Outcome>, offset: nat)

  /** Parties under their performance ids, which are distinct. */
  datatype System = System(log: seq<Envelope>, parties: map<nat, Party>, patience: nat)

  datatype Step =
    | Enter(performance: nat)
    | Offering(performance: nat, id: nat, offer: Offer, envelope: Envelope)
    | Peer(envelope: Envelope)
    | ReadNext(performance: nat, now: int, resolved: Option<nat>)
    | Check(performance: nat)

  function AllRegistered(s: System): set<nat> {
    set p, id | p in s.parties && id in s.parties[p].registered :: id
  }

  /** The reply, if any, that the party reads next and does not drop as expired or
      encrypted. */
  predicate ReadsReply(s: System, performance: nat, now: int)
    requires performance in s.parties
  {
    var n := s.parties[performance].offset;
    n < |s.log| && !Expired(s.log[n], now) && !s.log[n].encrypted && IsReply(s.log[n])
  }

  /** Offers are registered under fresh correlation ids; a read resolves what
      `Resolves` allows. Peers may post anything. */
  predicate Enabled(s: System, step: Step) {
    match step
    case Enter(p) => p !in s.parties
    case Offering(p, id, offer, e) =>
      p in s.parties && id !in AllRegistered(s) && offer.waiting == 0 && e.performance == p
    case Peer(_) => true
    case ReadNext(p, now, resolved) =>
      && p in s.parties && s.parties[p].offset < |s.log|
      && var e := s.log[s.parties[p].offset];
         if ReadsReply(s, p, now) then Resolves(s.parties[p].table, e.performance == p, e.correlation, resolved)
         else resolved == None
    case Check(p) => p in s.parties
  }

  function Registering(party: Party, id: nat, offer: Offer): Party {
    party.(table := party.table[id := offer], registered := party.registered + {id})
  }

  function Reading(party: Party, resolved: Option<nat>): Party {
    Party(Remove(party.table, resolved), party.registered,
          party.outcomes + (if resolved.Some? then [Answered(resolved.value, party.offset)] else []), party.offset + 1)
  }

  function Checking(party: Party, patience: nat): Party {
    party.(table := Aged(party.table, patience),
           outcomes := party.outcomes + TimeOuts(TimedOutBy(party.table, patience)))
  }

  /** A step that is not enabled does not happen. */
  function Do(s: System, step: Step): System {
    if !Enabled(s, step) then s
    else
      match step
      case Enter(p) => s.(parties := s.parties[p := Party(map[], {}, [], |s.log|)])
      case Offering(p, id, offer, e) =>
        s.(log := s.log + [e], parties := s.parties[p := Registering(s.parties[p], id, offer)])
      case Peer(e) => s.(log := s.log + [e])
      case ReadNext(p, _, resolved) => s.(parties := s.parties[p := Reading(s.parties[p], resolved)])
      case Check(p) => s.(parties := s.parties[p := Checking(s.parties[p], s.patience)])
  }

  function Run(s: System, steps: seq<Step>): System
    decreases steps
  {
    if steps == [] then s else Run(Do(s, steps[0]), steps[1..])
  }

  // What every run keeps

  /** Registered offers are exactly those pending, answered and timed out, no two of
      these at once; and no offer outstays the patience. */
  predicate Conserved(party: Party, patience: nat) {
    && party.registered == party.table.Keys + OutcomeIds(party.outcomes)
    && party.table.Keys !! OutcomeIds(party.outcomes)
    && DistinctOutcomes(party.outcomes)
    && forall id | id in party.table :: party.table[id].waiting == 0 || party.table[id].waiting < patience
  }

  /** Each answer is a reply in the log, to this performance, that the party has
      read; it names the offer or names none; and no reply answers two offers. */
  predicate AnswersGenuine(party: Party, performance: nat, log: seq<Envelope>) {
    && party.offset <= |log|
    && (forall k | 0 <= k < |party.outcomes| && party.outcomes[k].Answered? ::
      AnswerGenuine(party.outcomes[k], performance, log, party.offset))
    && forall i, j | 0 <= i < j < |party.outcomes| && party.outcomes[i].Answered? && party.outcomes[j].Answered? ::
         party.outcomes[i].position < party.outcomes[j].position
  }

  predicate AnswerGenuine(o: Outcome, performance: nat, log: seq<Envelope>, offset: nat)
    requires o.Answered?
  {
    && o.position < offset <= |log|
    && var e := log[o.position];
       IsReply(e) && !e.encrypted && e.performance == performance
           && (e.correlation == None || e.correlation == Some(o.id))
  }

  ghost predicate NoSharedOffers(s: System) {
    forall p, q | p in s.parties && q in s.parties && p != q :: s.parties[p].registered !! s.parties[q].registered
  }

  ghost predicate Sound(s: System) {
    && (forall p | p in s.parties :: Conserved(s.parties[p], s.patience) && AnswersGenuine(s.parties[p], p, s.log))
    && NoSharedOffers(s)
  }

  lemma RegisteringConserves(party: Party, id: nat, offer: Offer, patience: nat)
    requires Conserved(party, patience) && id !in party.registered && offer.waiting == 0
    ensures Conserved(Registering(party, id, offer), patience)
  {
    hide OutcomeIds, DistinctOutcomes;
  }

  lemma ReadingConserves(party: Party, resolved: Option<nat>, patience: nat)
    requires Conserved(party, patience) && (resolved.Some? ==> resolved.value in party.table)
    ensures Conserved(Reading(party, resolved), patience)
  {
    if resolved.Some? {
      var last := [Answered(resolved.value, party.offset)];
      OutcomeIdsAppend(party.outcomes, last);
      assert OutcomeIds(last) == {last[0].id};
      assert forall k | 0 <= k < |party.outcomes| :: party.outcomes[k].id in OutcomeIds(party.outcomes);
    } else {
      assert party.outcomes + [] == party.outcomes;
    }
  }

  lemma CheckingConserves(party: Party, patience: nat)
    requires Conserved(party, patience)
    ensures Conserved(Checking(party, patience), patience)
  {
    var out := TimedOutBy(party.table, patience);
    var late := TimeOuts(out);
    OutcomeIdsAppend(party.outcomes, late);
    assert party.table.Keys == Aged(party.table, patience).Keys + out;
    assert forall k | 0 <= k < |party.outcomes| :: party.outcomes[k].id in OutcomeIds(party.outcomes);
    assert forall k | 0 <= k < |late| :: late[k].id in OutcomeIds(late);
  }

  lemma LaterLogKeepsAnswers(party: Party, performance: nat, log: seq<Envelope>, e: Envelope)
    requires AnswersGenuine(party, performance, log)
    ensures AnswersGenuine(party, performance, log + [e])
  {
    forall k | 0 <= k < |party.outcomes| && party.outcomes[k].Answered?
      ensures AnswerGenuine(party.outcomes[k], performance, log + [e], party.offset)
    {
      assert AnswerGenuine(party.outcomes[k], performance, log, party.offset);
    }
  }

  lemma ReadingIsGenuine(party: Party, performance: nat, log: seq<Envelope>, resolved: Option<nat>)
    requires AnswersGenuine(party, performance, log) && party.offset < |log|
    requires resolved.Some? ==>
      var e := log[party.offset];
      IsReply(e) && !e.encrypted && Resolves(party.table, e.performance == performance, e.correlation, resolved)
    ensures AnswersGenuine(Reading(party, resolved), performance, log)
  {
    var after := Reading(party, resolved);
    forall k | 0 <= k < |after.outcomes| && after.outcomes[k].Answered?
      ensures AnswerGenuine(after.outcomes[k], performance, log, after.offset)
    {
      if k < |party.outcomes| {
        assert AnswerGenuine(party.outcomes[k], performance, log, party.offset);
      }
    }
    forall k | 0 <= k < |party.outcomes| && party.outcomes[k].Answered?
      ensures party.outcomes[k].position < party.offset {
      assert AnswerGenuine(party.outcomes[k], performance, log, party.offset);
    }
  }

  lemma CheckingIsGenuine(party: Party, performance: nat, log: seq<Envelope>, patience: nat)
    requires AnswersGenuine(party, performance, log)
    ensures AnswersGenuine(Checking(party, patience), performance, log)
  {
    hide AnswerGenuine;
  }

  lemma PartyKeepsSound(s: System, step: Step, p: nat)
    requires Sound(s) && p in Do(s, step).parties
    ensures var s' := Do(s, step); Conserved(s'.parties[p], s'.patience) && AnswersGenuine(s'.parties[p], p, s'.log)
  {
    hide Conserved, AnswersGenuine, NoSharedOffers, Registering, Reading, Checking, AllRegistered;
    if Enabled(s, step) {
      match step
      case Enter(q) =>
        if p == q {
          NewParty(s, p);
        }
      case Offering(q, id, offer, e) =>
        LaterLogKeepsAnswers(s.parties[p], p, s.log, e);
        if p == q {
          FreshForParty(s, p, id);
          RegisteringConserves(s.parties[p], id, offer, s.patience);
          RegisteringIsGenuine(s.parties[p], p, s.log + [e], id, offer);
        }
      case Peer(e) => LaterLogKeepsAnswers(s.parties[p], p, s.log, e);
      case ReadNext(q, now, resolved) =>
        if p == q {
          if resolved.Some? {
            ResolvedIsPending(s, q, now, resolved);
          }
          ReadingConserves(s.parties[p], resolved, s.patience);
          ReadingIsGenuine(s.parties[p], p, s.log, resolved);
        }
      case Check(q) =>
        if p == q {
          CheckingConserves(s.parties[p], s.patience);
          CheckingIsGenuine(s.parties[p], p, s.log, s.patience);
        }
    }
  }

  lemma NewParty(s: System, p: nat)
    ensures Conserved(Party(map[], {}, [], |s.log|), s.patience)
      && AnswersGenuine(Party(map[], {}, [], |s.log|), p, s.log)
  {
  }

  lemma RegisteringIsGenuine(party: Party, performance: nat, log: seq<Envelope>, id: nat, offer: Offer)
    requires AnswersGenuine(party, performance, log)
    ensures AnswersGenuine(Registering(party, id, offer), performance, log)
  {
  }

  lemma FreshForParty(s: System, p: nat, id: nat)
    requires p in s.parties && id !in AllRegistered(s)
    ensures id !in s.parties[p].registered
  {
  }

  lemma ResolvedIsPending(s: System, p: nat, now: int, resolved: Option<nat>)
    requires Enabled(s, ReadNext(p, now, resolved)) && resolved.Some?
    ensures resolved.value in s.parties[p].table && ReadsReply(s, p, now)
  {
  }

  lemma SharingStaysOut(s: System, step: Step)
    requires Sound(s)
    ensures NoSharedOffers(Do(s, step))
  {
    hide Conserved, AnswersGenuine, Remove, Aged, TimeOuts, Resolves;
    var s' := Do(s, step);
    forall p, q | p in s'.parties && q in s'.parties && p != q
      ensures s'.parties[p].registered !! s'.parties[q].registered
    {
      if Enabled(s, step) && step.Offering? {
        FreshForOthers(s, step.id);
      }
    }
  }

  lemma FreshForOthers(s: System, id: nat)
    requires id !in AllRegistered(s)
    ensures forall p | p in s.parties :: id !in s.parties[p].registered
  {
  }

  lemma StepKeepsSound(s: System, step: Step)
    requires Sound(s)
    ensures Sound(Do(s, step))
  {
    hide Do, Conserved, AnswersGenuine, NoSharedOffers;
    SharingStaysOut(s, step);
    forall p | p in Do(s, step).parties
      ensures Conserved(Do(s, step).parties[p], Do(s, step).patience)
        && AnswersGenuine(Do(s, step).parties[p], p, Do(s, step).log)
    {
      PartyKeepsSound(s, step, p);
    }
  }

  lemma {:induction false} RunKeepsSound(s: System, steps: seq<Step>)
    requires Sound(s)
    ensures Sound(Run(s, steps))
    decreases steps
  {
    hide Sound, Do;
    if steps != [] {
      StepKeepsSound(s, steps[0]);
      RunKeepsSound(Do(s, steps[0]), steps[1..]);
    }
  }

  function Empty(patience: nat): System { System([], map[], patience) }

  /** Over every run, for every controller: offers registered are those answered,
      timed out or still pending, each exactly one of these and with at most one
      outcome; every answer is a reply to this performance; and no two controllers
      ever share an offer. */
  lemma OffersAreConserved(patience: nat, steps: seq<Step>)
    ensures Sound(Run(Empty(patience), steps))
  {
    RunKeepsSound(Empty(patience), steps);
  }

  /** A step by one controller, or a message by a peer, leaves the offers and
      outcomes of every other controller alone. */
  lemma OthersAreUntouched(s: System, step: Step, p: nat)
    requires p in s.parties && (step.Peer? || step.performance != p)
    ensures p in Do(s, step).parties && Do(s, step).parties[p] == s.parties[p]
  {
    hide AllRegistered, Resolves;
  }

  /** An uncorrelated reply takes only an uncorrelated offer, and none that has
      waited longer is left behind. */
  lemma UncorrelatedTakesTheOldest(s: System, p: nat, now: int, id: nat)
    requires Enabled(s, ReadNext(p, now, Some(id)))
    requires s.log[s.parties[p].offset].correlation == None
    ensures var before, after := s.parties[p].table, Do(s, ReadNext(p, now, Some(id))).parties[p].table;
      && id in before && !before[id].correlated && after == before - {id}
      && forall k | k in after && !after[k].correlated :: after[k].waiting <= before[id].waiting
  {
    hide AllRegistered;
  }

  // Waiting is bounded

  function Checks(steps: seq<Step>, p: nat): nat {
    if steps == [] then 0 else (if steps[0] == Check(p) then 1 else 0) + Checks(steps[1..], p)
  }

  lemma StepAges(s: System, step: Step, p: nat, id: nat)
    requires Sound(s) && p in s.parties && id in s.parties[p].table
    requires id in Do(s, step).parties[p].table
    ensures var before, after := s.parties[p].table[id], Do(s, step).parties[p].table[id];
      after.waiting == before.waiting + if step == Check(p) then 1 else 0
    ensures step == Check(p) ==> Do(s, step).parties[p].table[id].waiting < s.patience
  {
    hide AnswersGenuine, TimeOuts, Resolves, AllRegistered, NoSharedOffers, OutcomeIds, DistinctOutcomes;
    if Enabled(s, step) && step.Offering? && step.performance == p {
      FreshForParty(s, p, step.id);
    }
  }

  lemma GoneFromTable(s: System, step: Step, p: nat, id: nat)
    requires Sound(s) && p in s.parties && id in s.parties[p].registered && id !in s.parties[p].table
    ensures p in Do(s, step).parties && id in Do(s, step).parties[p].registered && id !in Do(s, step).parties[p].table
  {
    hide AnswersGenuine, TimeOuts, Resolves, NoSharedOffers, Conserved, AllRegistered;
    if Enabled(s, step) && step.Offering? {
      FreshForOthers(s, step.id);
    }
  }

  lemma {:induction false} StaysGone(s: System, steps: seq<Step>, p: nat, id: nat)
    requires Sound(s) && p in s.parties && id in s.parties[p].registered && id !in s.parties[p].table
    ensures p in Run(s, steps).parties && id !in Run(s, steps).parties[p].table
    decreases steps
  {
    hide Sound, Do;
    if steps != [] {
      StepKeepsSound(s, steps[0]);
      GoneFromTable(s, steps[0], p, id);
      StaysGone(Do(s, steps[0]), steps[1..], p, id);
    }
  }

  lemma PartiesStay(s: System, step: Step, p: nat)
    requires p in s.parties
    ensures p in Do(s, step).parties && Do(s, step).patience == s.patience
    ensures s.parties[p].registered <= Do(s, step).parties[p].registered
  {
    hide Resolves, AllRegistered, TimeOuts, Aged;
  }

  lemma PendingIsRegistered(s: System, p: nat, id: nat)
    requires Sound(s) && p in s.parties && id in s.parties[p].table
    ensures id in s.parties[p].registered
      && (s.parties[p].table[id].waiting == 0 || s.parties[p].table[id].waiting < s.patience)
  {
    hide AnswersGenuine, NoSharedOffers;
    assert Conserved(s.parties[p], s.patience);
  }

  /** An offer still pending after a run has waited through every check of it. */
  lemma {:induction false} WaitingCountsChecks(s: System, steps: seq<Step>, p: nat, id: nat)
    requires Sound(s) && p in s.parties && id in s.parties[p].table
    ensures p in Run(s, steps).parties
    ensures id in Run(s, steps).parties[p].table ==>
      Run(s, steps).parties[p].table[id].waiting == s.parties[p].table[id].waiting + Checks(steps, p)
    decreases steps
  {
    hide Sound, Do;
    if steps != [] {
      var next := Do(s, steps[0]);
      StepKeepsSound(s, steps[0]);
      PartiesStay(s, steps[0], p);
      if id in next.parties[p].table {
        StepAges(s, steps[0], p, id);
        WaitingCountsChecks(next, steps[1..], p, id);
      } else {
        PendingIsRegistered(s, p, id);
        StaysGone(next, steps[1..], p, id);
      }
    }
  }

  /** A silent peer blocks a controller for a bounded number of checks: an offer is
      gone after as many checks as the patience, and after one if that is zero. */
  lemma OffersDoNotOutstayPatience(s: System, steps: seq<Step>, p: nat, id: nat)
    requires Sound(s) && p in s.parties && id in s.parties[p].table
    requires Checks(steps, p) >= s.patience && Checks(steps, p) >= 1
    ensures p in Run(s, steps).parties && id !in Run(s, steps).parties[p].table
  {
    hide Sound, Run;
    WaitingCountsChecks(s, steps, p, id);
    RunKeepsSound(s, steps);
    PatienceStays(s, steps);
    if id in Run(s, steps).parties[p].table {
      PendingIsRegistered(Run(s, steps), p, id);
    }
  }

  lemma {:induction false} PatienceStays(s: System, steps: seq<Step>)
    ensures Run(s, steps).patience == s.patience
    decreases steps
  {
    hide Enabled;
    if steps != [] {
      PatienceStays(Do(s, steps[0]), steps[1..]);
    }
  }

  /** Once an offer has been answered or has timed out, no later reply to it reaches
      a mailbox, however the run goes on; so an offer's answer and its time-out are
      never both seen. */
  lemma LateRepliesAreDropped(s: System, steps: seq<Step>, p: nat, id: nat, now: int, node: Option<string>,
                              resolved: Option<nat>)
    requires Sound(s) && p in s.parties && id in s.parties[p].registered && id !in s.parties[p].table
    requires var later := Run(s, steps);
      Enabled(later, ReadNext(p, now, resolved)) && ReadsReply(later, p, now)
      && var e := later.log[later.parties[p].offset]; e.performance == p && e.correlation == Some(id)
    ensures var later := Run(s, steps);
      resolved == None && !Accepted(later.log[later.parties[p].offset], Some(p), node, resolved)
  {
    hide Sound, Run, ReadsReply, IsOldest;
    StaysGone(s, steps, p, id);
  }
}
