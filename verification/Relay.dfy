/** The two relays between the engines' mailboxes, and where events end up. */
module Relay {
  import opened Wrappers
  import opened Text
  import opened Terms
  import opened PrologSyntax
  import opened ClipsSyntax
  import opened ClipsRoundTrip
  import PrologRoundTrip
  import opened Mailbox

  // Payload translation

  function IsGround(t: Term): bool {
    match t
    case Variable(_) => false
    case Compound(_, args) => forall k | 0 <= k < |args| :: IsGround(args[k])
    case _ => true
  }

  /** The expression that retracts matching facts: all facts of the functor, unless
      every argument is ground. */
  function RenderRetract(t: Term): string {
    if !t.Atom? && !t.Compound? then "(printout t \"retract: unsupported top-level term\" crlf)"
    else
      var symbol := Underscored(if t.Atom? then t.name else t.functor);
      var args := if t.Atom? then [] else t.args;
      var test :=
        if args != [] && forall k | 0 <= k < |args| :: IsGround(args[k]) then
          "(eq ?f:implied (create$ " + RenderFields(args, " ") + "))"
        else "TRUE";
      "(do-for-all-facts ((?f " + symbol + ")) " + test + " (retract ?f))"
  }

  function PrologToClipsRetract(s: string): Option<string> {
    match ParseText(s)
    case Ok(t, _) => Some(RenderRetract(t))
    case Err(_) => None
  }

  /** Data that does not translate is passed on as it is. */
  function TranslateToClips(p: Payload): Payload {
    if p.kind == None || p.data == None then p
    else if p.kind.value == "assert" then
      match PrologToClips(p.data.value)
      case Some(fact) => p.(data := Some(fact))
      case None => p
    else if p.kind.value == "retract" then
      match PrologToClipsRetract(p.data.value)
      case Some(expr) => p.(kind := Some("goal"), data := Some(expr))
      case None => p
    else p
  }

  function TranslateToProlog(p: Payload): Payload {
    if p.kind == None || p.data == None || !Next(TrimStart(p.data.value), 0, '(') then p
    else if p.kind.value == "assert" || p.kind.value == "retract" then
      match ClipsToProlog(p.data.value)
      case Some(term) => p.(data := Some(term))
      case None => p
    else p
  }

  /** An assertion that crosses to CLIPS and is echoed comes back unchanged. */
  lemma AssertionSurvivesTheRoundTrip(p: Payload, t: Term)
    requires FactTextKept(t) && PrologRoundTrip.Readable(t)
    requires p.kind == Some("assert") && p.data == Some(Render(t))
    ensures TranslateToProlog(TranslateToClips(p)) == p
  {
    hide ParseTerm, ParseFact, Render, RenderFact, TextKept, SymbolKept, Trim, PrologToClips, ClipsToProlog;
    TermCrosses(t);
    KeptTextReturns(t);
    ClipsTextIsTrimmed(t);
    assert TrimStart(RenderFact(t)) == RenderFact(t);
  }

  // The relays

  datatype Direction = ToClips | ToProlog

  /** The origins a relay takes: what the engine itself emitted. */
  function Emitted(d: Direction): Filter {
    if d.ToClips? then Prefix("prolog") else Prefix("clips")
  }

  function Tag(d: Direction): string {
    if d.ToClips? then "relay-prolog:" else "relay-clips:"
  }

  function Translate(d: Direction, p: Payload): Payload {
    if d.ToClips? then TranslateToClips(p) else TranslateToProlog(p)
  }

  datatype Engines = Engines(prolog: nat, clips: nat)

  function From(d: Direction, s: Engines): nat { if d.ToClips? then s.prolog else s.clips }

  function To(d: Direction, s: Engines): nat { if d.ToClips? then s.clips else s.prolog }

  function Copy(d: Direction, s: Engines, e: Event, id: nat, now: int): Event {
    Event(id, To(d, s), Tag(d) + e.origin, now, Translate(d, e.payload), Pending)
  }

  function Copies(d: Direction, s: Engines, taken: seq<Event>, id: nat, now: int): seq<Event> {
    seq(|taken|, k requires 0 <= k < |taken| => Copy(d, s, taken[k], id + k, now))
  }

  function Taken(d: Direction, s: Engines, rows: seq<Event>): seq<Event> {
    ByTime(Selected(rows, From(d, s), Emitted(d)))
  }

  /** The table after a relay: what the engine emitted is processed, and there is
      one pending copy of each event, in order, in the other mailbox. */
  function Relayed(d: Direction, s: Engines, rows: seq<Event>, id: nat, now: int): seq<Event> {
    Restatus(rows, From(d, s), Emitted(d), Processed) + Copies(d, s, Taken(d, s, rows), id, now)
  }

  method RelayEvents(coire: Coire, d: Direction, s: Engines, now: int) returns (count: nat)
    requires coire.Valid()
    modifies coire
    ensures coire.Valid() && count == |Taken(d, s, old(coire.events))|
    ensures coire.events == Relayed(d, s, old(coire.events), old(coire.nextId), now)
    ensures coire.nextId == old(coire.nextId) + count
  {
    hide Selected, Restatus, ByTime, Translate;
    ghost var source := Taken(d, s, coire.events);
    var taken := coire.Poll(From(d, s), Emitted(d));
    ghost var polled := coire.events;
    count := |taken|;
    for k := 0 to |taken|
      invariant coire.Valid() && coire.nextId == old(coire.nextId) + k
      invariant coire.events == polled + Copies(d, s, source, old(coire.nextId), now)[..k]
    {
      var e := taken[k];
      var id := coire.Post(To(d, s), Tag(d) + e.origin, now, Translate(d, e.payload));
      assert Copies(d, s, source, old(coire.nextId), now)[k] == Copy(d, s, source[k], id, now);
    }
  }

  /** The three consumers of the Prolog mailbox (relay, publisher of evaluator
      events, convergence count) never claim the same event. */
  lemma SelectorsAreDisjoint(origin: string)
    ensures !(Matches(Prefix("prolog"), origin) && Matches(Prefix("evaluator/"), origin))
    ensures !(Matches(Prefix("prolog"), origin) && Matches(Prefix("relay-"), origin))
    ensures !(Matches(Prefix("evaluator/"), origin) && Matches(Prefix("relay-"), origin))
  {
    assert "prolog"[0] != "evaluator/"[0] && "prolog"[0] != "relay-"[0] && "evaluator/"[0] != "relay-"[0];
  }

  // Runs of relays and engines

  /** `source` was relayed as `copy`. */
  datatype Link = Link(source: nat, copy: nat)

  datatype World = World(rows: seq<Event>, nextId: nat, links: seq<Link>)

  /** Engines write new events of any origin, and consume as they like. Identifiers are
      used for other things as well. */
  datatype Step =
    | Emit(session: nat, origin: string, created: int, payload: Payload)
    | Consume(op: Op)
    | DoRelay(direction: Direction, now: int)
    | Reserve(count: nat)

  function Links(taken: seq<Event>, id: nat): seq<Link> {
    seq(|taken|, k requires 0 <= k < |taken| => Link(taken[k].id, id + k))
  }

  function Do(w: World, s: Engines, step: Step): World {
    match step
    case Emit(session, origin, created, payload) =>
      World(w.rows + [Event(w.nextId, session, origin, created, payload, Pending)], w.nextId + 1, w.links)
    case Consume(op) => if op.Write? then w else w.(rows := Apply(w.rows, op))
    case DoRelay(d, now) =>
      var taken := Taken(d, s, w.rows);
      World(Relayed(d, s, w.rows, w.nextId, now), w.nextId + |taken|, w.links + Links(taken, w.nextId))
    case Reserve(count) => w.(nextId := w.nextId + count)
  }

  function Run(w: World, s: Engines, steps: seq<Step>): World
    decreases steps
  {
    if steps == [] then w else Run(Do(w, s, steps[0]), s, steps[1..])
  }

  const START := World([], 0, [])

  predicate IsRelayed(origin: string) { "relay-" <= origin }

  ghost predicate Sound(w: World) {
    && Distinct(w.rows)
    && (forall k | 0 <= k < |w.rows| :: w.rows[k].id < w.nextId)
    && (forall i | 0 <= i < |w.links| ::
      w.links[i].source < w.links[i].copy < w.nextId && Gone(w.rows, w.links[i].source))
    && (forall i, k | 0 <= i < |w.links| && 0 <= k < |w.rows| && w.rows[k].id == w.links[i].copy ::
      IsRelayed(w.rows[k].origin))
    && OneToOne(w.links)
  }

  /** No event is relayed twice, no copy has two sources, no copy is relayed on. */
  predicate OneToOne(links: seq<Link>) {
    && (forall i, j | 0 <= i < j < |links| :: links[i].source != links[j].source && links[i].copy != links[j].copy)
    && (forall i, j | 0 <= i < |links| && 0 <= j < |links| :: links[i].source != links[j].copy)
  }

  lemma TakenMembers(d: Direction, s: Engines, rows: seq<Event>)
    ensures forall e :: e in Taken(d, s, rows) <==> e in rows && Selects(e, From(d, s), Emitted(d))
    ensures Distinct(rows) ==> Distinct(Taken(d, s, rows))
  {
    hide Selects, ByTime, Selected, Distinct;
    var chosen := Selected(rows, From(d, s), Emitted(d));
    SelectedMembers(rows, From(d, s), Emitted(d));
    OrderingByTime(chosen);
    assert forall e :: e in ByTime(chosen) <==> e in multiset(ByTime(chosen));
    assert forall e :: e in chosen <==> e in multiset(chosen);
    if Distinct(rows) {
      PermutationIsDistinct(chosen, ByTime(chosen));
    }
  }

  lemma TakenIsNotRelayed(d: Direction, s: Engines, e: Event)
    requires Selects(e, From(d, s), Emitted(d))
    ensures !IsRelayed(e.origin)
  {
    assert e.origin[0] == Emitted(d).prefix[0] != "relay-"[0];
  }

  lemma EmitKeepsSound(w: World, s: Engines, step: Step)
    requires Sound(w) && step.Emit?
    ensures Sound(Do(w, s, step))
  {
  }

  lemma ConsumeKeepsSound(w: World, s: Engines, step: Step)
    requires Sound(w) && step.Consume?
    ensures Sound(Do(w, s, step))
  {
    hide Gone, Distinct, OneToOne;
    var op := step.op;
    if !op.Write? {
      var rows := Apply(w.rows, op);
      DistinctStays(w.rows, op);
      ConsumedRows(w.rows, op);
      forall i | 0 <= i < |w.links| ensures Gone(rows, w.links[i].source) {
        GoneStays(w.rows, op, w.links[i].source);
      }
      forall k | 0 <= k < |rows|
        ensures exists m | 0 <= m < |w.rows| :: w.rows[m].id == rows[k].id && w.rows[m].origin == rows[k].origin {
        assert rows[k] in rows;
      }
    }
  }

  /** Consumers change nothing but the status, and may remove rows. */
  lemma ConsumedRows(rows: seq<Event>, op: Op)
    requires !op.Write?
    ensures forall e | e in Apply(rows, op) :: exists m | 0 <= m < |rows| ::
      rows[m].id == e.id && rows[m].origin == e.origin
  {
    hide Selects;
    if op.Clear? {
      WithoutMembers(rows, op.session);
    }
  }

  lemma RelayKeepsRows(w: World, s: Engines, d: Direction, now: int)
    requires Sound(w)
    ensures var w' := Do(w, s, DoRelay(d, now));
      Distinct(w'.rows) && forall k | 0 <= k < |w'.rows| :: w'.rows[k].id < w'.nextId
  {
    hide OneToOne, Gone, ByTime, Selected, Selects, Translate;
  }

  lemma RelayKeepsGone(w: World, s: Engines, d: Direction, now: int)
    requires Sound(w)
    ensures var w' := Do(w, s, DoRelay(d, now));
      forall i | 0 <= i < |w'.links| ::
        w'.links[i].source < w'.links[i].copy < w'.nextId && Gone(w'.rows, w'.links[i].source)
  {
    hide OneToOne, ByTime, Selected, Translate;
    var taken := Taken(d, s, w.rows);
    TakenMembers(d, s, w.rows);
    var w' := Do(w, s, DoRelay(d, now));
    forall i | 0 <= i < |w'.links|
      ensures w'.links[i].source < w'.links[i].copy < w'.nextId && Gone(w'.rows, w'.links[i].source)
    {
      if i >= |w.links| {
        var e := taken[i - |w.links|];
        assert e in taken;
        assert e in w.rows && Selects(e, From(d, s), Emitted(d));
      }
    }
  }

  lemma RelayKeepsOrigins(w: World, s: Engines, d: Direction, now: int)
    requires Sound(w)
    ensures var w' := Do(w, s, DoRelay(d, now));
      forall i, k | 0 <= i < |w'.links| && 0 <= k < |w'.rows| && w'.rows[k].id == w'.links[i].copy ::
        IsRelayed(w'.rows[k].origin)
  {
    hide OneToOne, Gone, ByTime, Selected, Restatus, Translate, Distinct;
    var polled := Restatus(w.rows, From(d, s), Emitted(d), Processed);
    RestatusKeepsOrigins(w.rows, From(d, s), Emitted(d), Processed);
    CopiesAreRelayed(d, s, Taken(d, s, w.rows), w.nextId, now);
    var w' := Do(w, s, DoRelay(d, now));
    assert w'.rows == polled + Copies(d, s, Taken(d, s, w.rows), w.nextId, now);
  }

  lemma RestatusKeepsOrigins(rows: seq<Event>, session: nat, f: Filter, status: Status)
    ensures var after := Restatus(rows, session, f, status);
      |after| == |rows| && forall k | 0 <= k < |rows| :: after[k].id == rows[k].id && after[k].origin == rows[k].origin
  {
    hide Selects;
  }

  lemma CopiesAreRelayed(d: Direction, s: Engines, taken: seq<Event>, id: nat, now: int)
    ensures var copies := Copies(d, s, taken, id, now);
      forall k | 0 <= k < |copies| :: copies[k].id == id + k && IsRelayed(copies[k].origin)
  {
    hide Translate;
    assert "relay-" <= Tag(d);
  }

  lemma RelayKeepsOneToOne(w: World, s: Engines, d: Direction, now: int)
    requires Sound(w)
    ensures OneToOne(Do(w, s, DoRelay(d, now)).links)
  {
    hide ByTime, Selected, Translate, IsRelayed;
    var taken := Taken(d, s, w.rows);
    TakenMembers(d, s, w.rows);
    forall k | 0 <= k < |taken|
      ensures taken[k] in w.rows && taken[k].id < w.nextId
      ensures forall i | 0 <= i < |w.links| :: w.links[i].source != taken[k].id && w.links[i].copy != taken[k].id
    {
      var e := taken[k];
      assert e in taken;
      TakenIsNotRelayed(d, s, e);
    }
  }

  lemma StepKeepsSound(w: World, s: Engines, step: Step)
    requires Sound(w)
    ensures Sound(Do(w, s, step))
  {
    if step.Emit? {
      EmitKeepsSound(w, s, step);
    } else if step.Consume? {
      ConsumeKeepsSound(w, s, step);
    } else if step.Reserve? {
    } else {
      hide Do;
      RelayKeepsRows(w, s, step.direction, step.now);
      RelayKeepsGone(w, s, step.direction, step.now);
      RelayKeepsOrigins(w, s, step.direction, step.now);
      RelayKeepsOneToOne(w, s, step.direction, step.now);
    }
  }

  lemma {:induction false} RunKeepsSound(w: World, s: Engines, steps: seq<Step>)
    requires Sound(w)
    ensures Sound(Run(w, s, steps))
    decreases steps
  {
    hide Sound, Do;
    if steps != [] {
      StepKeepsSound(w, s, steps[0]);
      RunKeepsSound(Do(w, s, steps[0]), s, steps[1..]);
    }
  }

  /** Over any run of the two relays and the two engines: an event is relayed at
      most once, and what a relay wrote is never relayed again. */
  lemma RelaysNeverLoop(s: Engines, steps: seq<Step>)
    ensures OneToOne(Run(START, s, steps).links)
  {
    RunKeepsSound(START, s, steps);
  }
}
