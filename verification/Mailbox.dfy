/** The shared event table, its consumers, and who gets an event. */
module Mailbox {
  import opened Wrappers

  datatype Status = Pending | Processed | Drained

  /** Where an outbound event is to be published, and how its reply finds its way back. */
  datatype Directive = Directive(correlation: Option<nat>, expectsReply: bool, kind: string, source: Option<string>,
                                 target: Option<string>, topicPath: Option<string>, tags: Option<seq<string>>)

  datatype Routing = Routing(correlation: Option<nat>, source: Option<string>, topicPath: Option<string>)

  /** The parts of an event's JSON payload that this code reads or writes. */
  datatype Payload = Payload(kind: Option<string>, data: Option<string>, caws: Option<Directive>,
                             routing: Option<Routing>, body: string)

  datatype Event = Event(id: nat, session: nat, origin: string, created: int, payload: Payload, status: Status)

  /** Which origins a consumer takes. */
  datatype Filter = AnyOrigin | Prefix(prefix: string) | NotPrefix(prefix: string)

  predicate Matches(f: Filter, origin: string) {
    match f
    case AnyOrigin => true
    case Prefix(p) => p <= origin
    case NotPrefix(p) => !(p <= origin)
  }

  predicate Selects(e: Event, session: nat, f: Filter) {
    e.session == session && e.status == Pending && Matches(f, e.origin)
  }

  // The operations on the rows

  function Ids(rows: seq<Event>): set<nat> { set k | 0 <= k < |rows| :: rows[k].id }

  predicate Distinct(rows: seq<Event>) {
    forall i, j | 0 <= i < j < |rows| :: rows[i].id != rows[j].id
  }

  function Selected(rows: seq<Event>, session: nat, f: Filter): seq<Event> {
    if rows == [] then []
    else (if Selects(rows[0], session, f) then [rows[0]] else []) + Selected(rows[1..], session, f)
  }

  /** Rows after the selected ones have been given a new status. */
  function Restatus(rows: seq<Event>, session: nat, f: Filter, status: Status): seq<Event> {
    seq(|rows|, k requires 0 <= k < |rows| => if Selects(rows[k], session, f) then rows[k].(status := status)
        else rows[k])
  }

  /** Inserts into a list ordered by creation time, after equal times. */
  function InsertByTime(e: Event, rows: seq<Event>): seq<Event> {
    if rows == [] || e.created < rows[0].created then [e] + rows else [rows[0]] + InsertByTime(e, rows[1..])
  }

  function ByTime(rows: seq<Event>): seq<Event> {
    if rows == [] then [] else InsertByTime(rows[|rows| - 1], ByTime(rows[..|rows| - 1]))
  }

  predicate OrderedByTime(rows: seq<Event>) {
    forall i, j | 0 <= i < j < |rows| :: rows[i].created <= rows[j].created
  }

  function SetProcessed(rows: seq<Event>): seq<Event> {
    seq(|rows|, k requires 0 <= k < |rows| => rows[k].(status := Processed))
  }

  function MarkIds(rows: seq<Event>, ids: set<nat>): seq<Event> {
    seq(|rows|, k requires 0 <= k < |rows| => if rows[k].id in ids then rows[k].(status := Processed) else rows[k])
  }

  function Without(rows: seq<Event>, session: nat): seq<Event> {
    if rows == [] then [] else (if rows[0].session == session then [] else [rows[0]]) + Without(rows[1..], session)
  }

  lemma {:induction false} InsertedByTime(e: Event, rows: seq<Event>)
    requires OrderedByTime(rows)
    ensures OrderedByTime(InsertByTime(e, rows)) && multiset(InsertByTime(e, rows)) == multiset(rows) + multiset{e}
    ensures rows != [] ==> InsertByTime(e, rows)[0].created <= rows[0].created
    ensures InsertByTime(e, rows)[0] == e || (rows != [] && InsertByTime(e, rows)[0] == rows[0])
  {
    if rows != [] && rows[0].created <= e.created {
      InsertedByTime(e, rows[1..]);
      assert rows == [rows[0]] + rows[1..];
    }
  }

  /** A poll's order: by creation time, nothing lost and nothing added. */
  lemma {:induction false} OrderingByTime(rows: seq<Event>)
    ensures OrderedByTime(ByTime(rows)) && multiset(ByTime(rows)) == multiset(rows)
  {
    if rows != [] {
      OrderingByTime(rows[..|rows| - 1]);
      InsertedByTime(rows[|rows| - 1], ByTime(rows[..|rows| - 1]));
      assert rows == rows[..|rows| - 1] + [rows[|rows| - 1]];
    }
  }

  lemma {:induction false} SelectedMembers(rows: seq<Event>, session: nat, f: Filter)
    ensures forall e :: e in Selected(rows, session, f) <==> e in rows && Selects(e, session, f)
    ensures Distinct(rows) ==> Distinct(Selected(rows, session, f))
  {
    hide Distinct, Selects;
    if rows != [] {
      SelectedMembers(rows[1..], session, f);
      assert rows == [rows[0]] + rows[1..];
      if Distinct(rows) {
        DistinctTail(rows);
        var rest := Selected(rows[1..], session, f);
        DistinctCons(rows[0], rest);
        assert [] + rest == rest;
      }
    }
  }

  function SelectedIds(rows: seq<Event>, session: nat, f: Filter, n: nat): set<nat>
    requires n <= |rows|
  {
    set k | 0 <= k < n && Selects(rows[k], session, f) :: rows[k].id
  }

  lemma SelectedIdsStep(rows: seq<Event>, session: nat, f: Filter, n: nat)
    requires n < |rows|
    ensures SelectedIds(rows, session, f, n + 1)
         == SelectedIds(rows, session, f, n) + if Selects(rows[n], session, f) then {rows[n].id} else {}
  {
    hide Selects;
  }

  lemma SelectedStart(rows: seq<Event>, session: nat, f: Filter)
    ensures SelectedIds(rows, session, f, 0) == {} && Selected([], session, f) == []
  {
  }

  lemma SelectedStep(before: seq<Event>, rows: seq<Event>, session: nat, f: Filter)
    requires rows != []
    ensures before + Selected(rows, session, f)
         == (if Selects(rows[0], session, f) then before + [rows[0]] else before) + Selected(rows[1..], session, f)
  {
    hide Selects;
  }

  lemma MarkingSelected(rows: seq<Event>, session: nat, f: Filter)
    requires Distinct(rows)
    ensures MarkIds(rows, SelectedIds(rows, session, f, |rows|)) == Restatus(rows, session, f, Processed)
  {
    hide Selects;
    var ids := SelectedIds(rows, session, f, |rows|);
    forall k | 0 <= k < |rows| ensures rows[k].id in ids <==> Selects(rows[k], session, f) {
    }
  }

  /** The mailbox table. Fresh identifiers stand for random ones that never repeat. */
  class Coire {
    var events: seq<Event>
    var nextId: nat

    ghost predicate Valid()
      reads this
    {
      Distinct(events) && forall k | 0 <= k < |events| :: events[k].id < nextId
    }

    constructor ()
      ensures Valid() && events == []
    {
      events, nextId := [], 0;
    }

    method FreshId() returns (id: nat)
      requires Valid()
      modifies this`nextId
      ensures Valid() && id == old(nextId) && nextId == id + 1
    {
      id := nextId;
      nextId := nextId + 1;
    }

    /** Adds a row; fails, and changes nothing, if the identifier is taken. An
        identifier made elsewhere is not issued again. */
    method WriteEvent(e: Event) returns (ok: bool)
      requires Valid()
      modifies this
      ensures Valid() && ok == (e.id !in Ids(old(events)))
      ensures events == if ok then old(events) + [e] else old(events)
    {
      ok := true;
      for k := 0 to |events|
        invariant ok == (e.id !in Ids(events[..k]))
      {
        assert events[..k + 1] == events[..k] + [events[k]];
        if events[k].id == e.id {
          assert events[..k + 1][k].id == e.id;
          ok := false;
        }
      }
      assert events[..|events|] == events;
      if ok {
        assert forall k | 0 <= k < |events| :: events[k].id in Ids(events);
        events := events + [e];
        nextId := if e.id < nextId then nextId else e.id + 1;
      }
    }

    /** A new pending event under a fresh identifier. */
    method Post(session: nat, origin: string, created: int, payload: Payload) returns (id: nat)
      requires Valid()
      modifies this
      ensures Valid() && id == old(nextId) && nextId == id + 1
      ensures events == old(events) + [Event(id, session, origin, created, payload, Pending)]
    {
      id := FreshId();
      events := events + [Event(id, session, origin, created, payload, Pending)];
    }

    /** Takes the selected pending events, in order of creation, and marks exactly
        those processed. */
    method Poll(session: nat, f: Filter) returns (taken: seq<Event>)
      requires Valid()
      modifies this`events
      ensures Valid() && taken == SetProcessed(ByTime(Selected(old(events), session, f)))
      ensures events == Restatus(old(events), session, f, Processed)
    {
      var rows, ids := Choose(session, f);
      taken := SetProcessed(ByTime(rows));
      events := MarkIds(events, ids);
    }

    method Choose(session: nat, f: Filter) returns (rows: seq<Event>, ids: set<nat>)
      requires Valid()
      ensures rows == Selected(events, session, f) && MarkIds(events, ids) == Restatus(events, session, f, Processed)
    {
      hide Selects, Distinct, Restatus, MarkIds, Selected, SelectedIds;
      rows, ids := [], {};
      ghost var rest := events;
      SelectedStart(events, session, f);
      for k := 0 to |events|
        invariant rest == events[k..] && rows + Selected(rest, session, f) == Selected(events, session, f)
        invariant ids == SelectedIds(events, session, f, k)
      {
        SelectedIdsStep(events, session, f, k);
        SelectedStep(rows, rest, session, f);
        if Selects(events[k], session, f) {
          rows := rows + [events[k]];
          ids := ids + {events[k].id};
        }
        rest := rest[1..];
      }
      MarkingSelected(events, session, f);
    }

    method MarkProcessed(id: nat) returns (ok: bool)
      requires Valid()
      modifies this`events
      ensures Valid() && ok == exists k | 0 <= k < |old(events)| ::
        old(events)[k].id == id && old(events)[k].status == Pending
      ensures events == if ok then MarkIds(old(events), {id}) else old(events)
    {
      ok := exists k | 0 <= k < |events| :: events[k].id == id && events[k].status == Pending;
      if ok {
        events := MarkIds(events, {id});
      }
    }

    method DrainSession(session: nat)
      requires Valid()
      modifies this`events
      ensures Valid() && events == Restatus(old(events), session, AnyOrigin, Drained)
    {
      events := Restatus(events, session, AnyOrigin, Drained);
    }

    method ClearSession(session: nat) returns (deleted: nat)
      requires Valid()
      modifies this`events
      ensures Valid() && events == Without(old(events), session) && deleted == |old(events)| - |events|
    {
      var kept := Without(events, session);
      WithoutMembers(events, session);
      deleted := |events| - |kept|;
      events := kept;
    }
  }

  lemma {:induction false} WithoutMembers(rows: seq<Event>, session: nat)
    ensures forall e :: e in Without(rows, session) <==> e in rows && e.session != session
    ensures Distinct(rows) ==> Distinct(Without(rows, session))
    ensures |Without(rows, session)| <= |rows|
  {
    hide Distinct;
    if rows != [] {
      WithoutMembers(rows[1..], session);
      assert rows == [rows[0]] + rows[1..];
      if Distinct(rows) {
        DistinctTail(rows);
        var rest := Without(rows[1..], session);
        DistinctCons(rows[0], rest);
        assert [] + rest == rest;
      }
    }
  }

  lemma DistinctTail(rows: seq<Event>)
    requires Distinct(rows) && rows != []
    ensures Distinct(rows[1..]) && forall e | e in rows[1..] :: e.id != rows[0].id
  {
  }

  lemma DistinctCons(e: Event, rows: seq<Event>)
    requires Distinct(rows) && forall r | r in rows :: r.id != e.id
    ensures Distinct([e] + rows)
  {
    forall k | 0 <= k < |rows| ensures rows[k].id != e.id {
      assert rows[k] in rows;
    }
  }

  // Runs of operations

  datatype Op =
    | Write(event: Event)
    | Take(session: nat, filter: Filter)
    | Mark(id: nat)
    | Process(ids: set<nat>)
    | Drain(session: nat)
    | Clear(session: nat)

  /** The rows after an operation. */
  function Apply(rows: seq<Event>, op: Op): seq<Event> {
    match op
    case Write(e) => if e.id in Ids(rows) then rows else rows + [e]
    case Take(session, f) => Restatus(rows, session, f, Processed)
    case Mark(id) =>
      if exists k | 0 <= k < |rows| :: rows[k].id == id && rows[k].status == Pending then MarkIds(rows, {id}) else rows
    case Process(ids) => MarkIds(rows, ids)
    case Drain(session) => Restatus(rows, session, AnyOrigin, Drained)
    case Clear(session) => Without(rows, session)
  }

  /** What an operation hands out. */
  function Output(rows: seq<Event>, op: Op): seq<Event> {
    if op.Take? then SetProcessed(ByTime(Selected(rows, op.session, op.filter))) else []
  }

  function After(rows: seq<Event>, ops: seq<Op>): seq<Event>
    decreases ops
  {
    if ops == [] then rows else After(Apply(rows, ops[0]), ops[1..])
  }

  /** Rows before operation `n` of a run. */
  function Before(rows: seq<Event>, ops: seq<Op>, n: nat): seq<Event>
    requires n <= |ops|
  {
    After(rows, ops[..n])
  }

  /** No operation from here on writes the identifier. */
  predicate NeverWritten(id: nat, ops: seq<Op>) {
    forall k | 0 <= k < |ops| && ops[k].Write? :: ops[k].event.id != id
  }

  /** The event is not waiting: it has left Pending, or is not in the table. */
  predicate Gone(rows: seq<Event>, id: nat) {
    forall k | 0 <= k < |rows| && rows[k].id == id :: rows[k].status != Pending
  }

  lemma GoneStays(rows: seq<Event>, op: Op, id: nat)
    requires Gone(rows, id) && (op.Write? ==> op.event.id != id)
    ensures Gone(Apply(rows, op), id)
  {
    if op.Clear? {
      WithoutMembers(rows, op.session);
      var kept := Without(rows, op.session);
      forall k | 0 <= k < |kept| && kept[k].id == id ensures kept[k].status != Pending {
        assert kept[k] in rows;
      }
    }
  }

  lemma {:induction false} GoneForever(rows: seq<Event>, ops: seq<Op>, id: nat)
    requires Gone(rows, id) && NeverWritten(id, ops)
    ensures Gone(After(rows, ops), id)
    decreases ops
  {
    hide Gone, Apply;
    if ops != [] {
      GoneStays(rows, ops[0], id);
      assert forall k | 0 <= k < |ops[1..]| :: ops[1..][k] == ops[k + 1];
      GoneForever(Apply(rows, ops[0]), ops[1..], id);
    }
  }

  lemma OutputWasPending(rows: seq<Event>, op: Op, e: Event)
    requires e in Output(rows, op)
    ensures exists k | 0 <= k < |rows| ::
      rows[k].id == e.id && rows[k].status == Pending && Selects(rows[k], op.session, op.filter)
  {
    var chosen := Selected(rows, op.session, op.filter);
    OrderingByTime(chosen);
    SelectedMembers(rows, op.session, op.filter);
    var k :| 0 <= k < |ByTime(chosen)| && e == SetProcessed(ByTime(chosen))[k];
    assert ByTime(chosen)[k] in multiset(chosen);
    assert ByTime(chosen)[k] in chosen;
  }

  lemma OutputIsGone(rows: seq<Event>, op: Op, e: Event)
    requires Distinct(rows) && e in Output(rows, op)
    ensures Gone(Apply(rows, op), e.id)
  {
    hide Selected, ByTime, SetProcessed;
    OutputWasPending(rows, op, e);
  }

  lemma {:induction false} DistinctStays(rows: seq<Event>, op: Op)
    requires Distinct(rows)
    ensures Distinct(Apply(rows, op))
  {
    if op.Clear? {
      WithoutMembers(rows, op.session);
    } else if op.Write? {
      assert forall k | 0 <= k < |rows| :: rows[k].id in Ids(rows);
    }
  }

  lemma {:induction false} DistinctForever(rows: seq<Event>, ops: seq<Op>)
    requires Distinct(rows)
    ensures Distinct(After(rows, ops))
    decreases ops
  {
    hide Distinct, Apply;
    if ops != [] {
      DistinctStays(rows, ops[0]);
      DistinctForever(Apply(rows, ops[0]), ops[1..]);
    }
  }

  lemma {:induction false} AfterAppends(rows: seq<Event>, a: seq<Op>, b: seq<Op>)
    ensures After(rows, a + b) == After(After(rows, a), b)
    decreases a
  {
    hide Apply;
    if a == [] {
      assert a + b == b;
    } else {
      assert (a + b)[1..] == a[1..] + b && (a + b)[0] == a[0];
      AfterAppends(Apply(rows, a[0]), a[1..], b);
    }
  }

  /** The identifier is not written after its row may have been cleared. */
  predicate NotWrittenAfterClear(id: nat, ops: seq<Op>) {
    forall p, q | 0 <= p < q < |ops| && ops[p].Clear? && ops[q].Write? :: ops[q].event.id != id
  }

  lemma KeptId(rows: seq<Event>, op: Op, id: nat)
    requires id in Ids(rows) && !op.Clear?
    ensures id in Ids(Apply(rows, op))
  {
    var k :| 0 <= k < |rows| && rows[k].id == id;
    assert Apply(rows, op)[k].id == id;
  }

  /** Writing under an identifier that is there fails, so only a clear could make room for
      it to become pending again. */
  lemma {:induction false} GoneUntilCleared(rows: seq<Event>, ops: seq<Op>, id: nat)
    requires Gone(rows, id) && id in Ids(rows) && NotWrittenAfterClear(id, ops)
    ensures Gone(After(rows, ops), id)
    decreases ops
  {
    hide Gone, Apply, Ids;
    if ops != [] {
      assert forall k | 0 <= k < |ops[1..]| :: ops[1..][k] == ops[k + 1];
      if ops[0].Write? && ops[0].event.id == id {
        TakenIdStays(rows, ops[0]);
      } else {
        GoneStays(rows, ops[0], id);
      }
      if ops[0].Clear? {
        GoneForever(Apply(rows, ops[0]), ops[1..], id);
      } else {
        KeptId(rows, ops[0], id);
        GoneUntilCleared(Apply(rows, ops[0]), ops[1..], id);
      }
    }
  }

  lemma TakenIdStays(rows: seq<Event>, op: Op)
    requires op.Write? && op.event.id in Ids(rows)
    ensures Apply(rows, op) == rows
  {
  }

  lemma OutputIsThere(rows: seq<Event>, op: Op, e: Event)
    requires e in Output(rows, op)
    ensures e.id in Ids(Apply(rows, op))
  {
    hide Output, Apply;
    OutputWasPending(rows, op, e);
    var k :| 0 <= k < |rows| && rows[k].id == e.id;
    OutputIsTake(rows, op, e);
    KeptId(rows, op, e.id);
  }

  lemma OutputIsTake(rows: seq<Event>, op: Op, e: Event)
    requires e in Output(rows, op)
    ensures op.Take?
  {
  }

  /** Over any run, an event that one operation hands out is never handed out by a later
      one, unless its identifier is written anew after a clear. */
  lemma HandedOutOnce(rows: seq<Event>, ops: seq<Op>, i: nat, j: nat, e: Event, e': Event)
    requires Distinct(rows) && i < j < |ops|
    requires e in Output(Before(rows, ops, i), ops[i]) && e' in Output(Before(rows, ops, j), ops[j])
    requires NotWrittenAfterClear(e.id, ops[i + 1..j])
    ensures e.id != e'.id
  {
    hide Output, Apply, Distinct, Gone, Ids, NotWrittenAfterClear;
    var at := Before(rows, ops, i);
    DistinctForever(rows, ops[..i]);
    OutputIsGone(at, ops[i], e);
    OutputIsThere(at, ops[i], e);
    GoneUntilCleared(Apply(at, ops[i]), ops[i + 1..j], e.id);
    assert ops[..j] == ops[..i] + ([ops[i]] + ops[i + 1..j]);
    AfterAppends(rows, ops[..i], [ops[i]] + ops[i + 1..j]);
    assert ([ops[i]] + ops[i + 1..j])[1..] == ops[i + 1..j];
    StillGone(Before(rows, ops, j), ops[j], e.id, e');
  }

  lemma StillGone(rows: seq<Event>, op: Op, id: nat, e: Event)
    requires Gone(rows, id) && e in Output(rows, op)
    ensures e.id != id
  {
    hide Output;
    OutputWasPending(rows, op, e);
  }

  /** One poll hands out no event twice. */
  lemma HandedOutDistinct(rows: seq<Event>, op: Op)
    requires Distinct(rows)
    ensures Distinct(Output(rows, op))
  {
    if op.Take? {
      var chosen := Selected(rows, op.session, op.filter);
      SelectedMembers(rows, op.session, op.filter);
      OrderingByTime(chosen);
      PermutationIsDistinct(chosen, ByTime(chosen));
    }
  }

  lemma PermutationIsDistinct(a: seq<Event>, b: seq<Event>)
    requires Distinct(a) && multiset(a) == multiset(b)
    ensures Distinct(b)
  {
    forall i, j | 0 <= i < j < |b| ensures b[i].id != b[j].id {
      assert b[i] in multiset(a) && b[j] in multiset(a);
      var k :| 0 <= k < |a| && a[k] == b[i];
      var m :| 0 <= m < |a| && a[m] == b[j];
      if k == m {
        TwiceInB(b, i, j);
        OnceInDistinct(a, k);
      }
    }
  }

  lemma TwiceInB(b: seq<Event>, i: nat, j: nat)
    requires i < j < |b| && b[i] == b[j]
    ensures multiset(b)[b[i]] >= 2
  {
    assert b == b[..j] + [b[j]] + b[j + 1..];
    assert b[..j][i] == b[i];
  }

  lemma {:induction false} OnceInDistinct(a: seq<Event>, k: nat)
    requires Distinct(a) && k < |a|
    ensures multiset(a)[a[k]] == 1
  {
    assert a == a[..k] + [a[k]] + a[k + 1..];
    assert a[k] !in a[..k] && a[k] !in a[k + 1..];
  }

  // Complementary consumers

  lemma {:induction false} ComplementSplits(rows: seq<Event>, session: nat, p: string)
    ensures multiset(Selected(rows, session, Prefix(p))) + multiset(Selected(rows, session, NotPrefix(p)))
         == multiset(Selected(rows, session, AnyOrigin))
  {
    if rows != [] {
      ComplementSplits(rows[1..], session, p);
    }
  }

  lemma {:induction false} SelectionsAreIndependent(rows: seq<Event>, session: nat, f: Filter, g: Filter, other: nat)
    requires other != session || forall o :: !(Matches(f, o) && Matches(g, o))
    ensures Selected(Restatus(rows, session, f, Processed), other, g) == Selected(rows, other, g)
  {
    if rows != [] {
      SelectionsAreIndependent(rows[1..], session, f, g, other);
      assert Restatus(rows, session, f, Processed)[1..] == Restatus(rows[1..], session, f, Processed);
    }
  }

  lemma {:induction false} NothingSelected(rows: seq<Event>, session: nat, f: Filter)
    requires forall e | e in rows :: !Selects(e, session, f)
    ensures Selected(rows, session, f) == []
  {
    hide Selects;
    if rows != [] {
      assert rows[0] in rows && forall e | e in rows[1..] :: e in rows;
      NothingSelected(rows[1..], session, f);
    }
  }

  predicate Complementary(f: Filter, g: Filter) {
    (f.Prefix? && g == NotPrefix(f.prefix)) || (g.Prefix? && f == NotPrefix(g.prefix))
  }

  lemma NothingLeft(rows: seq<Event>, session: nat, f: Filter, g: Filter)
    requires Complementary(f, g)
    ensures Selected(Restatus(Restatus(rows, session, f, Processed), session, g, Processed), session, AnyOrigin) == []
  {
    var last := Restatus(Restatus(rows, session, f, Processed), session, g, Processed);
    forall e | e in last ensures !Selects(e, session, AnyOrigin) {
      var k :| 0 <= k < |last| && last[k] == e;
      assert Matches(f, rows[k].origin) || Matches(g, rows[k].origin);
    }
    NothingSelected(last, session, AnyOrigin);
  }

  /** Two consumers that split a mailbox by a prefix and its complement, in either
      order, together hand out every pending event of the session exactly once,
      and leave none. */
  lemma ComplementaryPolls(rows: seq<Event>, session: nat, f: Filter, g: Filter)
    requires Complementary(f, g)
    ensures var second := Apply(rows, Take(session, f));
      && Selected(second, session, g) == Selected(rows, session, g)
      && multiset(Selected(rows, session, f)) + multiset(Selected(second, session, g))
        == multiset(Selected(rows, session, AnyOrigin))
      && Selected(Apply(second, Take(session, g)), session, AnyOrigin) == []
  {
    hide Selected, Restatus;
    ComplementSplits(rows, session, if f.Prefix? then f.prefix else g.prefix);
    SelectionsAreIndependent(rows, session, f, g, session);
    NothingLeft(rows, session, f, g);
  }
}
