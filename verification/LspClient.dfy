/** The language-server client: its two tasks over the byte streams, and the table of
    requests that wait for a response. */
module LspClient {
  import opened Wrappers
  import opened Text
  import opened LspFraming

  // The tasks over the streams

  /** Writes each body with its header. */
  method WriterTask(bodies: seq<Body>) returns (out: string)
    ensures out == Frames(bodies)
  {
    hide Frame;
    out := "";
    ghost var rest := bodies;
    for k := 0 to |bodies|
      invariant rest == bodies[k..] && out + Frames(rest) == Frames(bodies)
    {
      var header := FIELD + " " + Numeral(|bodies[k]|) + BREAK + BREAK;
      FrameStep(out, rest, header);
      out := out + header;
      out := out + bodies[k];
      rest := rest[1..];
    }
  }

  lemma FrameStep(out: string, bodies: seq<Body>, header: string)
    requires bodies != [] && header == FIELD + " " + Numeral(|bodies[0]|) + BREAK + BREAK
    ensures out + Frames(bodies) == out + header + bodies[0] + Frames(bodies[1..])
  {
    assert Frame(bodies[0]) == header + bodies[0];
    assert out + (header + bodies[0] + Frames(bodies[1..])) == out + header + bodies[0] + Frames(bodies[1..]);
  }

  class Reader {
    const input: string
    var pos: nat

    constructor (input: string)
      ensures this.input == input && pos == 0
    {
      this.input, pos := input, 0;
    }

    /** A line with its line break; empty at the end of the input. */
    method ReadLine() returns (line: string)
      requires pos <= |input|
      modifies this
      ensures pos == if old(pos) == |input| then old(pos) else LineEnd(input, old(pos))
      ensures pos <= |input| && line == input[old(pos)..pos]
    {
      var end := pos;
      while end < |input| && input[end] != '\n'
        invariant pos <= end <= |input| && Span(NotNewline, input, pos) == Span(NotNewline, input, end)
      {
        end := end + 1;
      }
      if end < |input| {
        end := end + 1;
      }
      line := input[pos..end];
      pos := end;
    }

    /** Reads header lines up to the blank one. */
    method ReadContentLength() returns (length: Option<nat>)
      requires pos <= |input|
      modifies this
      ensures pos <= |input| && old(pos) <= pos
      ensures match ReadHead(input, old(pos), None)
              case Ended => length == None
              case Head(n, next) => length == n && pos == next
    {
      hide Measured, WithoutBreak, LineEnd, Utf8From;
      length := None;
      while true
        invariant old(pos) <= pos <= |input| && ReadHead(input, old(pos), None) == ReadHead(input, pos, length)
        decreases |input| - pos
      {
        var start := pos;
        var line := ReadLine();
        if line == "" || !IsUtf8(line) {
          return None;
        }
        var trimmed := WithoutBreak(line);
        if trimmed == "" {
          return;
        }
        length := Measured(trimmed, length);
      }
    }

    /** The next `n` bytes, if there are as many. */
    method ReadExact(n: nat) returns (body: Option<string>)
      requires pos <= |input|
      modifies this
      ensures pos <= |input|
      ensures if old(pos) + n <= |input| then pos == old(pos) + n && body == Some(input[old(pos)..pos])
        else body == None
    {
      if pos + n <= |input| {
        body := Some(input[pos..pos + n]);
        pos := pos + n;
      } else {
        body := None;
      }
    }
  }

  // Messages and requests

  /** The identifier of a message; a null one counts as none. */
  datatype Id = NoId | Number(n: int) | Other

  datatype Reply = Success(result: string) | Failure(code: int, message: string)

  datatype Diagnostics = Diagnostics(uri: string, items: seq<string>)

  datatype Incoming = Incoming(id: Id, name: Option<string>, reply: Reply, params: Option<Diagnostics>)

  datatype Cause = Responded(reply: Reply) | Died

  /** `completed` records, for every request ever made, what it was completed with. */
  datatype Table = Table(nextId: int, pending: map<int, string>, diagnostics: map<string, seq<string>>,
                         completed: map<int, seq<Cause>>)

  datatype Step = Issue(name: string) | Arrive(message: Incoming) | Exit

  predicate IsResponse(m: Incoming, id: int) { m.id == Number(id) && m.name == None }

  function Complete(completed: map<int, seq<Cause>>, id: int, cause: Cause): map<int, seq<Cause>> {
    if id in completed then completed[id := completed[id] + [cause]] else completed
  }

  function CompleteAll(completed: map<int, seq<Cause>>, ids: set<int>): map<int, seq<Cause>> {
    map id | id in completed :: if id in ids then completed[id] + [Died] else completed[id]
  }

  function Dispatched(t: Table, m: Incoming): Table {
    if m.id.Number? && m.name == None then
      if m.id.n in t.pending then
        t.(pending := t.pending - {m.id.n}, completed := Complete(t.completed, m.id.n, Responded(m.reply)))
      else t
    else if m.name == Some("textDocument/publishDiagnostics") && m.params.Some? then
      t.(diagnostics := t.diagnostics[m.params.value.uri := m.params.value.items])
    else t
  }

  function Do(t: Table, step: Step): Table {
    match step
    case Issue(name) =>
      t.(nextId := t.nextId + 1, pending := t.pending[t.nextId := name], completed := t.completed[t.nextId := []])
    case Arrive(m) => Dispatched(t, m)
    case Exit => t.(pending := map[], completed := CompleteAll(t.completed, t.pending.Keys))
  }

  function Run(t: Table, steps: seq<Step>): Table
    decreases steps
  {
    if steps == [] then t else Run(Do(t, steps[0]), steps[1..])
  }

  /** Identifiers are issued from 1 on; a request is either waiting and not completed,
      or completed exactly once. */
  ghost predicate Sound(t: Table) {
    && t.nextId >= 1 && (forall id :: id in t.completed <==> 1 <= id < t.nextId)
    && (forall id | id in t.pending :: id in t.completed && t.completed[id] == [])
    && (forall id | id in t.completed && id !in t.pending :: |t.completed[id]| == 1)
  }

  lemma StepKeepsSound(t: Table, step: Step)
    requires Sound(t)
    ensures Sound(Do(t, step))
  {
  }

  const FIRST := Table(1, map[], map[], map[])

  /** Over every interleaving of requests, responses and the reader's exit, each request
      made is still waiting or has been completed exactly once. */
  lemma {:induction false} RunKeepsSound(t: Table, steps: seq<Step>)
    requires Sound(t)
    ensures Sound(Run(t, steps))
    decreases steps
  {
    hide Sound, Do;
    if steps != [] {
      StepKeepsSound(t, steps[0]);
      RunKeepsSound(Do(t, steps[0]), steps[1..]);
    }
  }

  /** What completes a waiting request: the first response with its identifier, or the
      reader's exit if that comes before. */
  function FirstCause(steps: seq<Step>, id: int): seq<Cause> {
    if steps == [] then []
    else if steps[0].Exit? then [Died]
    else if steps[0].Arrive? && IsResponse(steps[0].message, id) then [Responded(steps[0].message.reply)]
    else FirstCause(steps[1..], id)
  }

  lemma StepCompletes(t: Table, step: Step, id: int)
    requires Sound(t) && id in t.pending
    ensures var t' := Do(t, step);
      if step.Exit? then id !in t'.pending && id in t'.completed && t'.completed[id] == [Died]
      else if step.Arrive? && IsResponse(step.message, id) then
        id !in t'.pending && id in t'.completed && t'.completed[id] == [Responded(step.message.reply)]
      else id in t'.pending
  {
  }

  lemma {:induction false} CompletedStays(t: Table, steps: seq<Step>, id: int)
    requires Sound(t) && id in t.completed && id !in t.pending
    ensures id in Run(t, steps).completed && id !in Run(t, steps).pending
      && Run(t, steps).completed[id] == t.completed[id]
    decreases steps
  {
    hide Sound;
    if steps != [] {
      StepKeepsSound(t, steps[0]);
      CompletedIsLeft(t, steps[0], id);
      CompletedStays(Do(t, steps[0]), steps[1..], id);
    }
  }

  lemma CompletedIsLeft(t: Table, step: Step, id: int)
    requires Sound(t) && id in t.completed && id !in t.pending
    ensures id in Do(t, step).completed && id !in Do(t, step).pending && Do(t, step).completed[id] == t.completed[id]
  {
  }

  /** A request is completed by the first response with its own identifier, or by the
      reader's exit, whichever comes first, and by nothing else, however the run goes on. */
  lemma {:induction false} CompletedByItsOwnResponse(t: Table, steps: seq<Step>, id: int)
    requires Sound(t) && id in t.pending
    ensures id in Run(t, steps).completed && Run(t, steps).completed[id] == FirstCause(steps, id)
    ensures id in Run(t, steps).pending <==> FirstCause(steps, id) == []
    decreases steps
  {
    hide Do, IsResponse;
    if steps == [] {
    } else {
      StepKeepsSound(t, steps[0]);
      StepCompletes(t, steps[0], id);
      if id in Do(t, steps[0]).pending {
        CompletedByItsOwnResponse(Do(t, steps[0]), steps[1..], id);
      } else {
        CompletedStays(Do(t, steps[0]), steps[1..], id);
      }
    }
  }

  /** The messages that the bodies hold; those that are not JSON are skipped. */
  function Arrivals(bodies: seq<string>, decode: string -> Option<Incoming>): seq<Step> {
    if bodies == [] then []
    else
      var m := decode(bodies[0]);
      (if m.Some? then [Arrive(m.value)] else []) + Arrivals(bodies[1..], decode)
  }

  lemma SomeoneWaits(ids: set<int>)
    ensures ids != {} ==> exists id :: id in ids
  {
    assert (forall id :: id !in ids) ==> ids == {};
  }

  class Client {
    var nextId: int
    var pending: map<int, string>
    var diagnostics: map<string, seq<string>>
    ghost var completed: map<int, seq<Cause>>

    ghost function State(): Table
      reads this
    {
      Table(nextId, pending, diagnostics, completed)
    }

    constructor ()
      ensures State() == FIRST && Sound(State())
    {
      nextId, pending, diagnostics, completed := 1, map[], map[], map[];
    }

    /** Registers a request before it is sent. */
    method Request(name: string) returns (id: int)
      requires Sound(State())
      modifies this
      ensures State() == Do(old(State()), Issue(name)) && Sound(State())
      ensures id == old(nextId) && id !in old(completed)
    {
      StepKeepsSound(State(), Issue(name));
      id := nextId;
      nextId := nextId + 1;
      pending := pending[id := name];
      completed := completed[id := []];
    }

    method DispatchMessage(m: Incoming)
      modifies this
      ensures State() == Do(old(State()), Arrive(m))
    {
      var hasId := m.id != NoId;
      if hasId && m.name == None {
        match m.id
        case Number(id) =>
          if id in pending {
            pending := pending - {id};
            completed := Complete(completed, id, Responded(m.reply));
          }
        case _ =>
      } else if m.name.Some? {
        if m.name.value == "textDocument/publishDiagnostics" {
          if m.params.Some? {
            diagnostics := diagnostics[m.params.value.uri := m.params.value.items];
          }
        }
      }
    }

    /** Fails everything that still waits. */
    method Drain()
      modifies this
      ensures State() == Do(old(State()), Exit)
    {
      ghost var before := completed;
      var waiting := pending.Keys;
      while waiting != {}
        invariant nextId == old(nextId) && diagnostics == old(diagnostics)
        invariant waiting == pending.Keys && waiting <= old(pending).Keys
        invariant completed == CompleteAll(before, old(pending).Keys - waiting)
        decreases waiting
      {
        SomeoneWaits(waiting);
        var id :| id in waiting;
        assert old(pending).Keys - (waiting - {id}) == old(pending).Keys - waiting + {id};
        pending := pending - {id};
        waiting := waiting - {id};
        completed := Complete(completed, id, Died);
      }
      assert old(pending).Keys - waiting == old(pending).Keys;
    }

    /** Reads until the stream ends, dispatching what decodes; then drains. */
    method ReaderTask(input: string, decode: string -> Option<Incoming>)
      requires Sound(State())
      modifies this
      ensures State() == Run(old(State()), Arrivals(Bodies(input, 0), decode) + [Exit]) && Sound(State())
    {
      hide Do, Sound, ReadHead;
      var reader := new Reader(input);
      ghost var all := Arrivals(Bodies(input, 0), decode) + [Exit];
      while true
        invariant reader.input == input && reader.pos <= |input| && Sound(State())
        invariant Run(State(), Arrivals(Bodies(input, reader.pos), decode) + [Exit]) == Run(old(State()), all)
        decreases |input| - reader.pos
      {
        ghost var rest := Bodies(input, reader.pos);
        var length := reader.ReadContentLength();
        if length == None {
          break;
        }
        var body := reader.ReadExact(length.value);
        if body == None {
          break;
        }
        var m := decode(body.value);
        ArrivalsStep(rest, decode);
        if m.Some? {
          StepKeepsSound(State(), Arrive(m.value));
          DispatchMessage(m.value);
        }
      }
      StepKeepsSound(State(), Exit);
      Drain();
    }
  }

  lemma ArrivalsStep(bodies: seq<string>, decode: string -> Option<Incoming>)
    requires bodies != []
    ensures var m := decode(bodies[0]);
      var rest := Arrivals(bodies[1..], decode) + [Exit];
      Arrivals(bodies, decode) + [Exit] == if m.Some? then [Arrive(m.value)] + rest else rest
  {
  }

  lemma {:induction false} ExitIsACause(steps: seq<Step>, id: int)
    ensures FirstCause(steps + [Exit], id) != []
  {
    hide IsResponse;
    if steps == [] {
      assert steps + [Exit] == [Exit];
    } else {
      assert (steps + [Exit])[1..] == steps[1..] + [Exit];
      ExitIsACause(steps[1..], id);
    }
  }

  /** After the reader has run to the end of any input, no request that waited before
      still waits: each was completed once, with the first response to it in the
      input, or because the server died. */
  lemma NobodyIsLeftWaiting(t: Table, input: string, decode: string -> Option<Incoming>, id: int)
    requires Sound(t) && id in t.pending
    ensures var steps := Arrivals(Bodies(input, 0), decode) + [Exit];
      var after := Run(t, steps);
      id !in after.pending && id in after.completed && |after.completed[id]| == 1
          && after.completed[id] == FirstCause(steps, id)
  {
    hide Run, FirstCause, Arrivals, Bodies;
    var steps := Arrivals(Bodies(input, 0), decode) + [Exit];
    CompletedByItsOwnResponse(t, steps, id);
    RunKeepsSound(t, steps);
    ExitIsACause(Arrivals(Bodies(input, 0), decode), id);
  }
}
