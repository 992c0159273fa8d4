/** Header-framed messages: what the writer sends and what the reader makes of it. */
module LspFraming {
  import opened Wrappers
  import opened Text

  const USIZE_LIMIT := 0x1_0000_0000_0000_0000

  /** A message body, as bytes; no longer than memory allows. */
  type Body = b: string | |b| < USIZE_LIMIT

  // Reading

  /** Position after the line that starts at `i`: past its newline, or the end. */
  function LineEnd(s: string, i: nat): (j: nat)
    requires i < |s|
    ensures i < j <= |s|
  {
    var k := Span(NotNewline, s, i);
    if k < |s| then k + 1 else k
  }

  predicate IsLineBreak(c: char) { c == '\r' || c == '\n' }

  /** The line without the line breaks at its end. */
  function WithoutBreak(line: string): string {
    if line != "" && IsLineBreak(line[|line| - 1]) then WithoutBreak(line[..|line| - 1]) else line
  }

  // Bytes as text

  predicate InRange(c: char, low: int, high: int) { low <= c as int <= high }

  predicate Continues(s: string, i: nat, low: int, high: int) { i < |s| && InRange(s[i], low, high) }

  /** The bytes from `i` on are UTF-8 (RFC 3629, section 4). */
  predicate Utf8From(s: string, i: nat)
    requires i <= |s|
    decreases |s| - i
  {
    if i == |s| then true
    else if InRange(s[i], 0, 0x7F) then Utf8From(s, i + 1)
    else if InRange(s[i], 0xC2, 0xDF) then Continues(s, i + 1, 0x80, 0xBF) && Utf8From(s, i + 2)
    else if InRange(s[i], 0xE0, 0xEF) then
      && Continues(s, i + 1, if s[i] as int == 0xE0 then 0xA0 else 0x80, if s[i] as int == 0xED then 0x9F else 0xBF)
      && Continues(s, i + 2, 0x80, 0xBF) && Utf8From(s, i + 3)
    else if InRange(s[i], 0xF0, 0xF4) then
      && Continues(s, i + 1, if s[i] as int == 0xF0 then 0x90 else 0x80, if s[i] as int == 0xF4 then 0x8F else 0xBF)
      && Continues(s, i + 2, 0x80, 0xBF) && Continues(s, i + 3, 0x80, 0xBF) && Utf8From(s, i + 4)
    else false
  }

  predicate IsUtf8(s: string) { Utf8From(s, 0) }

  /** The bytes of one white-space character. */
  predicate IsWhite(s: string) {
    if |s| == 1 then IsTrimmed(s[0])
    else if |s| == 2 then s[0] as int == 0xC2 && s[1] as int in {0x85, 0xA0}
    else if |s| == 3 then
      var second, third := s[1] as int, s[2] as int;
      || (s[0] as int == 0xE1 && second == 0x9A && third == 0x80)
      || (s[0] as int == 0xE2 && second == 0x80 && (0x80 <= third <= 0x8A || third in {0xA8, 0xA9, 0xAF}))
      || (s[0] as int == 0xE2 && second == 0x81 && third == 0x9F)
      || (s[0] as int == 0xE3 && second == 0x80 && third == 0x80)
    else false
  }

  function FieldStart(s: string): string {
    if |s| >= 1 && IsWhite(s[..1]) then FieldStart(s[1..])
    else if |s| >= 2 && IsWhite(s[..2]) then FieldStart(s[2..])
    else if |s| >= 3 && IsWhite(s[..3]) then FieldStart(s[3..])
    else s
  }

  function FieldEnd(s: string): string {
    var n := |s|;
    if n >= 1 && IsWhite(s[n - 1..]) then FieldEnd(s[..n - 1])
    else if n >= 2 && IsWhite(s[n - 2..]) then FieldEnd(s[..n - 2])
    else if n >= 3 && IsWhite(s[n - 3..]) then FieldEnd(s[..n - 3])
    else s
  }

  // Header lines

  /** An unsigned machine integer; a plus sign is allowed. */
  function ParseLength(s: string): Option<nat> {
    var digits := if Next(s, 0, '+') then s[1..] else s;
    if digits != "" && All(Digit, digits) && NumeralValue(digits) < USIZE_LIMIT then Some(NumeralValue(digits))
      else None
  }

  const FIELD := "Content-Length:"

  /** The length known after one more header line: the last that parses counts. */
  function Measured(line: string, known: Option<nat>): Option<nat> {
    if FIELD <= line then
      var length := ParseLength(FieldStart(FieldEnd(line[|FIELD|..])));
      if length.Some? then length else known
    else known
  }

  /** The end of the header part, with the length if one was given; or the input ended
      or was not UTF-8 text. */
  datatype Head = Head(length: Option<nat>, next: nat) | Ended

  function ReadHead(s: string, i: nat, known: Option<nat>): (h: Head)
    requires i <= |s|
    ensures h.Head? ==> i < h.next <= |s|
    decreases |s| - i
  {
    if i == |s| then Ended
    else
      var end := LineEnd(s, i);
      if !IsUtf8(s[i..end]) then Ended
      else
        var line := WithoutBreak(s[i..end]);
        if line == "" then Head(known, end) else ReadHead(s, end, Measured(line, known))
  }

  /** All bodies read from position `i` on. Reading stops at the end, at a header part
      without a length, or at a body that is cut off. */
  function Bodies(s: string, i: nat): seq<string>
    requires i <= |s|
    decreases |s| - i
  {
    match ReadHead(s, i, None)
    case Ended => []
    case Head(None, _) => []
    case Head(Some(n), next) => if next + n <= |s| then [s[next..next + n]] + Bodies(s, next + n) else []
  }

  // Writing

  const BREAK := "\r\n"

  function Frame(body: Body): string { FIELD + " " + Numeral(|body|) + BREAK + BREAK + body }

  function Frames(bodies: seq<Body>): string {
    if bodies == [] then "" else Frame(bodies[0]) + Frames(bodies[1..])
  }

  /** A message as the peer may write it, with other header lines around the length. */
  datatype Message = Message(before: seq<string>, body: Body, after: seq<string>)

  function Lines(lines: seq<string>): string {
    if lines == [] then "" else lines[0] + BREAK + Lines(lines[1..])
  }

  function LengthLine(n: nat): string { FIELD + " " + Numeral(n) }

  function Encoded(m: Message): string {
    Lines(m.before + [LengthLine(|m.body|)] + m.after) + BREAK + m.body
  }

  function EncodedAll(ms: seq<Message>): string {
    if ms == [] then "" else Encoded(ms[0]) + EncodedAll(ms[1..])
  }

  /** A header line: text without line breaks, and not empty. */
  predicate IsHeaderLine(line: string) {
    line != "" && IsUtf8(line) && forall k | 0 <= k < |line| :: !IsLineBreak(line[k])
  }

  /** A header line that is not about the length. */
  predicate IsOtherLine(line: string) { IsHeaderLine(line) && !(FIELD <= line) }

  predicate WellFormed(m: Message) {
    (forall k | 0 <= k < |m.before| :: IsOtherLine(m.before[k]))
        && (forall k | 0 <= k < |m.after| :: IsOtherLine(m.after[k]))
  }

  function BodiesOf(ms: seq<Message>): seq<Body> { seq(|ms|, k requires 0 <= k < |ms| => ms[k].body) }

  // Round trip

  lemma LineIsFound(s: string, i: nat, line: string)
    requires At(s, i, line + BREAK) && forall k | 0 <= k < |line| :: !IsLineBreak(line[k])
    ensures i < |s| && LineEnd(s, i) == i + |line| + 2 && s[i..LineEnd(s, i)] == line + BREAK
  {
    AtSplits(s, i, line, BREAK);
    var w := line + "\r";
    assert line + BREAK == w + "\n";
    AtSplits(s, i, w, "\n");
    AtFirst(s, i + |w|, "\n");
    SpanOfText(NotNewline, s, i, w);
  }

  lemma TrimsOne(line: string, c: char)
    requires IsLineBreak(c)
    ensures WithoutBreak(line + [c]) == WithoutBreak(line)
  {
    assert (line + [c])[..|line|] == line;
  }

  lemma BreaksAreTrimmed(line: string)
    requires forall k | 0 <= k < |line| :: !IsLineBreak(line[k])
    ensures WithoutBreak(line + BREAK) == line
  {
    assert line + BREAK == (line + ['\r']) + ['\n'];
    TrimsOne(line + ['\r'], '\n');
    TrimsOne(line, '\r');
  }

  lemma {:induction false} Utf8Appends(s: string, i: nat)
    requires i <= |s| && Utf8From(s, i)
    ensures Utf8From(s + BREAK, i)
    decreases |s| - i
  {
    var t := s + BREAK;
    assert forall k | 0 <= k < |s| :: t[k] == s[k];
    if i == |s| {
      assert t[i] == '\r' && t[i + 1] == '\n';
    } else if InRange(s[i], 0, 0x7F) {
      Utf8Appends(s, i + 1);
    } else if InRange(s[i], 0xC2, 0xDF) {
      Utf8Appends(s, i + 2);
    } else if InRange(s[i], 0xE0, 0xEF) {
      Utf8Appends(s, i + 3);
    } else {
      Utf8Appends(s, i + 4);
    }
  }

  lemma {:induction false} AsciiIsUtf8(s: string, i: nat)
    requires i <= |s| && forall k | 0 <= k < |s| :: InRange(s[k], 0, 0x7F)
    ensures Utf8From(s, i)
    decreases |s| - i
  {
    if i < |s| {
      AsciiIsUtf8(s, i + 1);
    }
  }

  lemma HeadStep(s: string, i: nat, line: string, known: Option<nat>)
    requires At(s, i, line + BREAK) && IsHeaderLine(line)
    ensures i + |line| + 2 <= |s| && ReadHead(s, i, known) == ReadHead(s, i + |line| + 2, Measured(line, known))
  {
    hide Measured, LineEnd, WithoutBreak, Utf8From, At;
    LineIsFound(s, i, line);
    BreaksAreTrimmed(line);
    Utf8Appends(line, 0);
  }

  lemma HeadEnds(s: string, i: nat, known: Option<nat>)
    requires At(s, i, BREAK)
    ensures i + 2 <= |s| && ReadHead(s, i, known) == Head(known, i + 2)
  {
    hide LineEnd, WithoutBreak;
    assert "" + BREAK == BREAK;
    LineIsFound(s, i, "");
    BreaksAreTrimmed("");
  }

  lemma {:induction false} OthersAreSkipped(s: string, i: nat, lines: seq<string>, known: Option<nat>)
    requires At(s, i, Lines(lines)) && forall k | 0 <= k < |lines| :: IsOtherLine(lines[k])
    ensures i + |Lines(lines)| <= |s| && ReadHead(s, i, known) == ReadHead(s, i + |Lines(lines)|, known)
    decreases lines
  {
    hide ReadHead, IsHeaderLine;
    if lines != [] {
      AtSplits(s, i, lines[0] + BREAK, Lines(lines[1..]));
      HeadStep(s, i, lines[0], known);
      OthersAreSkipped(s, i + |lines[0]| + 2, lines[1..], known);
    }
  }

  lemma {:induction false} LinesAppend(a: seq<string>, b: seq<string>)
    ensures Lines(a + b) == Lines(a) + Lines(b)
  {
    if a == [] {
      assert a + b == b;
    } else {
      assert (a + b)[1..] == a[1..] + b;
      LinesAppend(a[1..], b);
    }
  }

  lemma OneLine(line: string)
    ensures Lines([line]) == line + BREAK
  {
    assert Lines([line]) == line + BREAK + Lines([]);
  }

  lemma {:induction false} DigitsAreNotTrimmed(n: nat)
    ensures FieldStart(FieldEnd(" " + Numeral(n))) == Numeral(n)
  {
    hide Numeral;
    var digits := Numeral(n);
    var s := " " + digits;
    assert In(Digit, digits[|digits| - 1]) && s[|s| - 1] == digits[|digits| - 1];
    assert FieldEnd(s) == s;
    assert In(Digit, digits[0]) && s[1..] == digits && s[..1] == " ";
    assert digits[..1][0] == digits[0];
    assert FieldStart(digits) == digits;
  }

  lemma LengthIsMeasured(n: nat, known: Option<nat>)
    requires n < USIZE_LIMIT
    ensures IsHeaderLine(LengthLine(n)) && Measured(LengthLine(n), known) == Some(n)
  {
    hide FieldStart, FieldEnd, NumeralValue, Numeral, Utf8From;
    var line := LengthLine(n);
    assert line == FIELD + (" " + Numeral(n));
    assert line[|FIELD|..] == " " + Numeral(n);
    DigitsAreNotTrimmed(n);
    NumeralRoundTrip(n);
    assert In(Digit, Numeral(n)[0]);
    forall k | 0 <= k < |line| ensures InRange(line[k], 0, 0x7F) && !IsLineBreak(line[k]) {
      FieldIsPlain();
      if k > |FIELD| {
        assert line[k] == Numeral(n)[k - |FIELD| - 1] && In(Digit, Numeral(n)[k - |FIELD| - 1]);
      }
    }
    AsciiIsUtf8(line, 0);
  }

  lemma FieldIsPlain()
    ensures forall k | 0 <= k < |FIELD| :: InRange(FIELD[k], 0, 0x7F) && !IsLineBreak(FIELD[k])
  {
  }

  lemma HeadOfMessage(s: string, i: nat, m: Message)
    requires WellFormed(m) && At(s, i, Lines(m.before + [LengthLine(|m.body|)] + m.after) + BREAK)
    ensures i <= |s|
    ensures ReadHead(s, i, None) == Head(Some(|m.body|), i + |Lines(m.before + [LengthLine(|m.body|)] + m.after)| + 2)
  {
    hide ReadHead, IsHeaderLine, IsOtherLine, Measured, LengthLine, At, Numeral, Lines;
    var a, b, c := Lines(m.before), LengthLine(|m.body|) + BREAK, Lines(m.after);
    LinesAppend(m.before + [LengthLine(|m.body|)], m.after);
    LinesAppend(m.before, [LengthLine(|m.body|)]);
    OneLine(LengthLine(|m.body|));
    AtSplits(s, i, a + b + c, BREAK);
    AtSplits(s, i, a + b, c);
    AtSplits(s, i, a, b);
    OthersAreSkipped(s, i, m.before, None);
    LengthIsMeasured(|m.body|, None);
    HeadStep(s, i + |a|, LengthLine(|m.body|), None);
    OthersAreSkipped(s, i + |a| + |b|, m.after, Some(|m.body|));
    HeadEnds(s, i + |a| + |b| + |c|, Some(|m.body|));
  }

  lemma BodyOfMessage(s: string, i: nat, m: Message)
    requires WellFormed(m) && At(s, i, Encoded(m))
    ensures i + |Encoded(m)| <= |s| && Bodies(s, i) == [m.body] + Bodies(s, i + |Encoded(m)|)
  {
    hide ReadHead, Lines, LengthLine, WellFormed;
    var head := Lines(m.before + [LengthLine(|m.body|)] + m.after) + BREAK;
    AtSplits(s, i, head, m.body);
    HeadOfMessage(s, i, m);
  }

  lemma BodiesOfStep(ms: seq<Message>)
    ensures BodiesOf(ms) == if ms == [] then [] else [ms[0].body] + BodiesOf(ms[1..])
  {
  }

  lemma NothingToRead(s: string)
    ensures ReadHead(s, |s|, None) == Ended
  {
  }

  lemma {:induction false} StreamReads(s: string, i: nat, ms: seq<Message>)
    requires At(s, i, EncodedAll(ms)) && i + |EncodedAll(ms)| == |s| && forall k | 0 <= k < |ms| :: WellFormed(ms[k])
    ensures i <= |s| && Bodies(s, i) == BodiesOf(ms)
    decreases ms
  {
    hide Encoded, WellFormed, ReadHead, At, BodiesOf;
    BodiesOfStep(ms);
    if ms == [] {
      assert ReadHead(s, i, None) == Ended by { NothingToRead(s); }
    } else {
      AtSplits(s, i, Encoded(ms[0]), EncodedAll(ms[1..]));
      BodyOfMessage(s, i, ms[0]);
      StreamReads(s, i + |Encoded(ms[0])|, ms[1..]);
    }
  }

  /** Whatever header lines the peer adds, the bodies it sent are read, byte for byte
      and in order, and nothing else is. */
  lemma MessagesReadBack(ms: seq<Message>)
    requires forall k | 0 <= k < |ms| :: WellFormed(ms[k])
    ensures Bodies(EncodedAll(ms), 0) == BodiesOf(ms)
  {
    hide EncodedAll, WellFormed, Bodies;
    StreamReads(EncodedAll(ms), 0, ms);
  }

  /** In particular the writer's own framing reads back. */
  lemma {:induction false} FramesReadBack(bodies: seq<Body>)
    ensures Bodies(Frames(bodies), 0) == bodies
  {
    hide Bodies, EncodedAll;
    var ms := seq(|bodies|, k requires 0 <= k < |bodies| => Message([], bodies[k], []));
    FramesAreMessages(bodies);
    MessagesReadBack(ms);
  }

  lemma {:induction false} FramesAreMessages(bodies: seq<Body>)
    ensures Frames(bodies) == EncodedAll(seq(|bodies|, k requires 0 <= k < |bodies| => Message([], bodies[k], [])))
  {
    hide Frame, Encoded;
    if bodies != [] {
      var ms := seq(|bodies|, k requires 0 <= k < |bodies| => Message([], bodies[k], []));
      assert ms[1..] == seq(|bodies[1..]|, k requires 0 <= k < |bodies[1..]| => Message([], bodies[1..][k], []));
      FrameIsMessage(bodies[0]);
      FramesAreMessages(bodies[1..]);
    }
  }

  lemma FrameIsMessage(body: Body)
    ensures Frame(body) == Encoded(Message([], body, []))
  {
    var line := LengthLine(|body|);
    assert [] + [line] + [] == [line];
    OneLine(line);
  }
}
