/** What the Prolog term reader computes: the term that starts at a position and
    the position after it. An error has a position too, because error recovery
    resumes from there. */
module PrologSyntax {
  import opened Wrappers
  import opened Text
  import opened Terms

  datatype Parsed<+T> = Ok(value: T, pos: nat) | Err(pos: nat) {
    function ToOption(): Option<T> {
      match this
      case Ok(v, _) => Some(v)
      case Err(_) => None
    }
  }

  /** Puts what is already collected in front of the result of reading on. */
  function Prepend<T>(head: seq<T>, r: Parsed<seq<T>>): Parsed<seq<T>> {
    match r
    case Ok(v, pos) => Ok(head + v, pos)
    case Err(pos) => Err(pos)
  }

  lemma PrependNothing<T>(r: Parsed<seq<T>>)
    ensures Prepend([], r) == r
  {
    assert r.Ok? ==> [] + r.value == r.value;
  }

  lemma PrependTwice<T>(a: seq<T>, b: seq<T>, r: Parsed<seq<T>>)
    ensures Prepend(a, Prepend(b, r)) == Prepend(a + b, r)
  {
    assert r.Ok? ==> a + (b + r.value) == a + b + r.value;
  }

  /** An unknown escape in a quoted atom keeps its backslash. */
  function QuotedEscape(c: char): string {
    if c == 'n' then "\n" else if c == 't' then "\t" else if c == '\\' || c == '\'' then [c] else ['\\', c]
  }

  /** The text of a quoted atom, from after the opening quote. */
  function QuotedBody(s: string, i: nat): (r: Parsed<string>)
    requires i <= |s|
    ensures i <= r.pos <= |s| && (r.Ok? ==> i < r.pos)
    decreases |s| - i
  {
    if i == |s| then Err(i)
    else if s[i] == '\'' then
      if Next(s, i + 1, '\'') then Prepend("'", QuotedBody(s, i + 2)) else Ok("", i + 1)
    else if s[i] == '\\' then
      if i + 1 == |s| then Err(i + 1) else Prepend(QuotedEscape(s[i + 1]), QuotedBody(s, i + 2))
    else Prepend([s[i]], QuotedBody(s, i + 1))
  }

  /** An unknown escape in a string drops its backslash. */
  function StringEscape(c: char): char {
    if c == 'n' then '\n' else if c == 't' then '\t' else c
  }

  /** The text of a double-quoted string, from after the opening quote. */
  function StringBody(s: string, i: nat): (r: Parsed<string>)
    requires i <= |s|
    ensures i <= r.pos <= |s| && (r.Ok? ==> i < r.pos)
    decreases |s| - i
  {
    if i == |s| then Err(i)
    else if s[i] == '"' then Ok("", i + 1)
    else if s[i] == '\\' then
      if i + 1 == |s| then Err(i + 1) else Prepend([StringEscape(s[i + 1])], StringBody(s, i + 2))
    else Prepend([s[i]], StringBody(s, i + 1))
  }

  /** Position after an optional minus sign and digits. */
  function IntegerEnd(s: string, i: nat): (j: nat)
    requires i <= |s|
    ensures i <= j <= |s|
  {
    Span(Digit, s, if Next(s, i, '-') then i + 1 else i)
  }

  /** A float needs a digit on one side of its point. */
  predicate IsFloatText(s: string) { exists k | 0 <= k < |s| :: IsDigit(s[k]) }

  function ParseNumber(s: string, i: nat): (r: Parsed<Term>)
    requires i < |s| && (IsDigit(s[i]) || s[i] == '-')
    ensures i < r.pos <= |s|
  {
    var j := IntegerEnd(s, i);
    if Next(s, j, '.') then
      var m := Span(Digit, s, j + 1);
      if IsFloatText(s[i..m]) then Ok(Float(s[i..m]), m) else Err(m)
    else if IsIntegerText(s[i..j]) && IsI64(IntegerValue(s[i..j])) then
      Ok(Integer(IntegerValue(s[i..j])), j)
    else Err(j)
  }

  /** How a term starts: one that is complete (or wrong) without an argument
      list, or a name that an argument list may follow. */
  datatype Head = Leaf(term: Parsed<Term>) | Name(name: string, pos: nat)

  function ParseHead(s: string, i: nat): (h: Head)
    requires i <= |s|
    ensures h.Leaf? ==> i <= h.term.pos <= |s| && (h.term.Ok? ==> i < h.term.pos)
    ensures h.Name? ==> i < h.pos <= |s|
  {
    if i == |s| then Leaf(Err(i))
    else if s[i] == '\'' then
      match QuotedBody(s, i + 1)
      case Err(pos) => Leaf(Err(pos))
      case Ok(name, pos) => Name(name, pos)
    else if s[i] == '"' then
      match StringBody(s, i + 1)
      case Err(pos) => Leaf(Err(pos))
      case Ok(text, pos) => Leaf(Ok(Str(text), pos))
    else if s[i] == '[' then
      var j := SkipSpace(s, i + 1);
      if Next(s, j, ']') then Leaf(Ok(Atom("[]"), j + 1)) else Leaf(Err(j))
    else if s[i] == '-' || IsDigit(s[i]) then Leaf(ParseNumber(s, i))
    else if IsUpper(s[i]) || s[i] == '_' then
      var j := Span(Word, s, i);
      Leaf(Ok(Variable(s[i..j]), j))
    else if IsLower(s[i]) then
      var j := Span(Word, s, i);
      Name(s[i..j], j)
    else Leaf(Err(i))
  }

  function ParseTerm(s: string, i: nat): (r: Parsed<Term>)
    requires i <= |s|
    ensures i <= r.pos <= |s| && (r.Ok? ==> i < r.pos)
    decreases |s| - i, 2
  {
    match ParseHead(s, SkipSpace(s, i))
    case Leaf(term) => term
    case Name(name, pos) => MaybeCompound(name, s, pos)
  }

  /** An argument list after a name makes it a compound. */
  function MaybeCompound(name: string, s: string, i: nat): (r: Parsed<Term>)
    requires i <= |s|
    ensures i <= r.pos <= |s|
    decreases |s| - i, 3
  {
    var j := SkipSpace(s, i);
    if Next(s, j, '(') then
      match ParseArgs(s, j + 1)
      case Err(pos) => Err(pos)
      case Ok(args, pos) => Ok(Compound(name, args), pos)
    else Ok(Atom(name), j)
  }

  function ParseArgs(s: string, i: nat): (r: Parsed<seq<Term>>)
    requires i <= |s|
    ensures i <= r.pos <= |s|
    decreases |s| - i, 4
  {
    var j := SkipSpace(s, i);
    if Next(s, j, ')') then Ok([], j + 1) else ParseArgList(s, j)
  }

  /** One or more terms separated by commas, up to the closing parenthesis. */
  function ParseArgList(s: string, i: nat): (r: Parsed<seq<Term>>)
    requires i <= |s|
    ensures i <= r.pos <= |s|
    decreases |s| - i, 3
  {
    match ParseTerm(s, i)
    case Err(pos) => Err(pos)
    case Ok(t, pos) =>
      var j := SkipSpace(s, pos);
      if Next(s, j, ',') then Prepend([t], ParseArgList(s, j + 1))
      else if Next(s, j, ')') then Ok([t], j + 1)
      else Err(j)
  }

  /** The reader's entry point: white space around the term does not count. */
  function ParseText(s: string): Parsed<Term> { ParseTerm(Trim(s), 0) }
}
