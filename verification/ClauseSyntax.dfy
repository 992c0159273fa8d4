/** Prolog clauses: what the rule reader computes, and the clause printer. */
module ClauseSyntax {
  import opened Wrappers
  import opened Text
  import opened Terms
  import opened PrologSyntax

  datatype BodyGoal = Positive(term: Term) | Negative(term: Term)

  datatype Rule = Rule(head: Term, body: seq<BodyGoal>)

  // Reading

  function SkipSpaceAndComments(s: string, i: nat): (j: nat)
    requires i <= |s|
    ensures i <= j <= |s|
    ensures j < |s| ==> !IsSpace(s[j]) && s[j] != '%'
    decreases |s| - i
  {
    var j := SkipSpace(s, i);
    if Next(s, j, '%') then
      assert Span(NotNewline, s, j) > j;
      SkipSpaceAndComments(s, Span(NotNewline, s, j))
    else j
  }

  /** A goal's term, possibly in parentheses; the closing one may be missing. */
  function ParseGoalTerm(s: string, i: nat): (r: Parsed<Term>)
    requires i <= |s|
    ensures i <= r.pos <= |s| && (r.Ok? ==> i < r.pos)
  {
    var j := SkipSpace(s, i);
    if Next(s, j, '(') then
      match ParseTerm(s, j + 1)
      case Err(pos) => Err(pos)
      case Ok(t, pos) =>
        var k := SkipSpace(s, pos);
        Ok(t, if Next(s, k, ')') then k + 1 else k)
    else ParseTerm(s, j)
  }

  /** `not/1` is negation as failure, like `\+`. */
  function ClassifyGoal(t: Term): BodyGoal {
    if t.Compound? && t.functor == "not" && |t.args| == 1 then Negative(t.args[0]) else Positive(t)
  }

  function ParseGoal(s: string, i: nat): (r: Parsed<BodyGoal>)
    requires i <= |s|
    ensures i <= r.pos <= |s| && (r.Ok? ==> i < r.pos)
  {
    var j := SkipSpace(s, i);
    if Next(s, j, '\\') && Next(s, j + 1, '+') then
      match ParseGoalTerm(s, SkipSpace(s, j + 2))
      case Err(pos) => Err(pos)
      case Ok(t, pos) => Ok(Negative(t), pos)
    else
      match ParseGoalTerm(s, j)
      case Err(pos) => Err(pos)
      case Ok(t, pos) => Ok(ClassifyGoal(t), pos)
  }

  /** Goals separated by commas or semicolons. */
  function ParseBody(s: string, i: nat): (r: Parsed<seq<BodyGoal>>)
    requires i <= |s|
    ensures i <= r.pos <= |s|
    decreases |s| - i
  {
    match ParseGoal(s, SkipSpaceAndComments(s, i))
    case Err(pos) => Err(pos)
    case Ok(g, pos) =>
      var j := SkipSpace(s, pos);
      if Next(s, j, ',') || Next(s, j, ';') then Prepend([g], ParseBody(s, j + 1)) else Ok([g], j)
  }

  /** One clause; `None` at the end of the input. */
  function ParseClause(s: string, i: nat): (r: Parsed<Option<Rule>>)
    requires i <= |s|
    ensures i <= r.pos <= |s|
    ensures r.Ok? && r.value.Some? ==> i < r.pos
    ensures r.Err? ==> i < |s|
  {
    var j := SkipSpaceAndComments(s, i);
    if j == |s| then Ok(None, j)
    else
      match ParseTerm(s, j)
      case Err(pos) => Err(pos)
      case Ok(head, pos) => ParseAfterHead(head, s, SkipSpace(s, pos))
  }

  function ParseAfterHead(head: Term, s: string, i: nat): (r: Parsed<Option<Rule>>)
    requires i <= |s|
    ensures i <= r.pos <= |s|
    ensures r.Ok? ==> r.value.Some?
  {
    if Next(s, i, ':') && Next(s, i + 1, '-') then
      match ParseBody(s, SkipSpace(s, i + 2))
      case Err(pos) => Err(pos)
      case Ok(body, pos) =>
        // the final point may be missing
        var j := SkipSpace(s, pos);
        Ok(Some(Rule(head, body)), if Next(s, j, '.') then j + 1 else j)
    else if Next(s, i, '.') then Ok(Some(Rule(head, [])), i + 1)
    else Err(i)
  }

  /** Position after the next point, or the end of the input. */
  function SkipToPeriod(s: string, i: nat): (j: nat)
    requires i <= |s|
    ensures i <= j <= |s| && (i < |s| ==> i < j)
    decreases |s| - i
  {
    if i == |s| then i else if s[i] == '.' then i + 1 else SkipToPeriod(s, i + 1)
  }

  /** Reads clauses to the end of the input; a clause that does not parse is
      dropped together with everything up to the next point. Unread input shrinks
      on each turn, after an error too. */
  function ParseRules(s: string, i: nat): seq<Rule>
    requires i <= |s|
    decreases |s| - i
  {
    match ParseClause(s, i)
    case Ok(Some(rule), pos) => [rule] + ParseRules(s, pos)
    case Ok(None, _) => []
    case Err(pos) => ParseRules(s, SkipToPeriod(s, pos))
  }

  // Printing

  function PrintGoal(g: BodyGoal): string {
    match g
    case Positive(t) => Render(t)
    case Negative(t) => "\\+ " + Render(t)
  }

  function PrintBody(body: seq<BodyGoal>): string
    requires body != []
  {
    if |body| == 1 then PrintGoal(body[0]) else PrintGoal(body[0]) + ", " + PrintBody(body[1..])
  }

  function PrintClause(rule: Rule): string {
    if rule.body == [] then Render(rule.head) + "."
    else Render(rule.head) + " :- " + PrintBody(rule.body) + "."
  }

  /** A program text with one clause on each line. */
  function PrintProgram(rules: seq<Rule>): string {
    if rules == [] then "" else PrintClause(rules[0]) + "\n" + PrintProgram(rules[1..])
  }
}
