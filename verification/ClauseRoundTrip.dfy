/** Printed clauses, and printed programs, are read back unchanged. */
module ClauseRoundTrip {
  import opened Wrappers
  import opened Text
  import opened Terms
  import opened PrologSyntax
  import opened PrologRoundTrip
  import opened ClauseSyntax

  predicate GoalReadable(g: BodyGoal) {
    Readable(g.term) && (g.Positive? ==> ClassifyGoal(g.term) == g)
  }

  /** The last goal is followed by a point, which would make an integer a float. */
  predicate BodyReadable(body: seq<BodyGoal>)
    requires body != []
  {
    (forall k | 0 <= k < |body| :: GoalReadable(body[k])) && !body[|body| - 1].term.Integer?
  }

  predicate ClauseReadable(rule: Rule) {
    Readable(rule.head) && if rule.body == [] then !rule.head.Integer? else BodyReadable(rule.body)
  }

  predicate ClauseFloatFree(rule: Rule) {
    FloatFree(rule.head) && forall k | 0 <= k < |rule.body| :: FloatFree(rule.body[k].term)
  }

  lemma SkipsNoComment(s: string, i: nat)
    requires i <= |s| && (i < |s| ==> !IsSpace(s[i]) && s[i] != '%')
    ensures SkipSpaceAndComments(s, i) == i
  {
    SkipsNothing(s, i);
  }

  predicate GoalStart(c: char) { TermStart(c) || c == '\\' }

  lemma GoalStartIsText(c: char)
    requires GoalStart(c)
    ensures !IsSpace(c) && c != '%' && c != '('
  {
    if TermStart(c) {
      TermStartIsText(c);
    }
  }

  // Goals

  lemma PositiveGoalStep(s: string, i: nat, r: Parsed<Term>)
    requires i < |s| && TermStart(s[i]) && ParseTerm(s, i) == r
    ensures ParseGoal(s, i) == match r case Ok(t, j) => Ok(ClassifyGoal(t), j) case Err(j) => Err(j)
  {
    hide ParseTerm;
    TermStartIsText(s[i]);
    SkipsNothing(s, i);
  }

  lemma NegativeGoalStep(s: string, i: nat, r: Parsed<Term>)
    requires At(s, i, "\\+ ") && i + 3 < |s| && TermStart(s[i + 3]) && ParseTerm(s, i + 3) == r
    ensures ParseGoal(s, i) == match r case Ok(t, j) => Ok(Negative(t), j) case Err(j) => Err(j)
  {
    hide ParseTerm;
    TermStartIsText(s[i + 3]);
    SkipsNothing(s, i + 3);
    assert s[i..i + 3][0] == '\\' && s[i..i + 3][1] == '+' && s[i..i + 3][2] == ' ';
    SkipsNothing(s, i);
    SkipsOneSpace(s, i + 2);
  }

  lemma NegativeSplits(g: BodyGoal, s: string, i: nat)
    requires g.Negative? && At(s, i, PrintGoal(g))
    ensures At(s, i, "\\+ ") && At(s, i + 3, Render(g.term))
  {
    AtSplits(s, i, "\\+ ", Render(g.term));
  }

  lemma GoalReads(g: BodyGoal, s: string, i: nat)
    requires GoalReadable(g) && At(s, i, PrintGoal(g)) && Follows(g.term, s, i + |PrintGoal(g)|)
    ensures ParseGoal(s, i) == Ok(g, After(g.term, s, i + |PrintGoal(g)|))
  {
    hide ParseTerm, ParseGoal, Render, Readable, Follows, After;
    if g.Positive? {
      TermReads(g.term, s, i);
      StartsHere(g.term, s, i);
      PositiveGoalStep(s, i, ParseTerm(s, i));
    } else {
      NegativeSplits(g, s, i);
      TermReads(g.term, s, i + 3);
      StartsHere(g.term, s, i + 3);
      NegativeGoalStep(s, i, ParseTerm(s, i + 3));
    }
  }

  lemma GoalStarts(g: BodyGoal, s: string, i: nat)
    requires Readable(g.term) && At(s, i, PrintGoal(g))
    ensures i < |s| && GoalStart(s[i])
  {
    hide Readable, Render;
    if g.Positive? {
      StartsHere(g.term, s, i);
    } else {
      NegativeSplits(g, s, i);
      AtFirst(s, i, "\\+ ");
    }
  }

  // Bodies

  /** A comma, or the final point after anything but an integer, ends a goal. */
  lemma GoalEnds(t: Term, s: string, j: nat)
    requires Next(s, j, ',') || (Next(s, j, '.') && !t.Integer?)
    ensures Follows(t, s, j) && SkipSpace(s, After(t, s, j)) == j
  {
    SkipsNothing(s, j);
  }

  lemma BodyStep(s: string, i: nat, g: BodyGoal, pos: nat, j: nat)
    requires i < |s| && GoalStart(s[i])
    requires ParseGoal(s, i) == Ok(g, pos) && pos <= |s| && SkipSpace(s, pos) == j
    requires Next(s, j, ',') || Next(s, j, '.')
    ensures ParseBody(s, i) == if Next(s, j, ',') then Prepend([g], ParseBody(s, j + 1)) else Ok([g], j)
  {
    hide ParseGoal, SkipSpace;
    GoalStartIsText(s[i]);
    SkipsNoComment(s, i);
  }

  lemma BodySkipsOneSpace(s: string, i: nat)
    requires Next(s, i, ' ')
    ensures ParseBody(s, i) == ParseBody(s, i + 1)
  {
    hide ParseGoal;
    assert SkipSpace(s, i) == SkipSpace(s, i + 1);
    assert SkipSpaceAndComments(s, i) == SkipSpaceAndComments(s, i + 1);
  }

  lemma BodySkipsSpace(s: string, i: nat)
    requires i <= |s|
    ensures ParseBody(s, SkipSpace(s, i)) == ParseBody(s, i)
  {
    hide ParseGoal;
    SkipsNothing(s, SkipSpace(s, i));
    assert SkipSpaceAndComments(s, SkipSpace(s, i)) == SkipSpaceAndComments(s, i);
  }

  lemma OneGoalSplits(g: BodyGoal, s: string, i: nat)
    requires At(s, i, PrintBody([g]) + ".")
    ensures At(s, i, PrintGoal(g)) && Next(s, i + |PrintGoal(g)|, '.') && PrintBody([g]) == PrintGoal(g)
  {
    hide At, PrintGoal;
    AtEndsWith(s, i, PrintGoal(g), '.');
  }

  lemma MoreGoalsSplit(body: seq<BodyGoal>, s: string, i: nat)
    requires |body| > 1 && At(s, i, PrintBody(body) + ".")
    ensures var j := i + |PrintGoal(body[0])|;
      && At(s, i, PrintGoal(body[0])) && Next(s, j, ',') && Next(s, j + 1, ' ')
      && At(s, j + 2, PrintBody(body[1..]) + ".")
      && j + 2 + |PrintBody(body[1..])| == i + |PrintBody(body)|
  {
    hide At, PrintGoal;
    var first, more := PrintGoal(body[0]), PrintBody(body[1..]) + ".";
    AtAssociates(s, i, first + ", ", PrintBody(body[1..]), ".");
    AtSplits(s, i, first + ", ", more);
    AtSplits(s, i, first, ", ");
    AtPair(s, i + |first|, ',', ' ');
  }

  lemma FirstGoalReads(g: BodyGoal, s: string, i: nat, j: nat)
    requires GoalReadable(g) && At(s, i, PrintGoal(g)) && j == i + |PrintGoal(g)|
    requires Next(s, j, ',') || (Next(s, j, '.') && !g.term.Integer?)
    ensures ParseBody(s, i) == if Next(s, j, ',') then Prepend([g], ParseBody(s, j + 1)) else Ok([g], j)
  {
    hide ParseBody, ParseGoal, PrintGoal, Readable, Follows, After;
    GoalEnds(g.term, s, j);
    GoalReads(g, s, i);
    GoalStarts(g, s, i);
    BodyStep(s, i, g, After(g.term, s, j), j);
  }

  lemma {:induction false} BodyReads(body: seq<BodyGoal>, s: string, i: nat)
    requires body != [] && BodyReadable(body) && At(s, i, PrintBody(body) + ".")
    ensures ParseBody(s, i) == Ok(body, i + |PrintBody(body)|)
  {
    hide ParseBody, PrintGoal, PrintBody, GoalReadable;
    var j := i + |PrintGoal(body[0])|;
    if |body| == 1 {
      assert body == [body[0]];
      OneGoalSplits(body[0], s, i);
      FirstGoalReads(body[0], s, i, j);
    } else {
      MoreGoalsSplit(body, s, i);
      FirstGoalReads(body[0], s, i, j);
      BodySkipsOneSpace(s, j + 1);
      BodyReads(body[1..], s, j + 2);
      assert [body[0]] + body[1..] == body;
    }
  }

  // Clauses

  /** Position after the head of a printed clause. */
  lemma FactSplits(rule: Rule, s: string, i: nat)
    requires rule.body == [] && At(s, i, PrintClause(rule))
    ensures At(s, i, Render(rule.head)) && Next(s, i + |Render(rule.head)|, '.')
      && |PrintClause(rule)| == |Render(rule.head)| + 1
  {
    hide At, Render;
    AtEndsWith(s, i, Render(rule.head), '.');
  }

  /** The neck of a printed clause stands at `j`. */
  predicate Neck(s: string, j: nat) {
    Next(s, j, ' ') && Next(s, j + 1, ':') && Next(s, j + 2, '-') && Next(s, j + 3, ' ')
  }

  lemma NeckSplits(rule: Rule, s: string, i: nat)
    requires rule.body != [] && At(s, i, PrintClause(rule))
    ensures var j := i + |Render(rule.head)|;
      && At(s, i, Render(rule.head)) && Neck(s, j)
      && At(s, j + 4, PrintBody(rule.body) + ".")
      && j + 4 + |PrintBody(rule.body)| + 1 == i + |PrintClause(rule)|
  {
    hide At, Render, PrintBody, Neck;
    var head := Render(rule.head);
    AtAssociates(s, i, head + " :- ", PrintBody(rule.body), ".");
    AtSplits(s, i, head + " :- ", PrintBody(rule.body) + ".");
    AtSplits(s, i, head, " :- ");
    NeckStands(s, i + |head|);
  }

  lemma NeckStands(s: string, j: nat)
    requires At(s, j, " :- ")
    ensures Neck(s, j)
  {
    hide At;
    assert " :- " == " :" + "- ";
    AtSplits(s, j, " :", "- ");
    AtPair(s, j, ' ', ':');
    AtPair(s, j + 2, '-', ' ');
  }

  lemma HeadFollows(t: Term, s: string, j: nat)
    requires (Next(s, j, '.') && !t.Integer?) || (Next(s, j, ' ') && Next(s, j + 1, ':'))
    ensures Follows(t, s, j)
    ensures SkipSpace(s, After(t, s, j)) == if Next(s, j, '.') then j else j + 1
  {
    if Next(s, j, '.') {
      SkipsNothing(s, j);
    } else {
      SkipsOneSpace(s, j);
      SkipsNothing(s, j + 1);
    }
  }

  lemma ClauseStep(s: string, i: nat, head: Term, pos: nat)
    requires i < |s| && TermStart(s[i]) && ParseTerm(s, i) == Ok(head, pos)
    ensures ParseClause(s, i) == ParseAfterHead(head, s, SkipSpace(s, pos))
  {
    hide ParseTerm, ParseAfterHead;
    TermStartIsText(s[i]);
    SkipsNoComment(s, i);
  }

  lemma NeckStep(head: Term, s: string, i: nat, body: seq<BodyGoal>, j: nat)
    requires Next(s, i, ':') && Next(s, i + 1, '-') && ParseBody(s, i + 2) == Ok(body, j) && Next(s, j, '.')
    ensures ParseAfterHead(head, s, i) == Ok(Some(Rule(head, body)), j + 1)
  {
    hide ParseBody;
    BodySkipsSpace(s, i + 2);
    SkipsNothing(s, j);
  }

  lemma PointStep(head: Term, s: string, i: nat)
    requires Next(s, i, '.')
    ensures ParseAfterHead(head, s, i) == Ok(Some(Rule(head, [])), i + 1)
  {
    hide ParseBody;
  }

  lemma BodyEnds(body: seq<BodyGoal>, s: string, i: nat)
    requires body != [] && At(s, i, PrintBody(body) + ".")
    ensures Next(s, i + |PrintBody(body)|, '.')
  {
    hide At, PrintBody;
    AtEndsWith(s, i, PrintBody(body), '.');
  }

  lemma ClauseReads(rule: Rule, s: string, i: nat)
    requires ClauseReadable(rule) && At(s, i, PrintClause(rule))
    ensures ParseClause(s, i) == Ok(Some(rule), i + |PrintClause(rule)|)
  {
    hide ParseClause, ParseAfterHead, ParseTerm, ParseBody, PrintBody, PrintClause, Render, Readable, BodyReadable,
        After, Follows, SkipSpace, At;
    var j := i + |Render(rule.head)|;
    if rule.body == [] {
      FactSplits(rule, s, i);
      PointStep(rule.head, s, j);
    } else {
      NeckSplits(rule, s, i);
      BodySkipsOneSpace(s, j + 3);
      BodyReads(rule.body, s, j + 4);
      BodyEnds(rule.body, s, j + 4);
      NeckStep(rule.head, s, j + 1, rule.body, j + 4 + |PrintBody(rule.body)|);
    }
    HeadFollows(rule.head, s, j);
    TermReads(rule.head, s, i);
    StartsHere(rule.head, s, i);
    ClauseStep(s, i, rule.head, After(rule.head, s, j));
  }

  // Programs

  lemma ClauseSkipsNewline(s: string, i: nat)
    requires Next(s, i, '\n')
    ensures ParseClause(s, i) == ParseClause(s, i + 1) && ParseRules(s, i) == ParseRules(s, i + 1)
  {
    hide ParseTerm, ParseAfterHead;
    assert SkipSpace(s, i) == SkipSpace(s, i + 1);
    assert SkipSpaceAndComments(s, i) == SkipSpaceAndComments(s, i + 1);
    assert ParseClause(s, i) == ParseClause(s, i + 1);
  }

  lemma ProgramSplits(rules: seq<Rule>, s: string, i: nat)
    requires rules != [] && At(s, i, PrintProgram(rules))
    ensures var j := i + |PrintClause(rules[0])|;
      && At(s, i, PrintClause(rules[0])) && Next(s, j, '\n') && At(s, j + 1, PrintProgram(rules[1..]))
      && j + 1 + |PrintProgram(rules[1..])| == i + |PrintProgram(rules)|
  {
    hide At, PrintClause;
    AtSplitsAround(s, i, PrintClause(rules[0]), '\n', PrintProgram(rules[1..]));
  }

  lemma {:induction false} ProgramReadsHere(rules: seq<Rule>, s: string, i: nat)
    requires forall k | 0 <= k < |rules| :: ClauseReadable(rules[k])
    requires At(s, i, PrintProgram(rules)) && i + |PrintProgram(rules)| == |s|
    ensures ParseRules(s, i) == rules
  {
    hide ParseClause, ClauseReadable, PrintClause, At, SkipSpaceAndComments;
    if rules == [] {
      NoClauseAtEnd(s);
    } else {
      var j := i + |PrintClause(rules[0])|;
      ProgramSplits(rules, s, i);
      ClauseReads(rules[0], s, i);
      ClauseSkipsNewline(s, j);
      ProgramReadsHere(rules[1..], s, j + 1);
      assert [rules[0]] + rules[1..] == rules;
    }
  }

  lemma NoClauseAtEnd(s: string)
    ensures ParseRules(s, |s|) == []
  {
    SkipsNoComment(s, |s|);
  }

  /** Printing a program and reading the whole text gives the program back. */
  lemma ProgramReads(rules: seq<Rule>)
    requires forall k | 0 <= k < |rules| :: ClauseReadable(rules[k])
    ensures ParseRules(PrintProgram(rules), 0) == rules
  {
    hide PrintProgram, ParseRules;
    ProgramReadsHere(rules, PrintProgram(rules), 0);
  }

  // Where each clause is read

  /** A clause that was read, and where its text starts. */
  datatype Found = Found(at: nat, rule: Rule)

  /** What the rule reader finds from `i` on, with the positions it was found at. */
  function Findings(s: string, i: nat): seq<Found>
    requires i <= |s|
    decreases |s| - i
  {
    match ParseClause(s, i)
    case Ok(Some(rule), pos) => [Found(SkipSpaceAndComments(s, i), rule)] + Findings(s, pos)
    case Ok(None, _) => []
    case Err(pos) => Findings(s, SkipToPeriod(s, pos))
  }

  function RulesOf(found: seq<Found>): seq<Rule> {
    seq(|found|, k requires 0 <= k < |found| => found[k].rule)
  }

  lemma {:induction false} FindingsAreTheRules(s: string, i: nat)
    requires i <= |s|
    ensures RulesOf(Findings(s, i)) == ParseRules(s, i)
    decreases |s| - i
  {
    hide ParseClause, SkipToPeriod, SkipSpaceAndComments;
    match ParseClause(s, i)
    case Ok(Some(rule), pos) => FindingsAreTheRules(s, pos);
    case Ok(None, _) =>
    case Err(pos) => FindingsAreTheRules(s, SkipToPeriod(s, pos));
  }

  /** Each clause of a printed program where it is printed, from `i` on. */
  function Places(rules: seq<Rule>, i: nat): seq<Found> {
    if rules == [] then [] else [Found(i, rules[0])] + Places(rules[1..], i + |PrintClause(rules[0])| + 1)
  }

  lemma ClauseStarts(rule: Rule, s: string, i: nat)
    requires ClauseReadable(rule) && At(s, i, PrintClause(rule))
    ensures i < |s| && SkipSpaceAndComments(s, i) == i
  {
    hide Render, PrintBody, BodyReadable, SkipSpaceAndComments, SkipSpace, At;
    if rule.body == [] {
      FactSplits(rule, s, i);
    } else {
      NeckSplits(rule, s, i);
    }
    StartsHere(rule.head, s, i);
    TermStartIsText(s[i]);
    SkipsNoComment(s, i);
  }

  lemma FindingsSkipNewline(s: string, i: nat)
    requires Next(s, i, '\n')
    ensures Findings(s, i) == Findings(s, i + 1)
  {
    hide ParseClause, SkipSpace;
    ClauseSkipsNewline(s, i);
    CommentsSkipNewline(s, i);
  }

  lemma CommentsSkipNewline(s: string, i: nat)
    requires Next(s, i, '\n')
    ensures SkipSpaceAndComments(s, i) == SkipSpaceAndComments(s, i + 1)
  {
    assert SkipSpace(s, i) == SkipSpace(s, i + 1);
  }

  /** The first clause of a text is found where it is printed only if it is readable. */
  lemma FirstFoundIsReadable(rule: Rule, s: string, i: nat)
    requires ClauseFloatFree(rule) && At(s, i, PrintClause(rule)) && i + |PrintClause(rule)| < |s|
    requires Findings(s, i) != [] && Findings(s, i)[0] == Found(i, rule)
    ensures ClauseReadable(rule)
  {
    hide SkipSpaceAndComments, ParseClause, At, PrintClause, SkipToPeriod;
    match ParseClause(s, i)
    case Ok(Some(r), pos) => ReadClauseIsReadable(rule, s, i);
    case Ok(None, _) =>
    case Err(pos) => FoundLater(s, i, pos);
  }

  lemma FoundLater(s: string, i: nat, pos: nat)
    requires i <= |s| && ParseClause(s, i) == Err(pos)
    ensures Findings(s, i) != [] ==> Findings(s, i)[0].at > i
  {
    hide ParseClause, SkipSpaceAndComments;
    FoundFrom(s, SkipToPeriod(s, pos));
  }

  lemma {:induction false} FoundFrom(s: string, i: nat)
    requires i <= |s|
    ensures Findings(s, i) != [] ==> Findings(s, i)[0].at >= i
    decreases |s| - i
  {
    hide ParseClause, SkipSpaceAndComments;
    match ParseClause(s, i)
    case Ok(Some(rule), pos) =>
    case Ok(None, _) =>
    case Err(pos) => FoundFrom(s, SkipToPeriod(s, pos));
  }

  lemma {:induction false} ProgramPlaces(rules: seq<Rule>, s: string, i: nat)
    requires (forall k | 0 <= k < |rules| :: ClauseFloatFree(rules[k]))
    requires At(s, i, PrintProgram(rules)) && i + |PrintProgram(rules)| == |s|
    ensures Findings(s, i) == Places(rules, i) <==> forall k | 0 <= k < |rules| :: ClauseReadable(rules[k])
    decreases rules
  {
    hide ParseClause, ClauseReadable, ClauseFloatFree, PrintClause, At, SkipSpaceAndComments, Findings;
    if rules == [] {
      NothingFoundAtEnd(s);
    } else {
      var j := i + |PrintClause(rules[0])|;
      ProgramSplits(rules, s, i);
      var rest := rules[1..];
      assert Places(rules, i)[0] == Found(i, rules[0]) && Places(rules, i)[1..] == Places(rest, j + 1);
      if ClauseReadable(rules[0]) {
        FoundFirst(rules[0], s, i);
        FindingsSkipNewline(s, j);
        assert Findings(s, i)[1..] == Findings(s, j + 1);
        ProgramPlaces(rest, s, j + 1);
        assert forall k | 0 < k < |rules| :: rules[k] == rest[k - 1];
        assert forall k | 0 <= k < |rest| :: rest[k] == rules[k + 1];
      } else if Findings(s, i) == Places(rules, i) {
        FirstFoundIsReadable(rules[0], s, i);
      }
    }
  }

  lemma FoundFirst(rule: Rule, s: string, i: nat)
    requires ClauseReadable(rule) && At(s, i, PrintClause(rule))
    ensures var j := i + |PrintClause(rule)|; j <= |s| && Findings(s, i) == [Found(i, rule)] + Findings(s, j)
  {
    hide ParseClause, ClauseReadable, PrintClause, At, SkipSpaceAndComments;
    ClauseReads(rule, s, i);
    ClauseStarts(rule, s, i);
  }

  lemma NothingFoundAtEnd(s: string)
    ensures Findings(s, |s|) == []
  {
    SkipsNoComment(s, |s|);
  }

  /** Of a printed float-free program, the reader finds every clause where it is printed,
      and nothing else, if and only if all its clauses are readable; the first that is
      not is not found at its place. */
  lemma ProgramReadsInPlaceIff(rules: seq<Rule>)
    requires forall k | 0 <= k < |rules| :: ClauseFloatFree(rules[k])
    ensures RulesOf(Findings(PrintProgram(rules), 0)) == ParseRules(PrintProgram(rules), 0)
    ensures Findings(PrintProgram(rules), 0) == Places(rules, 0)
      <==> forall k | 0 <= k < |rules| :: ClauseReadable(rules[k])
  {
    hide ParseClause, ClauseReadable, ClauseFloatFree, PrintClause, Findings, Places, ParseRules;
    FindingsAreTheRules(PrintProgram(rules), 0);
    AtWhole(PrintProgram(rules));
    ProgramPlaces(rules, PrintProgram(rules), 0);
  }

  // The converse: a clause that is read back is readable

  predicate PlainStart(t: Term) { !t.Variable? && !t.Float? }

  lemma PlainStarts(t: Term, s: string, i: nat)
    requires PlainStart(t) && At(s, i, Render(t))
    ensures i < |s| && TermStart(s[i])
  {
    AtFirst(s, i, Render(t));
  }

  lemma IntegerBeforePoint(n: i64, s: string, i: nat)
    requires At(s, i, IntegerText(n)) && Next(s, i + |IntegerText(n)|, '.')
    ensures ParseTerm(s, i).Ok? ==> ParseTerm(s, i).value != Integer(n)
  {
    IntegerStart(n);
    AtFirst(s, i, IntegerText(n));
    SkipsNothing(s, i);
    IntegerEnds(n, s, i);
  }

  /** A term that is read back and followed like a goal or a head is readable. */
  lemma ReadBackTerm(t: Term, s: string, i: nat)
    requires FloatFree(t) && PlainStart(t) && At(s, i, Render(t))
    requires var j := i + |Render(t)|; Next(s, j, ',') || Next(s, j, '.') || (Next(s, j, ' ') && Next(s, j + 1, ':'))
    requires ParseTerm(s, i).Ok? && ParseTerm(s, i).value == t
    ensures Readable(t) && !(t.Integer? && Next(s, i + |Render(t)|, '.'))
  {
    hide ParseTerm, FloatFree, Readable, Follows;
    var j := i + |Render(t)|;
    if t.Integer? && Next(s, j, '.') {
      IntegerBeforePoint(t.value, s, i);
    }
    if Next(s, j, ',') {
      GoalEnds(t, s, j);
    } else {
      HeadFollows(t, s, j);
    }
    ReadBackIsReadable(t, s, i);
  }

  /** Wherever it stands, a variable that was read is readable. */
  lemma ReadVariableGoal(s: string, i: nat, g: BodyGoal)
    requires i <= |s| && ParseGoal(s, i).Ok? && ParseGoal(s, i).value == g && g.term.Variable?
    requires g.Negative? ==> Next(s, i, '\\') && Next(s, i + 1, '+')
    ensures Readable(g.term)
  {
    hide ParseTerm;
    SkipsNothing(s, SkipSpace(s, i));
    forall k | i <= k <= |s| && ParseTerm(s, k).Ok? && ParseTerm(s, k).value.Variable?
      ensures Readable(ParseTerm(s, k).value)
    {
      ReadVariableIsReadable(s, k, ParseTerm(s, k).value.name);
    }
  }

  lemma ReadGoalIsClassified(s: string, i: nat)
    requires i <= |s| && ParseGoal(s, i).Ok? && ParseGoal(s, i).value.Positive?
    ensures ClassifyGoal(ParseGoal(s, i).value.term) == ParseGoal(s, i).value
  {
    hide ParseGoalTerm;
  }

  /** The text after a printed goal: a comma or the final point. */
  predicate GoalEnd(s: string, j: nat) { Next(s, j, ',') || Next(s, j, '.') }

  lemma NegativeStarts(g: BodyGoal, s: string, i: nat)
    requires g.Negative? && At(s, i, PrintGoal(g))
    ensures Next(s, i, '\\') && Next(s, i + 1, '+') && SkipSpaceAndComments(s, i) == i
  {
    hide Render;
    NegativeSplits(g, s, i);
    assert s[i..i + 3][0] == '\\' && s[i..i + 3][1] == '+';
    SkipsNoComment(s, i);
  }

  lemma ReadGoalIsReadable(g: BodyGoal, s: string, i: nat)
    requires FloatFree(g.term) && At(s, i, PrintGoal(g)) && GoalEnd(s, i + |PrintGoal(g)|)
    requires var r := ParseGoal(s, SkipSpaceAndComments(s, i)); r.Ok? && r.value == g
    ensures GoalReadable(g) && !(g.term.Integer? && Next(s, i + |PrintGoal(g)|, '.'))
  {
    hide ParseGoal, Readable, FloatFree, Render, SkipSpaceAndComments;
    if g.Positive? {
      ReadGoalIsClassified(s, SkipSpaceAndComments(s, i));
    } else {
      NegativeStarts(g, s, i);
    }
    if g.term.Variable? {
      ReadVariableGoal(s, SkipSpaceAndComments(s, i), g);
    } else if g.Positive? {
      ReadPositiveGoal(g, s, i);
    } else {
      ReadNegativeGoal(g, s, i);
    }
  }

  lemma ReadPositiveGoal(g: BodyGoal, s: string, i: nat)
    requires g.Positive? && FloatFree(g.term) && !g.term.Variable?
    requires At(s, i, Render(g.term)) && GoalEnd(s, i + |Render(g.term)|)
    requires var r := ParseGoal(s, SkipSpaceAndComments(s, i)); r.Ok? && r.value == g
    ensures Readable(g.term) && !(g.term.Integer? && Next(s, i + |Render(g.term)|, '.'))
  {
    hide ParseGoal, ParseTerm, Readable, Render, SkipSpaceAndComments;
    PlainStarts(g.term, s, i);
    TermStartIsText(s[i]);
    SkipsNoComment(s, i);
    PositiveGoalStep(s, i, ParseTerm(s, i));
    ReadBackTerm(g.term, s, i);
  }

  lemma ReadNegativeGoal(g: BodyGoal, s: string, i: nat)
    requires g.Negative? && FloatFree(g.term) && !g.term.Variable?
    requires At(s, i, PrintGoal(g)) && GoalEnd(s, i + |PrintGoal(g)|)
    requires ParseGoal(s, i).Ok? && ParseGoal(s, i).value == g
    ensures Readable(g.term) && !(g.term.Integer? && Next(s, i + |PrintGoal(g)|, '.'))
  {
    hide ParseGoal, ParseTerm, Readable, Render;
    NegativeSplits(g, s, i);
    PlainStarts(g.term, s, i + 3);
    NegativeGoalStep(s, i, ParseTerm(s, i + 3));
    ReadBackTerm(g.term, s, i + 3);
  }

  lemma FirstOfBody(s: string, i: nat, body: seq<BodyGoal>)
    requires i <= |s| && body != [] && ParseBody(s, i).Ok? && ParseBody(s, i).value == body
    ensures var r := ParseGoal(s, SkipSpaceAndComments(s, i)); r.Ok? && r.value == body[0]
  {
    hide ParseGoal, SkipSpaceAndComments, SkipSpace;
  }

  lemma {:induction false} ReadBodyIsReadable(body: seq<BodyGoal>, s: string, i: nat)
    requires body != [] && forall k | 0 <= k < |body| :: FloatFree(body[k].term)
    requires At(s, i, PrintBody(body) + ".") && ParseBody(s, i).Ok? && ParseBody(s, i).value == body
    ensures BodyReadable(body)
  {
    hide ParseBody, ParseGoal, PrintGoal, PrintBody, GoalReadable, FloatFree;
    var j := i + |PrintGoal(body[0])|;
    FirstOfBody(s, i, body);
    if |body| == 1 {
      assert body == [body[0]];
      OneGoalSplits(body[0], s, i);
      ReadGoalIsReadable(body[0], s, i);
    } else {
      MoreGoalsSplit(body, s, i);
      ReadGoalIsReadable(body[0], s, i);
      FirstGoalReads(body[0], s, i, j);
      RestOfBody(body, ParseBody(s, j + 1));
      BodySkipsOneSpace(s, j + 1);
      ReadBodyIsReadable(body[1..], s, j + 2);
      AllGoalsReadable(body);
    }
  }

  lemma RestOfBody(body: seq<BodyGoal>, r: Parsed<seq<BodyGoal>>)
    requires body != [] && Prepend([body[0]], r).Ok? && Prepend([body[0]], r).value == body
    ensures r.Ok? && r.value == body[1..]
  {
    assert ([body[0]] + r.value)[1..] == r.value;
  }

  lemma AllGoalsReadable(body: seq<BodyGoal>)
    requires |body| > 1 && GoalReadable(body[0]) && BodyReadable(body[1..])
    ensures BodyReadable(body)
  {
    hide GoalReadable;
    forall k | 0 <= k < |body| ensures GoalReadable(body[k]) {
      if k > 0 {
        assert body[k] == body[1..][k - 1];
      }
    }
  }

  lemma ReadHead(s: string, i: nat, rule: Rule)
    requires i <= |s| && ParseClause(s, i).Ok? && ParseClause(s, i).value == Some(rule)
    ensures var j := SkipSpaceAndComments(s, i);
      && ParseTerm(s, j).Ok? && ParseTerm(s, j).value == rule.head
      && ParseClause(s, i) == ParseAfterHead(rule.head, s, SkipSpace(s, ParseTerm(s, j).pos))
  {
    hide ParseTerm, SkipSpaceAndComments, ParseBody, SkipSpace;
  }

  lemma ReadHeadIsReadable(rule: Rule, s: string, i: nat, j: nat)
    requires FloatFree(rule.head) && At(s, i, Render(rule.head)) && j == i + |Render(rule.head)|
    requires Next(s, j, '.') || Neck(s, j)
    requires ParseClause(s, i).Ok? && ParseClause(s, i).value == Some(rule)
    ensures Readable(rule.head) && !(rule.head.Integer? && Next(s, j, '.'))
  {
    hide ParseClause, ParseTerm, Readable, Render, FloatFree, SkipSpaceAndComments;
    ReadHead(s, i, rule);
    if rule.head.Variable? {
      VariableHead(s, SkipSpaceAndComments(s, i), rule.head);
    } else {
      PlainHead(rule.head, s, i);
      SkipsNoComment(s, i);
      ReadBackTerm(rule.head, s, i);
    }
  }

  lemma VariableHead(s: string, i: nat, t: Term)
    requires i <= |s| && t.Variable? && ParseTerm(s, i).Ok? && ParseTerm(s, i).value == t
    ensures Readable(t)
  {
    hide ParseTerm;
    ReadVariableIsReadable(s, i, t.name);
  }

  lemma PlainHead(t: Term, s: string, i: nat)
    requires FloatFree(t) && !t.Variable? && At(s, i, Render(t))
    ensures PlainStart(t) && i < |s| && TermStart(s[i]) && !IsSpace(s[i]) && s[i] != '%'
  {
    hide Render;
    PlainStarts(t, s, i);
    TermStartIsText(s[i]);
  }

  lemma ReadBodyOfClause(rule: Rule, s: string, i: nat, j: nat)
    requires Readable(rule.head) && At(s, i, Render(rule.head)) && j == i + |Render(rule.head)| && Neck(s, j)
    requires ParseClause(s, i).Ok? && ParseClause(s, i).value == Some(rule)
    ensures j + 4 <= |s| && ParseBody(s, j + 4).Ok? && ParseBody(s, j + 4).value == rule.body
  {
    hide ParseClause, ParseTerm, ParseBody, Readable, Render, Follows, After, SkipSpace;
    HeadFollows(rule.head, s, j);
    TermReads(rule.head, s, i);
    StartsHere(rule.head, s, i);
    ClauseStep(s, i, rule.head, After(rule.head, s, j));
    BodySkipsSpace(s, j + 3);
    BodySkipsOneSpace(s, j + 3);
  }

  lemma ReadClauseIsReadable(rule: Rule, s: string, i: nat)
    requires ClauseFloatFree(rule) && At(s, i, PrintClause(rule))
    requires ParseClause(s, i).Ok? && ParseClause(s, i).value == Some(rule)
    ensures ClauseReadable(rule)
  {
    hide ParseClause, ParseBody, Readable, BodyReadable, PrintClause, PrintBody, Render, FloatFree;
    var j := i + |Render(rule.head)|;
    if rule.body == [] {
      FactSplits(rule, s, i);
      ReadHeadIsReadable(rule, s, i, j);
    } else {
      NeckSplits(rule, s, i);
      ReadHeadIsReadable(rule, s, i, j);
      ReadBodyOfClause(rule, s, i, j);
      ReadBodyIsReadable(rule.body, s, j + 4);
    }
  }

  /** A printed clause is read back, whatever follows it, exactly if it is readable. */
  lemma PrintedClauseReadsBackIff(rule: Rule, s: string, i: nat)
    requires ClauseFloatFree(rule) && At(s, i, PrintClause(rule))
    ensures ParseClause(s, i) == Ok(Some(rule), i + |PrintClause(rule)|) <==> ClauseReadable(rule)
  {
    hide ParseClause, ClauseReadable, ClauseFloatFree, PrintClause;
    if ClauseReadable(rule) {
      ClauseReads(rule, s, i);
    }
    var back := ParseClause(s, i);
    if back.Ok? && back.value == Some(rule) {
      ReadClauseIsReadable(rule, s, i);
    }
  }
}
