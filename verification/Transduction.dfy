/** Prolog rules to CLIPS forward-chaining rules: what is emitted, in which order
    and under which name. */
module Transduction {
  import opened Wrappers
  import opened Text
  import opened Terms
  import opened PrologSyntax
  import opened ClauseSyntax
  import opened ClipsSyntax
  import opened Coloring

  // Variables

  function Vars(t: Term): set<string> {
    match t
    case Variable(v) => {v}
    case Compound(_, args) => ArgVars(args)
    case _ => {}
  }

  function ArgVars(args: seq<Term>): set<string> {
    if args == [] then {} else Vars(args[0]) + ArgVars(args[1..])
  }

  // The expression that builds the head goal

  datatype Part = Literal(text: string) | Reference(name: string)

  predicate IsBound(t: Term, bound: set<string>) { t.Variable? && t.name in bound }

  function ArgText(t: Term): string {
    if t.Variable? then t.name else Render(t)
  }

  /** The parts of the string concatenation, from argument `args[0]` on, when the
      text `cur` is still to be written. Literal text is merged. */
  function ArgParts(args: seq<Term>, first: bool, cur: string, bound: set<string>): (parts: seq<Part>)
    ensures parts != []
  {
    if args == [] then [Literal(cur + ")")]
    else
      var cur := if first then cur else cur + ",";
      if IsBound(args[0], bound) then
        (if cur == "" then [] else [Literal(cur)]) + [Reference(args[0].name)] + ArgParts(args[1..], false, "", bound)
      else ArgParts(args[1..], false, cur + ArgText(args[0]), bound)
  }

  function PartText(p: Part): string {
    match p
    case Literal(text) => "\"" + text + "\""
    case Reference(name) => "?" + name
  }

  function PartTexts(parts: seq<Part>): seq<string> {
    if parts == [] then [] else [PartText(parts[0])] + PartTexts(parts[1..])
  }

  function Join(texts: seq<string>, separator: string): string {
    if texts == [] then "" else if |texts| == 1 then texts[0] else texts[0] + separator + Join(texts[1..], separator)
  }

  function ArgTexts(args: seq<Term>): seq<string> {
    if args == [] then [] else [ArgText(args[0])] + ArgTexts(args[1..])
  }

  function HeadExpr(head: Term, bound: set<string>): string {
    match head
    case Atom(s) => "\"" + s + "\""
    case Compound(f, args) =>
      if exists k | 0 <= k < |args| :: IsBound(args[k], bound) then
        "(str-cat " + Join(PartTexts(ArgParts(args, true, f + "(", bound)), " ") + ")"
      else "\"" + f + "(" + Join(ArgTexts(args), ",") + ")" + "\""
    case _ => "\"" + Render(head) + "\""
  }

  lemma PartTextsAppend(a: seq<Part>, b: seq<Part>)
    ensures PartTexts(a + b) == PartTexts(a) + PartTexts(b)
  {
    if a == [] {
      assert a + b == b;
    } else {
      assert (a + b)[1..] == a[1..] + b;
    }
  }

  method RenderHeadGoalExpr(head: Term, bound: set<string>) returns (expr: string)
    ensures expr == HeadExpr(head, bound)
  {
    match head {
      case Atom(s) => expr := "\"" + s + "\"";
      case Compound(f, args) =>
        if exists k | 0 <= k < |args| :: IsBound(args[k], bound) {
          var parts := BuildParts(f, args, bound);
          expr := "(str-cat " + Join(parts, " ") + ")";
        } else {
          expr := "\"" + f + "(" + Join(ArgTexts(args), ",") + ")" + "\"";
        }
      case _ => expr := "\"" + Render(head) + "\"";
    }
  }

  method BuildParts(f: string, args: seq<Term>, bound: set<string>) returns (parts: seq<string>)
    ensures parts == PartTexts(ArgParts(args, true, f + "(", bound))
  {
    hide IsBound, ArgText, PartText, PartTexts, ArgParts;
    parts := [];
    var cur := f + "(";
    ghost var all := PartTexts(ArgParts(args, true, cur, bound));
    ghost var rest := args;
    for i := 0 to |args|
      invariant rest == args[i..] && parts + PartTexts(ArgParts(rest, i == 0, cur, bound)) == all
    {
      ArgStep(rest, i == 0, cur, bound);
      if i > 0 {
        cur := cur + ",";
      }
      rest := rest[1..];
      if IsBound(args[i], bound) {
        BoundIsVariable(args[i], bound);
        parts, cur := WriteReference(parts, cur, args[i].name, PartTexts(ArgParts(rest, false, "", bound)));
      } else {
        cur := cur + ArgText(args[i]);
      }
    }
    ArgsDone(rest, |args| == 0, cur, bound);
    parts := parts + [PartText(Literal(cur + ")"))];
  }

  /** Writes out the collected literal, if any, and then the reference. */
  method WriteReference(parts: seq<string>, cur: string, name: string, ghost rest: seq<string>)
      returns (parts': seq<string>, cur': string)
    ensures cur' == ""
    ensures parts' + rest == parts
      + ((if cur == "" then [] else [PartText(Literal(cur))]) + [PartText(Reference(name))] + rest)
  {
    hide PartText;
    parts', cur' := parts, cur;
    if cur' != "" {
      parts' := parts' + [PartText(Literal(cur'))];
      cur' := "";
    }
    parts' := parts' + [PartText(Reference(name))];
  }

  lemma BoundIsVariable(t: Term, bound: set<string>)
    requires IsBound(t, bound)
    ensures t.Variable?
  {
  }

  lemma ArgsDone(args: seq<Term>, first: bool, cur: string, bound: set<string>)
    requires args == []
    ensures PartTexts(ArgParts(args, first, cur, bound)) == [PartText(Literal(cur + ")"))]
  {
    var last := [Literal(cur + ")")];
    assert last[1..] == [] && PartTexts(last) == [PartText(last[0])];
  }

  lemma ArgStep(args: seq<Term>, first: bool, cur: string, bound: set<string>)
    requires args != []
    ensures PartTexts(ArgParts(args, first, cur, bound)) ==
        var cur := if first then cur else cur + ",";
        if IsBound(args[0], bound) && args[0].Variable? then
          (if cur == "" then [] else [PartText(Literal(cur))]) + [PartText(Reference(args[0].name))]
          + PartTexts(ArgParts(args[1..], false, "", bound))
        else PartTexts(ArgParts(args[1..], false, cur + ArgText(args[0]), bound))
  {
    hide PartText, ArgText;
    var cur' := if first then cur else cur + ",";
    if IsBound(args[0], bound) {
      var written := (if cur' == "" then [] else [Literal(cur')]) + [Reference(args[0].name)];
      PartTextsAppend(written, ArgParts(args[1..], false, "", bound));
      OnePart(cur', args[0].name);
    }
  }

  lemma OnePart(cur: string, name: string)
    ensures PartTexts((if cur == "" then [] else [Literal(cur)]) + [Reference(name)])
         == (if cur == "" then [] else [PartText(Literal(cur))]) + [PartText(Reference(name))]
  {
    hide PartText;
    var r := [Reference(name)];
    assert PartTexts(r) == [PartText(r[0])] + PartTexts([]);
    if cur != "" {
      var all := [Literal(cur)] + r;
      assert all[1..] == r && all[0] == Literal(cur);
    }
  }

  // The emitted rules

  function FunctorName(t: Term): string {
    match t
    case Atom(s) => s
    case Compound(f, _) => f
    case _ => "term"
  }

  /** No pattern can stand for a meta-predicate or for a bare variable. */
  predicate HasTrigger(goal: BodyGoal) {
    goal.Positive? ==>
      match goal.term
      case Compound(f, _) => !IsMetaPredicate(f)
      case Atom(s) => !IsMetaPredicate(s)
      case Variable(_) => false
      case _ => true
  }

  function NotPattern(t: Term): string {
    match t
    case Atom(s) => "(not_" + s + ")"
    case Compound(f, args) => "(not_" + f + " " + RenderFields(args, " ") + ")"
    case _ => "(not_" + Render(t) + ")"
  }

  function Pattern(goal: BodyGoal): string {
    if goal.Negative? then NotPattern(goal.term) else RenderFact(goal.term)
  }

  datatype Defrule = Defrule(name: string, lhs: string, rhs: string, comment: string)

  function RuleName(rule: Rule, goal: BodyGoal, counter: nat): string {
    "transduced-" + FunctorName(rule.head) + "-on-" + (if goal.Negative? then "not_" else "")
    + FunctorName(goal.term) + "-" + Numeral(counter)
  }

  function RuleFor(rule: Rule, goal: BodyGoal, counter: nat): Defrule {
    Defrule(RuleName(rule, goal, counter), Pattern(goal), HeadExpr(rule.head, Vars(goal.term)), PrintClause(rule))
  }

  function RuleText(d: Defrule): string {
    "; Transduced from: " + d.comment + "\n(defrule " + d.name + "\n    " + d.lhs
    + "\n    =>\n    (coire-publish-goal " + d.rhs + "))\n\n"
  }

  /** The goals that can trigger a rule, in program order. The counter in a rule's
      name is its goal's position here, whether or not earlier ones are emitted. */
  datatype Candidate = Candidate(rule: Rule, goal: BodyGoal)

  function GoalCandidates(rule: Rule, body: seq<BodyGoal>): seq<Candidate> {
    if body == [] then []
    else (if HasTrigger(body[0]) then [Candidate(rule, body[0])] else []) + GoalCandidates(rule, body[1..])
  }

  function Candidates(rules: seq<Rule>): seq<Candidate> {
    if rules == [] then [] else GoalCandidates(rules[0], rules[0].body) + Candidates(rules[1..])
  }

  /** The trigger binds every variable of the head. */
  predicate Covers(c: Candidate) { Vars(c.rule.head) <= Vars(c.goal.term) }

  function EmittedFor(c: Candidate, counter: nat): seq<Defrule> {
    if Covers(c) then [RuleFor(c.rule, c.goal, counter)] else []
  }

  function Emitted(candidates: seq<Candidate>, counter: nat): seq<Defrule> {
    if candidates == [] then []
    else
      EmittedFor(candidates[0], counter) + Emitted(candidates[1..], counter + 1)
  }

  function RuleTexts(ds: seq<Defrule>): string {
    if ds == [] then "" else RuleText(ds[0]) + RuleTexts(ds[1..])
  }

  lemma RuleTextsAppend(a: seq<Defrule>, b: seq<Defrule>)
    ensures RuleTexts(a + b) == RuleTexts(a) + RuleTexts(b)
  {
    hide RuleText;
    if a == [] {
      assert a + b == b;
    } else {
      assert (a + b)[1..] == a[1..] + b;
    }
  }

  lemma {:induction false} EmittedAppend(a: seq<Candidate>, b: seq<Candidate>, counter: nat)
    ensures Emitted(a + b, counter) == Emitted(a, counter) + Emitted(b, counter + |a|)
  {
    hide EmittedFor;
    if a == [] {
      assert a + b == b;
    } else {
      assert (a + b)[1..] == a[1..] + b;
      EmittedAppend(a[1..], b, counter + 1);
      assert Emitted(a + b, counter) == EmittedFor(a[0], counter) + Emitted(a[1..] + b, counter + 1);
    }
  }

  method Transduce(rules: seq<Rule>) returns (out: string)
    ensures out == RuleTexts(Emitted(Candidates(rules), 0))
  {
    hide GoalCandidates, Emitted;
    out := "";
    var counter := 0;
    ghost var done: seq<Candidate> := [];
    assert rules[0..] == rules && done + Candidates(rules) == Candidates(rules);
    NothingEmitted();
    for i := 0 to |rules|
      invariant done + Candidates(rules[i..]) == Candidates(rules)
      invariant counter == |done| && out == RuleTexts(Emitted(done, 0))
    {
      ghost var found := GoalCandidates(rules[i], rules[i].body);
      assert rules[i..][0] == rules[i] && rules[i..][1..] == rules[i + 1..];
      out, counter := TransduceBody(rules[i], out, counter, done);
      assert done + (found + Candidates(rules[i + 1..])) == done + found + Candidates(rules[i + 1..]);
      done := done + found;
    }
    assert done + [] == done;
  }

  lemma NothingEmitted()
    ensures RuleTexts([]) == "" && Emitted([], 0) == []
  {
  }

  method TransduceBody(rule: Rule, out: string, counter: nat, ghost done: seq<Candidate>)
      returns (out': string, counter': nat)
    requires counter == |done| && out == RuleTexts(Emitted(done, 0))
    ensures var all := done + GoalCandidates(rule, rule.body);
      counter' == |all| && out' == RuleTexts(Emitted(all, 0))
  {
    hide Emitted, RuleTexts, RuleText, Covers, HasTrigger, RuleFor;
    out', counter' := out, counter;
    ghost var seen := done;
    var body := rule.body;
    assert body[0..] == body;
    for i := 0 to |body|
      invariant seen + GoalCandidates(rule, body[i..]) == done + GoalCandidates(rule, body)
      invariant counter' == |seen| && out' == RuleTexts(Emitted(seen, 0))
    {
      assert body[i..][0] == body[i] && body[i..][1..] == body[i + 1..];
      var goal := body[i];
      if HasTrigger(goal) {
        ghost var c := Candidate(rule, goal);
        ghost var rest := GoalCandidates(rule, body[i + 1..]);
        assert seen + ([c] + rest) == seen + [c] + rest;
        EmitOne(seen, c);
        if Vars(rule.head) <= Vars(goal.term) {
          out' := out' + RuleText(RuleFor(rule, goal, counter'));
        }
        counter' := counter' + 1;
        seen := seen + [c];
      }
    }
    assert seen + [] == seen;
  }

  lemma EmittedOnce(c: Candidate, counter: nat)
    ensures Emitted([c], counter) == EmittedFor(c, counter)
  {
    hide RuleFor, Covers;
    assert [c][1..] == [];
  }

  lemma RuleTextsOnce(d: Defrule)
    ensures RuleTexts([d]) == RuleText(d)
  {
    hide RuleText;
    assert [d][1..] == [];
  }

  lemma EmitOne(seen: seq<Candidate>, c: Candidate)
    ensures RuleTexts(Emitted(seen + [c], 0)) == RuleTexts(Emitted(seen, 0))
      + if Vars(c.rule.head) <= Vars(c.goal.term) then RuleText(RuleFor(c.rule, c.goal, |seen|)) else ""
  {
    hide RuleText, RuleFor, RuleTexts, Emitted, Vars;
    EmittedAppend(seen, [c], 0);
    EmittedOnce(c, |seen|);
    RuleTextsAppend(Emitted(seen, 0), EmittedFor(c, |seen|));
    RuleTextsOnce(RuleFor(c.rule, c.goal, |seen|));
    NothingEmitted();
  }

  // Which rules are emitted

  lemma {:induction false} EmittedAt(cs: seq<Candidate>, counter: nat, k: nat)
    requires k < |cs|
    ensures forall d | d in EmittedFor(cs[k], counter + k) :: d in Emitted(cs, counter)
  {
    hide EmittedFor;
    if k > 0 {
      EmittedAt(cs[1..], counter + 1, k - 1);
      assert cs[1..][k - 1] == cs[k];
    }
  }

  lemma {:induction false} EmittedFrom(cs: seq<Candidate>, counter: nat, d: Defrule) returns (k: nat)
    requires d in Emitted(cs, counter)
    ensures k < |cs| && d in EmittedFor(cs[k], counter + k)
  {
    hide EmittedFor;
    if d in EmittedFor(cs[0], counter) {
      k := 0;
    } else {
      k := EmittedFrom(cs[1..], counter + 1, d);
      k := k + 1;
    }
  }

  lemma {:induction false} GoalCandidatesExactly(rule: Rule, body: seq<BodyGoal>, c: Candidate)
    ensures c in GoalCandidates(rule, body) <==> c.rule == rule && c.goal in body && HasTrigger(c.goal)
  {
    hide HasTrigger;
    if body != [] {
      GoalCandidatesExactly(rule, body[1..], c);
      assert body == [body[0]] + body[1..];
    }
  }

  lemma {:induction false} CandidatesExactly(rules: seq<Rule>, c: Candidate)
    ensures c in Candidates(rules) <==> c.rule in rules && c.goal in c.rule.body && HasTrigger(c.goal)
  {
    hide HasTrigger, GoalCandidates;
    if rules != [] {
      GoalCandidatesExactly(rules[0], rules[0].body, c);
      CandidatesExactly(rules[1..], c);
      assert rules == [rules[0]] + rules[1..];
    }
  }

  /** A rule is emitted for a goal of a program exactly when the goal has a trigger
      whose variables include all those of the head. */
  lemma GoalIsTransducedIff(rules: seq<Rule>, rule: Rule, goal: BodyGoal)
    requires rule in rules && goal in rule.body
    ensures (HasTrigger(goal) && Vars(rule.head) <= Vars(goal.term)) <==>
      exists k | 0 <= k < |Candidates(rules)| :: Candidates(rules)[k] == Candidate(rule, goal)
        && RuleFor(rule, goal, k) in Emitted(Candidates(rules), 0)
  {
    hide Candidates, Emitted, HasTrigger, RuleName, Pattern, HeadExpr, PrintClause, RuleFor;
    var cs, c := Candidates(rules), Candidate(rule, goal);
    CandidatesExactly(rules, c);
    if HasTrigger(goal) && Vars(rule.head) <= Vars(goal.term) {
      var k :| 0 <= k < |cs| && cs[k] == c;
      EmittedAt(cs, 0, k);
      assert RuleFor(rule, goal, k) in EmittedFor(cs[k], 0 + k);
    }
    if k :| 0 <= k < |cs| && cs[k] == c && RuleFor(rule, goal, k) in Emitted(cs, 0) {
      EmittedByItsCounter(cs, c, k);
    }
  }

  lemma EmittedByItsCounter(cs: seq<Candidate>, c: Candidate, k: nat)
    requires k < |cs| && cs[k] == c && RuleFor(c.rule, c.goal, k) in Emitted(cs, 0)
    ensures Covers(c)
  {
    hide Emitted, Pattern, HeadExpr, PrintClause, RuleName, Covers;
    var m := EmittedFrom(cs, 0, RuleFor(c.rule, c.goal, k));
    NamesTellCounters(c.rule, c.goal, k, cs[m].rule, cs[m].goal, m);
  }

  /** Rule names differ whenever their counters do, so no rule replaces another. */
  lemma NamesTellCounters(r: Rule, g: BodyGoal, m: nat, r': Rule, g': BodyGoal, n: nat)
    requires RuleName(r, g, m) == RuleName(r', g', n)
    ensures m == n
  {
    hide FunctorName, Numeral;
    var a := "transduced-" + FunctorName(r.head) + "-on-" + (if g.Negative? then "not_" else "") + FunctorName(g.term);
    var b := "transduced-" + FunctorName(r'.head) + "-on-" + (if g'.Negative? then "not_" else "")
      + FunctorName(g'.term);
    assert RuleName(r, g, m) == a + "-" + Numeral(m);
    assert RuleName(r', g', n) == b + "-" + Numeral(n);
    NumeralSuffix(a, m, b, n);
  }

  /** The dash before a numeral is the last one. */
  lemma NoDashInNumeral(a: string, m: nat)
    ensures forall j | |a| < j < |a| + 1 + |Numeral(m)| :: (a + "-" + Numeral(m))[j] != '-'
  {
    forall j | |a| < j < |a| + 1 + |Numeral(m)| ensures (a + "-" + Numeral(m))[j] != '-' {
      assert In(Digit, Numeral(m)[j - |a| - 1]);
    }
  }

  lemma NumeralSuffix(a: string, m: nat, b: string, n: nat)
    requires a + "-" + Numeral(m) == b + "-" + Numeral(n)
    ensures m == n
  {
    hide Numeral;
    NoDashInNumeral(a, m);
    NoDashInNumeral(b, n);
    assert (a + "-" + Numeral(m))[|a|] == '-' && (b + "-" + Numeral(n))[|b|] == '-';
    assert (a + "-" + Numeral(m))[|a| + 1..] == Numeral(m) && (b + "-" + Numeral(n))[|b| + 1..] == Numeral(n);
    NumeralInjective(m, n);
  }
}
