/** What an emitted rule does: what its pattern matches and binds, when its right-hand
    side has a value, and exactly when it publishes the head of the clause. */
module EmittedRules {
  import opened Wrappers
  import opened Text
  import opened Terms
  import opened PrologSyntax
  import opened PrologRoundTrip
  import opened ClauseSyntax
  import opened ClipsSyntax
  import opened ClipsRoundTrip
  import opened Coloring
  import opened Transduction
  import opened TransductionMeaning

  // The pattern

  /** The fact that triggers a rule: for a negative goal, its `not_` counterpart. */
  function Trigger(goal: BodyGoal): Term {
    match goal
    case Positive(t) => t
    case Negative(t) =>
      match t
      case Atom(s) => Atom("not_" + s)
      case Compound(f, args) => Compound("not_" + f, args)
      case _ => t
  }

  lemma PatternIsTheTrigger(goal: BodyGoal)
    requires FactReadable(Trigger(goal))
    ensures Pattern(goal) == RenderFact(Trigger(goal))
  {
    hide RenderFields, FieldReadable, Underscored, All;
    if goal.Negative? {
      var t := Trigger(goal);
      UnderscoredKeeps(if t.Atom? then t.name else t.functor);
    }
  }

  /** The variables of a goal are as the clause reader makes them. */
  predicate WellNamed(names: set<string>) { forall v | v in names :: VariableReadable(v) }

  /** The variables that the pattern can bind: arguments at the top level, not starting
      with `_`. */
  function NamedArguments(t: Term): set<string> {
    set k | 0 <= k < |Arguments(t)| && Arguments(t)[k].Variable? && !Next(Arguments(t)[k].name, 0, '_') ::
        Arguments(t)[k].name
  }

  lemma {:induction false} ArgumentVars(args: seq<Term>, k: nat)
    requires k < |args|
    ensures Vars(args[k]) <= ArgVars(args)
  {
    if k > 0 {
      ArgumentVars(args[1..], k - 1);
    }
  }

  lemma SameArguments(goal: BodyGoal)
    requires FactReadable(Trigger(goal))
    ensures Arguments(Trigger(goal)) == Arguments(goal.term)
  {
  }

  /** Reading the pattern keeps the names of exactly these variables. */
  lemma NamedAsRead(t: Term)
    requires FactReadable(t) && WellNamed(ArgVars(Arguments(t)))
    ensures Named(Arguments(FactAsRead(t))) == NamedArguments(t)
  {
    hide FieldReadable, SymbolKept, RenderFields;
    var args := Arguments(t);
    var pattern := Arguments(FactAsRead(t));
    assert t.Compound? && args != [] ==> pattern == FieldsAsRead(args);
    assert |pattern| == |args| && forall k | 0 <= k < |args| :: pattern[k] == FieldAsRead(args[k]);
    forall k | 0 <= k < |args|
      ensures pattern[k].Variable? && pattern[k].name != "" <==> args[k].Variable? && !Next(args[k].name, 0, '_')
      ensures pattern[k].Variable? && pattern[k].name != "" ==> pattern[k].name == args[k].name
    {
      if args[k].Variable? {
        ArgumentVars(args, k);
        assert args[k].name in Vars(args[k]);
        CapitalizedOnce(args[k].name);
      }
    }
  }

  ghost predicate Ground(fields: seq<Term>) {
    forall k | 0 <= k < |fields| :: Vars(fields[k]) == {}
  }

  /** A fact that the pattern of the rule matches, with what the match binds. */
  ghost predicate Matches(goal: BodyGoal, fields: seq<Term>, env: map<string, Term>) {
    FactReadable(Trigger(goal)) && Ground(fields)
        && Match(Arguments(FactAsRead(Trigger(goal))), fields, map[]) == Some(env)
  }

  /** The rule is emitted, and its trigger is a fact that CLIPS can read. */
  predicate IsEmitted(rule: Rule, goal: BodyGoal) {
    HasTrigger(goal) && Vars(rule.head) <= Vars(goal.term) && FactReadable(Trigger(goal)) && WellNamed(Vars(goal.term))
  }

  lemma RuleParts(rule: Rule, goal: BodyGoal, counter: nat)
    ensures var d := RuleFor(rule, goal, counter);
      d.lhs == Pattern(goal) && d.rhs == HeadExpr(rule.head, Vars(goal.term))
  {
    hide RuleName, Pattern, HeadExpr, PrintClause, Vars;
  }

  /** The pattern text is read as the trigger with its nested terms flattened to
      strings and its `_` variables anonymous; so a match binds exactly the variables
      that stand at the top level of the trigger and do not start with `_`, to terms
      of the fact, and the fact agrees with the pattern everywhere. */
  lemma PatternMeaning(rule: Rule, goal: BodyGoal, counter: nat, fields: seq<Term>, env: map<string, Term>)
    requires IsEmitted(rule, goal) && Matches(goal, fields, env)
    ensures var d := RuleFor(rule, goal, counter);
      ParseFact(d.lhs, 0) == Ok(FactAsRead(Trigger(goal)), |d.lhs|)
    ensures env.Keys == NamedArguments(goal.term)
    ensures forall v | v in env :: env[v] in fields && Vars(env[v]) == {}
    ensures var pattern := Arguments(FactAsRead(Trigger(goal)));
      |fields| == |pattern| && forall k | 0 <= k < |pattern| :: Agrees(pattern[k], fields[k], env)
  {
    hide ParseFact, Pattern, Trigger, RenderFact, FactReadable, FactAsRead, Match, Vars, ArgVars, Named, NamedArguments,
        Agrees, RuleFor;
    var pattern := Arguments(FactAsRead(Trigger(goal)));
    RuleParts(rule, goal, counter);
    PatternIsTheTrigger(goal);
    AtWhole(Pattern(goal));
    FactReadsAs(Trigger(goal), Pattern(goal), 0);
    MatchBinds(pattern, fields, map[], env);
    MatchValuesAreFields(pattern, fields, map[], env);
    SameArguments(goal);
    TermVars(goal.term);
    NamedAsRead(Trigger(goal));
    SameNamed(goal);
  }

  lemma SameNamed(goal: BodyGoal)
    requires FactReadable(Trigger(goal))
    ensures NamedArguments(Trigger(goal)) == NamedArguments(goal.term)
  {
    SameArguments(goal);
  }

  lemma TermVars(t: Term)
    ensures ArgVars(Arguments(t)) <= Vars(t)
  {
  }

  // When it runs

  /** The variables that stand as arguments at the top level. */
  function TopVariables(t: Term): set<string> {
    set k | 0 <= k < |Arguments(t)| && Arguments(t)[k].Variable? :: Arguments(t)[k].name
  }

  lemma TopVariablesAreVars(t: Term)
    ensures TopVariables(t) <= Vars(t)
  {
    forall k | 0 <= k < |Arguments(t)| && Arguments(t)[k].Variable? ensures Arguments(t)[k].name in Vars(t) {
      ArgumentVars(Arguments(t), k);
    }
  }

  /** For a head that survives being written unescaped, the right-hand side has a value
      on every matching fact exactly if every variable at the top level of the head
      stands at the top level of the trigger and does not start with `_`. The covering
      test that lets the rule be emitted asks less. */
  lemma RuleRunsIff(rule: Rule, goal: BodyGoal, counter: nat, fields: seq<Term>, env: map<string, Term>)
    requires IsEmitted(rule, goal) && Matches(goal, fields, env) && HeadClean(rule.head)
    ensures EvalExpr(RuleFor(rule, goal, counter).rhs, Texts(env)).Some?
      <==> TopVariables(rule.head) <= NamedArguments(goal.term)
  {
    hide EvalExpr, HeadExpr, HeadClean, Vars, NamedArguments, RuleFor, Matches, FactReadable, HasTrigger;
    PatternMeaning(rule, goal, counter, fields, env);
    RuleParts(rule, goal, counter);
    TopVariablesAreVars(rule.head);
    HeadWrittenIff(rule.head, Vars(goal.term), Texts(env));
    var args := Arguments(rule.head);
    forall k | 0 <= k < |args| ensures IsBound(args[k], Vars(goal.term)) <==> args[k].Variable? {
      assert args[k].Variable? ==> args[k].name in TopVariables(rule.head);
    }
  }

  // What it publishes

  lemma {:induction false} SubstitutionIsGround(t: Term, env: map<string, Term>)
    requires forall v | v in env :: Vars(env[v]) == {}
    ensures Vars(Substitute(t, env)) == Vars(t) - env.Keys
    decreases t, 0
  {
    if t.Compound? {
      ArgSubstitutionIsGround(t.args, env);
    }
  }

  lemma {:induction false} ArgSubstitutionIsGround(args: seq<Term>, env: map<string, Term>)
    requires forall v | v in env :: Vars(env[v]) == {}
    ensures ArgVars(SubstituteArgs(args, env)) == ArgVars(args) - env.Keys
    decreases args, 1
  {
    if args != [] {
      SubstitutionIsGround(args[0], env);
      ArgSubstitutionIsGround(args[1..], env);
      assert SubstituteArgs(args, env)[0] == Substitute(args[0], env);
      assert SubstituteArgs(args, env)[1..] == SubstituteArgs(args[1..], env);
    }
  }

  /** A flat head whose variables the pattern binds is published as its printed instance,
      which has no variables, exactly if functor and values print without quotes: for
      every fact, whatever characters its values have. Prolog reads the instance back from
      that text exactly if it is readable. */
  lemma EmittedRuleMeaning(rule: Rule, goal: BodyGoal, counter: nat, fields: seq<Term>, env: map<string, Term>)
    requires IsEmitted(rule, goal) && Matches(goal, fields, env)
    requires HeadFlat(rule.head) && Vars(rule.head) <= NamedArguments(goal.term)
    ensures Vars(Substitute(rule.head, env)) == {}
    ensures var published, instance := EvalExpr(RuleFor(rule, goal, counter).rhs, Texts(env)),
      Substitute(rule.head, env);
      && published.Some? && (published.value == Render(instance) <==> HeadPlain(rule.head, env))
      && (HeadPlain(rule.head, env) && FloatFree(instance) ==>
           (ParseText(published.value) == Ok(instance, |published.value|) <==> Readable(instance)))
  {
    hide HeadFlat, Vars, EvalExpr, HeadExpr, Texts, Substitute, Render, HeadPlain, NamedArguments, RuleFor, Matches,
        FactReadable, HasTrigger, ParseText, Readable, FloatFree;
    PatternMeaning(rule, goal, counter, fields, env);
    RuleParts(rule, goal, counter);
    SubstitutionIsGround(rule.head, env);
    PublishedGoalIff(rule.head, Vars(goal.term), env);
    if FloatFree(Substitute(rule.head, env)) {
      PrintedTextReadsBackIff(Substitute(rule.head, env));
    }
  }
}
