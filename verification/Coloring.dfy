/** Truth propagation over the rule graph, and why its result is the least one. */
module Coloring {
  import opened Terms
  import opened ClauseSyntax

  datatype TruthValue = KnownTrue | KnownFalse | KnownUnresolved | Unknown

  const META_PREDICATES := {
    "assert", "assertz", "asserta", "retract", "retractall", "abolish", "format", "write", "writeln", "nl",
    "print", "read", "copy_term", "functor", "arg", "call", "bagof", "setof", "findall", "aggregate_all",
    "is", "succ", "plus", "true", "fail", "otherwise", "coire_publish_assert", "coire_publish", "coire_emit",
    "coire_poll"
  }

  predicate IsMetaPredicate(name: string) { name in META_PREDICATES }

  /** The name a term is filed under; literals share `_`. */
  function FunctorOf(t: Term): string {
    match t
    case Atom(s) => s
    case Compound(f, _) => f
    case Variable(s) => s
    case _ => "_"
  }

  /** Negative and meta goals count as satisfied. */
  predicate Satisfied(goal: BodyGoal, known: set<string>) {
    goal.Positive? ==> IsMetaPredicate(FunctorOf(goal.term)) || FunctorOf(goal.term) in known
  }

  predicate BodySatisfied(body: seq<BodyGoal>, known: set<string>) {
    forall k | 0 <= k < |body| :: Satisfied(body[k], known)
  }

  /** Bare facts never fire. */
  predicate Fires(rule: Rule, known: set<string>) {
    rule.body != [] && BodySatisfied(rule.body, known)
  }

  ghost predicate Closed(rules: seq<Rule>, known: set<string>) {
    forall rule | rule in rules && Fires(rule, known) :: FunctorOf(rule.head) in known
  }

  /** `known` is the least set that contains `initial` and is closed under the rules. */
  ghost predicate IsLeastClosed(rules: seq<Rule>, initial: set<string>, known: set<string>) {
    && initial <= known
    && Closed(rules, known)
    && forall s: set<string> | initial <= s && Closed(rules, s) :: known <= s
  }

  function TrueFunctors(values: map<string, TruthValue>): set<string> {
    set f | f in values && values[f] == KnownTrue
  }

  ghost function Heads(rules: seq<Rule>): set<string> {
    set rule | rule in rules :: FunctorOf(rule.head)
  }

  lemma FiringIsMonotone(rule: Rule, s: set<string>, t: set<string>)
    requires Fires(rule, s) && s <= t
    ensures Fires(rule, t)
  {
    forall k | 0 <= k < |rule.body| ensures Satisfied(rule.body[k], t) {
      assert Satisfied(rule.body[k], s);
    }
  }

  /** What the propagation may have marked so far: nothing that some closed set
      above the initial one does without. */
  ghost predicate Justified(rules: seq<Rule>, initial: set<string>, known: set<string>) {
    initial <= known && forall s: set<string> | initial <= s && Closed(rules, s) :: known <= s
  }

  lemma MarkingIsJustified(rules: seq<Rule>, initial: set<string>, known: set<string>, rule: Rule)
    requires Justified(rules, initial, known) && rule in rules && Fires(rule, known)
    ensures Justified(rules, initial, known + {FunctorOf(rule.head)})
  {
    forall s: set<string> | initial <= s && Closed(rules, s) ensures FunctorOf(rule.head) in s {
      FiringIsMonotone(rule, known, s);
    }
  }

  class NodeColoring {
    var values: map<string, TruthValue>

    constructor (values: map<string, TruthValue>)
      ensures this.values == values
    {
      this.values := values;
    }
  }

  predicate OnlyMarks(before: map<string, TruthValue>, after: map<string, TruthValue>) {
    && before.Keys <= after.Keys
    && forall f | f in after && after[f] != KnownTrue :: f in before && before[f] == after[f]
  }

  /** Goes over the rules again and again, marking heads, until a pass marks
      nothing. Every functor that does not become true keeps its value. */
  method PropagateRuleColoring(rules: seq<Rule>, coloring: NodeColoring)
    modifies coloring
    ensures IsLeastClosed(rules, TrueFunctors(old(coloring.values)), TrueFunctors(coloring.values))
    ensures OnlyMarks(old(coloring.values), coloring.values)
    ensures TrueFunctors(coloring.values) <= TrueFunctors(old(coloring.values)) + Heads(rules)
  {
    ghost var initial := TrueFunctors(coloring.values);
    var changed := true;
    while changed
      invariant Justified(rules, initial, TrueFunctors(coloring.values))
      invariant OnlyMarks(old(coloring.values), coloring.values)
      invariant TrueFunctors(coloring.values) <= initial + Heads(rules)
      invariant !changed ==> Closed(rules, TrueFunctors(coloring.values))
      decreases Heads(rules) - TrueFunctors(coloring.values), changed
    {
      ghost var before := TrueFunctors(coloring.values);
      changed := MarkOnce(rules, coloring, initial);
      if changed {
        ghost var f :| f in TrueFunctors(coloring.values) && f !in before && f in Heads(rules);
        assert f in Heads(rules) - before && f !in Heads(rules) - TrueFunctors(coloring.values);
      }
    }
  }

  /** One pass over the rules. */
  method MarkOnce(rules: seq<Rule>, coloring: NodeColoring, ghost initial: set<string>) returns (changed: bool)
    requires Justified(rules, initial, TrueFunctors(coloring.values))
    modifies coloring
    ensures Justified(rules, initial, TrueFunctors(coloring.values))
    ensures OnlyMarks(old(coloring.values), coloring.values)
    ensures TrueFunctors(old(coloring.values)) <= TrueFunctors(coloring.values) <= TrueFunctors(old(coloring.values))
      + Heads(rules)
    ensures if changed then TrueFunctors(coloring.values) != TrueFunctors(old(coloring.values))
            else coloring.values == old(coloring.values) && Closed(rules, TrueFunctors(coloring.values))
  {
    hide Fires, Justified, FunctorOf;
    changed := false;
    for k := 0 to |rules|
      invariant Justified(rules, initial, TrueFunctors(coloring.values))
      invariant OnlyMarks(old(coloring.values), coloring.values)
      invariant TrueFunctors(old(coloring.values)) <= TrueFunctors(coloring.values)
        <= TrueFunctors(old(coloring.values)) + Heads(rules)
      invariant changed ==> TrueFunctors(coloring.values) != TrueFunctors(old(coloring.values))
      invariant !changed ==> coloring.values == old(coloring.values)
      invariant !changed ==> forall i | 0 <= i < k && Fires(rules[i], TrueFunctors(coloring.values)) ::
        FunctorOf(rules[i].head) in TrueFunctors(coloring.values)
    {
      var rule := rules[k];
      var head := FunctorOf(rule.head);
      if head in coloring.values && coloring.values[head] == KnownTrue {
        continue;
      }
      var known := TrueFunctors(coloring.values);
      if Fires(rule, known) {
        MarkingIsJustified(rules, initial, known, rule);
        coloring.values := coloring.values[head := KnownTrue];
        assert TrueFunctors(coloring.values) == known + {head};
        changed := true;
      }
    }
  }

  // What the least closed set is

  lemma LeastClosedIsUnique(rules: seq<Rule>, initial: set<string>, s: set<string>, t: set<string>)
    requires IsLeastClosed(rules, initial, s) && IsLeastClosed(rules, initial, t)
    ensures s == t
  {
  }

  /** The order and the repetition of rules do not matter. */
  lemma RuleOrderIsIrrelevant(rules: seq<Rule>, other: seq<Rule>, initial: set<string>, s: set<string>, t: set<string>)
    requires forall rule :: rule in rules <==> rule in other
    requires IsLeastClosed(rules, initial, s) && IsLeastClosed(other, initial, t)
    ensures s == t
  {
    hide Fires;
    assert Closed(rules, t) && Closed(other, s);
  }

  /** More rules or more initial truths never make fewer functors true. */
  lemma PropagationIsMonotone(rules: seq<Rule>, more: seq<Rule>, initial: set<string>, wider: set<string>,
                              s: set<string>, t: set<string>)
    requires (forall rule | rule in rules :: rule in more) && initial <= wider
    requires IsLeastClosed(rules, initial, s) && IsLeastClosed(more, wider, t)
    ensures s <= t
  {
    hide Fires;
    assert Closed(rules, t);
  }

  /** Functors derivable in at most `n` rounds. */
  ghost function Stage(rules: seq<Rule>, initial: set<string>, n: nat): set<string> {
    if n == 0 then initial
    else
      var known := Stage(rules, initial, n - 1);
      known + set rule | rule in rules && Fires(rule, known) :: FunctorOf(rule.head)
  }

  lemma {:induction false} StageIsBounded(rules: seq<Rule>, initial: set<string>, n: nat)
    ensures initial <= Stage(rules, initial, n) <= initial + Heads(rules)
  {
    hide Fires;
    if n > 0 {
      StageIsBounded(rules, initial, n - 1);
    }
  }

  lemma {:induction false} StageIsDerivable(rules: seq<Rule>, initial: set<string>, known: set<string>, n: nat)
    requires initial <= known && Closed(rules, known)
    ensures Stage(rules, initial, n) <= known
  {
    hide Fires;
    if n > 0 {
      var before := Stage(rules, initial, n - 1);
      StageIsDerivable(rules, initial, known, n - 1);
      forall rule | rule in rules && Fires(rule, before) ensures FunctorOf(rule.head) in known {
        FiringIsMonotone(rule, before, known);
      }
    }
  }

  /** The stages stop growing after at most as many rounds as are needed to use up
      the heads that are not yet true. */
  lemma {:induction false} StagesSettle(rules: seq<Rule>, initial: set<string>, n: nat) returns (m: nat)
    ensures m <= n + |Heads(rules) - Stage(rules, initial, n)|
    ensures Closed(rules, Stage(rules, initial, m))
    decreases |Heads(rules) - Stage(rules, initial, n)|
  {
    hide Fires;
    var now, next := Stage(rules, initial, n), Stage(rules, initial, n + 1);
    if Closed(rules, now) {
      m := n;
    } else {
      var rule :| rule in rules && Fires(rule, now) && FunctorOf(rule.head) !in now;
      var f := FunctorOf(rule.head);
      assert f in next && f in Heads(rules);
      assert Heads(rules) - next <= Heads(rules) - now - {f};
      Smaller(Heads(rules) - next, Heads(rules) - now - {f});
      m := StagesSettle(rules, initial, n + 1);
    }
  }

  lemma {:induction false} Smaller(s: set<string>, t: set<string>)
    requires s <= t
    ensures |s| <= |t|
  {
    if s != {} {
      var x :| x in s;
      Smaller(s - {x}, t - {x});
    }
  }

  /** The least closed set is reached in finitely many rounds, no more than there
      are heads: each functor in it has a derivation from the initial ones. */
  lemma LeastClosedIsAStage(rules: seq<Rule>, initial: set<string>, known: set<string>)
    requires IsLeastClosed(rules, initial, known)
    ensures exists n: nat :: n <= |Heads(rules)| && known == Stage(rules, initial, n)
  {
    hide Fires, Heads;
    var n := StagesSettle(rules, initial, 0);
    Smaller(Heads(rules) - initial, Heads(rules));
    StageIsBounded(rules, initial, n);
    StageIsDerivable(rules, initial, known, n);
    assert known == Stage(rules, initial, n);
  }

  /** A functor that became true and was not so at first is the head of a rule
      that fires under an earlier stage. */
  lemma NewTruthHasARule(rules: seq<Rule>, initial: set<string>, n: nat, f: string) returns (k: nat, rule: Rule)
    requires f in Stage(rules, initial, n) && f !in initial
    ensures k < n && rule in rules && FunctorOf(rule.head) == f && Fires(rule, Stage(rules, initial, k))
  {
    hide Fires;
    if f in Stage(rules, initial, n - 1) {
      k, rule := NewTruthHasARule(rules, initial, n - 1, f);
    } else {
      k := n - 1;
      rule :| rule in rules && Fires(rule, Stage(rules, initial, k)) && FunctorOf(rule.head) == f;
    }
  }
}
