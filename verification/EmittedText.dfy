/** Reading the emitted program back, comments and names included: what CLIPS finds in it
    are the emitted rules, as long as names are symbols and comments end where they should.
    A symbol is what the program's own fact reader takes for one. */
module EmittedText {
  import opened Wrappers
  import opened Text
  import opened Terms
  import opened PrologSyntax
  import opened PrologRoundTrip
  import opened ClauseSyntax
  import opened ClipsSyntax
  import opened ClipsRoundTrip
  import opened Coloring
  import opened Transduction
  import opened TransductionMeaning
  import opened EmittedRules

  // A reader of rules of the emitted form

  /** A rule as read: its name, its pattern, and the parts that its goal is put together
      from. */
  datatype Construct = Construct(name: string, pattern: Term, parts: seq<Part>)

  /** White space, and comments up to the end of their line. */
  function SkipComments(s: string, i: nat): (j: nat)
    requires i <= |s|
    ensures i <= j <= |s|
    decreases |s| - i
  {
    var j := SkipSpace(s, i);
    if Next(s, j, ';') then SkipComments(s, Span(NotNewline, s, j)) else j
  }

  /** Strings and variables, up to the parenthesis. */
  function ReadParts(s: string, i: nat): (r: Parsed<seq<Part>>)
    requires i <= |s|
    ensures i <= r.pos <= |s|
    decreases |s| - i
  {
    var j := SkipSpace(s, i);
    if j == |s| then Err(j)
    else if s[j] == ')' then Ok([], j + 1)
    else if s[j] == '"' then
      match StringToken(s, j + 1)
      case Err(pos) => Err(pos)
      case Ok(text, pos) => Prepend([Literal(text)], ReadParts(s, pos))
    else if s[j] == '?' then
      var k := Span(ClipsVariable, s, j + 1);
      Prepend([Reference(s[j + 1..k])], ReadParts(s, k))
    else Err(j)
  }

  function ReadExpr(s: string, i: nat): (r: Parsed<seq<Part>>)
    requires i <= |s|
    ensures i <= r.pos <= |s|
  {
    if Next(s, i, '"') then
      match StringToken(s, i + 1)
      case Err(pos) => Err(pos)
      case Ok(text, pos) => Ok([Literal(text)], pos)
    else if At(s, i, "(str-cat ") then ReadParts(s, i + 9)
    else Err(i)
  }

  function ReadAction(s: string, i: nat): (r: Parsed<seq<Part>>)
    requires i <= |s|
    ensures i <= r.pos <= |s|
  {
    if !At(s, i, "(coire-publish-goal ") then Err(i)
    else
      match ReadExpr(s, i + 20)
      case Err(pos) => Err(pos)
      case Ok(parts, pos) => if At(s, pos, "))") then Ok(parts, pos + 2) else Err(pos)
  }

  function ReadConstruct(s: string, i: nat): (r: Parsed<Construct>)
    requires i <= |s|
    ensures i <= r.pos <= |s| && (r.Ok? ==> i < r.pos)
  {
    var j := SkipComments(s, i);
    if !At(s, j, "(defrule ") then Err(j)
    else
      var n := Span(ClipsSymbol, s, j + 9);
      match ParseFact(s, SkipComments(s, n))
      case Err(pos) => Err(pos)
      case Ok(pattern, pos) =>
        var m := SkipComments(s, pos);
        if !At(s, m, "=>") then Err(m)
        else
          match ReadAction(s, SkipComments(s, m + 2))
          case Err(pos) => Err(pos)
          case Ok(parts, pos) => Ok(Construct(s[j + 9..n], pattern, parts), pos)
  }

  function ReadConstructs(s: string, i: nat): (r: Parsed<seq<Construct>>)
    requires i <= |s|
    decreases |s| - i
  {
    if SkipComments(s, i) == |s| then Ok([], |s|)
    else
      match ReadConstruct(s, i)
      case Err(pos) => Err(pos)
      case Ok(c, pos) => Prepend([c], ReadConstructs(s, pos))
  }

  // What should be read

  /** The parts that the goal of a rule is put together from. */
  function HeadParts(head: Term, bound: set<string>): seq<Part> {
    match head
    case Atom(s) => [Literal(s)]
    case Compound(f, args) =>
      if exists k | 0 <= k < |args| :: IsBound(args[k], bound) then ArgParts(args, true, f + "(", bound)
      else [Literal(f + "(" + Join(ArgTexts(args), ",") + ")")]
    case _ => [Literal(Render(head))]
  }

  function ConstructFor(c: Candidate, counter: nat): Construct {
    Construct(RuleName(c.rule, c.goal, counter), FactAsRead(Trigger(c.goal)), HeadParts(c.rule.head, Vars(c.goal.term)))
  }

  function Constructs(cs: seq<Candidate>, counter: nat): seq<Construct> {
    if cs == [] then []
      else (if Covers(cs[0]) then [ConstructFor(cs[0], counter)] else []) + Constructs(cs[1..], counter + 1)
  }

  /** A rule that CLIPS can tell from its text: functors are symbols, the trigger is a
      fact it can read, the head survives being written unescaped, and the comment with
      the clause stays on its line. */
  predicate Legible(c: Candidate) {
    && IsEmitted(c.rule, c.goal) && HeadClean(c.rule.head)
    && All(ClipsSymbol, FunctorName(c.rule.head)) && All(NotNewline, PrintClause(c.rule))
  }

  // The parts

  lemma LiteralIsRead(text: string, s: string, i: nat)
    requires Clean(text) && At(s, i, PartText(Literal(text)))
    ensures Next(s, i, '"') && StringToken(s, i + 1) == Ok(text, i + |text| + 2)
  {
    hide At, Clean, StringToken;
    AtAssociates(s, i, "\"", text, "\"");
    AtOpens(s, i, '"', text + "\"");
    AtEndsWith(s, i + 1, text, '"');
    CleanTokenReads(text, s, i + 1);
  }

  lemma LiteralPartIsRead(text: string, s: string, i: nat)
    requires Clean(text) && At(s, i, PartText(Literal(text)))
    ensures ReadParts(s, i) == Prepend([Literal(text)], ReadParts(s, i + |text| + 2))
  {
    hide StringToken, Span, Clean, At, PartText;
    LiteralIsRead(text, s, i);
    SkipsNothing(s, i);
  }

  lemma ReferencePartIsRead(name: string, s: string, i: nat)
    requires All(ClipsVariable, name) && At(s, i, "?" + name)
    requires var j := i + 1 + |name|; Next(s, j, ' ') || Next(s, j, ')')
    ensures ReadParts(s, i) == Prepend([Reference(name)], ReadParts(s, i + 1 + |name|))
  {
    hide StringToken, Span, All;
    AtSplits(s, i, "?", name);
    AtFirst(s, i, "?");
    SpanOfText(ClipsVariable, s, i + 1, name);
    SkipsNothing(s, i);
  }

  lemma PartIsRead(p: Part, s: string, i: nat)
    requires PartReadable(p) && At(s, i, PartText(p))
    requires var j := i + |PartText(p)|; Next(s, j, ' ') || Next(s, j, ')')
    ensures ReadParts(s, i) == Prepend([p], ReadParts(s, i + |PartText(p)|))
  {
    hide ReadParts, All, Clean, At;
    match p
    case Literal(text) => LiteralPartIsRead(text, s, i);
    case Reference(name) => ReferencePartIsRead(name, s, i);
  }

  lemma PartsSkipSpace(s: string, i: nat)
    requires Next(s, i, ' ')
    ensures ReadParts(s, i) == ReadParts(s, i + 1)
  {
    hide StringToken;
    assert SkipSpace(s, i) == SkipSpace(s, i + 1);
  }

  lemma PartsEnd(s: string, i: nat)
    requires Next(s, i, ')')
    ensures ReadParts(s, i) == Ok([], i + 1)
  {
    hide StringToken;
    SkipsNothing(s, i);
  }

  lemma {:induction false} PartsAreRead(parts: seq<Part>, s: string, i: nat)
    requires parts != [] && PartsReadable(parts) && At(s, i, Join(PartTexts(parts), " ") + ")")
    ensures ReadParts(s, i) == Ok(parts, i + |Join(PartTexts(parts), " ")| + 1)
  {
    hide ReadParts, Join, PartTexts, PartText, PartReadable, At;
    var j := i + |PartText(parts[0])|;
    PartTextsAre(parts);
    JoinSplits(PartTexts(parts), s, i);
    PartIsRead(parts[0], s, i);
    if |parts| == 1 {
      PartsEnd(s, j);
      assert [parts[0]] + [] == parts;
    } else {
      PartsSkipSpace(s, j);
      PartsAreRead(parts[1..], s, j + 1);
      assert [parts[0]] + parts[1..] == parts;
    }
  }

  lemma LiteralHeadIsRead(text: string, s: string, i: nat)
    requires Clean(text) && At(s, i, PartText(Literal(text)))
    ensures ReadExpr(s, i) == Ok([Literal(text)], i + |PartText(Literal(text))|)
  {
    hide Clean, StringToken, At, ReadParts;
    LiteralIsRead(text, s, i);
  }

  lemma ConcatenationIsRead(parts: seq<Part>, s: string, i: nat)
    requires parts != [] && PartsReadable(parts) && At(s, i, "(str-cat " + Join(PartTexts(parts), " ") + ")")
    ensures ReadExpr(s, i) == Ok(parts, i + |"(str-cat " + Join(PartTexts(parts), " ") + ")"|)
  {
    hide ReadParts, StringToken, Join, PartTexts, PartsReadable, At;
    var texts := Join(PartTexts(parts), " ");
    AtAssociates(s, i, "(str-cat ", texts, ")");
    AtSplits(s, i, "(str-cat ", texts + ")");
    AtFirst(s, i, "(str-cat ");
    PartsAreRead(parts, s, i + 9);
  }

  lemma FixedHeadIsRead(f: string, args: seq<Term>, bound: set<string>, s: string, i: nat)
    requires Clean(f) && forall k | 0 <= k < |args| :: ArgClean(args[k]) && !IsBound(args[k], bound)
    requires var text := f + "(" + Join(ArgTexts(args), ",") + ")"; At(s, i, PartText(Literal(text)))
    ensures var text := f + "(" + Join(ArgTexts(args), ",") + ")";
      ReadExpr(s, i) == Ok([Literal(text)], i + |PartText(Literal(text))|)
  {
    hide ReadExpr, Clean, ArgClean, Join, IsBound, ArgTexts, At, WrittenArgs;
    var inner := Join(ArgTexts(args), ",");
    LiteralArgs(args, true, bound, map[]);
    assert "" + inner == inner;
    CommaIsClean(f);
    CommaIsClean(inner);
    CleanAppend(f + "(", inner + ")");
    assert f + "(" + inner + ")" == f + "(" + (inner + ")");
    LiteralHeadIsRead(f + "(" + inner + ")", s, i);
  }

  /** A head that survives being written unescaped is read as its parts. */
  lemma HeadIsRead(head: Term, bound: set<string>, s: string, i: nat)
    requires HeadClean(head) && At(s, i, HeadExpr(head, bound))
    ensures ReadExpr(s, i) == Ok(HeadParts(head, bound), i + |HeadExpr(head, bound)|)
  {
    hide ReadExpr, Clean, ArgClean, ArgParts, Join, PartTexts, PartsReadable, IsBound, ArgTexts, At, PartsValue,
      WrittenArgs, Render;
    match head
    case Atom(w) => LiteralHeadIsRead(w, s, i);
    case Compound(f, args) =>
      if exists k | 0 <= k < |args| :: IsBound(args[k], bound) {
        CommaIsClean(f);
        ArgPartsEvaluate(args, true, f + "(", bound, map[]);
        ConcatenationIsRead(ArgParts(args, true, f + "(", bound), s, i);
      } else {
        var text := f + "(" + Join(ArgTexts(args), ",") + ")";
        assert "\"" + f + "(" + Join(ArgTexts(args), ",") + ")" + "\"" == PartText(Literal(text));
        FixedHeadIsRead(f, args, bound, s, i);
      }
    case _ => LiteralHeadIsRead(Render(head), s, i);
  }

  // The layout

  const INTRO := "; Transduced from: "
  const OPENING := "\n(defrule "
  const INDENT := "\n    "
  const ARROW := "\n    =>\n    (coire-publish-goal "
  const CLOSING := "))\n\n"

  /** Where the pieces of a rule's text stand. */
  lemma RulePieces(d: Defrule, s: string, i: nat) returns (c: nat, n: nat, l: nat, r: nat)
    requires At(s, i, RuleText(d))
    ensures c == i + 19 + |d.comment| && At(s, i, INTRO) && At(s, i + 19, d.comment) && At(s, c, OPENING)
    ensures n == c + 10 && At(s, n, d.name) && At(s, n + |d.name|, INDENT)
    ensures l == n + |d.name| + 5 && At(s, l, d.lhs) && At(s, l + |d.lhs|, ARROW)
    ensures r == l + |d.lhs| + 32 && At(s, r, d.rhs) && At(s, r + |d.rhs|, CLOSING)
    ensures r + |d.rhs| + 4 == i + |RuleText(d)|
  {
    hide At;
    var a := INTRO + d.comment;
    var b := a + OPENING + d.name;
    var e := b + INDENT + d.lhs;
    var f := e + ARROW + d.rhs;
    assert RuleText(d) == f + CLOSING;
    AtSplits(s, i, f, CLOSING);
    AtSplits(s, i, e + ARROW, d.rhs);
    AtSplits(s, i, e, ARROW);
    AtSplits(s, i, b + INDENT, d.lhs);
    AtSplits(s, i, b, INDENT);
    AtSplits(s, i, a + OPENING, d.name);
    AtSplits(s, i, a, OPENING);
    AtSplits(s, i, INTRO, d.comment);
    c := i + 19 + |d.comment|;
    n := c + 10;
    l := n + |d.name| + 5;
    r := l + |d.lhs| + 32;
  }

  lemma SkipsBlanks(s: string, i: nat, w: string)
    requires At(s, i, w) && All(Space, w)
    requires i + |w| < |s| ==> !IsSpace(s[i + |w|]) && s[i + |w|] != ';'
    ensures SkipComments(s, i) == i + |w|
  {
    SpanOfText(Space, s, i, w);
  }

  /** A comment ends with its line. */
  lemma SkipsOneComment(s: string, i: nat, w: string)
    requires At(s, i, w) && w != "" && w[0] == ';' && All(NotNewline, w) && Next(s, i + |w|, '\n')
    ensures SkipComments(s, i) == SkipComments(s, i + |w|)
  {
    hide Span;
    AtFirst(s, i, w);
    SkipsNothing(s, i);
    SpanOfText(NotNewline, s, i, w);
  }

  lemma IntroStaysOnLine(comment: string)
    requires All(NotNewline, comment)
    ensures All(NotNewline, INTRO + comment)
  {
    forall k | 0 <= k < |INTRO + comment| ensures In(NotNewline, (INTRO + comment)[k]) {
      if k < |INTRO| {
        assert (INTRO + comment)[k] == INTRO[k];
      } else {
        assert (INTRO + comment)[k] == comment[k - |INTRO|];
      }
    }
  }

  lemma OpeningSplits(s: string, c: nat)
    requires At(s, c, OPENING)
    ensures Next(s, c, '\n') && Next(s, c + 1, '(') && At(s, c + 1, "(defrule ") && At(s, c, "\n") && All(Space, "\n")
  {
    hide At;
    assert OPENING == "\n" + "(defrule ";
    AtSplits(s, c, "\n", "(defrule ");
    AtFirst(s, c, "\n");
    AtFirst(s, c + 1, "(defrule ");
  }

  lemma IntroIsSkipped(comment: string, s: string, i: nat)
    requires At(s, i, INTRO) && At(s, i + 19, comment) && At(s, i + 19 + |comment|, OPENING) && All(NotNewline, comment)
    ensures var c := i + 19 + |comment|; SkipComments(s, i) == c + 1 && At(s, c + 1, "(defrule ")
  {
    hide All, SkipComments;
    var c, w := i + 19 + |comment|, INTRO + comment;
    IntroStaysOnLine(comment);
    assert s[i..i + |w|] == s[i..i + 19] + s[i + 19..c];
    hide At;
    OpeningSplits(s, c);
    SkipsOneComment(s, i, w);
    SkipsBlanks(s, c, "\n");
  }

  lemma IndentIsSkipped(s: string, i: nat)
    requires At(s, i, INDENT) && i + 5 < |s| && !IsSpace(s[i + 5]) && s[i + 5] != ';'
    ensures SkipComments(s, i) == i + 5
  {
    SkipsBlanks(s, i, INDENT);
  }

  lemma ArrowSplits(s: string, i: nat, arrow: string, action: string)
    requires At(s, i, ARROW) && arrow == "=>" && action == "(coire-publish-goal "
    ensures At(s, i, INDENT) && At(s, i + 5, arrow) && At(s, i + 7, INDENT) && At(s, i + 12, action)
  {
    hide At;
    assert ARROW == INDENT + arrow + INDENT + action;
    AtSplits(s, i, INDENT + arrow + INDENT, action);
    AtSplits(s, i, INDENT + arrow, INDENT);
    AtSplits(s, i, INDENT, arrow);
  }

  lemma ArrowIsRead(s: string, i: nat)
    requires At(s, i, ARROW)
    ensures SkipComments(s, i) == i + 5 && At(s, i + 5, "=>")
    ensures SkipComments(s, i + 7) == i + 12 && At(s, i + 12, "(coire-publish-goal ")
  {
    hide SkipComments, At;
    var arrow, action := "=>", "(coire-publish-goal ";
    ArrowSplits(s, i, arrow, action);
    AtFirst(s, i + 5, arrow);
    AtFirst(s, i + 12, action);
    IndentIsSkipped(s, i);
    IndentIsSkipped(s, i + 7);
  }

  // Names

  /** What is read of a name: the symbol it starts with. */
  function NameAsRead(name: string): string { name[..Span(ClipsSymbol, name, 0)] }

  lemma {:induction false} SameSpan(cls: CharClass, a: string, s: string, i: nat, k: nat)
    requires At(s, i, a) && k <= |a| && (i + |a| < |s| ==> !In(cls, s[i + |a|]))
    ensures Span(cls, s, i + k) == i + Span(cls, a, k)
    decreases |a| - k
  {
    if k < |a| {
      assert s[i..i + |a|][k] == a[k];
      SameSpan(cls, a, s, i, k + 1);
    }
  }

  lemma NameIsRead(name: string, s: string, n: nat)
    requires At(s, n, name) && At(s, n + |name|, INDENT)
    ensures s[n..Span(ClipsSymbol, s, n)] == NameAsRead(name)
    ensures All(ClipsSymbol, name) ==> Span(ClipsSymbol, s, n) == n + |name| && NameAsRead(name) == name
  {
    AtFirst(s, n + |name|, INDENT);
    SameSpan(ClipsSymbol, name, s, n, 0);
    var k := Span(ClipsSymbol, name, 0);
    assert s[n..n + k] == s[n..n + |name|][..k];
    if All(ClipsSymbol, name) {
      SpanOfText(ClipsSymbol, name, 0, name);
    }
  }

  lemma SymbolsJoin(a: string, b: string)
    ensures All(ClipsSymbol, a + b) <==> All(ClipsSymbol, a) && All(ClipsSymbol, b)
  {
    assert forall k | 0 <= k < |a| :: (a + b)[k] == a[k];
    assert forall k | 0 <= k < |b| :: (a + b)[|a| + k] == b[k];
  }

  lemma NumeralIsSymbol(n: nat)
    ensures All(ClipsSymbol, Numeral(n))
  {
    forall k | 0 <= k < |Numeral(n)| ensures In(ClipsSymbol, Numeral(n)[k]) {
      assert In(Digit, Numeral(n)[k]);
    }
  }

  lemma ConstantsAreSymbols()
    ensures All(ClipsSymbol, "transduced-") && All(ClipsSymbol, "-on-") && All(ClipsSymbol, "not_")
      && All(ClipsSymbol, "") && All(ClipsSymbol, "-")
  {
  }

  /** A name is one symbol exactly if both functors are made of symbol characters. */
  lemma NameIsSymbolIff(rule: Rule, goal: BodyGoal, counter: nat)
    ensures All(ClipsSymbol, RuleName(rule, goal, counter))
       <==> All(ClipsSymbol, FunctorName(rule.head)) && All(ClipsSymbol, FunctorName(goal.term))
  {
    hide All, FunctorName, Numeral;
    ConstantsAreSymbols();
    NumeralIsSymbol(counter);
    var a := "transduced-" + FunctorName(rule.head);
    var b := a + "-on-";
    var c := b + (if goal.Negative? then "not_" else "");
    var d := c + FunctorName(goal.term);
    var e := d + "-";
    assert RuleName(rule, goal, counter) == e + Numeral(counter);
    SymbolsJoin(e, Numeral(counter));
    SymbolsJoin(d, "-");
    SymbolsJoin(c, FunctorName(goal.term));
    SymbolsJoin(b, if goal.Negative? then "not_" else "");
    SymbolsJoin(a, "-on-");
    SymbolsJoin("transduced-", FunctorName(rule.head));
  }

  lemma {:induction false} PrefixSpan(cls: CharClass, a: string, b: string, k: nat)
    requires k <= |a| && exists m :: k <= m < |a| && !In(cls, a[m])
    ensures Span(cls, a + b, k) == Span(cls, a, k) < |a|
    decreases |a| - k
  {
    assert (a + b)[k] == a[k];
    if In(cls, a[k]) {
      PrefixSpan(cls, a, b, k + 1);
    }
  }

  /** If the functor of a head is no symbol, then what is read of a rule's name depends on
      neither the goal nor the counter: all rules with such a head have the same name, so
      that each would replace the one before. */
  lemma OddFunctorsShareOneName(r: Rule, g: BodyGoal, m: nat, r': Rule, g': BodyGoal, n: nat)
    requires FunctorName(r.head) == FunctorName(r'.head) && !All(ClipsSymbol, FunctorName(r.head))
    ensures NameAsRead(RuleName(r, g, m)) == NameAsRead(RuleName(r', g', n))
  {
    var f := FunctorName(r.head);
    var a := "transduced-" + f;
    var k :| 0 <= k < |f| && !In(ClipsSymbol, f[k]);
    assert a[11 + k] == f[k];
    OddNameAsRead(r, g, m, a);
    OddNameAsRead(r', g', n, a);
  }

  lemma OddNameAsRead(r: Rule, g: BodyGoal, m: nat, a: string)
    requires a == "transduced-" + FunctorName(r.head) && exists k :: 0 <= k < |a| && !In(ClipsSymbol, a[k])
    ensures NameAsRead(RuleName(r, g, m)) == NameAsRead(a)
  {
    hide FunctorName, Numeral, In, Span;
    var b := "-on-" + (if g.Negative? then "not_" else "") + FunctorName(g.term) + "-" + Numeral(m);
    assert RuleName(r, g, m) == a + b;
    PrefixSpan(ClipsSymbol, a, b, 0);
    var k := Span(ClipsSymbol, a, 0);
    assert (a + b)[..k] == a[..k];
  }

  // One rule

  lemma LegibleName(c: Candidate, counter: nat)
    requires Legible(c)
    ensures All(ClipsSymbol, RuleName(c.rule, c.goal, counter))
  {
    hide HeadClean, FieldReadable;
    var t := c.goal.term;
    var f := FunctorName(t);
    if c.goal.Negative? {
      SymbolsJoin("not_", f);
    }
    NameIsSymbolIff(c.rule, c.goal, counter);
  }

  lemma PatternStart(c: Candidate, counter: nat, s: string, l: nat)
    requires Legible(c) && At(s, l, RuleFor(c.rule, c.goal, counter).lhs)
    ensures Next(s, l, '(')
    ensures ParseFact(s, l) == Ok(FactAsRead(Trigger(c.goal)), l + |RuleFor(c.rule, c.goal, counter).lhs|)
  {
    hide ParseFact, FactAsRead, HeadClean, HasTrigger, HeadExpr, PrintClause, RuleName, FieldReadable, RenderFields,
        SymbolKept;
    var t := Trigger(c.goal);
    PatternIsTheTrigger(c.goal);
    assert RenderFact(t)[0] == '(';
    AtFirst(s, l, RenderFact(t));
    FactReadsAs(t, s, l);
  }

  lemma ActionIsRead(c: Candidate, counter: nat, s: string, l: nat, r: nat)
    requires Legible(c) && var d := RuleFor(c.rule, c.goal, counter);
      r == l + 20 && At(s, l, "(coire-publish-goal ") && At(s, r, d.rhs) && At(s, r + |d.rhs|, CLOSING)
    ensures ReadAction(s, l)
      == Ok(HeadParts(c.rule.head, Vars(c.goal.term)), r + |RuleFor(c.rule, c.goal, counter).rhs| + 2)
  {
    hide ReadExpr, HeadClean, HeadExpr, HeadParts, PrintClause, RuleName, Pattern, IsEmitted, All, Vars, At;
    var d := RuleFor(c.rule, c.goal, counter);
    HeadIsRead(c.rule.head, Vars(c.goal.term), s, r);
    ClosingSplits(s, r + |d.rhs|);
  }

  /** A construct is read from its pieces. */
  lemma ConstructStep(s: string, i: nat, j: nat, name: string, l: nat, pattern: Term, m: nat, parts: seq<Part>, k: nat)
    requires i <= |s| && SkipComments(s, i) == j && At(s, j, "(defrule ")
    requires var n := Span(ClipsSymbol, s, j + 9); s[j + 9..n] == name && SkipComments(s, n) == l
    requires ParseFact(s, l) == Ok(pattern, m) && m <= |s| && SkipComments(s, m) == m + 5 && At(s, m + 5, "=>")
    requires SkipComments(s, m + 7) == m + 12 && ReadAction(s, m + 12) == Ok(parts, k)
    ensures ReadConstruct(s, i) == Ok(Construct(name, pattern, parts), k)
  {
    hide SkipComments, ReadAction, ParseFact, Span;
  }

  /** The text of a legible rule is read as the rule, up to the blank line after it. */
  lemma RuleIsRead(c: Candidate, counter: nat, s: string, i: nat)
    requires Legible(c) && At(s, i, RuleText(RuleFor(c.rule, c.goal, counter)))
    ensures var j := i + |RuleText(RuleFor(c.rule, c.goal, counter))| - 2;
      && ReadConstruct(s, i) == Ok(ConstructFor(c, counter), j)
      && At(s, j, "\n\n") && SkipComments(s, i) < |s|
  {
    hide SkipComments, ReadAction, ReadConstruct, ParseFact, HeadClean, HeadExpr, HeadParts, PrintClause, RuleName,
      Pattern, IsEmitted, All, Vars, At, RuleText, Span, FactAsRead, Trigger;
    var d := RuleFor(c.rule, c.goal, counter);
    var e, n, l, r := RulePieces(d, s, i);
    IntroIsSkipped(d.comment, s, i);
    LegibleName(c, counter);
    NameIsRead(d.name, s, n);
    PatternStart(c, counter, s, l);
    IndentIsSkipped(s, n + |d.name|);
    ArrowIsRead(s, l + |d.lhs|);
    ActionIsRead(c, counter, s, r - 20, r);
    ConstructStep(s, i, e + 1, d.name, l, FactAsRead(Trigger(c.goal)), l + |d.lhs|,
                  HeadParts(c.rule.head, Vars(c.goal.term)), r + |d.rhs| + 2);
    AtFirst(s, e + 1, "(defrule ");
    ClosingSplits(s, r + |d.rhs|);
  }

  lemma ClosingSplits(s: string, i: nat)
    requires At(s, i, CLOSING)
    ensures At(s, i, "))") && At(s, i + 2, "\n\n")
  {
    hide At;
    assert CLOSING == "))" + "\n\n";
    AtSplits(s, i, "))", "\n\n");
  }

  // The whole text

  lemma NewlinesAreSkipped(s: string, i: nat)
    requires At(s, i, "\n\n")
    ensures SkipComments(s, i) == SkipComments(s, i + 2)
  {
    AtPair(s, i, '\n', '\n');
    assert SkipSpace(s, i) == SkipSpace(s, i + 1) == SkipSpace(s, i + 2);
  }

  lemma ReadingSkipsNewlines(s: string, i: nat)
    requires At(s, i, "\n\n")
    ensures ReadConstructs(s, i) == ReadConstructs(s, i + 2)
  {
    hide SkipComments, ReadAction, ParseFact, Span, At;
    AtPair(s, i, '\n', '\n');
    NewlinesAreSkipped(s, i);
  }

  lemma OneMoreIsRead(s: string, i: nat, c: Construct, j: nat)
    requires i <= |s| && SkipComments(s, i) < |s| && ReadConstruct(s, i) == Ok(c, j)
    ensures j <= |s| && ReadConstructs(s, i) == Prepend([c], ReadConstructs(s, j))
  {
    hide ReadConstruct, SkipComments;
  }

  lemma FirstEmitted(cs: seq<Candidate>, counter: nat)
    requires cs != []
    ensures RuleTexts(Emitted(cs, counter))
         == (if Covers(cs[0]) then RuleText(RuleFor(cs[0].rule, cs[0].goal, counter)) else "")
            + RuleTexts(Emitted(cs[1..], counter + 1))
    ensures Constructs(cs, counter)
         == (if Covers(cs[0]) then [ConstructFor(cs[0], counter)] else []) + Constructs(cs[1..], counter + 1)
  {
    hide ConstructFor, RuleFor, RuleText, Covers;
    var rest := Emitted(cs[1..], counter + 1);
    if Covers(cs[0]) {
      var d := RuleFor(cs[0].rule, cs[0].goal, counter);
      assert Emitted(cs, counter) == [d] + rest && ([d] + rest)[1..] == rest;
    } else {
      assert [] + rest == rest && "" + RuleTexts(rest) == RuleTexts(rest);
    }
  }

  lemma {:induction false} TextIsRead(cs: seq<Candidate>, counter: nat, s: string, i: nat)
    requires forall k | 0 <= k < |cs| && Covers(cs[k]) :: Legible(cs[k])
    requires At(s, i, RuleTexts(Emitted(cs, counter))) && i + |RuleTexts(Emitted(cs, counter))| == |s|
    ensures ReadConstructs(s, i) == Ok(Constructs(cs, counter), |s|)
    decreases |cs|
  {
    hide ReadConstruct, ConstructFor, RuleFor, RuleText, Legible, Covers, At, Span, Emitted, RuleTexts, Constructs,
      SkipComments, ReadConstructs;
    if cs != [] {
      FirstEmitted(cs, counter);
      var rest, more := RuleTexts(Emitted(cs[1..], counter + 1)), Constructs(cs[1..], counter + 1);
      if Covers(cs[0]) {
        var text := RuleText(RuleFor(cs[0].rule, cs[0].goal, counter));
        var j := i + |text| - 2;
        AtSplits(s, i, text, rest);
        RuleIsRead(cs[0], counter, s, i);
        OneMoreIsRead(s, i, ConstructFor(cs[0], counter), j);
        ReadingSkipsNewlines(s, j);
        TextIsRead(cs[1..], counter + 1, s, j + 2);
      } else {
        assert "" + rest == rest && [] + more == more;
        TextIsRead(cs[1..], counter + 1, s, i);
      }
    } else {
      NothingIsRead(s, counter);
    }
  }

  lemma NothingIsRead(s: string, counter: nat)
    ensures RuleTexts(Emitted([], counter)) == "" && Constructs([], counter) == []
      && ReadConstructs(s, |s|) == Ok([], |s|)
  {
    NothingAtEnd(s);
  }

  lemma NothingAtEnd(s: string)
    ensures SkipComments(s, |s|) == |s|
  {
  }

  predicate DistinctNames(read: seq<Construct>) {
    forall i, j | 0 <= i < j < |read| :: read[i].name != read[j].name
  }

  lemma FirstNameDiffers(first: Construct, rest: seq<Construct>)
    requires DistinctNames(rest) && forall j | 0 <= j < |rest| :: rest[j].name != first.name
    ensures DistinctNames([first] + rest)
  {
  }

  /** No two of the rules read have the same name, so none replaces another. */
  lemma {:induction false} NamesReadAreDistinct(cs: seq<Candidate>, counter: nat)
    ensures DistinctNames(Constructs(cs, counter))
    decreases |cs|
  {
    hide ConstructFor, Covers, DistinctNames;
    if cs != [] {
      NamesReadAreDistinct(cs[1..], counter + 1);
      var rest := Constructs(cs[1..], counter + 1);
      if Covers(cs[0]) {
        forall j | 0 <= j < |rest| ensures rest[j].name != ConstructFor(cs[0], counter).name {
          LaterNameDiffers(cs[1..], counter + 1, j, cs[0], counter);
        }
        FirstNameDiffers(ConstructFor(cs[0], counter), rest);
      } else {
        assert [] + rest == rest;
      }
    } else {
      assert DistinctNames([]) by { NoNames(); }
    }
  }

  lemma NoNames()
    ensures DistinctNames([])
  {
  }

  lemma {:induction false} LaterNameDiffers(cs: seq<Candidate>, counter: nat, j: nat, c: Candidate, earlier: nat)
    requires j < |Constructs(cs, counter)| && earlier < counter
    ensures Constructs(cs, counter)[j].name != ConstructFor(c, earlier).name
    decreases |cs|
  {
    hide FactAsRead, Trigger, HeadParts, Covers, RuleName;
    if Covers(cs[0]) && j == 0 {
      if RuleName(cs[0].rule, cs[0].goal, counter) == RuleName(c.rule, c.goal, earlier) {
        NamesTellCounters(cs[0].rule, cs[0].goal, counter, c.rule, c.goal, earlier);
      }
    } else {
      LaterNameDiffers(cs[1..], counter + 1, if Covers(cs[0]) then j - 1 else j, c, earlier);
    }
  }

  /** The emitted program, comments and all, is read as exactly the emitted rules, in
      order: each with its own name, its trigger as CLIPS reads it, and the parts of its
      goal; if every emitted rule is legible. */
  lemma EmittedTextReadsBack(rules: seq<Rule>)
    requires forall c | c in Candidates(rules) && Covers(c) :: Legible(c)
    ensures var text := RuleTexts(Emitted(Candidates(rules), 0));
      ReadConstructs(text, 0) == Ok(Constructs(Candidates(rules), 0), |text|)
    ensures DistinctNames(Constructs(Candidates(rules), 0))
  {
    hide ReadConstructs, RuleTexts, Emitted, Candidates, Legible, Covers, Constructs, DistinctNames;
    NamesReadAreDistinct(Candidates(rules), 0);
    var text := RuleTexts(Emitted(Candidates(rules), 0));
    AtWhole(text);
    TextIsRead(Candidates(rules), 0, text, 0);
  }
}
