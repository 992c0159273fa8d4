/** What an emitted rule does when it fires: the text it publishes is the printed head
    under the match, exactly when the functor and all values print without quotes. */
module TransductionMeaning {
  import opened Wrappers
  import opened Text
  import opened Terms
  import opened PrologSyntax
  import opened PrologRoundTrip
  import opened ClauseSyntax
  import opened ClipsSyntax
  import opened ClipsRoundTrip
  import opened Coloring
  import opened Transduction

  // A reader of the expression text, as CLIPS evaluates it

  /** A CLIPS string, from after its opening quote: a backslash takes the next
      character as it is. */
  function StringToken(s: string, i: nat): (r: Parsed<string>)
    requires i <= |s|
    ensures i <= r.pos <= |s| && (r.Ok? ==> i < r.pos)
    ensures r.Ok? ==> i + |r.value| < r.pos
    decreases |s| - i
  {
    if i == |s| then Err(i)
    else if s[i] == '"' then Ok("", i + 1)
    else if s[i] == '\\' then
      if i + 1 == |s| then Err(i + 1) else Prepend([s[i + 1]], StringToken(s, i + 2))
    else Prepend([s[i]], StringToken(s, i + 1))
  }

  /** The concatenation of strings and of variables' values, up to the parenthesis.
      Anything else there, which only an unescaped quote leads to, counts as no value. */
  function EvalParts(s: string, i: nat, env: map<string, string>): (r: Parsed<string>)
    requires i <= |s|
    ensures i <= r.pos <= |s|
    decreases |s| - i
  {
    var j := SkipSpace(s, i);
    if j == |s| then Err(j)
    else if s[j] == ')' then Ok("", j + 1)
    else if s[j] == '"' then
      match StringToken(s, j + 1)
      case Err(pos) => Err(pos)
      case Ok(text, pos) => Prepend(text, EvalParts(s, pos, env))
    else if s[j] == '?' then
      var k := Span(ClipsVariable, s, j + 1);
      if s[j + 1..k] in env then Prepend(env[s[j + 1..k]], EvalParts(s, k, env)) else Err(j)
    else Err(j)
  }

  /** The string an expression evaluates to; `None` if it is no expression or has
      an unbound variable. */
  function EvalExpr(s: string, env: map<string, string>): Option<string> {
    if Next(s, 0, '"') then
      match StringToken(s, 1)
      case Ok(text, pos) => if pos == |s| then Some(text) else None
      case Err(_) => None
    else if At(s, 0, "(str-cat ") then
      match EvalParts(s, 9, env)
      case Ok(text, pos) => if pos == |s| then Some(text) else None
      case Err(_) => None
    else None
  }

  // Literals

  predicate IsClean(c: char) { c != '"' && c != '\\' }

  predicate Clean(s: string) { forall k | 0 <= k < |s| :: IsClean(s[k]) }

  lemma {:induction false} CleanTokenReads(w: string, s: string, i: nat)
    requires Clean(w) && At(s, i, w) && Next(s, i + |w|, '"')
    ensures StringToken(s, i) == Ok(w, i + |w| + 1)
  {
    if w != "" {
      AtFirst(s, i, w);
      assert IsClean(w[0]);
      assert w == [w[0]] + w[1..];
      AtSplits(s, i, [w[0]], w[1..]);
      CleanTokenReads(w[1..], s, i + 1);
    }
  }

  /** An escape loses a character, a quote ends the string early. */
  lemma {:induction false} ReadTokenIsClean(w: string, s: string, i: nat)
    requires At(s, i, w) && i + |w| + 1 == |s|
    requires StringToken(s, i).Ok? && StringToken(s, i).value == w && StringToken(s, i).pos == |s|
    ensures Clean(w)
  {
    if w != "" {
      AtFirst(s, i, w);
      var r := StringToken(s, i + 1);
      if IsClean(w[0]) {
        assert [w[0]] + w[1..] == w && ([s[i]] + r.value)[1..] == r.value;
        AtSplits(s, i, [w[0]], w[1..]);
        ReadTokenIsClean(w[1..], s, i + 1);
        forall k | 0 <= k < |w| ensures IsClean(w[k]) {
          assert k > 0 ==> w[k] == w[1..][k - 1];
        }
      }
    }
  }

  /** A literal expression evaluates to its text exactly if the text has neither a
      quote nor a backslash: the text is spliced in without escaping. */
  lemma LiteralEvaluatesIff(w: string, env: map<string, string>)
    ensures EvalExpr("\"" + w + "\"", env) == Some(w) <==> Clean(w)
  {
    var s := "\"" + w + "\"";
    assert s[1..1 + |w|] == w;
    if Clean(w) {
      CleanTokenReads(w, s, 1);
    }
    if EvalExpr(s, env) == Some(w) {
      ReadTokenIsClean(w, s, 1);
    }
  }

  // Concatenations

  predicate PartReadable(p: Part) {
    match p
    case Literal(text) => Clean(text)
    case Reference(name) => All(ClipsVariable, name)
  }

  ghost predicate PartsReadable(parts: seq<Part>) {
    forall k | 0 <= k < |parts| :: PartReadable(parts[k])
  }

  /** The text a part stands for; `None` for an unbound reference. */
  function PartValue(p: Part, env: map<string, string>): Option<string> {
    match p
    case Literal(text) => Some(text)
    case Reference(name) => if name in env then Some(env[name]) else None
  }

  function Append(a: Option<string>, b: Option<string>): Option<string> {
    if a.Some? && b.Some? then Some(a.value + b.value) else None
  }

  function PartsValue(parts: seq<Part>, env: map<string, string>): Option<string> {
    if parts == [] then Some("") else Append(PartValue(parts[0], env), PartsValue(parts[1..], env))
  }

  lemma PartEvaluates(p: Part, s: string, i: nat, env: map<string, string>)
    requires PartReadable(p) && At(s, i, PartText(p))
    requires var j := i + |PartText(p)|; Next(s, j, ' ') || Next(s, j, ')')
    ensures EvalParts(s, i, env) ==
      match PartValue(p, env)
      case Some(v) => Prepend(v, EvalParts(s, i + |PartText(p)|, env))
      case None => Err(i)
  {
    hide Clean, EvalParts, At, All;
    match p
    case Literal(text) => LiteralEvaluates(text, s, i, env);
    case Reference(name) => ReferenceEvaluates(name, s, i, env);
  }

  lemma LiteralEvaluates(text: string, s: string, i: nat, env: map<string, string>)
    requires Clean(text) && At(s, i, "\"" + text + "\"")
    ensures EvalParts(s, i, env) == Prepend(text, EvalParts(s, i + |text| + 2, env))
  {
    hide At, Clean, StringToken, Span;
    AtAssociates(s, i, "\"", text, "\"");
    AtOpens(s, i, '"', text + "\"");
    AtEndsWith(s, i + 1, text, '"');
    CleanTokenReads(text, s, i + 1);
    SkipsNothing(s, i);
  }

  lemma ReferenceEvaluates(name: string, s: string, i: nat, env: map<string, string>)
    requires All(ClipsVariable, name) && At(s, i, "?" + name)
    requires var j := i + 1 + |name|; Next(s, j, ' ') || Next(s, j, ')')
    ensures EvalParts(s, i, env) ==
      if name in env then Prepend(env[name], EvalParts(s, i + 1 + |name|, env)) else Err(i)
  {
    hide StringToken, Span, All;
    AtSplits(s, i, "?", name);
    AtFirst(s, i, "?");
    SpanOfText(ClipsVariable, s, i + 1, name);
    SkipsNothing(s, i);
  }

  lemma EvalSkipsSpace(s: string, i: nat, env: map<string, string>)
    requires Next(s, i, ' ')
    ensures EvalParts(s, i, env) == EvalParts(s, i + 1, env)
  {
    hide StringToken;
    assert SkipSpace(s, i) == SkipSpace(s, i + 1);
  }

  lemma EvalEnds(s: string, i: nat, env: map<string, string>)
    requires Next(s, i, ')')
    ensures EvalParts(s, i, env) == Ok("", i + 1)
  {
    hide StringToken;
    SkipsNothing(s, i);
  }

  lemma JoinSplits(texts: seq<string>, s: string, i: nat)
    requires texts != [] && At(s, i, Join(texts, " ") + ")")
    ensures var j := i + |texts[0]|;
      && At(s, i, texts[0])
      && if |texts| == 1 then Next(s, j, ')') && j == i + |Join(texts, " ")|
         else Next(s, j, ' ') && At(s, j + 1, Join(texts[1..], " ") + ")")
              && j + 1 + |Join(texts[1..], " ")| == i + |Join(texts, " ")|
  {
    hide At;
    if |texts| == 1 {
      AtEndsWith(s, i, texts[0], ')');
    } else {
      AtAssociates(s, i, texts[0] + " ", Join(texts[1..], " "), ")");
      AtSplitsAround(s, i, texts[0], ' ', Join(texts[1..], " ") + ")");
    }
  }

  lemma PartTextsAre(parts: seq<Part>)
    requires parts != []
    ensures var texts := PartTexts(parts);
      |texts| == |parts| && texts[0] == PartText(parts[0]) && texts[1..] == PartTexts(parts[1..])
  {
    hide PartText;
    if |parts| > 1 {
      PartTextsAre(parts[1..]);
    }
  }

  /** What evaluation yields for the parts up to the closing parenthesis. */
  predicate Yields(r: Parsed<string>, value: Option<string>, pos: nat) {
    match value
    case Some(v) => r == Ok(v, pos)
    case None => r.Err?
  }

  lemma {:induction false} PartsEvaluate(parts: seq<Part>, s: string, i: nat, env: map<string, string>)
    requires parts != [] && PartsReadable(parts) && At(s, i, Join(PartTexts(parts), " ") + ")")
    ensures Yields(EvalParts(s, i, env), PartsValue(parts, env), i + |Join(PartTexts(parts), " ")| + 1)
  {
    hide EvalParts, Join, PartTexts, PartText, PartValue, PartReadable, At;
    var j := i + |PartText(parts[0])|;
    PartTextsAre(parts);
    JoinSplits(PartTexts(parts), s, i);
    PartEvaluates(parts[0], s, i, env);
    if |parts| == 1 {
      EvalEnds(s, j, env);
    } else {
      EvalSkipsSpace(s, j, env);
      PartsEvaluate(parts[1..], s, j + 1, env);
    }
  }

  lemma ConcatenationEvaluates(parts: seq<Part>, env: map<string, string>)
    requires parts != [] && PartsReadable(parts)
    ensures EvalExpr("(str-cat " + Join(PartTexts(parts), " ") + ")", env) == PartsValue(parts, env)
  {
    hide EvalParts, Join, PartTexts, PartsValue, PartsReadable;
    var texts := Join(PartTexts(parts), " ");
    var s := "(str-cat " + texts + ")";
    assert s[0..9] == "(str-cat " && s[9..9 + |texts + ")"|] == texts + ")";
    PartsEvaluate(parts, s, 9, env);
  }

  // The head under a match

  /** The values CLIPS puts into a string: symbols and strings as they are. */
  function ValueText(t: Term): string {
    match t
    case Atom(s) => s
    case Str(s) => s
    case Integer(n) => IntegerText(n)
    case _ => Render(t)
  }

  function Texts(env: map<string, Term>): map<string, string> {
    map v | v in env :: ValueText(env[v])
  }

  function Substitute(t: Term, env: map<string, Term>): Term
    decreases t, 0
  {
    match t
    case Variable(v) => if v in env then env[v] else t
    case Compound(f, args) => Compound(f, SubstituteArgs(args, env))
    case _ => t
  }

  function SubstituteArgs(args: seq<Term>, env: map<string, Term>): seq<Term>
    decreases args, 1
  {
    if args == [] then [] else [Substitute(args[0], env)] + SubstituteArgs(args[1..], env)
  }

  /** An argument that survives being written without escaping: a variable that
      CLIPS can name, or a term that prints without double quotes and backslashes. */
  predicate ArgClean(t: Term) {
    if t.Variable? then All(ClipsVariable, t.name) else Clean(Render(t))
  }

  predicate HeadClean(t: Term) {
    match t
    case Atom(s) => Clean(s)
    case Compound(f, args) => Clean(f) && forall k | 0 <= k < |args| :: ArgClean(args[k])
    case _ => Clean(Render(t))
  }

  /** Variables stand only where they are substituted: at the top level. */
  predicate NoNested(t: Term) {
    match t
    case Variable(_) => false
    case Compound(_, args) => forall k | 0 <= k < |args| :: args[k].Variable? || Vars(args[k]) == {}
    case _ => true
  }

  predicate HeadFlat(t: Term) { HeadClean(t) && NoNested(t) }

  /** What the expression writes for an argument; `None` for a reference to a
      variable that the match does not bind. */
  function Written(t: Term, bound: set<string>, env: map<string, string>): Option<string> {
    if IsBound(t, bound) then PartValue(Reference(t.name), env) else Some(ArgText(t))
  }

  function WrittenArgs(args: seq<Term>, first: bool, bound: set<string>, env: map<string, string>): Option<string> {
    if args == [] then Some("")
    else
      Append(Some(if first then "" else ","),
             Append(Written(args[0], bound, env), WrittenArgs(args[1..], false, bound, env)))
  }

  function WrittenHead(head: Term, bound: set<string>, env: map<string, string>): Option<string> {
    match head
    case Atom(s) => Some(s)
    case Compound(f, args) => Append(Some(f + "("), Append(WrittenArgs(args, true, bound, env), Some(")")))
    case _ => Some(Render(head))
  }

  lemma CleanAppend(a: string, b: string)
    requires Clean(a) && Clean(b)
    ensures Clean(a + b)
  {
  }

  lemma CommaIsClean(cur: string)
    requires Clean(cur)
    ensures Clean(cur + ",") && Clean(cur + ")") && Clean(cur + "(")
  {
  }

  lemma AppendAssociates(a: Option<string>, b: Option<string>, c: Option<string>)
    ensures Append(Append(a, b), c) == Append(a, Append(b, c))
    ensures Append(Some(""), a) == a && Append(a, Some("")) == a
  {
    if a.Some? {
      assert "" + a.value == a.value && a.value + "" == a.value;
      if b.Some? && c.Some? {
        assert a.value + b.value + c.value == a.value + (b.value + c.value);
      }
    }
  }

  lemma PartsPrepend(p: Part, parts: seq<Part>, env: map<string, string>)
    requires PartReadable(p) && PartsReadable(parts)
    ensures PartsReadable([p] + parts)
      && PartsValue([p] + parts, env) == Append(PartValue(p, env), PartsValue(parts, env))
  {
    hide PartReadable, PartValue;
    assert ([p] + parts)[1..] == parts;
  }

  /** The parts evaluate to the text already collected, the arguments, and the
      closing parenthesis. */
  lemma {:induction false} ArgPartsEvaluate(args: seq<Term>, first: bool, cur: string, bound: set<string>,
                                            env: map<string, string>)
    requires Clean(cur) && forall k | 0 <= k < |args| :: ArgClean(args[k])
    ensures var parts := ArgParts(args, first, cur, bound);
      && PartsReadable(parts)
      && PartsValue(parts, env) == Append(Some(cur), Append(WrittenArgs(args, first, bound, env), Some(")")))
    decreases args, 1
  {
    hide ArgClean, Clean, PartReadable, PartsReadable, PartsValue, PartValue, Written, Append, ArgText, IsBound;
    if args == [] {
      LastPart(cur, env);
    } else {
      var cur' := if first then cur else cur + ",";
      CommaIsClean(cur);
      if IsBound(args[0], bound) {
        BoundArgEvaluates(args, cur', bound, env);
      } else {
        LiteralArg(args[0], cur', bound, env);
        ArgPartsEvaluate(args[1..], false, cur' + ArgText(args[0]), bound, env);
        AppendLiteral(cur', ArgText(args[0]), Append(WrittenArgs(args[1..], false, bound, env), Some(")")));
      }
      WrittenStep(cur, first, Written(args[0], bound, env), WrittenArgs(args[1..], false, bound, env));
    }
  }

  lemma AppendLiteral(a: string, b: string, c: Option<string>)
    ensures Append(Some(a + b), c) == Append(Some(a), Append(Some(b), c))
  {
    AppendAssociates(Some(a), Some(b), c);
  }

  lemma WrittenStep(cur: string, first: bool, text: Option<string>, more: Option<string>)
    ensures Append(Some(cur), Append(Append(Some(if first then "" else ","), Append(text, more)), Some(")")))
         == Append(Some(if first then cur else cur + ","), Append(text, Append(more, Some(")"))))
  {
    hide Append;
    var comma := if first then "" else ",";
    var tail := Some(")");
    AppendAssociates(Some(comma), Append(text, more), tail);
    AppendAssociates(text, more, tail);
    AppendAssociates(Some(cur), Some(comma), Append(text, Append(more, tail)));
    assert cur + comma == if first then cur else cur + ",";
    AppendLiteral(cur, comma, Append(text, Append(more, tail)));
  }

  lemma LastPart(cur: string, env: map<string, string>)
    requires Clean(cur)
    ensures var last := [Literal(cur + ")")];
      PartsReadable(last) && PartsValue(last, env) == Append(Some(cur), Append(Some(""), Some(")")))
  {
    CommaIsClean(cur);
    PartsPrepend(Literal(cur + ")"), [], env);
    assert [Literal(cur + ")")] + [] == [Literal(cur + ")")];
    assert cur + ("" + ")") == cur + ")" + "";
  }

  lemma VariableNameIsClean(name: string)
    requires All(ClipsVariable, name)
    ensures Clean(name)
  {
    forall k | 0 <= k < |name| ensures IsClean(name[k]) {
      assert In(ClipsVariable, name[k]);
    }
  }

  lemma LiteralArg(t: Term, cur: string, bound: set<string>, env: map<string, string>)
    requires ArgClean(t) && !IsBound(t, bound) && Clean(cur)
    ensures Clean(cur + ArgText(t)) && Written(t, bound, env) == Some(ArgText(t))
  {
    hide Render, Clean, All;
    if t.Variable? {
      VariableNameIsClean(t.name);
    }
    CleanAppend(cur, ArgText(t));
  }

  lemma {:induction false} BoundArgEvaluates(args: seq<Term>, cur: string, bound: set<string>, env: map<string, string>)
    requires args != [] && IsBound(args[0], bound) && Clean(cur)
    requires forall k | 0 <= k < |args| :: ArgClean(args[k])
    ensures var parts :=
      (if cur == "" then [] else [Literal(cur)]) + [Reference(args[0].name)] + ArgParts(args[1..], false, "", bound);
      && PartsReadable(parts)
      && PartsValue(parts, env) ==
           Append(Some(cur),
                  Append(Written(args[0], bound, env), Append(WrittenArgs(args[1..], false, bound, env), Some(")"))))
    decreases args, 0
  {
    hide ArgParts, PartsReadable, PartsValue, WrittenArgs, Vars, Render, Append;
    var rest := ArgParts(args[1..], false, "", bound);
    var value := Append(WrittenArgs(args[1..], false, bound, env), Some(")"));
    ArgPartsEvaluate(args[1..], false, "", bound, env);
    AppendAssociates(value, None, None);
    var ref := Reference(args[0].name);
    assert ArgClean(args[0]);
    PartsPrepend(ref, rest, env);
    var tail := Append(PartValue(ref, env), value);
    AppendAssociates(tail, None, None);
    if cur == "" {
      assert [] + [ref] + rest == [ref] + rest;
    } else {
      PartsPrepend(Literal(cur), [ref] + rest, env);
      assert [Literal(cur)] + [ref] + rest == [Literal(cur)] + ([ref] + rest);
    }
  }

  // The whole head

  /** With nothing to refer to, the head is one literal. */
  lemma {:induction false} LiteralArgs(args: seq<Term>, first: bool, bound: set<string>, env: map<string, string>)
    requires forall k | 0 <= k < |args| :: ArgClean(args[k]) && !IsBound(args[k], bound)
    ensures var text := (if first || args == [] then "" else ",") + Join(ArgTexts(args), ",");
      Clean(text) && WrittenArgs(args, first, bound, env) == Some(text)
  {
    hide ArgClean, IsBound, ArgText, Clean;
    if args == [] {
      assert Clean("" + "") by { EmptyIsClean(); }
    } else {
      var comma, text := if first then "" else ",", ArgText(args[0]);
      var more := (if args[1..] == [] then "" else ",") + Join(ArgTexts(args[1..]), ",");
      LiteralArgs(args[1..], false, bound, env);
      EmptyIsClean();
      LiteralArg(args[0], comma, bound, env);
      CleanAppend(comma + text, more);
      assert comma + (text + more) == comma + text + more;
      assert Join(ArgTexts(args), ",") == text + more by { JoinStep(args); }
    }
  }

  lemma EmptyIsClean()
    ensures Clean("") && Clean(",") && Clean(("" + ""))
  {
  }

  lemma JoinStep(args: seq<Term>)
    requires args != []
    ensures Join(ArgTexts(args), ",") == ArgText(args[0])
      + ((if args[1..] == [] then "" else ",") + Join(ArgTexts(args[1..]), ","))
  {
    hide ArgText;
    var texts := ArgTexts(args);
    assert texts[1..] == ArgTexts(args[1..]);
    if args[1..] == [] {
      assert texts[0] + ("" + "") == texts[0];
    } else {
      assert ArgTexts(args[1..]) != [];
    }
  }

  /** The emitted expression evaluates to the written head; it fails exactly when
      the head refers to a variable that the match does not bind. */
  lemma HeadEvaluates(head: Term, bound: set<string>, env: map<string, string>)
    requires HeadClean(head)
    ensures EvalExpr(HeadExpr(head, bound), env) == WrittenHead(head, bound, env)
  {
    hide EvalExpr, Clean, ArgClean, WrittenArgs, ArgParts, Join, PartTexts, PartsValue, PartsReadable, IsBound,
        ArgTexts;
    match head
    case Atom(s) => LiteralEvaluatesIff(s, env);
    case Compound(f, args) =>
      CommaIsClean(f);
      if exists k | 0 <= k < |args| :: IsBound(args[k], bound) {
        ArgPartsEvaluate(args, true, f + "(", bound, env);
        ConcatenationEvaluates(ArgParts(args, true, f + "(", bound), env);
      } else {
        LiteralHead(f, args, bound, env);
      }
    case _ => LiteralEvaluatesIff(Render(head), env);
  }

  lemma LiteralHead(f: string, args: seq<Term>, bound: set<string>, env: map<string, string>)
    requires Clean(f) && forall k | 0 <= k < |args| :: ArgClean(args[k]) && !IsBound(args[k], bound)
    ensures EvalExpr("\"" + f + "(" + Join(ArgTexts(args), ",") + ")" + "\"", env)
         == Append(Some(f + "("), Append(WrittenArgs(args, true, bound, env), Some(")")))
  {
    hide EvalExpr, ArgClean, WrittenArgs, Join, IsBound, ArgTexts, Clean;
    var inner := Join(ArgTexts(args), ",");
    LiteralArgs(args, true, bound, env);
    assert "" + inner == inner;
    CommaIsClean(f);
    CommaIsClean(inner);
    CleanAppend(f + "(", inner + ")");
    assert "\"" + f + "(" + inner + ")" + "\"" == "\"" + (f + "(" + (inner + ")")) + "\"";
    LiteralEvaluatesIff(f + "(" + (inner + ")"), env);
  }

  // Matching a fact against the pattern

  /** CLIPS matching of ordered-fact fields: `?` matches anything, `?x` binds or
      compares, anything else compares. */
  function Match(pattern: seq<Term>, fields: seq<Term>, env: map<string, Term>): Option<map<string, Term>> {
    if pattern == [] || fields == [] then if pattern == fields then Some(env) else None
    else
      match pattern[0]
      case Variable(v) =>
        if v == "" then Match(pattern[1..], fields[1..], env)
        else if v in env then if env[v] == fields[0] then Match(pattern[1..], fields[1..], env) else None
        else Match(pattern[1..], fields[1..], env[v := fields[0]])
      case _ => if pattern[0] == fields[0] then Match(pattern[1..], fields[1..], env) else None
  }

  /** The variables that a pattern names. */
  function Named(pattern: seq<Term>): set<string> {
    set k | 0 <= k < |pattern| && pattern[k].Variable? && pattern[k].name != "" :: pattern[k].name
  }

  /** A field of a fact is what the pattern says: anything for `?`, the value for a
      named variable, the same term otherwise. */
  predicate Agrees(pattern: Term, field: Term, env: map<string, Term>) {
    if pattern == Variable("") then true
    else if pattern.Variable? then pattern.name in env && env[pattern.name] == field
    else pattern == field
  }

  /** A match binds exactly the variables that the pattern names, keeps what was bound,
      and the fact agrees with the pattern field by field. */
  lemma {:induction false} MatchBinds(pattern: seq<Term>, fields: seq<Term>, env: map<string, Term>,
                                      result: map<string, Term>)
    requires Match(pattern, fields, env) == Some(result)
    ensures result.Keys == env.Keys + Named(pattern) && forall v | v in env :: result[v] == env[v]
    ensures |fields| == |pattern| && forall k | 0 <= k < |pattern| :: Agrees(pattern[k], fields[k], result)
  {
    if pattern != [] {
      var t := pattern[0];
      var env' := if t.Variable? && t.name != "" && t.name !in env then env[t.name := fields[0]] else env;
      MatchBinds(pattern[1..], fields[1..], env', result);
      NamedStep(pattern);
      assert Agrees(t, fields[0], result);
      assert forall k | 0 < k < |pattern| :: pattern[k] == pattern[1..][k - 1] && fields[k] == fields[1..][k - 1];
    }
  }

  lemma NamedStep(pattern: seq<Term>)
    requires pattern != []
    ensures Named(pattern)
         == Named(pattern[1..]) + if pattern[0].Variable? && pattern[0].name != "" then {pattern[0].name} else {}
  {
    var rest := pattern[1..];
    assert forall k | 0 < k < |pattern| :: pattern[k] == rest[k - 1];
    assert forall k | 0 <= k < |rest| :: rest[k] == pattern[k + 1];
  }

  lemma {:induction false} MatchValuesAreFields(pattern: seq<Term>, fields: seq<Term>, env: map<string, Term>,
                                                result: map<string, Term>)
    requires Match(pattern, fields, env) == Some(result)
    ensures forall v | v in result :: (v in env && result[v] == env[v]) || result[v] in fields
  {
    if pattern != [] && fields != [] {
      var t := pattern[0];
      var env' := if t.Variable? && t.name != "" && t.name !in env then env[t.name := fields[0]] else env;
      MatchValuesAreFields(pattern[1..], fields[1..], env', result);
    }
  }

  // When the written head is the printed head

  /** A value whose text in a concatenation is also how Prolog prints it. */
  predicate PlainValue(t: Term) { !t.Str? && (t.Atom? ==> !AtomNeedsQuoting(t.name)) }

  lemma {:induction false} EscapeIsLonger(s: string, quote: char)
    ensures |Escape(s, quote)| >= |s|
  {
    if s != "" {
      EscapeIsLonger(s[1..], quote);
    }
  }

  lemma ValueTextIsShorter(t: Term)
    ensures if PlainValue(t) then ValueText(t) == Render(t) else |ValueText(t)| < |Render(t)|
  {
    if t.Atom? {
      EscapeIsLonger(t.name, '\'');
    } else if t.Str? {
      EscapeIsLonger(t.text, '"');
    }
  }

  lemma {:induction false} SubstituteNothing(t: Term, env: map<string, Term>)
    requires Vars(t) == {}
    ensures Substitute(t, env) == t
    decreases t, 0
  {
    if t.Compound? {
      SubstituteNothingInArgs(t.args, env);
    }
  }

  lemma {:induction false} SubstituteNothingInArgs(args: seq<Term>, env: map<string, Term>)
    requires ArgVars(args) == {}
    ensures SubstituteArgs(args, env) == args
    decreases args, 1
  {
    if args != [] {
      assert Vars(args[0]) <= ArgVars(args) && ArgVars(args[1..]) <= ArgVars(args);
      SubstituteNothing(args[0], env);
      SubstituteNothingInArgs(args[1..], env);
    }
  }

  predicate ArgPlain(t: Term, env: map<string, Term>) {
    t.Variable? && t.name in env ==> PlainValue(env[t.name])
  }

  /** The written argument is the printed one, or else it is shorter. */
  lemma ArgCompares(t: Term, bound: set<string>, env: map<string, Term>)
    requires (t.Variable? || Vars(t) == {}) && Vars(t) <= bound && Vars(t) <= env.Keys
    ensures Written(t, bound, Texts(env)).Some?
    ensures var text, printed := Written(t, bound, Texts(env)).value, Render(Substitute(t, env));
      if ArgPlain(t, env) then text == printed else |text| < |printed|
  {
    hide Render, ValueText, PlainValue, Clean, All;
    if t.Variable? {
      assert t.name in Vars(t);
      ValueTextIsShorter(env[t.name]);
    } else {
      SubstituteNothing(t, env);
    }
  }

  lemma {:induction false} ArgsCompare(args: seq<Term>, first: bool, bound: set<string>, env: map<string, Term>)
    requires forall k | 0 <= k < |args| :: args[k].Variable? || Vars(args[k]) == {}
    requires ArgVars(args) <= bound && ArgVars(args) <= env.Keys
    ensures WrittenArgs(args, first, bound, Texts(env)).Some?
    ensures var text, printed := WrittenArgs(args, first, bound, Texts(env)).value,
      RenderArgs(SubstituteArgs(args, env));
      var printed := (if first || args == [] then "" else ",") + printed;
      if forall k | 0 <= k < |args| :: ArgPlain(args[k], env) then text == printed else |text| < |printed|
  {
    hide Written, Texts, Substitute, Render, ArgPlain, Vars;
    if args != [] {
      var comma := if first then "" else ",";
      assert Vars(args[0]) <= ArgVars(args) && ArgVars(args[1..]) <= ArgVars(args);
      ArgCompares(args[0], bound, env);
      ArgsCompare(args[1..], false, bound, env);
      RenderArgsStep(args, env);
      var text, more := Written(args[0], bound, Texts(env)).value,
        WrittenArgs(args[1..], false, bound, Texts(env)).value;
      assert WrittenArgs(args, first, bound, Texts(env)).value == comma + (text + more);
      AllArgsPlain(args, env);
    } else {
      assert "" + "" == "";
    }
  }

  lemma AllArgsPlain(args: seq<Term>, env: map<string, Term>)
    requires args != []
    ensures (forall k | 0 <= k < |args| :: ArgPlain(args[k], env)) <==>
      ArgPlain(args[0], env) && forall k | 0 <= k < |args[1..]| :: ArgPlain(args[1..][k], env)
  {
    hide ArgPlain;
    assert forall k | 0 < k < |args| :: args[k] == args[1..][k - 1];
    assert forall k | 0 <= k < |args[1..]| :: args[1..][k] == args[k + 1];
  }

  lemma RenderArgsStep(args: seq<Term>, env: map<string, Term>)
    requires args != []
    ensures RenderArgs(SubstituteArgs(args, env)) == Render(Substitute(args[0], env))
      + ((if args[1..] == [] then "" else ",") + RenderArgs(SubstituteArgs(args[1..], env)))
  {
    hide Render, Substitute;
    var all := SubstituteArgs(args, env);
    assert all[0] == Substitute(args[0], env) && all[1..] == SubstituteArgs(args[1..], env);
    if args[1..] == [] {
      assert Render(all[0]) + ("" + "") == Render(all[0]);
    } else {
      assert SubstituteArgs(args[1..], env) != [];
    }
  }

  predicate HeadPlain(head: Term, env: map<string, Term>) {
    match head
    case Atom(s) => !AtomNeedsQuoting(s)
    case Compound(f, args) => !AtomNeedsQuoting(f) && forall k | 0 <= k < |args| :: ArgPlain(args[k], env)
    case _ => true
  }

  lemma AtomIsShorter(f: string)
    ensures if AtomNeedsQuoting(f) then |f| < |RenderAtom(f)| else RenderAtom(f) == f
  {
    EscapeIsLonger(f, '\'');
  }

  lemma Lengths(a: string, b: string, a': string, b': string)
    requires (a == a' || |a| < |a'|) && (b == b' || |b| < |b'|)
    ensures a + "(" + (b + ")") == a' + "(" + b' + ")" <==> a == a' && b == b'
  {
    if a == a' && b == b' {
      assert a + "(" + (b + ")") == a + "(" + b + ")";
    }
  }

  /** The goal that the expression builds under a match is the printed head of the
      clause under that match, exactly if the functor and every value spliced in
      print without quotes: they are spliced in as they are. */
  lemma PublishedGoalIff(head: Term, bound: set<string>, env: map<string, Term>)
    requires HeadFlat(head) && Vars(head) <= bound && Vars(head) <= env.Keys
    ensures var goal := EvalExpr(HeadExpr(head, bound), Texts(env));
      goal.Some? && (goal.value == Render(Substitute(head, env)) <==> HeadPlain(head, env))
  {
    hide EvalExpr, HeadExpr, ArgClean, ArgVars, WrittenArgs, RenderArgs, SubstituteArgs, Texts, ArgPlain, Clean,
        AtomNeedsQuoting, RenderAtom;
    HeadEvaluates(head, bound, Texts(env));
    match head
    case Atom(s) => AtomIsShorter(s);
    case Compound(f, args) =>
      AtomIsShorter(f);
      ArgsCompare(args, true, bound, env);
      var printed := RenderArgs(SubstituteArgs(args, env));
      assert "" + printed == printed;
      Lengths(f, WrittenArgs(args, true, bound, Texts(env)).value, RenderAtom(f), printed);
    case _ =>
  }

  function Arguments(t: Term): seq<Term> {
    if t.Compound? then t.args else []
  }

  /** Evaluation fails exactly when the match leaves a variable of the head unbound. */
  lemma {:induction false} ArgsWrittenIff(args: seq<Term>, first: bool, bound: set<string>, env: map<string, string>)
    ensures WrittenArgs(args, first, bound, env).Some? <==>
      forall k | 0 <= k < |args| && IsBound(args[k], bound) :: args[k].name in env
  {
    hide ArgText;
    if args != [] {
      ArgsWrittenIff(args[1..], false, bound, env);
      assert forall k | 0 < k < |args| :: args[k] == args[1..][k - 1];
      assert forall k | 0 <= k < |args[1..]| :: args[1..][k] == args[k + 1];
    }
  }

  lemma HeadWrittenIff(head: Term, bound: set<string>, env: map<string, string>)
    requires HeadClean(head)
    ensures EvalExpr(HeadExpr(head, bound), env).Some? <==>
      forall k | 0 <= k < |Arguments(head)| && IsBound(Arguments(head)[k], bound) :: Arguments(head)[k].name in env
  {
    hide EvalExpr, HeadExpr, ArgClean, Clean, WrittenArgs, IsBound;
    HeadEvaluates(head, bound, env);
    ArgsWrittenIff(Arguments(head), true, bound, env);
  }
}
