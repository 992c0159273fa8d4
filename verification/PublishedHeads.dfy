/** When a rule publishes exactly the head of its clause: no other head than a flat,
    clean and plain one comes out as it should. */
module PublishedHeads {
  import opened Wrappers
  import opened Text
  import opened Terms
  import opened PrologSyntax
  import opened PrologRoundTrip
  import opened ClauseSyntax
  import opened ClipsSyntax
  import opened ClipsRoundTrip
  import opened Coloring
  import opened Transduction
  import opened TransductionMeaning
  import opened EmittedRules
  import GoalsAsRead

  // Counting characters

  function Count(c: char, s: string): nat {
    if s == "" then 0 else (if s[0] == c then 1 else 0) + Count(c, s[1..])
  }

  lemma {:induction false} CountAppends(c: char, a: string, b: string)
    ensures Count(c, a + b) == Count(c, a) + Count(c, b)
  {
    if a == "" {
      assert a + b == b;
    } else {
      assert (a + b)[1..] == a[1..] + b;
      CountAppends(c, a[1..], b);
    }
  }

  lemma {:induction false} CountNone(c: char, s: string)
    ensures Count(c, s) == 0 <==> forall k | 0 <= k < |s| :: s[k] != c
  {
    if s != "" {
      CountNone(c, s[1..]);
      assert forall k | 0 < k < |s| :: s[k] == s[1..][k - 1];
    }
  }

  lemma CleanHasNone(s: string)
    ensures Clean(s) <==> Count('\\', s) == 0 && Count('"', s) == 0
  {
    CountNone('\\', s);
    CountNone('"', s);
    assert Clean(s) ==> forall k | 0 <= k < |s| :: IsClean(s[k]);
  }

  /** Occurrences from position `i` on. */
  function CountFrom(c: char, s: string, i: nat): nat
    requires i <= |s|
    decreases |s| - i
  {
    if i == |s| then 0 else (if s[i] == c then 1 else 0) + CountFrom(c, s, i + 1)
  }

  lemma {:induction false} CountFromIsCount(c: char, s: string, i: nat)
    requires i <= |s|
    ensures CountFrom(c, s, i) == Count(c, s[i..])
    decreases |s| - i
  {
    if i < |s| {
      CountFromIsCount(c, s, i + 1);
      assert s[i..][1..] == s[i + 1..];
    }
  }

  lemma {:induction false} FewerLater(c: char, s: string, i: nat, j: nat)
    requires i <= j <= |s|
    ensures CountFrom(c, s, j) <= CountFrom(c, s, i)
    decreases j - i
  {
    if i < j {
      FewerLater(c, s, i + 1, j);
    }
  }

  // Evaluation loses backslashes and quotes

  /** A backslash in a value takes two in the text; without any there is no quote. */
  predicate Loses(s: string, i: nat, j: nat, value: string)
    requires i <= j <= |s|
  {
    && 2 * Count('\\', value) + CountFrom('\\', s, j) <= CountFrom('\\', s, i)
    && (CountFrom('\\', s, i) == 0 ==> Count('"', value) == 0)
  }

  lemma {:induction false} TokenLoses(s: string, i: nat)
    requires i <= |s| && StringToken(s, i).Ok?
    ensures Loses(s, i, StringToken(s, i).pos, StringToken(s, i).value)
    decreases |s| - i
  {
    var r := StringToken(s, i);
    if s[i] == '"' {
    } else if s[i] == '\\' {
      TokenLoses(s, i + 2);
      CountAppends('\\', [s[i + 1]], StringToken(s, i + 2).value);
      CountAppends('"', [s[i + 1]], StringToken(s, i + 2).value);
    } else {
      TokenLoses(s, i + 1);
      CountAppends('\\', [s[i]], StringToken(s, i + 1).value);
      CountAppends('"', [s[i]], StringToken(s, i + 1).value);
    }
  }

  predicate CleanValues(env: map<string, string>) { forall v | v in env :: Clean(env[v]) }

  lemma LosesTwice(s: string, i: nat, j: nat, k: nat, a: string, b: string)
    requires i <= j <= k <= |s| && Loses(s, i, j, a) && Loses(s, j, k, b)
    ensures Loses(s, i, k, a + b)
  {
    CountAppends('\\', a, b);
    CountAppends('"', a, b);
  }

  lemma LosesMore(s: string, h: nat, i: nat, j: nat, value: string)
    requires h <= i <= j <= |s| && Loses(s, i, j, value)
    ensures Loses(s, h, j, value)
  {
    FewerLater('\\', s, h, i);
  }

  lemma {:induction false} PartsLose(s: string, i: nat, env: map<string, string>)
    requires i <= |s| && CleanValues(env) && EvalParts(s, i, env).Ok?
    ensures Loses(s, i, EvalParts(s, i, env).pos, EvalParts(s, i, env).value)
    decreases |s| - i
  {
    hide Loses, StringToken, Span;
    var j := SkipSpace(s, i);
    var r := EvalParts(s, i, env);
    if s[j] == ')' {
      NothingLoses(s, j, j + 1);
    } else if s[j] == '"' {
      var t := StringToken(s, j + 1);
      TokenLoses(s, j + 1);
      LosesMore(s, j, j + 1, t.pos, t.value);
      PartsLose(s, t.pos, env);
      LosesTwice(s, j, t.pos, r.pos, t.value, EvalParts(s, t.pos, env).value);
    } else {
      var k := Span(ClipsVariable, s, j + 1);
      var value := env[s[j + 1..k]];
      CleanLoses(s, j, k, value);
      PartsLose(s, k, env);
      LosesTwice(s, j, k, r.pos, value, EvalParts(s, k, env).value);
    }
    LosesMore(s, i, j, r.pos, r.value);
  }

  lemma NothingLoses(s: string, i: nat, j: nat)
    requires i <= j <= |s|
    ensures Loses(s, i, j, "")
  {
    FewerLater('\\', s, i, j);
  }

  lemma CleanLoses(s: string, i: nat, j: nat, value: string)
    requires i <= j <= |s| && Clean(value)
    ensures Loses(s, i, j, value)
  {
    CleanHasNone(value);
    FewerLater('\\', s, i, j);
  }

  lemma ExpressionLoses(s: string, env: map<string, string>)
    requires CleanValues(env) && EvalExpr(s, env).Some?
    ensures var value := EvalExpr(s, env).value;
      2 * Count('\\', value) <= Count('\\', s) && (Count('\\', s) == 0 ==> Count('"', value) == 0)
  {
    hide StringToken, EvalParts, At, Count;
    if Next(s, 0, '"') {
      TokenLoses(s, 1);
      LosesMore(s, 0, 1, |s|, EvalExpr(s, env).value);
    } else {
      PartsLose(s, 9, env);
      LosesMore(s, 0, 9, |s|, EvalExpr(s, env).value);
    }
    CountFromIsCount('\\', s, 0);
    assert s[0..] == s;
  }

  // The characters of a head that are written as they are

  function RawArgs(c: char, args: seq<Term>, bound: set<string>): nat {
    if args == [] then 0
    else (if IsBound(args[0], bound) then 0 else Count(c, ArgText(args[0]))) + RawArgs(c, args[1..], bound)
  }

  function Raw(c: char, head: Term, bound: set<string>): nat {
    match head
    case Atom(s) => Count(c, s)
    case Compound(f, args) => Count(c, f) + RawArgs(c, args, bound)
    case _ => Count(c, Render(head))
  }

  lemma {:induction false} WordHasNone(w: string)
    requires All(Word, w)
    ensures Count('\\', w) == 0 && Count('"', w) == 0
  {
    CountNone('\\', w);
    CountNone('"', w);
    assert forall k | 0 <= k < |w| :: In(Word, w[k]);
  }

  lemma JoinedCount(texts: seq<string>, separator: string, c: char)
    requires texts != [] && Count(c, separator) == 0
    ensures Count(c, Join(texts, separator)) == Count(c, texts[0]) + if |texts| == 1 then 0
      else Count(c, Join(texts[1..], separator))
  {
    if |texts| > 1 {
      CountAppends(c, texts[0] + separator, Join(texts[1..], separator));
      CountAppends(c, texts[0], separator);
    }
  }

  lemma PartCount(p: Part)
    requires p.Reference? ==> All(Word, p.name)
    ensures Count('\\', PartText(p)) == if p.Literal? then Count('\\', p.text) else 0
  {
    match p
    case Literal(text) =>
      CountAppends('\\', "\"" + text, "\"");
      CountAppends('\\', "\"", text);
    case Reference(name) =>
      CountAppends('\\', "?", name);
      WordHasNone(name);
  }

  predicate WordNamed(args: seq<Term>) { forall k | 0 <= k < |args| && args[k].Variable? :: All(Word, args[k].name) }

  lemma PartsAreNotEmpty(parts: seq<Part>)
    requires parts != []
    ensures PartTexts(parts) != [] && PartTexts(parts)[0] == PartText(parts[0])
      && PartTexts(parts)[1..] == PartTexts(parts[1..])
    ensures |PartTexts(parts)| == 1 <==> |parts| == 1
  {
    PartTextsAre(parts);
  }

  /** Backslashes of the joined parts. */
  lemma {:induction false} FirstPartCount(p: Part, parts: seq<Part>)
    requires p.Reference? ==> All(Word, p.name)
    ensures Count('\\', Join(PartTexts([p] + parts), " "))
         == (if p.Literal? then Count('\\', p.text) else 0) + if parts == [] then 0
             else Count('\\', Join(PartTexts(parts), " "))
  {
    hide PartText, Join;
    var all := [p] + parts;
    assert all[1..] == parts;
    PartsAreNotEmpty(all);
    PartCount(p);
    JoinedCount(PartTexts(all), " ", '\\');
  }

  lemma CommaCount(cur: string, c: char)
    requires c != ',' && c != ')' && c != '('
    ensures Count(c, cur + ",") == Count(c, cur + ")") == Count(c, cur + "(") == Count(c, cur)
  {
    CountAppends(c, cur, ",");
    CountAppends(c, cur, ")");
    CountAppends(c, cur, "(");
  }

  lemma {:induction false} ArgPartsCount(args: seq<Term>, first: bool, cur: string, bound: set<string>)
    requires WordNamed(args)
    ensures Count('\\', Join(PartTexts(ArgParts(args, first, cur, bound)), " ")) == Count('\\', cur)
      + RawArgs('\\', args, bound)
    decreases args
  {
    hide Count, PartTexts, Join, ArgText;
    CommaCount(cur, '\\');
    if args == [] {
      assert [Literal(cur + ")")] + [] == [Literal(cur + ")")];
      FirstPartCount(Literal(cur + ")"), []);
    } else {
      var cur' := if first then cur else cur + ",";
      var t := args[0];
      if IsBound(t, bound) {
        var rest := ArgParts(args[1..], false, "", bound);
        ArgPartsCount(args[1..], false, "", bound);
        EmptyCount('\\');
        FirstPartCount(Reference(t.name), rest);
        if cur' == "" {
          assert [] + [Reference(t.name)] + rest == [Reference(t.name)] + rest;
        } else {
          FirstPartCount(Literal(cur'), [Reference(t.name)] + rest);
          assert [Literal(cur')] + [Reference(t.name)] + rest == [Literal(cur')] + ([Reference(t.name)] + rest);
        }
      } else {
        ArgPartsCount(args[1..], false, cur' + ArgText(t), bound);
        CountAppends('\\', cur', ArgText(t));
      }
    }
  }

  lemma EmptyCount(c: char)
    ensures Count(c, "") == 0
  {
  }

  lemma {:induction false} ArgTextsCount(args: seq<Term>, bound: set<string>)
    requires forall k | 0 <= k < |args| :: !IsBound(args[k], bound)
    ensures Count('\\', Join(ArgTexts(args), ",")) == RawArgs('\\', args, bound)
  {
    hide ArgText;
    if args != [] {
      ArgTextsCount(args[1..], bound);
      assert ArgTexts(args)[1..] == ArgTexts(args[1..]);
      JoinedCount(ArgTexts(args), ",", '\\');
    }
  }

  /** The expression has no other backslashes than those of the head. */
  lemma ExpressionCount(head: Term, bound: set<string>)
    requires head.Compound? ==> WordNamed(head.args)
    ensures Count('\\', HeadExpr(head, bound)) == Raw('\\', head, bound)
  {
    hide Count, ArgParts, Join, PartTexts, ArgTexts, WordNamed, IsBound, RawArgs, Render;
    match head
    case Atom(s) => QuotedCount(s);
    case Compound(f, args) =>
      CommaCount(f, '\\');
      if exists k | 0 <= k < |args| :: IsBound(args[k], bound) {
        var text := Join(PartTexts(ArgParts(args, true, f + "(", bound)), " ");
        ArgPartsCount(args, true, f + "(", bound);
        CountAppends('\\', "(str-cat " + text, ")");
        CountAppends('\\', "(str-cat ", text);
        ConstantCounts();
      } else {
        var text := Join(ArgTexts(args), ",");
        ArgTextsCount(args, bound);
        QuotedCount(f + "(" + text + ")");
        assert "\"" + f + "(" + text + ")" + "\"" == "\"" + (f + "(" + text + ")") + "\"";
        CommaCount(f + "(" + text, '\\');
        CountAppends('\\', f + "(", text);
      }
    case _ => QuotedCount(Render(head));
  }

  lemma ConstantCounts()
    ensures Count('\\', "(str-cat ") == 0 && Count('\\', ")") == 0
  {
    CountNone('\\', "(str-cat ");
    CountNone('\\', ")");
  }

  lemma QuotedCount(s: string)
    ensures Count('\\', "\"" + s + "\"") == Count('\\', s)
  {
    CountAppends('\\', "\"" + s, "\"");
    CountAppends('\\', "\"", s);
  }

  // The printed instance has no fewer

  predicate Unclean(c: char) { c == '\\' || c == '"' }

  lemma {:induction false} EscapeCount(w: string, quote: char, c: char)
    ensures Count(c, Escape(w, quote)) >= Count(c, w)
  {
    if w != "" {
      EscapeSplits(w, quote);
      EscapeCount(w[1..], quote, c);
      var first := if w[0] == '\\' || w[0] == quote then ['\\', w[0]] else [w[0]];
      CountAppends(c, first, Escape(w[1..], quote));
      assert |first| == 2 ==> first[1..] == [w[0]];
    }
  }

  lemma AtomCount(f: string, c: char)
    ensures Count(c, RenderAtom(f)) >= Count(c, f)
  {
    if AtomNeedsQuoting(f) {
      EscapeCount(f, '\'', c);
      CountAppends(c, "'" + Escape(f, '\''), "'");
      CountAppends(c, "'", Escape(f, '\''));
    }
  }

  /** Values stand only for variables with ordinary names. */
  predicate OrdinaryKeys(env: map<string, Term>) { forall v | v in env :: VariableReadable(v) && v[0] != '_' }

  lemma {:induction false} SubstitutedCount(t: Term, env: map<string, Term>, c: char)
    requires OrdinaryKeys(env) && Unclean(c)
    ensures Count(c, Render(t)) <= Count(c, Render(Substitute(t, env)))
    decreases t, 0
  {
    if t.Variable? && t.name in env {
      WordHasNone(t.name);
    } else if t.Compound? {
      hide Count, RenderArgs, SubstituteArgs, RenderAtom;
      SubstitutedArgsCount(t.args, env, c);
      CompoundCount(RenderAtom(t.functor), RenderArgs(t.args), c);
      CompoundCount(RenderAtom(t.functor), RenderArgs(SubstituteArgs(t.args, env)), c);
    }
  }

  lemma CompoundCount(f: string, args: string, c: char)
    ensures Count(c, f + "(" + args + ")") == Count(c, f) + Count(c, "(") + Count(c, args) + Count(c, ")")
  {
    hide Count;
    CountAppends(c, f + "(" + args, ")");
    CountAppends(c, f + "(", args);
    CountAppends(c, f, "(");
  }

  lemma RenderArgsCount(args: seq<Term>, c: char)
    requires args != [] && Unclean(c)
    ensures Count(c, RenderArgs(args)) == Count(c, Render(args[0])) + Count(c, RenderArgs(args[1..]))
  {
    hide Render, Count;
    if |args| == 1 {
      EmptyCount(c);
    } else {
      CountAppends(c, Render(args[0]) + ",", RenderArgs(args[1..]));
      CommaCount(Render(args[0]), c);
    }
  }

  lemma {:induction false} SubstitutedArgsCount(args: seq<Term>, env: map<string, Term>, c: char)
    requires OrdinaryKeys(env) && Unclean(c)
    ensures Count(c, RenderArgs(args)) <= Count(c, RenderArgs(SubstituteArgs(args, env)))
    decreases args, 1
  {
    hide Count, RenderArgs, Render, Substitute;
    if args != [] {
      var all := SubstituteArgs(args, env);
      assert all[0] == Substitute(args[0], env) && all[1..] == SubstituteArgs(args[1..], env);
      SubstitutedCount(args[0], env, c);
      SubstitutedArgsCount(args[1..], env, c);
      RenderArgsCount(args, c);
      RenderArgsCount(all, c);
    }
  }

  lemma {:induction false} RawArgsBelow(args: seq<Term>, bound: set<string>, env: map<string, Term>, c: char)
    requires OrdinaryKeys(env) && Unclean(c) && forall k | 0 <= k < |args| && args[k].Variable? :: args[k].name in bound
    ensures RawArgs(c, args, bound) <= Count(c, RenderArgs(SubstituteArgs(args, env)))
    decreases args
  {
    hide Count, RenderArgs, Render, Substitute, OrdinaryKeys;
    if args != [] {
      var all := SubstituteArgs(args, env);
      assert all[0] == Substitute(args[0], env) && all[1..] == SubstituteArgs(args[1..], env);
      assert forall k | 0 <= k < |args[1..]| :: args[1..][k] == args[k + 1];
      SubstitutedCount(args[0], env, c);
      RawArgsBelow(args[1..], bound, env, c);
      RenderArgsCount(all, c);
    }
  }

  lemma RawBelowPrinted(head: Term, bound: set<string>, env: map<string, Term>, c: char)
    requires OrdinaryKeys(env) && Unclean(c) && Vars(head) <= bound
    ensures Raw(c, head, bound) <= Count(c, Render(Substitute(head, env)))
  {
    hide Count, RenderArgs, SubstituteArgs, RawArgs, OrdinaryKeys, RenderAtom;
    match head
    case Atom(s) => AtomCount(s, c);
    case Compound(f, args) =>
      ArgumentsAreBound(args, bound);
      RawArgsBelow(args, bound, env, c);
      AtomCount(f, c);
      CompoundCount(RenderAtom(f), RenderArgs(SubstituteArgs(args, env)), c);
    case _ => SubstitutedCount(head, env, c);
  }

  lemma ArgumentsAreBound(args: seq<Term>, bound: set<string>)
    requires ArgVars(args) <= bound
    ensures forall k | 0 <= k < |args| && args[k].Variable? :: args[k].name in bound
  {
    forall k | 0 <= k < |args| && args[k].Variable? ensures args[k].name in bound {
      ArgumentVars(args, k);
      assert args[k].name in Vars(args[k]);
    }
  }

  // An unclean head is lost

  lemma {:induction false} RawArgsClean(args: seq<Term>, bound: set<string>)
    requires RawArgs('\\', args, bound) == 0 && RawArgs('"', args, bound) == 0
    requires forall k | 0 <= k < |args| && args[k].Variable? :: args[k].name in bound
    requires WellNamed(bound)
    ensures forall k | 0 <= k < |args| :: ArgClean(args[k])
    decreases args
  {
    hide Count, Render;
    if args != [] {
      assert forall k | 0 <= k < |args[1..]| :: args[1..][k] == args[k + 1];
      RawArgsClean(args[1..], bound);
      if args[0].Variable? {
        WordsAreClipsVariables(args[0].name);
      } else {
        CleanHasNone(Render(args[0]));
      }
      forall k | 0 <= k < |args| ensures ArgClean(args[k]) {
        assert k > 0 ==> args[k] == args[1..][k - 1];
      }
    }
  }

  lemma RawIsClean(head: Term, bound: set<string>)
    requires Raw('\\', head, bound) == 0 && Raw('"', head, bound) == 0
    requires Vars(head) <= bound && WellNamed(bound)
    ensures HeadClean(head)
  {
    hide Count, Render, RawArgs, ArgClean;
    match head
    case Atom(s) => CleanHasNone(s);
    case Compound(f, args) =>
      ArgumentsAreBound(args, bound);
      RawArgsClean(args, bound);
      CleanHasNone(f);
    case _ => CleanHasNone(Render(head));
  }

  lemma BoundAreWords(head: Term, bound: set<string>)
    requires head.Compound? && Vars(head) <= bound && WellNamed(bound)
    ensures WordNamed(head.args)
  {
    ArgumentsAreBound(head.args, bound);
  }

  /** A head with a double quote or a backslash, a string argument for instance, never
      comes out as it is printed, unless a value brings such characters in. */
  lemma UncleanIsLost(head: Term, bound: set<string>, env: map<string, Term>)
    requires WellNamed(bound) && Vars(head) <= bound && OrdinaryKeys(env) && CleanValues(Texts(env))
    requires EvalExpr(HeadExpr(head, bound), Texts(env)) == Some(Render(Substitute(head, env)))
    ensures HeadClean(head)
  {
    hide Count, EvalExpr, HeadExpr, Render, Substitute, Raw, HeadClean, Vars, OrdinaryKeys, CleanValues, WordNamed,
        WellNamed;
    var printed := Render(Substitute(head, env));
    if head.Compound? {
      BoundAreWords(head, bound);
    }
    ExpressionLoses(HeadExpr(head, bound), Texts(env));
    ExpressionCount(head, bound);
    RawBelowPrinted(head, bound, env, '\\');
    RawBelowPrinted(head, bound, env, '"');
    RawIsClean(head, bound);
  }

  // A clean head that is not flat, or not plain, comes out as another text

  /** A ground value is not printed like a variable. */
  lemma GroundStarts(t: Term)
    requires Vars(t) == {} && !t.Float?
    ensures Render(t) != "" && !IsUpper(Render(t)[0])
  {
    hide Escape, RenderArgs, IntegerText;
    if t.Atom? || t.Compound? {
      var f := NameOf(t);
      FirstOfName(f);
      if !AtomNeedsQuoting(f) {
        assert RenderAtom(f) == f;
      }
      assert Render(t)[0] == RenderAtom(f)[0];
    } else if t.Integer? {
      IntegerStart(t.value);
    }
  }

  /** What the values of a match are: printed from ground terms that are no floats. */
  predicate Values(env: map<string, Term>) { forall v | v in env :: Vars(env[v]) == {} && FloatFree(env[v]) }

  lemma SamePrefix(p: string, a: string, b: string)
    requires a != b
    ensures p + a != p + b
  {
    assert (p + a)[|p|..] == a && (p + b)[|p|..] == b;
  }

  /** A variable inside a term is written by name, and its value is printed. */
  lemma {:induction false} NestedDiffers(t: Term, env: map<string, Term>, a: string, b: string)
    requires OrdinaryKeys(env) && Values(env) && Vars(t) != {} && Vars(t) <= env.Keys
    ensures Render(t) + a != Render(Substitute(t, env)) + b
    decreases t, 0
  {
    hide RenderAtom, RenderArgs, SubstituteArgs, IsUpper;
    if t.Variable? {
      assert t.name in Vars(t);
      OrdinaryPrints(t.name);
      FloatFreeIsNoFloat(env[t.name]);
      GroundStarts(env[t.name]);
      StartsDiffer(Render(t), Render(env[t.name]), a, b);
    } else {
      var args := SubstituteArgs(t.args, env);
      NestedArgsDiffer(t.args, env, ")" + a, ")" + b);
      SamePrefix(RenderAtom(t.functor) + "(", RenderArgs(t.args) + (")" + a), RenderArgs(args) + (")" + b));
      Regroup(RenderAtom(t.functor) + "(", RenderArgs(t.args), a);
      Regroup(RenderAtom(t.functor) + "(", RenderArgs(args), b);
    }
  }

  lemma OrdinaryPrints(v: string)
    requires VariableReadable(v) && v[0] != '_'
    ensures Render(Variable(v)) == v && IsUpper(v[0])
  {
  }

  lemma Regroup(f: string, args: string, a: string)
    ensures f + args + ")" + a == f + (args + (")" + a))
  {
  }

  lemma {:induction false} NestedArgsDiffer(args: seq<Term>, env: map<string, Term>, a: string, b: string)
    requires OrdinaryKeys(env) && Values(env) && ArgVars(args) != {} && ArgVars(args) <= env.Keys
    ensures RenderArgs(args) + a != RenderArgs(SubstituteArgs(args, env)) + b
    decreases args, 1
  {
    hide RenderArgs, Render, Substitute, OrdinaryKeys, Values;
    var all := SubstituteArgs(args, env);
    assert all[0] == Substitute(args[0], env) && all[1..] == SubstituteArgs(args[1..], env);
    RenderArgsSplits(args);
    RenderArgsSplits(all);
    Regroup3(Render(args[0]), RestArgs(args), a);
    Regroup3(Render(all[0]), RestArgs(all), b);
    if Vars(args[0]) != {} {
      NestedDiffers(args[0], env, RestArgs(args) + a, RestArgs(all) + b);
    } else {
      SubstituteNothing(args[0], env);
      NestedArgsDiffer(args[1..], env, a, b);
      Regroup3(",", RenderArgs(args[1..]), a);
      Regroup3(",", RenderArgs(all[1..]), b);
      SameLength(args, env);
      SamePrefix(",", RenderArgs(args[1..]) + a, RenderArgs(all[1..]) + b);
      SamePrefix(Render(args[0]), RestArgs(args) + a, RestArgs(all) + b);
    }
  }

  lemma Regroup3(a: string, b: string, c: string)
    ensures a + b + c == a + (b + c)
  {
  }

  lemma SameLength(args: seq<Term>, env: map<string, Term>)
    requires args != [] && ArgVars(args[1..]) != {}
    ensures |args| > 1 && |SubstituteArgs(args, env)| > 1
  {
    assert |SubstituteArgs(args, env)| == 1 + |SubstituteArgs(args[1..], env)|;
  }

  /** A name or a value that needs quoting is written without its quotes. */
  lemma UnquotedDiffers(f: string, a: string, b: string)
    requires AtomNeedsQuoting(f) && Clean(f) && (a != "" ==> IsClean(a[0]) && a[0] != '\'')
    ensures f + a != RenderAtom(f) + b
  {
    var printed := RenderAtom(f);
    assert printed[0] == '\'';
    if f != "" && f[0] == '\'' {
      EscapeSplits(f, '\'');
      assert printed[1] == '\\';
      assert |f| > 1 ==> (f + a)[1] == f[1] && IsClean(f[1]);
      assert |f| == 1 && a != "" ==> (f + a)[1] == a[0];
      assert (printed + b)[1] == '\\';
    } else if f != "" {
      StartsDiffer(f, printed, a, b);
    } else {
      assert "" + a == a;
      assert (printed + b)[0] == '\'';
    }
  }

  /** What follows an argument. */
  predicate ArgEnd(a: string) { a != "" && (a[0] == ',' || a[0] == ')') }

  lemma ValueDiffers(t: Term, a: string, b: string)
    requires !PlainValue(t) && Clean(ValueText(t)) && ArgEnd(a)
    ensures ValueText(t) + a != Render(t) + b
  {
    hide Escape;
    if t.Atom? {
      UnquotedDiffers(t.name, a, b);
    } else {
      var w := t.text;
      assert Render(t)[0] == '"';
      if w == "" {
        assert "" + a == a;
        assert (Render(t) + b)[0] == '"';
      } else {
        assert IsClean(w[0]);
        StartsDiffer(w, Render(t), a, b);
      }
    }
  }

  predicate GoodArg(t: Term, env: map<string, Term>) { ArgPlain(t, env) && (t.Variable? || Vars(t) == {}) }

  lemma BadArgDiffers(t: Term, bound: set<string>, env: map<string, Term>, a: string, b: string)
    requires OrdinaryKeys(env) && Values(env) && CleanValues(Texts(env)) && Vars(t) <= bound && Vars(t) <= env.Keys
    requires !GoodArg(t, env) && ArgEnd(a)
    ensures Written(t, bound, Texts(env)).Some?
      && Written(t, bound, Texts(env)).value + a != Render(Substitute(t, env)) + b
  {
    hide Render, PlainValue, ValueText, OrdinaryKeys, Values, ArgEnd;
    if t.Variable? {
      assert t.name in Vars(t);
      assert Clean(Texts(env)[t.name]);
      ValueDiffers(env[t.name], a, b);
    } else {
      NestedDiffers(t, env, a, b);
    }
  }

  lemma GoodArgSame(t: Term, bound: set<string>, env: map<string, Term>)
    requires GoodArg(t, env) && Vars(t) <= bound && Vars(t) <= env.Keys
    ensures Written(t, bound, Texts(env)) == Some(Render(Substitute(t, env)))
  {
    hide Render, ValueText, PlainValue;
    ArgCompares(t, bound, env);
  }

  predicate GoodArgs(args: seq<Term>, env: map<string, Term>) { forall k | 0 <= k < |args| :: GoodArg(args[k], env) }

  /** Arguments in the order they are written, each after its comma. */
  function Commas(args: seq<Term>, first: bool): string { (if first || args == [] then "" else ",") + RenderArgs(args) }

  lemma CommasSplit(args: seq<Term>, first: bool)
    requires args != []
    ensures Commas(args, first) == (if first then "" else ",") + (Render(args[0]) + Commas(args[1..], false))
  {
    hide Render, RenderArgs;
    RenderArgsSplits(args);
    if |args| == 1 {
      assert args[1..] == [];
      NoArgs();
    }
  }

  lemma NoArgs()
    ensures RenderArgs([]) == "" && Commas([], false) == ""
  {
  }

  lemma {:induction false} ArgsWritten(args: seq<Term>, first: bool, bound: set<string>, env: map<string, Term>)
    requires ArgVars(args) <= bound && ArgVars(args) <= env.Keys
    ensures var w := WrittenArgs(args, first, bound, Texts(env));
      w.Some? && (if args == [] then w.value == "" else !first ==> w.value != "" && w.value[0] == ',')
  {
    hide ArgText, Texts;
    if args != [] {
      ArgsWritten(args[1..], false, bound, env);
      if IsBound(args[0], bound) {
        assert args[0].name in Vars(args[0]);
        TextsKeys(env);
      }
    }
  }

  lemma TextsKeys(env: map<string, Term>)
    ensures Texts(env).Keys == env.Keys
  {
  }

  lemma {:induction false} BadArgsDiffer(args: seq<Term>, first: bool, bound: set<string>, env: map<string, Term>)
    requires OrdinaryKeys(env) && Values(env) && CleanValues(Texts(env))
    requires ArgVars(args) <= bound && ArgVars(args) <= env.Keys && !GoodArgs(args, env)
    ensures WrittenArgs(args, first, bound, Texts(env)).Some?
    ensures WrittenArgs(args, first, bound, Texts(env)).value + ")" != Commas(SubstituteArgs(args, env), first) + ")"
    decreases args
  {
    hide OrdinaryKeys, Values, CleanValues, GoodArg, Written, Texts, Commas, RenderArgs, Render, Substitute;
    var all := SubstituteArgs(args, env);
    assert all[0] == Substitute(args[0], env) && all[1..] == SubstituteArgs(args[1..], env);
    assert Vars(args[0]) <= ArgVars(args) && ArgVars(args[1..]) <= ArgVars(args);
    ArgsWritten(args, first, bound, env);
    ArgsWritten(args[1..], false, bound, env);
    CommasSplit(all, first);
    var comma := if first then "" else ",";
    var w, rest := Written(args[0], bound, Texts(env)), WrittenArgs(args[1..], false, bound, Texts(env)).value;
    var printed, more := Render(all[0]), Commas(all[1..], false);
    Regroup4(comma, w.value, rest);
    Regroup4(comma, printed, more);
    if GoodArg(args[0], env) {
      GoodArgSame(args[0], bound, env);
      assert !GoodArgs(args[1..], env) by { LaterBad(args, env); }
      BadArgsDiffer(args[1..], false, bound, env);
      SamePrefix(printed, rest + ")", more + ")");
    } else {
      assert ArgEnd(rest + ")");
      BadArgDiffers(args[0], bound, env, rest + ")", more + ")");
    }
    SamePrefix(comma, w.value + (rest + ")"), printed + (more + ")"));
  }

  lemma Regroup4(a: string, b: string, c: string)
    ensures a + (b + c) + ")" == a + (b + (c + ")"))
  {
  }

  lemma LaterBad(args: seq<Term>, env: map<string, Term>)
    requires args != [] && GoodArg(args[0], env) && !GoodArgs(args, env)
    ensures !GoodArgs(args[1..], env)
  {
    hide GoodArg;
    var k :| 0 <= k < |args| && !GoodArg(args[k], env);
    assert args[1..][k - 1] == args[k];
  }

  lemma GoodHead(head: Term, env: map<string, Term>)
    requires HeadClean(head) && Vars(head) <= env.Keys
    ensures HeadFlat(head) && HeadPlain(head, env) <==>
      match head
      case Atom(s) => !AtomNeedsQuoting(s)
      case Compound(f, args) => !AtomNeedsQuoting(f) && GoodArgs(args, env)
      case Variable(_) => false
      case _ => true
  {
    hide HeadClean, AtomNeedsQuoting, PlainValue;
    if head.Compound? {
      assert forall k | 0 <= k < |head.args| :: GoodArg(head.args[k], env) <==>
        ArgPlain(head.args[k], env) && (head.args[k].Variable? || Vars(head.args[k]) == {});
    }
  }

  /** A clean head with a variable below the top level, or with a functor or value that
      needs quoting, comes out as another text than the printed instance. */
  lemma BadHeadDiffers(head: Term, bound: set<string>, env: map<string, Term>)
    requires OrdinaryKeys(env) && Values(env) && CleanValues(Texts(env)) && HeadClean(head)
    requires Vars(head) <= bound && Vars(head) <= env.Keys && !(HeadFlat(head) && HeadPlain(head, env))
    ensures WrittenHead(head, bound, Texts(env)) != Some(Render(Substitute(head, env)))
  {
    hide OrdinaryKeys, Values, CleanValues, HeadFlat, HeadPlain, ArgClean, ArgVars, GoodArgs, AtomNeedsQuoting, Texts,
        WrittenArgs, RenderArgs, SubstituteArgs, RenderAtom, IsUpper;
    GoodHead(head, env);
    match head
    case Atom(s) =>
      UnquotedDiffers(s, "", "");
      assert s + "" == s && RenderAtom(s) + "" == RenderAtom(s);
    case Compound(f, args) =>
      ArgsWritten(args, true, bound, env);
      var w := WrittenArgs(args, true, bound, Texts(env)).value;
      var printed := RenderArgs(SubstituteArgs(args, env));
      assert Commas(SubstituteArgs(args, env), true) == printed;
      Regroup4(f + "(", "", w);
      if AtomNeedsQuoting(f) {
        UnquotedDiffers(f, "(" + (w + ")"), "(" + (printed + ")"));
        assert f + "(" + (w + ")") == f + ("(" + (w + ")"));
        assert RenderAtom(f) + "(" + printed + ")" == RenderAtom(f) + ("(" + (printed + ")"));
      } else {
        GoalsAsRead.PlainName(f);
        BadArgsDiffer(args, true, bound, env);
        SamePrefix(f + "(", w + ")", printed + ")");
        assert f + "(" + printed + ")" == f + "(" + (printed + ")");
      }
    case Variable(v) =>
      assert v in Vars(head);
      NestedDiffers(head, env, "", "");
      assert Render(head) + "" == Render(head) && Render(env[v]) + "" == Render(env[v]);
  }

  // The exact condition

  /** For values without double quotes and backslashes: the expression publishes the
      closed, printed instance of the head if and only if the head is clean, its
      variables are at the top level and bound, and functor and values need no quotes. */
  lemma PublishesTheHeadIff(head: Term, bound: set<string>, env: map<string, Term>)
    requires WellNamed(bound) && Vars(head) <= bound && OrdinaryKeys(env) && Values(env) && CleanValues(Texts(env))
    ensures EvalExpr(HeadExpr(head, bound), Texts(env)) == Some(Render(Substitute(head, env)))
      && Vars(Substitute(head, env)) == {}
      <==> HeadFlat(head) && Vars(head) <= env.Keys && HeadPlain(head, env)
  {
    hide WellNamed, Vars, OrdinaryKeys, CleanValues, EvalExpr, HeadExpr, Render, Substitute, HeadPlain, NoNested, Texts,
        HeadClean, WrittenHead;
    ValuesAreGround(env);
    SubstitutionIsGround(head, env);
    NoneMissing(Vars(head), env.Keys);
    var published := EvalExpr(HeadExpr(head, bound), Texts(env));
    if Vars(head) <= env.Keys {
      if HeadFlat(head) {
        PublishedGoalIff(head, bound, env);
      }
      if published == Some(Render(Substitute(head, env))) {
        UncleanIsLost(head, bound, env);
        HeadEvaluates(head, bound, Texts(env));
        if !(HeadFlat(head) && HeadPlain(head, env)) {
          BadHeadDiffers(head, bound, env);
        }
      }
    }
  }

  lemma NoneMissing(a: set<string>, b: set<string>)
    ensures a - b == {} <==> a <= b
  {
    forall x | x in a && a - b == {} ensures x in b {
      assert x !in a - b;
    }
  }

  lemma ValuesAreGround(env: map<string, Term>)
    requires Values(env)
    ensures forall v | v in env :: Vars(env[v]) == {}
  {
  }

  /** The fields of a fact, as far as they go into a string. */
  ghost predicate CleanFields(fields: seq<Term>) {
    forall k | 0 <= k < |fields| :: FloatFree(fields[k]) && Clean(ValueText(fields[k]))
  }

  lemma MatchedValues(rule: Rule, goal: BodyGoal, counter: nat, fields: seq<Term>, env: map<string, Term>)
    requires IsEmitted(rule, goal) && Matches(goal, fields, env) && CleanFields(fields)
    ensures OrdinaryKeys(env) && Values(env) && CleanValues(Texts(env)) && env.Keys == NamedArguments(goal.term)
  {
    hide Matches, HasTrigger, FactReadable, ParseFact, RuleFor, FactAsRead, Clean, ValueText, FloatFree;
    PatternMeaning(rule, goal, counter, fields, env);
    TopAreNamed(goal.term);
    forall v | v in env ensures FloatFree(env[v]) && Clean(ValueText(env[v])) {
      var k :| 0 <= k < |fields| && fields[k] == env[v];
    }
  }

  lemma TopAreNamed(t: Term)
    requires WellNamed(Vars(t))
    ensures forall v | v in NamedArguments(t) :: VariableReadable(v) && v[0] != '_'
  {
    forall k | 0 <= k < |Arguments(t)| && Arguments(t)[k].Variable? ensures Arguments(t)[k].name in Vars(t) {
      ArgumentVars(Arguments(t), k);
    }
  }

  /** What every emitted rule publishes, on every fact that its pattern matches and whose
      fields have neither double quotes nor backslashes: the closed, printed instance of
      the clause's head if and only if the head is clean, all its variables stand at the
      top level of the head and of the trigger and do not start with `_`, and functor and
      values need no quotes. */
  lemma RulePublishesTheHeadIff(rule: Rule, goal: BodyGoal, counter: nat, fields: seq<Term>, env: map<string, Term>)
    requires IsEmitted(rule, goal) && Matches(goal, fields, env) && CleanFields(fields)
    ensures var published := EvalExpr(RuleFor(rule, goal, counter).rhs, Texts(env));
      published == Some(Render(Substitute(rule.head, env))) && Vars(Substitute(rule.head, env)) == {}
      <==> HeadFlat(rule.head) && Vars(rule.head) <= NamedArguments(goal.term) && HeadPlain(rule.head, env)
    ensures var text, instance := Render(Substitute(rule.head, env)), Substitute(rule.head, env);
      FloatFree(instance) ==> (ParseText(text) == Ok(instance, |text|) <==> Readable(instance))
  {
    hide WellNamed, Vars, OrdinaryKeys, Values, CleanValues, EvalExpr, HeadExpr, Render, Substitute, HeadPlain,
        HeadFlat, Texts, RuleFor, Matches, CleanFields, NamedArguments, HasTrigger, FactReadable, ParseText, Readable,
            FloatFree;
    MatchedValues(rule, goal, counter, fields, env);
    RuleParts(rule, goal, counter);
    PublishesTheHeadIff(rule.head, Vars(goal.term), env);
    if FloatFree(Substitute(rule.head, env)) {
      PrintedTextReadsBackIff(Substitute(rule.head, env));
    }
  }

  /** An emitted rule whose head is not flat never publishes it. */
  lemma UnflatIsNotPublished(rule: Rule, goal: BodyGoal, counter: nat, fields: seq<Term>, env: map<string, Term>)
    requires IsEmitted(rule, goal) && Matches(goal, fields, env) && CleanFields(fields)
    requires !HeadFlat(rule.head) && Vars(rule.head) <= NamedArguments(goal.term)
    ensures EvalExpr(RuleFor(rule, goal, counter).rhs, Texts(env)) != Some(Render(Substitute(rule.head, env)))
  {
    hide EvalExpr, Vars, Render, Substitute, HeadPlain, HeadFlat, Texts, RuleFor, Matches, CleanFields, NamedArguments,
        HasTrigger, FactReadable, OrdinaryKeys, CleanValues;
    MatchedValues(rule, goal, counter, fields, env);
    RulePublishesTheHeadIff(rule, goal, counter, fields, env);
    ValuesAreGround(env);
    SubstitutionIsGround(rule.head, env);
    NoneMissing(Vars(rule.head), env.Keys);
  }

  // One rule from each family that is emitted and does not publish its head

  const X := Variable("X")

  lemma OneVar(f: string, args: seq<Term>)
    requires args == [X]
    ensures Vars(Compound(f, args)) == {"X"} && ArgVars(args) == {"X"}
  {
    assert args[0] == X && args[1..] == [] && ArgVars(args[1..]) == {};
    assert ArgVars(args) == Vars(args[0]) + ArgVars(args[1..]) == {"X"};
  }

  /** `h(_X) :- t(_X).` is emitted with the pattern `(t ?)`, and has no value on any fact. */
  lemma AnonymousVariableNeverRuns(fields: seq<Term>, env: map<string, Term>, counter: nat)
    requires var goal := Positive(Compound("t", [Variable("_X")])); Matches(goal, fields, env)
    ensures var goal := Positive(Compound("t", [Variable("_X")]));
      var rule := Rule(Compound("h", [Variable("_X")]), [goal]);
      && IsEmitted(rule, goal) && Pattern(goal) == "(t ?)"
      && EvalExpr(RuleFor(rule, goal, counter).rhs, Texts(env)) == None
  {
    hide EvalExpr, RuleFor, Matches;
    var x := Variable("_X");
    var args := [x];
    var goal := Positive(Compound("t", args));
    var rule := Rule(Compound("h", args), [goal]);
    assert args[1..] == [] && ArgVars(args) == Vars(x) + ArgVars(args[1..]) == {"_X"};
    assert RenderFields(args, " ") == RenderField(args[0]) == "?";
    UnderscoredKeeps("t");
    assert IsEmitted(rule, goal);
    RuleRunsIff(rule, goal, counter, fields, env);
    assert "_X" in TopVariables(rule.head) by { assert Arguments(rule.head)[0] == x; }
    assert "_X" !in NamedArguments(goal.term);
  }

  /** `h(X) :- t(f(X)).` is emitted with the string `"f(?X)"` in its pattern, and has no
      value on any fact. */
  lemma NestedTriggerNeverRuns(fields: seq<Term>, env: map<string, Term>, counter: nat)
    requires var goal := Positive(Compound("t", [Compound("f", [X])])); Matches(goal, fields, env)
    ensures var goal := Positive(Compound("t", [Compound("f", [X])]));
      var rule := Rule(Compound("h", [X]), [goal]);
      && IsEmitted(rule, goal) && EvalExpr(RuleFor(rule, goal, counter).rhs, Texts(env)) == None
  {
    hide EvalExpr, RuleFor, Matches;
    var f := Compound("f", [X]);
    var args := [f];
    var goal := Positive(Compound("t", args));
    var rule := Rule(Compound("h", [X]), [goal]);
    OneVar("f", [X]);
    OneVar("h", [X]);
    assert args[1..] == [] && ArgVars(args) == Vars(f) + ArgVars(args[1..]) == {"X"};
    assert IsEmitted(rule, goal);
    RuleRunsIff(rule, goal, counter, fields, env);
    assert "X" in TopVariables(rule.head) by { assert Arguments(rule.head)[0] == X; }
    assert "X" !in NamedArguments(goal.term);
  }

  /** `h(f(X)) :- t(X).` is emitted, and publishes `h(f(X))` on every fact; Prolog reads it
      with its variable. */
  lemma NestedHeadIsPublishedOpen(fields: seq<Term>, env: map<string, Term>, counter: nat)
    requires var goal := Positive(Compound("t", [X])); Matches(goal, fields, env)
    ensures var goal := Positive(Compound("t", [X]));
      var rule := Rule(Compound("h", [Compound("f", [X])]), [goal]);
      && IsEmitted(rule, goal)
      && EvalExpr(RuleFor(rule, goal, counter).rhs, Texts(env)) == Some(Render(rule.head))
      && ParseText(Render(rule.head)) == Ok(rule.head, |Render(rule.head)|) && Vars(rule.head) == {"X"}
  {
    hide EvalExpr, RuleFor, Matches, ParseText, HeadExpr;
    var f := Compound("f", [X]);
    var goal := Positive(Compound("t", [X]));
    var rule := Rule(Compound("h", [f]), [goal]);
    OneVar("f", [X]);
    OneVar("t", [X]);
    assert [f][1..] == [] && ArgVars([f]) == Vars(f) + ArgVars([f][1..]) == {"X"};
    assert IsEmitted(rule, goal);
    RuleParts(rule, goal, counter);
    NestedTexts(f, env);
    forall k | 0 <= k < |rule.head.args| ensures rule.head.args[k] == f {
    }
    GoalsAsRead.HeadIsSpliced(rule.head, Vars(goal.term), env);
    PrintedTextReadsBackIff(rule.head);
  }

  lemma NestedTexts(f: Term, env: map<string, Term>)
    requires f == Compound("f", [X])
    ensures Render(f) == "f(X)" && Render(Compound("h", [f])) == "h(f(X))" && Clean("f(X)") && Clean("h")
    ensures GoalsAsRead.SplicedHead(Compound("h", [f]), env) == "h(f(X))"
    ensures Readable(f) && Readable(Compound("h", [f])) && FloatFree(f) && FloatFree(Compound("h", [f]))
  {
    hide Render, AtomNeedsQuoting, GoalsAsRead.SplicedHead, EnsureVariable;
    assert Render(X) == "X" by { NameOfX(); }
    OneArgText("f", [X], "X", env);
    OneArgText("h", [f], "f(X)", env);
    assert "f" + "(" + "X" + ")" == "f(X)" && "h" + "(" + "f(X)" + ")" == "h(f(X))";
  }

  lemma NameOfX()
    ensures Render(X) == "X"
  {
  }

  /** A plain functor with one argument, printed and spliced. */
  lemma OneArgText(f: string, args: seq<Term>, text: string, env: map<string, Term>)
    requires |f| == 1 && IsLower(f[0]) && |args| == 1 && Render(args[0]) == text
    ensures !AtomNeedsQuoting(f) && f[0] != '_' && Render(Compound(f, args)) == f + "(" + text + ")"
    ensures !args[0].Variable? ==> GoalsAsRead.SplicedHead(Compound(f, args), env) == f + "(" + text + ")"
  {
    hide Escape, EnsureVariable, IntegerText;
    GoalsAsRead.PlainName(f);
    assert RenderArgs(args) == text;
    assert text + "" == text;
  }

  /** `greet(X, "hi") :- visitor(X).` is emitted, and publishes its head on no fact: the
      first quote of the string ends a literal of the expression. */
  lemma StringArgumentIsNotPublished(fields: seq<Term>, env: map<string, Term>, counter: nat)
    requires var goal := Positive(Compound("visitor", [X])); Matches(goal, fields, env)
    ensures var goal := Positive(Compound("visitor", [X]));
      var rule := Rule(Compound("greet", [X, Str("hi")]), [goal]);
      && IsEmitted(rule, goal)
      && EvalExpr(RuleFor(rule, goal, counter).rhs, Texts(env)) != Some(Render(Substitute(rule.head, env)))
  {
    hide EvalExpr, RuleFor, Matches, Substitute, Escape, Join, PartTexts, ArgParts, Render, IsEmitted, HasTrigger;
    var args := [X, Str("hi")];
    var goal := Positive(Compound("visitor", [X]));
    var rule := Rule(Compound("greet", args), [goal]);
    GreetingIsEmitted(args, goal);
    RuleParts(rule, goal, counter);
    assert IsBound(args[0], {"X"});
    var parts := ArgParts(args, true, "greet(", {"X"});
    GreetingParts(args);
    assert "greet" + "(" == "greet(";
    QuoteBreaks(parts, 2, ",", "hi\")", Texts(env));
  }

  lemma GreetingIsEmitted(args: seq<Term>, goal: BodyGoal)
    requires args == [X, Str("hi")] && goal == Positive(Compound("visitor", [X]))
    ensures IsEmitted(Rule(Compound("greet", args), [goal]), goal) && Vars(goal.term) == {"X"}
  {
    OneVar("visitor", [X]);
    XAndString(args);
  }

  lemma GreetingParts(args: seq<Term>)
    requires args == [X, Str("hi")]
    ensures ArgParts(args, true, "greet(", {"X"}) == [Literal("greet("), Reference("X"), Literal("," + "\"" + "hi\")")]
    ensures PartReadable(Literal("greet(")) && PartReadable(Reference("X"))
  {
    var bound, last := {"X"}, [Str("hi")];
    assert args[1..] == last && last[1..] == [] && IsBound(args[0], bound);
    PlainEscape();
    assert ArgText(last[0]) == "\"hi\"";
    assert "" + "," + "\"hi\"" + ")" == "," + "\"" + "hi\")";
    assert ArgParts(last, false, "", bound) == ArgParts(last[1..], false, "" + "," + ArgText(last[0]), bound);
    assert ArgParts(args, true, "greet(", bound) == [Literal("greet(")] + [Reference("X")]
      + ArgParts(last, false, "", bound);
  }

  lemma PlainEscape()
    ensures Escape("hi", '"') == "hi"
  {
    EscapeSplits("hi", '"');
    EscapeSplits("i", '"');
    assert "hi"[1..] == "i" && "i"[1..] == "";
  }

  /** A quote in a literal ends it; with a letter after it, the expression is none. */
  lemma QuoteBreaks(parts: seq<Part>, k: nat, v: string, rest: string, env: map<string, string>)
    requires k < |parts| && (forall m | 0 <= m < k :: PartReadable(parts[m])) && parts[k] == Literal(v + "\"" + rest)
    requires Clean(v) && rest != "" && IsLower(rest[0])
    ensures EvalExpr("(str-cat " + Join(PartTexts(parts), " ") + ")", env) == None
  {
    hide EvalParts, Join, PartTexts, PartReadable, Clean, StringToken;
    var texts := Join(PartTexts(parts), " ");
    var s := "(str-cat " + (texts + ")");
    assert "(str-cat " + texts + ")" == s;
    ConcatenationSplits(texts);
    hide At;
    PartsBreak(parts, k, v, rest, s, 9, env);
  }

  lemma ConcatenationSplits(texts: string)
    ensures var s := "(str-cat " + (texts + ")"); At(s, 0, "(str-cat ") && At(s, 9, texts + ")") && !Next(s, 0, '"')
  {
    var s := "(str-cat " + (texts + ")");
    AtWhole(s);
    AtSplits(s, 0, "(str-cat ", texts + ")");
  }

  lemma {:induction false} PartsBreak(parts: seq<Part>, k: nat, v: string, rest: string, s: string, i: nat,
                                      env: map<string, string>)
    requires k < |parts| && (forall m | 0 <= m < k :: PartReadable(parts[m])) && parts[k] == Literal(v + "\"" + rest)
    requires Clean(v) && rest != "" && IsLower(rest[0]) && At(s, i, Join(PartTexts(parts), " ") + ")")
    ensures EvalParts(s, i, env).Err?
    decreases k
  {
    hide EvalParts, Join, PartTexts, PartText, PartValue, PartReadable, At, Clean;
    PartTextsAre(parts);
    JoinSplits(PartTexts(parts), s, i);
    if k == 0 {
      BrokenLiteral(v, rest, s, i, env);
    } else {
      PartEvaluates(parts[0], s, i, env);
      var j := i + |PartText(parts[0])|;
      EvalSkipsSpace(s, j, env);
      PartsBreak(parts[1..], k - 1, v, rest, s, j + 1, env);
    }
  }

  lemma BrokenLiteral(v: string, rest: string, s: string, i: nat, env: map<string, string>)
    requires Clean(v) && rest != "" && IsLower(rest[0]) && At(s, i, PartText(Literal(v + "\"" + rest)))
    ensures EvalParts(s, i, env).Err?
  {
    hide EvalParts, At, Clean;
    assert PartText(Literal(v + "\"" + rest)) == "\"" + v + "\"" + (rest + "\"");
    AtSplits(s, i, "\"" + v + "\"", rest + "\"");
    LiteralEvaluates(v, s, i, env);
    var j := i + |v| + 2;
    AtFirst(s, j, rest + "\"");
    SymbolFails(s, j, env);
  }

  lemma SymbolFails(s: string, i: nat, env: map<string, string>)
    requires i < |s| && IsLower(s[i])
    ensures EvalParts(s, i, env) == Err(i)
  {
    SkipsNothing(s, i);
  }

  lemma XAndString(args: seq<Term>)
    requires args == [X, Str("hi")]
    ensures ArgVars(args) == {"X"}
  {
    assert args[1..] == [Str("hi")] && [Str("hi")][1..] == [];
    assert ArgVars([Str("hi")]) == Vars(Str("hi")) + ArgVars([Str("hi")][1..]) == {};
    assert ArgVars(args) == Vars(args[0]) + ArgVars(args[1..]);
  }
}
