/** What Prolog reads when a rule publishes: values are spliced in as they are, so even a
    printed goal without variables can be read as one with a variable, or as another. */
module GoalsAsRead {
  import opened Wrappers
  import opened Text
  import opened Terms
  import opened PrologSyntax
  import opened PrologRoundTrip
  import opened ClauseSyntax
  import opened ClipsSyntax
  import opened ClipsRoundTrip
  import opened Coloring
  import opened Transduction
  import opened TransductionMeaning
  import opened EmittedRules

  // Printed terms that are read without variables

  predicate ArgumentEnd(s: string, j: nat) { j == |s| || Next(s, j, ',') || Next(s, j, ')') }

  predicate ReadsGround(r: Parsed<Term>) { r.Ok? && Vars(r.value) == {} }

  /** A printed term is read as a term without variables exactly if it has none and is
      readable; and then it is read as itself. */
  lemma PrintedReadsGroundIff(t: Term, s: string, i: nat)
    requires FloatFree(t) && WellNamed(Vars(t)) && At(s, i, Render(t)) && ArgumentEnd(s, i + |Render(t)|)
    ensures ReadsGround(ParseTerm(s, i)) <==> Readable(t) && Vars(t) == {}
    ensures Readable(t) ==> ParseTerm(s, i) == Ok(t, i + |Render(t)|)
  {
    hide ParseTerm, Render, Readable, Vars, WellNamed, FloatFree;
    PrintedArgumentReadsBackIff(t, s, i);
    if ReadsGround(ParseTerm(s, i)) {
      ReadsGroundIsReadable(t, s, i);
    }
  }

  lemma {:induction false} ReadsGroundIsReadable(t: Term, s: string, i: nat)
    requires FloatFree(t) && WellNamed(Vars(t)) && At(s, i, Render(t)) && ArgumentEnd(s, i + |Render(t)|)
    requires ReadsGround(ParseTerm(s, i))
    ensures Readable(t) && Vars(t) == {}
    decreases t, 2
  {
    hide ParseTerm, Escape, RenderArgs;
    match t
    case Atom(f) =>
      if !NameReadable(f) {
        UnderscoreNameReadsAsVariable(f, s, i);
      }
    case Variable(v) => PrintedArgumentReadsBackIff(t, s, i);
    case Compound(f, args) =>
      CompoundSplits(t, s, i);
      FunctorIsReadable(f, s, i);
      if args != [] {
        ReadsGroundCompound(t, s, i);
      }
    case _ =>
  }

  lemma {:induction false} ReadsGroundCompound(t: Term, s: string, i: nat)
    requires t.Compound? && t.args != [] && FloatFree(t) && WellNamed(Vars(t)) && At(s, i, Render(t))
    requires NameReadable(t.functor) && ReadsGround(ParseTerm(s, i))
    ensures Readable(t) && Vars(t) == {}
    decreases t, 1
  {
    hide ParseTerm, ParseArgs, ParseArgList, RenderAtom, RenderArgs, NameReadable, At;
    var j := i + |RenderAtom(t.functor)|;
    CompoundSplits(t, s, i);
    NamedArgsRead(t.functor, s, i, j);
    ReadsGroundArgs(t.args, s, j + 1);
  }

  /** A readable functor with an argument list is read as a compound with that list. */
  lemma NamedArgsRead(f: string, s: string, i: nat, j: nat)
    requires NameReadable(f) && At(s, i, RenderAtom(f)) && j == i + |RenderAtom(f)| && Next(s, j, '(')
    ensures ParseTerm(s, i) == match ParseArgs(s, j + 1)
      case Ok(args, pos) => Ok(Compound(f, args), pos)
      case Err(pos) => Err(pos)
  {
    hide ParseHead, ParseArgs, RenderAtom, NameReadable;
    NameStarts(f, s, i);
    NameReads(f, s, i);
    SkipsNothing(s, j);
  }

  /** A list that does not start with a closing parenthesis. */
  lemma ArgsAreList(s: string, i: nat)
    requires i < |s| && !IsSpace(s[i]) && s[i] != ')'
    ensures ParseArgs(s, i) == ParseArgList(s, i)
  {
    hide ParseTerm;
    SkipsNothing(s, i);
  }

  lemma ArgListParts(s: string, i: nat)
    requires i <= |s| && ParseArgList(s, i).Ok?
    ensures var r := ParseTerm(s, i);
      r.Ok? && var j := SkipSpace(s, r.pos);
      var list := ParseArgList(s, i).value;
      && list != [] && list[0] == r.value
      && (Next(s, j, ',') ==> ParseArgList(s, j + 1).Ok? && list[1..] == ParseArgList(s, j + 1).value)
  {
    hide ParseTerm;
  }

  lemma {:induction false} ReadsGroundArgs(args: seq<Term>, s: string, i: nat)
    requires args != [] && (forall k | 0 <= k < |args| :: FloatFree(args[k])) && WellNamed(ArgVars(args))
    requires At(s, i, RenderArgs(args) + ")") && ParseArgs(s, i).Ok? && ArgVars(ParseArgs(s, i).value) == {}
    ensures (forall k | 0 <= k < |args| :: Readable(args[k])) && ArgVars(args) == {}
    decreases args, 1
  {
    hide ParseTerm, ParseArgs, ParseArgList, Render, RenderArgs, At, FloatFree, Readable;
    ArgsSplit(args, s, i);
    NoClosing(args[0], s, i);
    ArgsAreList(s, i);
    ReadsGroundList(args, s, i);
  }

  lemma NoClosing(t: Term, s: string, i: nat)
    requires FloatFree(t) && WellNamed(Vars(t)) && At(s, i, Render(t))
    ensures i < |s| && !IsSpace(s[i]) && s[i] != ')'
  {
    hide Escape, RenderArgs, IntegerText;
    AtFirst(s, i, Render(t));
    match t {
      case Atom(f) => NameStart(f);
      case Compound(f, _) => NameStart(f);
      case Variable(v) => VariablePrintsItself(v);
      case Integer(n) => IntegerStart(n);
      case Str(_) =>
    }
  }

  lemma NameStart(f: string)
    ensures RenderAtom(f) != "" && !IsSpace(RenderAtom(f)[0]) && RenderAtom(f)[0] != ')'
  {
    if !AtomNeedsQuoting(f) {
      assert In(Word, f[0]);
    }
  }

  lemma {:induction false} ReadsGroundList(args: seq<Term>, s: string, i: nat)
    requires args != [] && (forall k | 0 <= k < |args| :: FloatFree(args[k])) && WellNamed(ArgVars(args))
    requires At(s, i, RenderArgs(args) + ")") && ParseArgList(s, i).Ok? && ArgVars(ParseArgList(s, i).value) == {}
    ensures (forall k | 0 <= k < |args| :: Readable(args[k])) && ArgVars(args) == {}
    decreases args, 0
  {
    hide ParseTerm, ParseArgList, Render, RenderArgs, At, FloatFree, Readable, Vars;
    var list, j := ParseArgList(s, i).value, i + |Render(args[0])|;
    ArgsSplit(args, s, i);
    ArgListParts(s, i);
    assert ArgVars(list) == Vars(list[0]) + ArgVars(list[1..]);
    ReadsGroundIsReadable(args[0], s, i);
    PrintedArgumentReadsBackIff(args[0], s, i);
    ArgumentEnds(args[0], s, j);
    if |args| > 1 {
      ReadsGroundList(args[1..], s, j + 1);
      AllReadable(args);
    } else {
      assert args[1..] == [];
    }
  }

  // Text that is spliced in without quotes

  /** The first `c` inside a quoted atom comes out no later than it stands in the text. */
  lemma {:induction false} QuotedKeepsLetter(s: string, i: nat, p: nat, c: char) returns (v: nat)
    requires i <= p < |s| && QuotedBody(s, i).Ok? && p < QuotedBody(s, i).pos - 1 && s[p] == c
    requires c == ',' || c == '(' || c == ')'
    ensures v <= p - i && v < |QuotedBody(s, i).value| && QuotedBody(s, i).value[v] == c
    decreases p - i
  {
    if s[i] == '\'' {
      v := QuotedKeepsLetter(s, i + 2, p, c);
      v := v + 1;
    } else if s[i] == '\\' {
      var escape := QuotedEscape(s[i + 1]);
      if p == i + 1 {
        assert (escape + QuotedBody(s, i + 2).value)[1] == c;
        v := 1;
      } else {
        v := QuotedKeepsLetter(s, i + 2, p, c);
        assert (escape + QuotedBody(s, i + 2).value)[|escape| + v] == c;
        v := |escape| + v;
      }
    } else if p == i {
      v := 0;
    } else {
      v := QuotedKeepsLetter(s, i + 1, p, c);
      v := v + 1;
    }
  }

  lemma {:induction false} StringKeepsLetter(s: string, i: nat, p: nat, c: char) returns (v: nat)
    requires i <= p < |s| && StringBody(s, i).Ok? && p < StringBody(s, i).pos - 1 && s[p] == c
    requires c == ',' || c == '(' || c == ')'
    ensures v <= p - i && v < |StringBody(s, i).value| && StringBody(s, i).value[v] == c
    decreases p - i
  {
    if s[i] == '\\' {
      if p == i + 1 {
        v := 0;
      } else {
        v := StringKeepsLetter(s, i + 2, p, c);
        v := v + 1;
      }
    } else if p == i {
      v := 0;
    } else {
      v := StringKeepsLetter(s, i + 1, p, c);
      v := v + 1;
    }
  }

  lemma {:induction false} QuotedIsShorter(s: string, i: nat)
    requires i <= |s| && QuotedBody(s, i).Ok?
    ensures i + |QuotedBody(s, i).value| < QuotedBody(s, i).pos
    decreases |s| - i
  {
    if s[i] == '\'' {
      if Next(s, i + 1, '\'') {
        QuotedIsShorter(s, i + 2);
      }
    } else if s[i] == '\\' {
      QuotedIsShorter(s, i + 2);
    } else {
      QuotedIsShorter(s, i + 1);
    }
  }

  lemma {:induction false} StringIsShorter(s: string, i: nat)
    requires i <= |s| && StringBody(s, i).Ok?
    ensures i + |StringBody(s, i).value| < StringBody(s, i).pos
    decreases |s| - i
  {
    if s[i] == '\\' {
      StringIsShorter(s, i + 2);
    } else if s[i] != '"' {
      StringIsShorter(s, i + 1);
    }
  }

  lemma {:induction false} FirstOf(s: string, i: nat, e: nat, c: char) returns (p: nat)
    requires i <= e < |s| && s[e] == c
    ensures i <= p <= e && s[p] == c && forall k | i <= k < p :: s[k] != c
    decreases e - i
  {
    if s[i] == c {
      p := i;
    } else {
      p := FirstOf(s, i + 1, e, c);
    }
  }

  /** A delimiter ends the raw text `w`, which stands from its position `d` on at `j`. */
  ghost predicate RawFrom(w: string, d: nat, s: string, j: nat, c: char) {
    && d < |w| && At(s, j, w[d..] + [c]) && (c == ',' || c == '(' || c == ')')
    && forall u | 0 <= u < d :: IsTrimmed(w[u])
  }

  /** Where the first delimiter stands, and that nothing as early in `w` is one. */
  lemma NoEarlyDelimiter(w: string, d: nat, s: string, j: nat, c: char) returns (p: nat)
    requires RawFrom(w, d, s, j, c) && w[d] != c
    ensures j < p <= j + |w| && p < |s| && s[p] == c
    ensures forall v | 0 <= v < p - j && v < |w| :: w[v] != c
  {
    var e := j + |w| - d;
    AtEndsWith(s, j, w[d..], c);
    AtFirst(s, j, w[d..]);
    p := FirstOf(s, j + 1, e, c);
    forall v | 0 <= v < p - j && v < |w| ensures w[v] != c {
      if v >= d {
        assert s[j..j + |w| - d][v - d] == w[d..][v - d];
      }
    }
  }

  /** No text is the quoted atom that stands for it. */
  lemma QuotedIsNotRaw(w: string, d: nat, s: string, j: nat, c: char)
    requires RawFrom(w, d, s, j, c) && w[d] == '\''
    ensures j < |s| && s[j] == '\'' && !(QuotedBody(s, j + 1).Ok? && QuotedBody(s, j + 1).value == w)
  {
    hide QuotedBody, At;
    AtSplits(s, j, w[d..], [c]);
    AtFirst(s, j, w[d..]);
    if QuotedBody(s, j + 1).Ok? && QuotedBody(s, j + 1).value == w {
      QuotedIsShorter(s, j + 1);
      var p := NoEarlyDelimiter(w, d, s, j, c);
      var v := QuotedKeepsLetter(s, j + 1, p, c);
    }
  }

  lemma StringIsNotRaw(w: string, d: nat, s: string, j: nat, c: char)
    requires RawFrom(w, d, s, j, c) && w[d] == '"'
    ensures j < |s| && s[j] == '"' && !(StringBody(s, j + 1).Ok? && StringBody(s, j + 1).value == w)
  {
    hide StringBody, At;
    AtSplits(s, j, w[d..], [c]);
    AtFirst(s, j, w[d..]);
    if StringBody(s, j + 1).Ok? && StringBody(s, j + 1).value == w {
      StringIsShorter(s, j + 1);
      var p := NoEarlyDelimiter(w, d, s, j, c);
      var v := StringKeepsLetter(s, j + 1, p, c);
    }
  }

  /** A name that is read without quotes needs none. */
  lemma BareNameIsPlain(s: string, i: nat)
    requires i < |s| && IsLower(s[i])
    ensures var name := s[i..Span(Word, s, i)]; !AtomNeedsQuoting(name) && name[0] != '_'
  {
    var j := Span(Word, s, i);
    SpanIsInClass(Word, s, i);
    assert In(Word, s[i]) && j > i;
    forall k | 0 <= k < j - i ensures In(Word, s[i..j][k]) {
      assert s[i..j][k] == s[i + k];
    }
  }

  /** The names that survive being written without quotes. */
  predicate NameSurvives(f: string) { !AtomNeedsQuoting(f) && f[0] != '_' }

  /** How a name can come to be read: bare, or from quotes. */
  lemma NamesRead(s: string, j: nat)
    requires j <= |s| && ParseHead(s, j).Name?
    ensures j < |s|
    ensures var name := ParseHead(s, j).name;
      NameSurvives(name) || (s[j] == '\'' && QuotedBody(s, j + 1).Ok? && QuotedBody(s, j + 1).value == name)
  {
    hide QuotedBody, StringBody, ParseNumber, Span, AtomNeedsQuoting;
    if IsLower(s[j]) {
      BareNameIsPlain(s, j);
    }
  }

  /** A text that is followed by a delimiter is no name read at its start, unless it is
      one that survives. */
  lemma RawNameReads(w: string, d: nat, s: string, j: nat, c: char)
    requires d <= |w| && At(s, j, w[d..] + [c]) && (c == ',' || c == '(' || c == ')')
    requires forall u | 0 <= u < d :: IsTrimmed(w[u])
    requires ParseHead(s, j).Name? && ParseHead(s, j).name == w
    ensures NameSurvives(w)
  {
    hide ParseHead, QuotedBody, At, AtomNeedsQuoting;
    NamesRead(s, j);
    if !NameSurvives(w) {
      AtSplits(s, j, w[d..], [c]);
      AtFirst(s, j + |w[d..]|, [c]);
      if d < |w| {
        AtFirst(s, j, w[d..]);
        QuotedIsNotRaw(w, d, s, j, c);
      }
    }
  }

  // Values among the arguments

  /** The values that come back when their text is spliced in among arguments: names and
      structures as usual, never a string, and of the names that need quotes only `[]`. */
  predicate ValueSurvives(t: Term) {
    match t
    case Atom(f) => f == "[]" || NameSurvives(f)
    case Str(_) => false
    case _ => Readable(t)
  }

  /** The blanks before a raw text are all that the reader skips. */
  lemma BlanksOfRaw(w: string, s: string, i: nat, c: char) returns (d: nat)
    requires At(s, i, w + [c]) && !IsSpace(c)
    ensures d <= |w| && SkipSpace(s, i) == i + d && At(s, i + d, w[d..] + [c]) && forall u | 0 <= u < d ::
      IsTrimmed(w[u])
  {
    var j := SkipSpace(s, i);
    AtEndsWith(s, i, w, c);
    SpanIsInClass(Space, s, i);
    assert In(Space, c) == IsSpace(c);
    d := j - i;
    assert s[i..i + |w|] == w;
    forall u | 0 <= u < d ensures IsTrimmed(w[u]) {
      assert In(Space, s[i + u]) && s[i..i + |w|][u] == w[u];
    }
    assert w + [c] == w[..d] + (w[d..] + [c]);
    AtSplits(s, i, w[..d], w[d..] + [c]);
  }

  lemma AtomSource(s: string, i: nat)
    requires i <= |s| && ParseTerm(s, i).Ok? && ParseTerm(s, i).value.Atom?
    ensures var j, f := SkipSpace(s, i), ParseTerm(s, i).value.name;
      f == "[]" || (ParseHead(s, j).Name? && ParseHead(s, j).name == f)
  {
    hide QuotedBody, StringBody, Span, SkipSpace, ParseArgs;
  }

  lemma StringSource(s: string, i: nat)
    requires i <= |s| && ParseTerm(s, i).Ok? && ParseTerm(s, i).value.Str?
    ensures var j := SkipSpace(s, i);
      j < |s| && s[j] == '"' && StringBody(s, j + 1).Ok? && StringBody(s, j + 1).value == ParseTerm(s, i).value.text
  {
    hide QuotedBody, StringBody, Span, SkipSpace, ParseArgs;
  }

  lemma EmptyListReads(s: string, i: nat, c: char)
    requires At(s, i, "[]" + [c])
    ensures ParseTerm(s, i) == Ok(Atom("[]"), i + 2)
  {
    hide QuotedBody, StringBody, MaybeCompound;
    AtEndsWith(s, i, "[]", c);
    AtPair(s, i, '[', ']');
    SkipsNothing(s, i);
    SkipsNothing(s, i + 1);
  }

  lemma RawAtomReads(f: string, s: string, i: nat, c: char)
    requires At(s, i, f + [c]) && (c == ',' || c == ')')
    ensures ParseTerm(s, i).Ok? && ParseTerm(s, i).value == Atom(f) <==> f == "[]" || NameSurvives(f)
    ensures f == "[]" || NameSurvives(f) ==> ParseTerm(s, i) == Ok(Atom(f), i + |f|)
  {
    hide ParseTerm, ParseHead, AtomNeedsQuoting, At;
    AtEndsWith(s, i, f, c);
    SkipsNothing(s, i + |f|);
    if f == "[]" {
      EmptyListReads(s, i, c);
    } else if NameSurvives(f) {
      PrintedArgumentReadsBackIff(Atom(f), s, i);
    } else if ParseTerm(s, i).Ok? && ParseTerm(s, i).value == Atom(f) {
      AtomSource(s, i);
      var d := BlanksOfRaw(f, s, i, c);
      RawNameReads(f, d, s, i + d, c);
    }
  }

  lemma RawStringIsLost(w: string, s: string, i: nat, c: char)
    requires At(s, i, w + [c]) && (c == ',' || c == ')')
    ensures !(ParseTerm(s, i).Ok? && ParseTerm(s, i).value == Str(w))
  {
    hide ParseTerm, StringBody, At;
    AtEndsWith(s, i, w, c);
    if ParseTerm(s, i).Ok? && ParseTerm(s, i).value == Str(w) {
      StringSource(s, i);
      var d := BlanksOfRaw(w, s, i, c);
      AtSplits(s, i + d, w[d..], [c]);
      AtFirst(s, i + d + |w[d..]|, [c]);
      if d < |w| {
        AtFirst(s, i + d, w[d..]);
        StringIsNotRaw(w, d, s, i + d, c);
      }
    }
  }

  lemma ValueReadsIff(t: Term, s: string, i: nat, c: char)
    requires FloatFree(t) && At(s, i, ValueText(t) + [c]) && (c == ',' || c == ')')
    ensures ParseTerm(s, i).Ok? && ParseTerm(s, i).value == t <==> ValueSurvives(t)
    ensures ValueSurvives(t) ==> ParseTerm(s, i) == Ok(t, i + |ValueText(t)|)
  {
    hide ParseTerm, At, Render, NameSurvives;
    if t.Atom? {
      RawAtomReads(t.name, s, i, c);
    } else if t.Str? {
      RawStringIsLost(t.text, s, i, c);
    } else {
      IntegerPrints(t);
      AtEndsWith(s, i, Render(t), c);
      PrintedArgumentReadsBackIff(t, s, i);
      if ParseTerm(s, i).Ok? && ParseTerm(s, i).value == t {
        ArgumentEnds(t, s, i + |Render(t)|);
        ReadBackIsReadable(t, s, i);
      }
    }
  }

  lemma IntegerPrints(t: Term)
    requires !t.Atom? && !t.Str?
    ensures ValueText(t) == Render(t)
  {
  }

  // Arguments

  /** What stands for an argument in the published text. */
  function SplicedArg(t: Term, env: map<string, Term>): string {
    if t.Variable? && t.name in env then ValueText(env[t.name]) else Render(t)
  }

  function Spliced(args: seq<Term>, env: map<string, Term>): string {
    if args == [] then ""
    else SplicedArg(args[0], env) + if |args| == 1 then "" else "," + Spliced(args[1..], env)
  }

  /** The arguments that come back: bound variables whose values survive, and readable
      terms without variables. */
  predicate ArgSurvives(t: Term, env: map<string, Term>) {
    if t.Variable? then t.name in env && ValueSurvives(env[t.name]) else Vars(t) == {} && Readable(t)
  }

  ghost predicate ArgsSurvive(args: seq<Term>, env: map<string, Term>) {
    forall k | 0 <= k < |args| :: ArgSurvives(args[k], env)
  }

  ghost predicate GroundValues(env: map<string, Term>) {
    forall v | v in env :: FloatFree(env[v]) && Vars(env[v]) == {}
  }

  /** Reading gives the instance of `t`, and that has no variables. */
  predicate ReadsInstance(r: Parsed<Term>, t: Term, env: map<string, Term>) {
    ReadsGround(r) && r.value == Substitute(t, env)
  }

  lemma ArgReadsIff(t: Term, env: map<string, Term>, s: string, i: nat, c: char)
    requires FloatFree(t) && WellNamed(Vars(t)) && GroundValues(env)
    requires At(s, i, SplicedArg(t, env) + [c]) && (c == ',' || c == ')')
    ensures ReadsInstance(ParseTerm(s, i), t, env) <==> ArgSurvives(t, env)
    ensures ArgSurvives(t, env) ==> ParseTerm(s, i) == Ok(Substitute(t, env), i + |SplicedArg(t, env)|)
  {
    hide ParseTerm, At, Render, Readable, ValueSurvives, FloatFree, ValueText, WellNamed;
    if t.Variable? && t.name in env {
      ValueReadsIff(env[t.name], s, i, c);
    } else {
      AtEndsWith(s, i, Render(t), c);
      PrintedReadsGroundIff(t, s, i);
      if Vars(t) == {} {
        SubstituteNothing(t, env);
      }
    }
  }

  lemma SplicedStep(args: seq<Term>, env: map<string, Term>, s: string, i: nat)
    requires args != [] && At(s, i, Spliced(args, env) + ")")
    ensures var j := i + |SplicedArg(args[0], env)|;
      if |args| == 1 then At(s, i, SplicedArg(args[0], env) + ")")
      else At(s, i, SplicedArg(args[0], env) + ",") && At(s, j + 1, Spliced(args[1..], env) + ")")
  {
    hide At, SplicedArg;
    var text := SplicedArg(args[0], env);
    if |args| == 1 {
      assert text + "" + ")" == text + ")";
    } else {
      var more := Spliced(args[1..], env) + ")";
      assert text + ("," + Spliced(args[1..], env)) + ")" == (text + ",") + more;
      AtSplits(s, i, text + ",", more);
    }
  }

  ghost predicate ReadsInstances(r: Parsed<seq<Term>>, args: seq<Term>, env: map<string, Term>) {
    r.Ok? && ArgVars(r.value) == {} && r.value == SubstituteArgs(args, env)
  }

  lemma {:induction false} ListReadsIff(args: seq<Term>, env: map<string, Term>, s: string, i: nat)
    requires args != [] && (forall k | 0 <= k < |args| :: FloatFree(args[k])) && WellNamed(ArgVars(args))
      && GroundValues(env)
    requires At(s, i, Spliced(args, env) + ")")
    ensures ReadsInstances(ParseArgList(s, i), args, env) <==> ArgsSurvive(args, env)
    decreases |args|
  {
    hide ParseTerm, ParseArgList, At, SplicedArg, Spliced, FloatFree, ArgSurvives, GroundValues, Substitute,
        SubstituteArgs, ArgVars, Vars;
    var c := if |args| == 1 then ')' else ',';
    var j := i + |SplicedArg(args[0], env)|;
    SplicedStep(args, env, s, i);
    FirstVars(args);
    AtEndsWith(s, i, SplicedArg(args[0], env), c);
    ArgReadsIff(args[0], env, s, i, c);
    if |args| > 1 {
      ListReadsIff(args[1..], env, s, j + 1);
    }
    if ArgSurvives(args[0], env) {
      SkipsNothing(s, j);
      ArgListStep(s, i, Substitute(args[0], env), j);
      ListStepIff(args, env, s, i, j);
    } else if ReadsInstances(ParseArgList(s, i), args, env) {
      ArgListParts(s, i);
      FirstInstance(args, env, ParseArgList(s, i).value);
      assert false;
    }
  }

  lemma FirstVars(args: seq<Term>)
    requires args != [] && WellNamed(ArgVars(args))
    ensures WellNamed(Vars(args[0])) && WellNamed(ArgVars(args[1..]))
  {
  }

  lemma FirstInstance(args: seq<Term>, env: map<string, Term>, list: seq<Term>)
    requires args != [] && list != [] && ArgVars(list) == {} && list == SubstituteArgs(args, env)
    ensures Vars(list[0]) == {} && list[0] == Substitute(args[0], env)
  {
  }

  lemma ListStepIff(args: seq<Term>, env: map<string, Term>, s: string, i: nat, j: nat)
    requires args != [] && i <= |s| && j < |s| && ArgSurvives(args[0], env) && Vars(Substitute(args[0], env)) == {}
    requires ParseArgList(s, i) ==
      if |args| > 1 then Prepend([Substitute(args[0], env)], ParseArgList(s, j + 1))
        else Ok([Substitute(args[0], env)], j + 1)
    requires |args| > 1 ==> (ReadsInstances(ParseArgList(s, j + 1), args[1..], env) <==> ArgsSurvive(args[1..], env))
    ensures ReadsInstances(ParseArgList(s, i), args, env) <==> ArgsSurvive(args, env)
  {
    hide ParseArgList, ArgSurvives, Substitute;
    var first := Substitute(args[0], env);
    var all := SubstituteArgs(args, env);
    assert all[0] == first && all[1..] == SubstituteArgs(args[1..], env);
    if |args| == 1 {
      assert args[1..] == [] && all == [first] && [first][1..] == [];
      assert ArgVars([first]) == Vars([first][0]) + ArgVars([first][1..]) == {};
      assert forall k | 0 <= k < |args| :: args[k] == args[0];
    } else {
      assert forall k | 0 < k < |args| :: args[k] == args[1..][k - 1];
      assert forall k | 0 <= k < |args[1..]| :: args[1..][k] == args[k + 1];
      var r := ParseArgList(s, j + 1);
      if r.Ok? {
        var list := [first] + r.value;
        assert list[0] == first && list[1..] == r.value;
        assert ArgVars(list) == Vars(list[0]) + ArgVars(list[1..]);
        assert all == [first] + all[1..];
      }
    }
  }

  // The head

  function SplicedHead(head: Term, env: map<string, Term>): string {
    match head
    case Atom(f) => f
    case Compound(f, args) => f + "(" + Spliced(args, env) + ")"
    case _ => Render(head)
  }

  /** The heads that come back. */
  ghost predicate HeadSurvives(head: Term, env: map<string, Term>) {
    match head
    case Atom(f) => f == "[]" || NameSurvives(f)
    case Compound(f, args) => NameSurvives(f) && ArgsSurvive(args, env)
    case _ => Vars(head) == {} && Readable(head)
  }

  lemma {:induction false} TrimmedStart(s: string) returns (d: nat)
    ensures d <= |s| && TrimStart(s) == s[d..] && (forall u | 0 <= u < d :: IsTrimmed(s[u]))
      && (d < |s| ==> !IsTrimmed(s[d]))
  {
    if s != "" && IsTrimmed(s[0]) {
      d := TrimmedStart(s[1..]);
      forall u | 0 <= u < d + 1 ensures IsTrimmed(s[u]) {
        assert u > 0 ==> s[u] == s[1..][u - 1];
      }
      assert s[1..][d..] == s[d + 1..];
      assert d < |s[1..]| ==> s[d + 1] == s[1..][d];
      d := d + 1;
    } else {
      d := 0;
      assert s[0..] == s;
    }
  }

  lemma {:induction false} TrimmedEnd(s: string)
    ensures |TrimEnd(s)| <= |s|
    ensures s != "" && !IsTrimmed(s[|s| - 1]) ==> TrimEnd(s) == s
  {
    if s != "" && IsTrimmed(s[|s| - 1]) {
      TrimmedEnd(s[..|s| - 1]);
    }
  }

  /** A name that needs quotes is not read from its own text. */
  lemma RawAtomAlone(f: string)
    requires ParseText(f).Ok? && ParseText(f).value == Atom(f)
    ensures f == "[]" || NameSurvives(f)
  {
    hide ParseTerm, ParseHead, QuotedBody, AtomNeedsQuoting, TrimStart, TrimEnd;
    var s := Trim(f);
    var d := TrimmedStart(f);
    TrimmedEnd(TrimStart(f));
    AtomSource(s, 0);
    if f != "[]" {
      var j := SkipSpace(s, 0);
      NamesRead(s, j);
      if !NameSurvives(f) {
        QuotedIsShorter(s, j + 1);
      }
    }
  }

  lemma CompoundSource(s: string, i: nat)
    requires i <= |s| && ParseTerm(s, i).Ok? && ParseTerm(s, i).value.Compound?
    ensures var j := SkipSpace(s, i); ParseHead(s, j).Name? && ParseHead(s, j).name == ParseTerm(s, i).value.functor
  {
    hide QuotedBody, StringBody, Span, SkipSpace, ParseArgs;
  }

  /** A compound is never read with a functor that needs quotes from text in which the
      functor stands without them. */
  lemma RawFunctorAlone(f: string, rest: string)
    requires rest != "" && !IsTrimmed(rest[|rest| - 1])
    requires ParseText(f + "(" + rest).Ok? && ParseText(f + "(" + rest).value.Compound?
    requires ParseText(f + "(" + rest).value.functor == f
    ensures NameSurvives(f)
  {
    hide ParseTerm, ParseHead, AtomNeedsQuoting, TrimStart, TrimEnd;
    var text := f + "(" + rest;
    var d := TrimmedStart(text);
    assert text[|f|] == '(' && text[|text| - 1] == rest[|rest| - 1];
    assert d <= |f|;
    TrimmedEnd(text[d..]);
    var s := text[d..];
    CompoundSource(s, 0);
    assert s != "" && s[0] == text[d] && !IsSpace(s[0]);
    SkipsNothing(s, 0);
    assert s == (f[d..] + "(") + rest;
    AtWhole(s);
    AtSplits(s, 0, f[d..] + "(", rest);
    forall u | 0 <= u < d ensures IsTrimmed(f[u]) {
      assert text[u] == f[u];
    }
    RawNameReads(f, d, s, 0, '(');
  }

  lemma PlainFunctorReads(f: string, rest: string)
    requires !AtomNeedsQuoting(f) && rest != "" && !IsTrimmed(rest[|rest| - 1])
    ensures var text := f + "(" + rest;
      Trim(text) == text && At(text, 0, RenderAtom(f)) && Next(text, |f|, '(') && At(text, |f| + 1, rest)
  {
    hide TrimStart, TrimEnd;
    var text := f + "(" + rest;
    assert In(Word, f[0]) && text[0] == f[0] && text[|text| - 1] == rest[|rest| - 1];
    TrimKeeps(text);
    assert text[..|f|] == f && text[|f| + 1..] == rest;
  }

  lemma CompoundGoalReadsIff(head: Term, env: map<string, Term>)
    requires head.Compound? && FloatFree(head) && WellNamed(Vars(head)) && GroundValues(env)
    ensures ReadsInstance(ParseText(SplicedHead(head, env)), head, env) <==> HeadSurvives(head, env)
  {
    hide ParseTerm, ParseText, ParseArgs, ParseArgList, Spliced, ArgsSurvive, AtomNeedsQuoting, At, Trim, WellNamed,
        RenderAtom, GroundValues;
    var f, args := head.functor, head.args;
    var rest := Spliced(args, env) + ")";
    var text := f + "(" + rest;
    assert text == SplicedHead(head, env);
    if NameSurvives(f) {
      PlainFunctorReads(f, rest);
      PlainName(f);
      assert NameReadable(f);
      NamedArgsRead(f, text, 0, |f|);
      ArgumentsReadIff(args, env, text, |f| + 1);
      CompoundInstance(f, ParseArgs(text, |f| + 1), ParseTerm(text, 0), args, env);
      assert ParseText(text) == ParseTerm(text, 0) by { TextIsTrimmed(text); }
    } else if ReadsInstance(ParseText(text), head, env) {
      RawFunctorAlone(f, rest);
    }
  }

  lemma TextIsTrimmed(text: string)
    requires Trim(text) == text
    ensures ParseText(text) == ParseTerm(text, 0)
  {
  }

  lemma PlainName(f: string)
    requires !AtomNeedsQuoting(f)
    ensures RenderAtom(f) == f
  {
  }

  lemma CompoundInstance(f: string, r: Parsed<seq<Term>>, whole: Parsed<Term>, args: seq<Term>, env: map<string, Term>)
    requires whole == match r
      case Ok(list, pos) => Ok(Compound(f, list), pos)
      case Err(pos) => Err(pos)
    ensures ReadsInstance(whole, Compound(f, args), env) <==> ReadsInstances(r, args, env)
  {
  }

  lemma ArgumentsReadIff(args: seq<Term>, env: map<string, Term>, s: string, i: nat)
    requires (forall k | 0 <= k < |args| :: FloatFree(args[k])) && WellNamed(ArgVars(args)) && GroundValues(env)
    requires At(s, i, Spliced(args, env) + ")")
    ensures ReadsInstances(ParseArgs(s, i), args, env) <==> ArgsSurvive(args, env)
  {
    hide ParseArgList, SplicedArg, ArgSurvives, FloatFree, WellNamed, GroundValues;
    if args == [] {
      assert Spliced(args, env) + ")" == ")";
      AtFirst(s, i, ")");
      SkipsNothing(s, i);
    } else {
      ListReadsIff(args, env, s, i);
      var j := SkipSpace(s, i);
      if Next(s, j, ')') {
        assert ParseArgs(s, i).value == [];
        assert |SubstituteArgs(args, env)| > 0;
        NoArgumentHere(s, i);
      } else {
        ArgListSkipsSpace(s, i);
      }
    }
  }

  lemma NoArgumentHere(s: string, i: nat)
    requires i <= |s| && Next(s, SkipSpace(s, i), ')')
    ensures ParseArgList(s, i).Err?
  {
    hide SkipSpace, QuotedBody, StringBody;
  }

  lemma AtomGoalReadsIff(f: string)
    ensures ParseText(f).Ok? && ParseText(f).value == Atom(f) <==> f == "[]" || NameSurvives(f)
  {
    hide ParseText, AtomNeedsQuoting;
    if f == "[]" {
      EmptyListAlone();
    } else if NameSurvives(f) {
      PlainName(f);
      PrintedTextReadsBackIff(Atom(f));
    } else if ParseText(f).Ok? && ParseText(f).value == Atom(f) {
      RawAtomAlone(f);
    }
  }

  lemma EmptyListAlone()
    ensures ParseText("[]") == Ok(Atom("[]"), 2)
  {
    hide QuotedBody, StringBody, MaybeCompound;
    TrimKeeps("[]");
    SkipsNothing("[]", 0);
    SkipsNothing("[]", 1);
  }

  /** What Prolog reads of the published text, whatever the values are: the closed
      instance of the head exactly if functor, values and fixed arguments survive. */
  lemma SplicedGoalReadsIff(head: Term, env: map<string, Term>)
    requires FloatFree(head) && WellNamed(Vars(head)) && GroundValues(env)
    ensures ReadsInstance(ParseText(SplicedHead(head, env)), head, env) <==> HeadSurvives(head, env)
  {
    hide ParseText, Render, AtomNeedsQuoting, GroundValues, ArgsSurvive, All, Escape, VariableReadable;
    if head.Atom? {
      AtomGoalReadsIff(head.name);
    } else if head.Compound? {
      CompoundGoalReadsIff(head, env);
    } else {
      assert head.Variable? ==> VariableReadable(head.name);
      PrintedTextReadsBackIff(head);
    }
  }

  // What a rule publishes

  lemma TextOf(v: string, env: map<string, Term>)
    requires v in env
    ensures v in Texts(env) && Texts(env)[v] == ValueText(env[v])
  {
  }

  lemma {:induction false} WrittenIsSpliced(args: seq<Term>, first: bool, bound: set<string>, env: map<string, Term>)
    requires ArgVars(args) <= bound && forall k | 0 <= k < |args| && args[k].Variable? :: args[k].name in env
    ensures WrittenArgs(args, first, bound, Texts(env))
      == Some((if first || args == [] then "" else ",") + Spliced(args, env))
  {
    hide Texts, Render, ValueText;
    if args == [] {
      assert "" + "" == "";
    } else {
      var comma, text := if first then "" else ",", SplicedArg(args[0], env);
      assert Vars(args[0]) <= ArgVars(args) && ArgVars(args[1..]) <= ArgVars(args);
      WrittenIsSpliced(args[1..], false, bound, env);
      if args[0].Variable? {
        assert args[0].name in Vars(args[0]);
        TextOf(args[0].name, env);
      }
      assert Written(args[0], bound, Texts(env)) == Some(text);
      if |args| == 1 {
        assert args[1..] == [] && text + ("" + "") == text + "";
      }
      assert comma + (text + ((if args[1..] == [] then "" else ",") + Spliced(args[1..], env))) == comma
        + Spliced(args, env);
    }
  }

  lemma HeadIsSpliced(head: Term, bound: set<string>, env: map<string, Term>)
    requires HeadClean(head) && Vars(head) <= bound && TopVariables(head) <= env.Keys
    ensures EvalExpr(HeadExpr(head, bound), Texts(env)) == Some(SplicedHead(head, env))
  {
    hide EvalExpr, HeadExpr, HeadClean, Texts, WrittenArgs, Spliced, Render;
    HeadEvaluates(head, bound, Texts(env));
    if head.Compound? {
      forall k | 0 <= k < |head.args| && head.args[k].Variable? ensures head.args[k].name in env {
        assert Arguments(head)[k].name in TopVariables(head);
      }
      WrittenIsSpliced(head.args, true, bound, env);
      var text := Spliced(head.args, env);
      assert head.functor + "(" + ("" + text + ")") == head.functor + "(" + text + ")";
    }
  }

  lemma SurvivorsAreBound(head: Term, env: map<string, Term>)
    requires HeadSurvives(head, env)
    ensures TopVariables(head) <= env.Keys
  {
    hide NameSurvives, ValueSurvives, Readable;
    var args := Arguments(head);
    forall k | 0 <= k < |args| && args[k].Variable? ensures args[k].name in env {
      assert ArgSurvives(args[k], env);
    }
  }

  ghost predicate FloatFreeFields(fields: seq<Term>) { forall k | 0 <= k < |fields| :: FloatFree(fields[k]) }

  /** What Prolog reads when an emitted rule fires, on every matching fact, whatever the
      characters of its values: the instance of the clause's head, without variables, if
      and only if each variable of the head is an argument that the pattern binds to a
      value that survives, and the functor and the other arguments survive as well. */
  lemma PublishedGoalReadsIff(rule: Rule, goal: BodyGoal, counter: nat, fields: seq<Term>, env: map<string, Term>)
    requires IsEmitted(rule, goal) && Matches(goal, fields, env) && HeadClean(rule.head)
    requires FloatFree(rule.head) && FloatFreeFields(fields)
    ensures env.Keys == NamedArguments(goal.term)
    ensures var published := EvalExpr(RuleFor(rule, goal, counter).rhs, Texts(env));
      published.Some? && ReadsInstance(ParseText(published.value), rule.head, env) <==> HeadSurvives(rule.head, env)
  {
    hide ParseText, EvalExpr, HeadExpr, HeadClean, HeadSurvives, ReadsInstance, Texts, NamedArguments, RuleFor,
        HasTrigger, FactReadable, FloatFree, Vars, Matches;
    PatternMeaning(rule, goal, counter, fields, env);
    RuleParts(rule, goal, counter);
    RuleRunsIff(rule, goal, counter, fields, env);
    forall v | v in env ensures FloatFree(env[v]) {
      var k :| 0 <= k < |fields| && fields[k] == env[v];
    }
    if TopVariables(rule.head) <= env.Keys {
      HeadIsSpliced(rule.head, Vars(goal.term), env);
      SplicedGoalReadsIff(rule.head, env);
    } else if HeadSurvives(rule.head, env) {
      SurvivorsAreBound(rule.head, env);
    }
  }

  /** The case that the covering test is there to rule out: `h(X) :- t(X).` is emitted, the
      fact `(t _x)` is one that can arise, its value prints without quotes, and what is
      published is the printed instance, which has no variable. Prolog reads one. */
  lemma UnderscoreValueIsReadAsVariable(counter: nat)
    ensures var goal := Positive(Compound("t", [Variable("X")]));
      var rule := Rule(Compound("h", [Variable("X")]), [goal]);
      var fact, env := Compound("t", [Atom("_x")]), map["X" := Atom("_x")];
      && IsEmitted(rule, goal) && FactKept(fact) && Matches(goal, fact.args, env)
      && Render(Substitute(rule.head, env)) == "h(_x)" && Vars(Substitute(rule.head, env)) == {}
      && EvalExpr(RuleFor(rule, goal, counter).rhs, Texts(env)) == Some("h(_x)")
      && ParseText("h(_x)") == Ok(Compound("h", [Variable("_x")]), 5)
  {
    hide EvalExpr, ParseText, HeadExpr, RuleFor, IsEmitted, FactKept, Matches, Render, Substitute, Vars, HeadClean,
        SplicedHead, TopVariables;
    var args := [Variable("X")];
    var goal := Positive(Compound("t", args));
    var rule := Rule(Compound("h", args), [goal]);
    var env := map["X" := Atom("_x")];
    SimpleRule(args);
    OneFieldMatches(goal, env);
    UnderscoreInstance(args, env);
    RuleParts(rule, goal, counter);
    HeadIsSpliced(rule.head, Vars(goal.term), env);
    UnderscoreGoalReads();
  }

  lemma SimpleRule(args: seq<Term>)
    requires args == [Variable("X")]
    ensures var goal := Positive(Compound("t", args));
      var rule := Rule(Compound("h", args), [goal]);
      && IsEmitted(rule, goal) && HeadClean(rule.head) && Vars(rule.head) <= Vars(goal.term)
        && TopVariables(rule.head) <= {"X"}
  {
    var goal, head := Positive(Compound("t", args)), Compound("h", args);
    assert args[1..] == [] && ArgVars(args) == Vars(args[0]) + ArgVars(args[1..]) == {"X"};
    assert Arguments(head) == args && forall k | 0 <= k < |args| :: args[k].name == "X";
    assert IsEmitted(Rule(head, [goal]), goal);
  }

  lemma UnderscoreInstance(args: seq<Term>, env: map<string, Term>)
    requires args == [Variable("X")] && env == map["X" := Atom("_x")]
    ensures var head := Compound("h", args);
      Render(Substitute(head, env)) == "h(_x)" && Vars(Substitute(head, env)) == {} && SplicedHead(head, env) == "h(_x)"
    ensures FactKept(Compound("t", [Atom("_x")]))
  {
    hide Escape;
    assert SubstituteArgs(args, env) == [Substitute(args[0], env)] + SubstituteArgs(args[1..], env) == [Atom("_x")];
    assert ArgVars([Atom("_x")]) == Vars(Atom("_x")) + ArgVars([Atom("_x")][1..]) == {};
    assert Spliced(args, env) == "_x" + "";
    PlainName("h");
    assert RenderArgs([Atom("_x")]) == Render([Atom("_x")][0]) == "_x";
    assert IsSimpleChar('_') && IsSimpleChar('x');
  }

  lemma OneFieldMatches(goal: BodyGoal, env: map<string, Term>)
    requires goal == Positive(Compound("t", [Variable("X")])) && env == map["X" := Atom("_x")]
    ensures Matches(goal, [Atom("_x")], env)
    ensures FieldsAsRead([Variable("X")]) == [Variable("X")]
    ensures Match([Variable("X")], [Atom("_x")], map[]) == Some(env)
  {
    CapitalizedOnce("X");
    assert [Variable("X")][1..] == [] && [Atom("_x")][1..] == [];
    assert map[]["X" := Atom("_x")] == env;
  }

  lemma UnderscoreGoalReads()
    ensures ParseText("h(_x)") == Ok(Compound("h", [Variable("_x")]), 5)
  {
    hide ParseTerm, ParseArgs, ParseArgList;
    var s := "h(_x)";
    TrimKeeps(s);
    assert s[0..1] == "h" && s[2..4] == "_x";
    assert In(Word, 'h');
    NamedArgsRead("h", s, 0, 1);
    ArgsAreList(s, 2);
    UnderscoreNameReadsAsVariable("_x", s, 2);
    SkipsNothing(s, 4);
    ArgListStep(s, 2, Variable("_x"), 4);
  }
}
