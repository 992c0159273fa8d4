/** Reading a printed Prolog term gives the term back, and exactly when. A character
    here is a byte, and the program prints characters; so all of this is about text in
    ASCII, where the two are the same. */
module PrologRoundTrip {
  import opened Text
  import opened Terms
  import opened PrologSyntax

  /** A name that is printed unquoted must not start with `_`: the reader takes
      such a name for a variable. */
  predicate NameReadable(s: string) { AtomNeedsQuoting(s) || s[0] != '_' }

  predicate VariableReadable(s: string) {
    s != "" && (IsUpper(s[0]) || s[0] == '_') && All(Word, s)
  }

  predicate Readable(t: Term) {
    match t
    case Atom(s) => NameReadable(s)
    case Variable(s) => VariableReadable(s)
    case Integer(_) => true
    case Float(_) => false
    case Str(_) => true
    case Compound(f, args) => NameReadable(f) && forall k | 0 <= k < |args| :: Readable(args[k])
  }

  predicate FloatFree(t: Term) {
    match t
    case Float(_) => false
    case Compound(_, args) => forall k | 0 <= k < |args| :: FloatFree(args[k])
    case _ => true
  }

  /** The text from `j` on neither extends a name that ends there nor opens an
      argument list. */
  predicate Delimited(s: string, j: nat)
    requires j <= |s|
  {
    (j < |s| ==> !In(Word, s[j]) && s[j] != '\'') && !Next(s, SkipSpace(s, j), '(')
  }

  /** A point after an integer would make it a float. */
  predicate Follows(t: Term, s: string, j: nat)
    requires j <= |s|
  {
    Delimited(s, j) && (t.Integer? ==> !Next(s, j, '.'))
  }

  /** Where the reader stops: it looks past white space after an atom. */
  function After(t: Term, s: string, j: nat): (k: nat)
    requires j <= |s|
    ensures k <= |s|
  {
    if t.Atom? then SkipSpace(s, j) else j
  }

  /** Characters a printed term can start with. */
  predicate TermStart(c: char) {
    c == '\'' || c == '"' || c == '-' || In(Word, c)
  }

  lemma TermStartIsText(c: char)
    requires TermStart(c)
    ensures !IsSpace(c) && c != '%' && c != '(' && c != ')' && c != '\\'
  {
  }

  lemma EscapeSplits(w: string, quote: char)
    requires w != ""
    ensures Escape(w, quote) == (if w[0] == '\\' || w[0] == quote then ['\\', w[0]] else [w[0]]) + Escape(w[1..], quote)
  {
  }

  lemma {:induction false} QuotedBodyReadsEscape(w: string, s: string, i: nat)
    requires At(s, i, Escape(w, '\'') + "'")
    requires !Next(s, i + |Escape(w, '\'')| + 1, '\'')
    ensures QuotedBody(s, i) == Ok(w, i + |Escape(w, '\'')| + 1)
  {
    hide At;
    if w == "" {
      AtFirst(s, i, (Escape(w, '\'') + "'"));
    } else {
      var first := if w[0] == '\\' || w[0] == '\'' then ['\\', w[0]] else [w[0]];
      EscapeSplits(w, '\'');
      AtAssociates(s, i, first, Escape(w[1..], '\''), "'");
      AtSplits(s, i, first, Escape(w[1..], '\'') + "'");
      QuotedBodyReadsEscape(w[1..], s, i + |first|);
      QuotedBodyStep(w, s, i, first);
    }
  }

  lemma QuotedBodyStep(w: string, s: string, i: nat, first: string)
    requires w != "" && first == (if w[0] == '\\' || w[0] == '\'' then ['\\', w[0]] else [w[0]])
    requires At(s, i, first) && QuotedBody(s, i + |first|).Ok? && QuotedBody(s, i + |first|).value == w[1..]
    ensures QuotedBody(s, i) == Ok(w, QuotedBody(s, i + |first|).pos)
  {
    AtFirst(s, i, first);
    assert |first| == 2 ==> s[i..i + 2][1] == first[1];
    assert [w[0]] + w[1..] == w;
  }

  lemma {:induction false} StringBodyReadsEscape(w: string, s: string, i: nat)
    requires At(s, i, Escape(w, '"') + "\"")
    ensures StringBody(s, i) == Ok(w, i + |Escape(w, '"')| + 1)
  {
    hide At;
    if w == "" {
      AtFirst(s, i, (Escape(w, '"') + "\""));
    } else {
      var first := if w[0] == '\\' || w[0] == '"' then ['\\', w[0]] else [w[0]];
      EscapeSplits(w, '"');
      AtAssociates(s, i, first, Escape(w[1..], '"'), "\"");
      AtSplits(s, i, first, Escape(w[1..], '"') + "\"");
      StringBodyReadsEscape(w[1..], s, i + |first|);
      StringBodyStep(w, s, i, first);
    }
  }

  lemma StringBodyStep(w: string, s: string, i: nat, first: string)
    requires w != "" && first == (if w[0] == '\\' || w[0] == '"' then ['\\', w[0]] else [w[0]])
    requires At(s, i, first) && StringBody(s, i + |first|).Ok? && StringBody(s, i + |first|).value == w[1..]
    ensures StringBody(s, i) == Ok(w, StringBody(s, i + |first|).pos)
  {
    AtFirst(s, i, first);
    assert |first| == 2 ==> s[i..i + 2][1] == first[1];
    assert [w[0]] + w[1..] == w;
  }

  lemma IntegerEnds(n: int, s: string, i: nat)
    requires At(s, i, IntegerText(n))
    requires Next(s, i + |IntegerText(n)|, '.') || i + |IntegerText(n)| == |s| || !IsDigit(s[i + |IntegerText(n)|])
    ensures IntegerEnd(s, i) == i + |IntegerText(n)|
  {
    if n < 0 {
      AtSplits(s, i, "-", Numeral(-n));
      AtFirst(s, i, "-");
      SpanOfText(Digit, s, i + 1, Numeral(-n));
    } else {
      AtFirst(s, i, Numeral(n));
      SpanOfText(Digit, s, i, Numeral(n));
    }
  }

  lemma IntegerStart(n: int)
    ensures IsDigit(IntegerText(n)[0]) || IntegerText(n)[0] == '-'
  {
  }

  lemma IntegerReads(n: i64, s: string, i: nat)
    requires At(s, i, IntegerText(n))
    requires var j := i + |IntegerText(n)|; j < |s| ==> !IsDigit(s[j]) && s[j] != '.'
    ensures ParseHead(s, i) == Leaf(Ok(Integer(n), i + |IntegerText(n)|))
  {
    IntegerStart(n);
    AtFirst(s, i, IntegerText(n));
    IntegerEnds(n, s, i);
    NumberReads(n, s, i);
  }

  lemma NumberReads(n: i64, s: string, i: nat)
    requires At(s, i, IntegerText(n)) && (IsDigit(s[i]) || s[i] == '-')
    requires var j := i + |IntegerText(n)|; IntegerEnd(s, i) == j && !Next(s, j, '.')
    ensures ParseNumber(s, i) == Ok(Integer(n), i + |IntegerText(n)|)
  {
    IntegerRoundTrip(n);
  }

  lemma VariableReads(v: string, s: string, i: nat)
    requires VariableReadable(v) && At(s, i, v)
    requires i + |v| < |s| ==> !In(Word, s[i + |v|])
    ensures ParseHead(s, i) == Leaf(Ok(Variable(v), i + |v|))
  {
    AtFirst(s, i, v);
    SpanOfText(Word, s, i, v);
  }

  lemma StringReads(text: string, s: string, i: nat)
    requires At(s, i, Render(Str(text)))
    ensures ParseHead(s, i) == Leaf(Ok(Str(text), i + |Render(Str(text))|))
  {
    hide At, Escape, StringBody;
    AtAssociates(s, i, "\"", Escape(text, '"'), "\"");
    AtOpens(s, i, '"', Escape(text, '"') + "\"");
    StringBodyReadsEscape(text, s, i + 1);
  }

  lemma QuotedNameReads(f: string, s: string, i: nat)
    requires AtomNeedsQuoting(f) && At(s, i, RenderAtom(f)) && !Next(s, i + |RenderAtom(f)|, '\'')
    ensures ParseHead(s, i) == Name(f, i + |RenderAtom(f)|)
  {
    hide At, Escape, QuotedBody, AtomNeedsQuoting;
    AtAssociates(s, i, "'", Escape(f, '\''), "'");
    AtOpens(s, i, '\'', Escape(f, '\'') + "'");
    QuotedBodyReadsEscape(f, s, i + 1);
  }

  lemma PlainNameReads(f: string, s: string, i: nat)
    requires !AtomNeedsQuoting(f) && f[0] != '_' && At(s, i, f)
    requires i + |f| < |s| ==> !In(Word, s[i + |f|])
    ensures ParseHead(s, i) == Name(f, i + |f|)
  {
    AtFirst(s, i, f);
    SpanOfText(Word, s, i, f);
  }

  /** A printed name is read back as a name. */
  lemma NameReads(f: string, s: string, i: nat)
    requires NameReadable(f) && At(s, i, RenderAtom(f))
    requires var j := i + |RenderAtom(f)|; j < |s| ==> !In(Word, s[j]) && s[j] != '\''
    ensures ParseHead(s, i) == Name(f, i + |RenderAtom(f)|)
  {
    if AtomNeedsQuoting(f) {
      QuotedNameReads(f, s, i);
    } else {
      PlainNameReads(f, s, i);
    }
  }

  lemma RenderStarts(t: Term)
    requires Readable(t)
    ensures Render(t) != "" && TermStart(Render(t)[0])
  {
  }

  lemma StartsHere(t: Term, s: string, i: nat)
    requires Readable(t) && At(s, i, Render(t))
    ensures i < |s| && TermStart(s[i]) && SkipSpace(s, i) == i
  {
    RenderStarts(t);
    AtFirst(s, i, Render(t));
    TermStartIsText(s[i]);
    SkipsNothing(s, i);
  }

  lemma TermOfName(s: string, i: nat, f: string, j: nat)
    requires i <= |s| && SkipSpace(s, i) == i && ParseHead(s, i) == Name(f, j)
    ensures j <= |s| && ParseTerm(s, i) == MaybeCompound(f, s, j)
  {
    hide ParseHead, MaybeCompound, SkipSpace;
  }

  lemma TermOfLeaf(s: string, i: nat, t: Term, j: nat)
    requires i <= |s| && SkipSpace(s, i) == i && ParseHead(s, i) == Leaf(Ok(t, j))
    ensures ParseTerm(s, i) == Ok(t, j)
  {
    hide ParseHead, SkipSpace;
  }

  lemma AtomReads(f: string, s: string, i: nat)
    requires NameReadable(f) && At(s, i, RenderAtom(f)) && SkipSpace(s, i) == i && Delimited(s, i + |RenderAtom(f)|)
    ensures ParseTerm(s, i) == Ok(Atom(f), SkipSpace(s, i + |RenderAtom(f)|))
  {
    hide ParseHead, ParseTerm, ParseArgs, RenderAtom, At, SkipSpace, NameReadable;
    var j := i + |RenderAtom(f)|;
    NameReads(f, s, i);
    TermOfName(s, i, f, j);
  }

  lemma SimpleTermReads(t: Term, s: string, i: nat)
    requires !t.Compound? && Readable(t) && At(s, i, Render(t)) && Follows(t, s, i + |Render(t)|)
      && SkipSpace(s, i) == i
    ensures ParseTerm(s, i) == Ok(t, After(t, s, i + |Render(t)|))
  {
    hide ParseHead, ParseTerm, RenderAtom, SkipSpace, At, VariableReadable, NameReadable;
    var j := i + |Render(t)|;
    match t
    case Atom(f) => AtomReads(f, s, i);
    case Variable(v) =>
      VariablePrintsItself(v);
      VariableReads(v, s, i);
      TermOfLeaf(s, i, t, j);
    case Integer(n) =>
      IntegerReads(n, s, i);
      TermOfLeaf(s, i, t, j);
    case Str(text) =>
      StringReads(text, s, i);
      TermOfLeaf(s, i, t, j);
  }

  lemma VariablePrintsItself(v: string)
    requires VariableReadable(v)
    ensures EnsureVariable(v) == v
  {
  }

  lemma {:induction false} TermReads(t: Term, s: string, i: nat)
    requires Readable(t) && At(s, i, Render(t)) && Follows(t, s, i + |Render(t)|)
    ensures ParseTerm(s, i) == Ok(t, After(t, s, i + |Render(t)|))
    decreases t, 0
  {
    hide ParseHead, ParseTerm, MaybeCompound, Render, RenderAtom, SkipSpace, TermStart, At, Readable, Follows;
    StartsHere(t, s, i);
    if t.Compound? {
      CompoundReads(t, s, i);
      TermOfName(s, i, t.functor, i + |RenderAtom(t.functor)|);
    } else {
      SimpleTermReads(t, s, i);
    }
  }

  lemma CompoundSplits(t: Term, s: string, i: nat)
    requires t.Compound? && At(s, i, Render(t))
    ensures var j := i + |RenderAtom(t.functor)|;
      && At(s, i, RenderAtom(t.functor)) && Next(s, j, '(')
      && At(s, j + 1, RenderArgs(t.args) + ")")
      && j + 1 + |RenderArgs(t.args)| + 1 == i + |Render(t)|
  {
    hide At, RenderAtom, RenderArgs;
    AtAssociates(s, i, RenderAtom(t.functor) + "(", RenderArgs(t.args), ")");
    AtSplitsAround(s, i, RenderAtom(t.functor), '(', RenderArgs(t.args) + ")");
  }

  lemma CompoundStep(f: string, s: string, j: nat, args: seq<Term>, k: nat)
    requires Next(s, j, '(') && ParseArgs(s, j + 1) == Ok(args, k)
    ensures MaybeCompound(f, s, j) == Ok(Compound(f, args), k)
  {
    SkipsNothing(s, j);
  }

  lemma {:induction false} CompoundReads(t: Term, s: string, i: nat)
    requires t.Compound? && Readable(t) && At(s, i, Render(t))
    ensures var j := i + |RenderAtom(t.functor)|;
      j <= |s| && ParseHead(s, i) == Name(t.functor, j) && MaybeCompound(t.functor, s, j) == Ok(t, i + |Render(t)|)
    decreases t, 0, 0
  {
    hide ParseTerm, ParseHead, MaybeCompound, ParseArgs, ParseArgList;
    hide Render, RenderArgs, RenderAtom;
    var j := i + |RenderAtom(t.functor)|;
    CompoundSplits(t, s, i);
    NameReads(t.functor, s, i);
    ArgsRead(t.args, s, j + 1);
    CompoundStep(t.functor, s, j, t.args, i + |Render(t)|);
  }

  lemma OneArgSplits(t: Term, s: string, i: nat)
    requires At(s, i, RenderArgs([t]) + ")")
    ensures At(s, i, Render(t)) && Next(s, i + |Render(t)|, ')') && RenderArgs([t]) == Render(t)
  {
    hide At, Render;
    AtEndsWith(s, i, Render(t), ')');
  }

  lemma MoreArgsSplit(args: seq<Term>, s: string, i: nat)
    requires |args| > 1 && At(s, i, RenderArgs(args) + ")")
    ensures var j := i + |Render(args[0])|;
      && At(s, i, Render(args[0])) && Next(s, j, ',') && At(s, j + 1, RenderArgs(args[1..]) + ")")
      && j + 1 + |RenderArgs(args[1..])| == i + |RenderArgs(args)|
  {
    hide At, Render;
    AtAssociates(s, i, Render(args[0]) + ",", RenderArgs(args[1..]), ")");
    AtSplitsAround(s, i, Render(args[0]), ',', RenderArgs(args[1..]) + ")");
  }

  /** The first argument of a printed list, and what follows it. */
  lemma ArgsSplit(args: seq<Term>, s: string, i: nat)
    requires args != [] && At(s, i, RenderArgs(args) + ")")
    ensures var j := i + |Render(args[0])|;
      && At(s, i, Render(args[0]))
      && if |args| == 1 then Next(s, j, ')') && j == i + |RenderArgs(args)|
         else Next(s, j, ',') && At(s, j + 1, RenderArgs(args[1..]) + ")")
              && j + 1 + |RenderArgs(args[1..])| == i + |RenderArgs(args)|
  {
    hide At, Render, RenderArgs;
    if |args| == 1 {
      assert args == [args[0]];
      OneArgSplits(args[0], s, i);
    } else {
      MoreArgsSplit(args, s, i);
    }
  }

  lemma {:induction false} ArgsRead(args: seq<Term>, s: string, i: nat)
    requires (forall k | 0 <= k < |args| :: Readable(args[k])) && At(s, i, RenderArgs(args) + ")")
    ensures ParseArgs(s, i) == Ok(args, i + |RenderArgs(args)| + 1)
    decreases args, 2
  {
    if args == [] {
      AtFirst(s, i, (RenderArgs(args) + ")"));
      SkipsNothing(s, i);
    } else {
      ArgsSplit(args, s, i);
      StartsHere(args[0], s, i);
      TermStartIsText(s[i]);
      ArgListReads(args, s, i);
    }
  }

  /** A comma or a closing parenthesis ends any term. */
  lemma ArgumentEnds(t: Term, s: string, j: nat)
    requires j <= |s| && (j == |s| || Next(s, j, ',') || Next(s, j, ')'))
    ensures Follows(t, s, j) && After(t, s, j) == j && SkipSpace(s, j) == j
  {
    SkipsNothing(s, j);
  }

  lemma ArgListStep(s: string, i: nat, t: Term, j: nat)
    requires i <= |s| && ParseTerm(s, i) == Ok(t, j) && SkipSpace(s, j) == j
    requires Next(s, j, ',') || Next(s, j, ')')
    ensures ParseArgList(s, i) == if Next(s, j, ',') then Prepend([t], ParseArgList(s, j + 1)) else Ok([t], j + 1)
  {
  }

  lemma {:induction false} ArgListReads(args: seq<Term>, s: string, i: nat)
    requires args != [] && forall k | 0 <= k < |args| :: Readable(args[k])
    requires At(s, i, RenderArgs(args) + ")")
    ensures ParseArgList(s, i) == Ok(args, i + |RenderArgs(args)| + 1)
    decreases args, 1
  {
    hide ParseTerm, ParseHead, MaybeCompound, ParseArgs, ParseArgList;
    hide Render, RenderArgs, RenderAtom;
    var t, j := args[0], i + |Render(args[0])|;
    ArgsSplit(args, s, i);
    FirstArgReads(t, s, i);
    ArgListStep(s, i, t, j);
    if |args| > 1 {
      MoreArgsRead(args, s, i);
    } else {
      assert [t] == args;
    }
  }

  lemma {:induction false} MoreArgsRead(args: seq<Term>, s: string, i: nat)
    requires |args| > 1 && forall k | 0 <= k < |args| :: Readable(args[k])
    requires At(s, i, RenderArgs(args) + ")")
    ensures var j := i + |Render(args[0])|;
      j < |s| && Prepend([args[0]], ParseArgList(s, j + 1)) == Ok(args, i + |RenderArgs(args)| + 1)
    decreases args, 0
  {
    hide ParseTerm, ParseHead, MaybeCompound, ParseArgs, ParseArgList, Render, RenderAtom;
    var j := i + |Render(args[0])|;
    MoreArgsSplit(args, s, i);
    ArgListReads(args[1..], s, j + 1);
    assert [args[0]] + args[1..] == args;
  }

  lemma {:induction false} FirstArgReads(t: Term, s: string, i: nat)
    requires Readable(t) && At(s, i, Render(t))
    requires var j := i + |Render(t)|; Next(s, j, ',') || Next(s, j, ')')
    ensures var j := i + |Render(t)|; ParseTerm(s, i) == Ok(t, j) && SkipSpace(s, j) == j
    decreases t, 1
  {
    hide ParseTerm, Render;
    ArgumentEnds(t, s, i + |Render(t)|);
    TermReads(t, s, i);
  }

  // The converse: a term that is read back is readable

  lemma ReadVariableIsReadable(s: string, i: nat, v: string)
    requires i <= |s| && ParseTerm(s, i).Ok? && ParseTerm(s, i).value == Variable(v)
    ensures VariableReadable(v)
  {
    hide QuotedBody, StringBody, ParseArgs, Span, In;
    var k := SkipSpace(s, i);
    assert ParseHead(s, k) == Leaf(ParseTerm(s, i));
    SpanIsInClass(Word, s, k);
    assert v == s[k..Span(Word, s, k)];
  }

  /** A plain name starting with `_` is read as a variable. */
  lemma UnderscoreNameReadsAsVariable(f: string, s: string, i: nat)
    requires !NameReadable(f) && At(s, i, f)
    requires i + |f| < |s| ==> !In(Word, s[i + |f|])
    ensures ParseTerm(s, i) == Ok(Variable(f), i + |f|)
  {
    AtFirst(s, i, f);
    SkipsNothing(s, i);
    VariableReads(f, s, i);
  }

  lemma {:induction false} ReadBackIsReadable(t: Term, s: string, i: nat)
    requires FloatFree(t) && At(s, i, Render(t)) && Follows(t, s, i + |Render(t)|)
    requires ParseTerm(s, i).Ok? && ParseTerm(s, i).value == t
    ensures Readable(t)
    decreases t, 0
  {
    if t.Variable? {
      ReadVariableIsReadable(s, i, t.name);
    } else if t.Atom? && !NameReadable(t.name) {
      UnderscoreNameReadsAsVariable(t.name, s, i);
    } else if t.Compound? {
      ReadCompoundIsReadable(t, s, i);
    }
  }

  lemma {:induction false} ReadCompoundIsReadable(t: Term, s: string, i: nat)
    requires t.Compound? && FloatFree(t) && At(s, i, Render(t))
    requires ParseTerm(s, i).Ok? && ParseTerm(s, i).value == t
    ensures Readable(t)
    decreases t, 0, 0
  {
    hide ParseTerm, ParseHead, MaybeCompound, ParseArgs, ParseArgList;
    hide Render, RenderArgs, RenderAtom;
    CompoundSplits(t, s, i);
    FunctorIsReadable(t.functor, s, i);
    if t.args != [] {
      var j := i + |RenderAtom(t.functor)|;
      CompoundArgsRead(t, s, i, j);
      ReadArgumentsAreReadable(t.args, s, j + 1);
    }
  }

  lemma {:induction false} ReadArgumentsAreReadable(args: seq<Term>, s: string, i: nat)
    requires args != [] && forall k | 0 <= k < |args| :: FloatFree(args[k])
    requires At(s, i, RenderArgs(args) + ")") && ParseArgs(s, i).Ok? && ParseArgs(s, i).value == args
    ensures forall k | 0 <= k < |args| :: Readable(args[k])
    decreases args, 2
  {
    hide *;
    ArgsReadAsList(args, s, i);
    ReadArgsAreReadable(args, s, i);
  }

  /** A functor that is not readable turns the whole term into a variable. */
  lemma FunctorIsReadable(f: string, s: string, i: nat)
    requires At(s, i, RenderAtom(f)) && Next(s, i + |RenderAtom(f)|, '(')
    ensures NameReadable(f) || (ParseTerm(s, i).Ok? && ParseTerm(s, i).value.Variable?)
  {
    if !NameReadable(f) {
      UnderscoreNameReadsAsVariable(f, s, i);
    }
  }

  lemma ArgListSkipsSpace(s: string, i: nat)
    requires i <= |s|
    ensures ParseArgList(s, SkipSpace(s, i)) == ParseArgList(s, i)
  {
    SkipsNothing(s, SkipSpace(s, i));
  }

  /** If a compound is read back, then so is its argument list. */
  lemma CompoundArgsRead(t: Term, s: string, i: nat, j: nat)
    requires t.Compound? && t.args != [] && NameReadable(t.functor)
    requires At(s, i, RenderAtom(t.functor)) && j == i + |RenderAtom(t.functor)| && Next(s, j, '(')
    requires ParseTerm(s, i).Ok? && ParseTerm(s, i).value == t
    ensures ParseArgs(s, j + 1).Ok? && ParseArgs(s, j + 1).value == t.args
  {
    hide ParseHead, MaybeCompound, ParseArgs, RenderAtom, NameReadable;
    NameStarts(t.functor, s, i);
    NameReads(t.functor, s, i);
    CompoundUnstep(t.functor, s, j);
  }

  lemma CompoundUnstep(f: string, s: string, j: nat)
    requires Next(s, j, '(') && MaybeCompound(f, s, j).Ok?
    ensures ParseArgs(s, j + 1).Ok? && MaybeCompound(f, s, j).value == Compound(f, ParseArgs(s, j + 1).value)
  {
    SkipsNothing(s, j);
  }

  lemma ArgsReadAsList(args: seq<Term>, s: string, i: nat)
    requires i <= |s| && args != [] && ParseArgs(s, i).Ok? && ParseArgs(s, i).value == args
    ensures ParseArgList(s, i).Ok? && ParseArgList(s, i).value == args
  {
    ArgListSkipsSpace(s, i);
  }

  lemma NameStarts(f: string, s: string, i: nat)
    requires At(s, i, RenderAtom(f))
    ensures SkipSpace(s, i) == i
  {
    AtFirst(s, i, RenderAtom(f));
    TermStartIsText(s[i]);
    SkipsNothing(s, i);
  }

  lemma {:induction false} ReadArgsAreReadable(args: seq<Term>, s: string, i: nat)
    requires args != [] && forall k | 0 <= k < |args| :: FloatFree(args[k])
    requires At(s, i, RenderArgs(args) + ")")
    requires ParseArgList(s, i).Ok? && ParseArgList(s, i).value == args
    ensures forall k | 0 <= k < |args| :: Readable(args[k])
    decreases args, 1
  {
    hide *;
    ArgsSplit(args, s, i);
    ReadFirstIsReadable(args, s, i);
    if |args| > 1 {
      ReadRestIsReadable(args, s, i);
      AllReadable(args);
    }
  }

  lemma {:induction false} ReadRestIsReadable(args: seq<Term>, s: string, i: nat)
    requires |args| > 1 && Readable(args[0]) && forall k | 0 <= k < |args| :: FloatFree(args[k])
    requires At(s, i, Render(args[0])) && At(s, i, RenderArgs(args) + ")")
    requires ParseArgList(s, i).Ok? && ParseArgList(s, i).value == args
    ensures forall k | 0 <= k < |args[1..]| :: Readable(args[1..][k])
    decreases args, 0
  {
    hide *;
    var j := i + |Render(args[0])|;
    MoreArgsSplit(args, s, i);
    FirstArgReads(args[0], s, i);
    RestOfArgList(args, s, i, j);
    ReadArgsAreReadable(args[1..], s, j + 1);
  }

  lemma AllReadable(args: seq<Term>)
    requires args != [] && Readable(args[0]) && forall k | 0 <= k < |args[1..]| :: Readable(args[1..][k])
    ensures forall k | 0 <= k < |args| :: Readable(args[k])
  {
    forall k | 0 <= k < |args| ensures Readable(args[k]) {
      if k > 0 {
        assert args[k] == args[1..][k - 1];
      }
    }
  }

  lemma {:induction false} ReadFirstIsReadable(args: seq<Term>, s: string, i: nat)
    requires args != [] && FloatFree(args[0]) && At(s, i, Render(args[0]))
    requires var j := i + |Render(args[0])|; Next(s, j, ',') || Next(s, j, ')')
    requires ParseArgList(s, i).Ok? && ParseArgList(s, i).value == args
    ensures Readable(args[0])
    decreases args, 0
  {
    ArgumentEnds(args[0], s, i + |Render(args[0])|);
    ReadBackIsReadable(args[0], s, i);
  }

  lemma {:induction false} RestOfArgList(args: seq<Term>, s: string, i: nat, j: nat)
    requires |args| > 1 && i <= |s| && ParseTerm(s, i) == Ok(args[0], j) && SkipSpace(s, j) == j && Next(s, j, ',')
    requires ParseArgList(s, i).Ok? && ParseArgList(s, i).value == args
    ensures ParseArgList(s, j + 1).Ok? && ParseArgList(s, j + 1).value == args[1..]
  {
    ArgListStep(s, i, args[0], j);
    assert [args[0]] + ParseArgList(s, j + 1).value == args;
  }

  /** In ASCII text the round trip holds for exactly the readable terms, and the reader
      stops exactly at the end of the printed text (past white space, for an atom). */
  lemma PrintedTermReadsBackIff(t: Term, s: string, i: nat)
    requires FloatFree(t) && At(s, i, Render(t)) && Follows(t, s, i + |Render(t)|)
    ensures ParseTerm(s, i) == Ok(t, After(t, s, i + |Render(t)|)) <==> Readable(t)
  {
    var back := ParseTerm(s, i);
    if Readable(t) {
      TermReads(t, s, i);
    }
    if back.Ok? && back.value == t {
      ReadBackIsReadable(t, s, i);
    }
  }

  /** Before a comma, a closing parenthesis or the end of the input, exactly the
      printed text is consumed. */
  lemma PrintedArgumentReadsBackIff(t: Term, s: string, i: nat)
    requires FloatFree(t) && At(s, i, Render(t))
    requires var j := i + |Render(t)|; j == |s| || Next(s, j, ',') || Next(s, j, ')')
    ensures ParseTerm(s, i) == Ok(t, i + |Render(t)|) <==> Readable(t)
  {
    ArgumentEnds(t, s, i + |Render(t)|);
    PrintedTermReadsBackIff(t, s, i);
  }

  lemma NameIsTrimmed(f: string)
    ensures var text := RenderAtom(f); text != "" && !IsTrimmed(text[0]) && !IsTrimmed(text[|text| - 1])
  {
    if !AtomNeedsQuoting(f) {
      assert In(Word, f[0]) && In(Word, f[|f| - 1]);
    }
  }

  lemma IntegerIsTrimmed(n: int)
    ensures var text := IntegerText(n); text != "" && !IsTrimmed(text[0]) && !IsTrimmed(text[|text| - 1])
  {
    var digits := Numeral(if n < 0 then -n else n);
    assert In(Digit, digits[0]) && In(Digit, digits[|digits| - 1]);
  }

  /** A printed term has no white space at its ends. */
  lemma PrintedIsTrimmed(t: Term)
    requires !t.Float? && (t.Variable? ==> VariableReadable(t.name))
    ensures Trim(Render(t)) == Render(t)
  {
    hide Escape, RenderArgs, RenderAtom, IntegerText, Trim;
    match t {
      case Atom(f) => NameIsTrimmed(f);
      case Compound(f, _) => NameIsTrimmed(f);
      case Variable(v) => assert Render(t) == v && In(Word, v[0]) && In(Word, v[|v| - 1]);
      case Integer(n) => IntegerIsTrimmed(n);
      case Str(_) => assert !IsTrimmed(Render(t)[0]) && !IsTrimmed(Render(t)[|Render(t)| - 1]);
    }
    TrimKeeps(Render(t));
  }

  /** The same for a printed term standing alone, which the entry point trims first. */
  lemma PrintedTextReadsBackIff(t: Term)
    requires FloatFree(t)
    ensures ParseText(Render(t)) == Ok(t, |Render(t)|) <==> Readable(t)
  {
    hide ParseTerm, Render, Trim, Readable;
    if t.Variable? && !VariableReadable(t.name) {
      UnreadableVariable(t.name);
    } else {
      PrintedIsTrimmed(t);
      AtWhole(Render(t));
      PrintedArgumentReadsBackIff(t, Render(t), 0);
    }
  }

  /** No text at all is read as a malformed variable. */
  lemma UnreadableVariable(v: string)
    requires !VariableReadable(v)
    ensures !Readable(Variable(v)) && forall s: string, i: nat | i <= |s| && ParseTerm(s, i).Ok? ::
      ParseTerm(s, i).value != Variable(v)
  {
    hide ParseTerm;
    forall s: string, i: nat | i <= |s| && ParseTerm(s, i).Ok? ensures ParseTerm(s, i).value != Variable(v) {
      if ParseTerm(s, i).value == Variable(v) {
        ReadVariableIsReadable(s, i, v);
      }
    }
  }

  lemma ReadableIsFloatFree(t: Term)
    requires Readable(t)
    ensures FloatFree(t)
  {
  }

  /** Printing is injective on readable terms. */
  lemma PrintingIsInjective(t: Term, u: Term)
    requires Readable(t) && Readable(u) && Render(t) == Render(u)
    ensures t == u
  {
    ReadableIsFloatFree(t);
    ReadableIsFloatFree(u);
    hide Render, ParseTerm, Readable, FloatFree;
    PrintedTextReadsBackIff(t);
    PrintedTextReadsBackIff(u);
  }

  /** The family that the quoting rule misses: it leaves `_x` bare. */
  lemma UnderscoreAtomIsLost()
    ensures ParseTerm(Render(Atom("_x")), 0) == Ok(Variable("_x"), 2)
  {
    UnderscoreNameReadsAsVariable("_x", Render(Atom("_x")), 0);
  }
}
