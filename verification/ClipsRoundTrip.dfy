/** Prolog to CLIPS and back: exactly which facts survive the crossing. */
module ClipsRoundTrip {
  import opened Wrappers
  import opened Text
  import opened Terms
  import opened PrologSyntax
  import opened PrologRoundTrip
  import opened ClipsSyntax

  /** Functors that CLIPS reads as one symbol. */
  predicate SymbolKept(s: string) { s != "" && All(ClipsSymbol, s) }

  predicate FieldKept(t: Term) {
    match t
    case Atom(s) => IsSimpleSymbol(s) && !IsDigit(s[0]) && s[0] != '-'
    case Variable(s) => All(ClipsVariable, s) && (s != "" ==> s[0] != '_' && !IsLower(s[0]))
    case Integer(_) => true
    case Float(_) => false
    case Str(_) => true
    case Compound(_, _) => false
  }

  predicate FactKept(t: Term) {
    match t
    case Atom(f) => SymbolKept(f)
    case Compound(f, args) => SymbolKept(f) && args != [] && forall k | 0 <= k < |args| :: FieldKept(args[k])
    case _ => false
  }

  // What is read of any field

  /** The reader takes the printed field as one field: all but floats, atoms that look
      like numbers, and variables with characters that CLIPS does not allow. */
  predicate FieldReadable(t: Term) {
    match t
    case Atom(s) => IsSimpleSymbol(s) ==> !IsDigit(s[0]) && s[0] != '-'
    case Variable(s) => Next(s, 0, '_') || All(ClipsVariable, s)
    case Float(_) => false
    case _ => true
  }

  /** What it is read as: names that are no symbols, and nested compounds, become
      strings; a variable that starts with `_` loses its name. */
  function FieldAsRead(t: Term): Term {
    match t
    case Atom(s) => if IsSimpleSymbol(s) then t else Str(s)
    case Variable(s) => if Next(s, 0, '_') then Variable("") else Variable(CapitalizeFirst(s))
    case Compound(f, args) => Str(f + "(" + RenderFields(args, ",") + ")")
    case _ => t
  }

  function FieldsAsRead(args: seq<Term>): seq<Term> {
    seq(|args|, k requires 0 <= k < |args| => FieldAsRead(args[k]))
  }

  predicate FactReadable(t: Term) {
    match t
    case Atom(f) => SymbolKept(f)
    case Compound(f, args) => SymbolKept(f) && forall k | 0 <= k < |args| :: FieldReadable(args[k])
    case _ => false
  }

  function FactAsRead(t: Term): Term {
    if t.Compound? then Fact(t.functor, FieldsAsRead(t.args)) else t
  }

  lemma KeptIsReadAsItself(t: Term)
    ensures FieldKept(t) ==> FieldReadable(t) && FieldAsRead(t) == t
    ensures FactKept(t) ==> FactReadable(t) && FactAsRead(t) == t
  {
    hide RenderFields, All;
    if t.Variable? {
      CapitalizedOnce(t.name);
    } else if t.Compound? && FactKept(t) {
      forall k | 0 <= k < |t.args| ensures FieldReadable(t.args[k]) && FieldAsRead(t.args[k]) == t.args[k] {
        assert FieldKept(t.args[k]);
        if t.args[k].Variable? {
          CapitalizedOnce(t.args[k].name);
        }
      }
      assert FieldsAsRead(t.args) == t.args;
    }
  }

  /** A field ends before a space or the closing parenthesis. */
  predicate FieldEnd(s: string, j: nat) { Next(s, j, ' ') || Next(s, j, ')') }

  // One field

  lemma SimpleIsSymbol(s: string)
    requires IsSimpleSymbol(s)
    ensures All(ClipsSymbol, s) && s[0] != '"' && s[0] != '?'
  {
    forall k | 0 <= k < |s| ensures In(ClipsSymbol, s[k]) {
      assert IsSimpleChar(s[k]);
    }
    assert IsSimpleChar(s[0]);
  }

  lemma SymbolReads(w: string, s: string, i: nat)
    requires w != "" && All(ClipsSymbol, w) && At(s, i, w) && FieldEnd(s, i + |w|)
    ensures ParseSymbol(s, i) == Ok(w, i + |w|)
  {
    SpanOfText(ClipsSymbol, s, i, w);
  }

  lemma AtomFieldReads(w: string, s: string, i: nat)
    requires IsSimpleSymbol(w) && !IsDigit(w[0]) && w[0] != '-' && At(s, i, w) && FieldEnd(s, i + |w|)
    ensures ParseField(s, i) == Ok(Atom(w), i + |w|)
  {
    hide ParseSymbol, ParseNumber, StringBody, Span;
    SimpleIsSymbol(w);
    SymbolReads(w, s, i);
    AtFirst(s, i, w);
  }

  lemma StringFieldReads(w: string, s: string, i: nat)
    requires At(s, i, ClipsString(w))
    ensures ParseField(s, i) == Ok(Str(w), i + |ClipsString(w)|)
  {
    hide ParseSymbol, ParseNumber, StringBody, Span;
    var body := Escape(w, '"') + "\"";
    assert ClipsString(w) == "\"" + body;
    AtSplits(s, i, "\"", body);
    AtFirst(s, i, "\"");
    StringBodyReadsEscape(w, s, i + 1);
  }

  lemma IntegerFieldReads(n: i64, s: string, i: nat)
    requires At(s, i, IntegerText(n)) && FieldEnd(s, i + |IntegerText(n)|)
    ensures ParseField(s, i) == Ok(Integer(n), i + |IntegerText(n)|)
  {
    hide ParseSymbol, ParseNumber, StringBody, Span, IntegerEnd;
    IntegerStart(n);
    AtFirst(s, i, IntegerText(n));
    IntegerEnds(n, s, i);
    NumberReads(n, s, i);
  }

  /** A variable field, whatever its name, comes back capitalised. */
  lemma VariableFieldReads(w: string, s: string, i: nat)
    requires All(ClipsVariable, w) && At(s, i, "?" + w) && FieldEnd(s, i + 1 + |w|)
    ensures ParseField(s, i) == Ok(Variable(CapitalizeFirst(w)), i + 1 + |w|)
  {
    hide ParseSymbol, ParseNumber, StringBody;
    AtSplits(s, i, "?", w);
    AtFirst(s, i, "?");
    SpanOfText(ClipsVariable, s, i + 1, w);
  }

  lemma CapitalizedOnce(w: string)
    ensures CapitalizeFirst(w) == w <==> (w == "" || !IsLower(w[0]))
  {
    if w != "" {
      assert CapitalizeFirst(w)[0] == ToUpper(w[0]);
      assert w == [w[0]] + w[1..];
    }
  }

  lemma FieldReadsAs(t: Term, s: string, i: nat)
    requires FieldReadable(t) && At(s, i, RenderField(t)) && FieldEnd(s, i + |RenderField(t)|)
    ensures i < |s| && ParseField(s, i) == Ok(FieldAsRead(t), i + |RenderField(t)|)
  {
    hide ParseField, At, ClipsString, IntegerText, CapitalizeFirst, RenderFields;
    match t
    case Atom(w) =>
      if IsSimpleSymbol(w) {
        AtomFieldReads(w, s, i);
      } else {
        StringFieldReads(w, s, i);
      }
    case Variable(w) =>
      if Next(w, 0, '_') {
        WildcardReads(s, i);
      } else {
        VariableFieldReads(w, s, i);
      }
    case Integer(n) => IntegerFieldReads(n, s, i);
    case Str(w) => StringFieldReads(w, s, i);
    case Compound(f, args) => StringFieldReads(f + "(" + RenderFields(args, ",") + ")", s, i);
  }

  lemma FieldReads(t: Term, s: string, i: nat)
    requires FieldKept(t) && At(s, i, RenderField(t)) && FieldEnd(s, i + |RenderField(t)|)
    ensures i < |s| && ParseField(s, i) == Ok(t, i + |RenderField(t)|)
  {
    hide ParseField, At, RenderField, FieldAsRead, FieldReadable, FieldKept;
    KeptIsReadAsItself(t);
    FieldReadsAs(t, s, i);
  }

  lemma ReadVariableField(w: string, s: string, i: nat)
    requires At(s, i, "?" + w) && FieldEnd(s, i + 1 + |w|)
    requires ParseField(s, i).Ok? && ParseField(s, i).value == Variable(w)
    ensures All(ClipsVariable, w) && (w != "" ==> !IsLower(w[0]))
  {
    hide ParseSymbol, ParseNumber, StringBody, Span;
    AtSplits(s, i, "?", w);
    AtFirst(s, i, "?");
    var j := Span(ClipsVariable, s, i + 1);
    SpanIsInClass(ClipsVariable, s, i + 1);
    assert s[i + 1..j] == w;
    CapitalizedOnce(w);
  }

  /** The wildcard forgets the variable's name. */
  lemma WildcardReads(s: string, i: nat)
    requires At(s, i, "?") && FieldEnd(s, i + 1)
    ensures ParseField(s, i) == Ok(Variable(""), i + 1)
  {
    assert "?" == "?" + "";
    VariableFieldReads("", s, i);
  }

  lemma ReadAtomField(w: string, s: string, i: nat)
    requires At(s, i, RenderField(Atom(w)))
    requires i < |s| && ParseField(s, i).Ok? && ParseField(s, i).value == Atom(w)
    ensures FieldKept(Atom(w))
  {
    hide ParseSymbol, StringBody, Span;
    if IsSimpleSymbol(w) {
      AtFirst(s, i, w);
    } else {
      StringFieldReads(w, s, i);
    }
  }

  lemma ReadFieldIsKept(t: Term, s: string, i: nat)
    requires FloatFree(t) && At(s, i, RenderField(t)) && FieldEnd(s, i + |RenderField(t)|)
    requires i < |s| && ParseField(s, i).Ok? && ParseField(s, i).value == t
    ensures FieldKept(t)
  {
    hide ParseField, At, ClipsString, IntegerText, RenderFields;
    match t
    case Atom(w) => ReadAtomField(w, s, i);
    case Variable(w) =>
      if Next(w, 0, '_') {
        WildcardReads(s, i);
      } else {
        ReadVariableField(w, s, i);
      }
    case Compound(f, args) => StringFieldReads(f + "(" + RenderFields(args, ",") + ")", s, i);
    case _ =>
  }

  lemma FieldStarts(t: Term, s: string, i: nat)
    requires !t.Float? && At(s, i, RenderField(t))
    ensures i < |s| && !IsSpace(s[i]) && s[i] != ')'
  {
    hide Numeral, RenderFields, IntegerText;
    var text := RenderField(t);
    if t.Atom? && IsSimpleSymbol(t.name) {
      SimpleIsSymbol(t.name);
    } else if t.Integer? {
      IntegerStart(t.value);
    }
    AtFirst(s, i, text);
  }

  // Field lists

  lemma FieldsSplit(args: seq<Term>, s: string, i: nat)
    requires args != [] && At(s, i, RenderFields(args, " ") + ")")
    ensures var j := i + |RenderField(args[0])|;
      && At(s, i, RenderField(args[0]))
      && if |args| == 1 then Next(s, j, ')') && j == i + |RenderFields(args, " ")|
         else Next(s, j, ' ') && At(s, j + 1, RenderFields(args[1..], " ") + ")")
              && j + 1 + |RenderFields(args[1..], " ")| == i + |RenderFields(args, " ")|
  {
    hide RenderField, At;
    var first := RenderField(args[0]);
    if |args| == 1 {
      AtEndsWith(s, i, first, ')');
    } else {
      AtAssociates(s, i, first + " ", RenderFields(args[1..], " "), ")");
      AtSplitsAround(s, i, first, ' ', RenderFields(args[1..], " ") + ")");
    }
  }

  lemma FieldsStep(s: string, i: nat, r: Parsed<Term>)
    requires i < |s| && !IsSpace(s[i]) && s[i] != ')' && ParseField(s, i) == r
    ensures ParseFields(s, i) == match r case Ok(t, pos) => Prepend([t], ParseFields(s, pos)) case Err(pos) => Err(pos)
  {
    hide ParseField;
    SkipsNothing(s, i);
  }

  lemma FieldsSkipSpace(s: string, i: nat)
    requires Next(s, i, ' ')
    ensures ParseFields(s, i) == ParseFields(s, i + 1)
  {
    hide ParseField;
    assert SkipSpace(s, i) == SkipSpace(s, i + 1);
  }

  lemma FieldsEnd(s: string, i: nat)
    requires Next(s, i, ')')
    ensures ParseFields(s, i) == Ok([], i + 1)
  {
    SkipsNothing(s, i);
  }

  lemma {:induction false} FieldsReadAs(args: seq<Term>, s: string, i: nat)
    requires args != [] && forall k | 0 <= k < |args| :: FieldReadable(args[k])
    requires At(s, i, RenderFields(args, " ") + ")")
    ensures ParseFields(s, i) == Ok(FieldsAsRead(args), i + |RenderFields(args, " ")| + 1)
  {
    hide ParseFields, ParseField, RenderFields, RenderField, FieldReadable, FieldAsRead, At;
    var t, j := args[0], i + |RenderField(args[0])|;
    FieldsSplit(args, s, i);
    FieldReadsAs(t, s, i);
    FieldStartsReadable(t, s, i);
    FieldsStep(s, i, ParseField(s, i));
    if |args| == 1 {
      FieldsEnd(s, j);
      assert [FieldAsRead(t)] + [] == FieldsAsRead(args);
    } else {
      FieldsSkipSpace(s, j);
      FieldsReadAs(args[1..], s, j + 1);
      assert [FieldAsRead(t)] + FieldsAsRead(args[1..]) == FieldsAsRead(args);
    }
  }

  lemma FieldStartsReadable(t: Term, s: string, i: nat)
    requires FieldReadable(t) && At(s, i, RenderField(t))
    ensures i < |s| && !IsSpace(s[i]) && s[i] != ')'
  {
    hide RenderField, At;
    FieldStarts(t, s, i);
  }

  lemma {:induction false} ReadFieldsAreKept(args: seq<Term>, s: string, i: nat)
    requires args != [] && forall k | 0 <= k < |args| :: FloatFree(args[k])
    requires At(s, i, RenderFields(args, " ") + ")") && ParseFields(s, i).Ok? && ParseFields(s, i).value == args
    ensures forall k | 0 <= k < |args| :: FieldKept(args[k])
  {
    hide ParseFields, ParseField, RenderFields, RenderField, FieldKept, At;
    var t, j := args[0], i + |RenderField(args[0])|;
    FieldsSplit(args, s, i);
    assert FloatFree(t);
    FieldStarts(t, s, i);
    FieldsStep(s, i, ParseField(s, i));
    var first := ParseField(s, i);
    assert first.Ok? && ([first.value] + ParseFields(s, first.pos).value)[0] == t;
    ReadFieldIsKept(t, s, i);
    if |args| > 1 {
      FieldReads(t, s, i);
      FieldsSkipSpace(s, j);
      assert ([t] + ParseFields(s, j).value)[1..] == ParseFields(s, j).value;
      ReadFieldsAreKept(args[1..], s, j + 1);
      forall k | 0 <= k < |args| ensures FieldKept(args[k]) {
        if k > 0 {
          assert args[k] == args[1..][k - 1];
        }
      }
    }
  }

  // Facts

  lemma {:induction false} UnderscoredKeeps(f: string)
    requires All(ClipsSymbol, f)
    ensures Underscored(f) == f
  {
    if f != "" {
      assert In(ClipsSymbol, f[0]);
      UnderscoredKeeps(f[1..]);
      assert [f[0]] + f[1..] == f;
    }
  }

  lemma FactStep(s: string, i: nat, f: string, j: nat)
    requires Next(s, i, '(') && i + 1 < |s| && !IsSpace(s[i + 1]) && ParseSymbol(s, i + 1) == Ok(f, j)
    ensures ParseFact(s, i) == match ParseFields(s, j) case Ok(args, pos) => Ok(Fact(f, args), pos)
      case Err(pos) => Err(pos)
  {
    hide ParseSymbol, ParseFields;
    SkipsNothing(s, i);
    SkipsNothing(s, i + 1);
  }

  lemma AtomFactSplits(f: string, s: string, i: nat)
    requires SymbolKept(f) && At(s, i, RenderFact(Atom(f)))
    ensures Next(s, i, '(') && At(s, i + 1, f) && Next(s, i + 1 + |f|, ')') && |RenderFact(Atom(f))| == |f| + 2
  {
    hide At, Underscored, All;
    UnderscoredKeeps(f);
    AtAssociates(s, i, "(", f, ")");
    AtOpens(s, i, '(', f + ")");
    AtEndsWith(s, i + 1, f, ')');
  }

  lemma CompoundFactSplits(f: string, args: seq<Term>, s: string, i: nat)
    requires SymbolKept(f) && At(s, i, RenderFact(Compound(f, args)))
    ensures var j := i + 1 + |f|;
      && Next(s, i, '(') && At(s, i + 1, f) && Next(s, j, ' ') && At(s, j + 1, RenderFields(args, " ") + ")")
      && j + 1 + |RenderFields(args, " ")| + 1 == i + |RenderFact(Compound(f, args))|
  {
    hide At, RenderFields, Underscored, All;
    UnderscoredKeeps(f);
    var tail := RenderFields(args, " ") + ")";
    AtAssociates(s, i, "(" + f + " ", RenderFields(args, " "), ")");
    AtSplitsAround(s, i, "(" + f, ' ', tail);
    AtOpens(s, i, '(', f);
  }

  lemma FunctorReads(f: string, s: string, i: nat)
    requires SymbolKept(f) && Next(s, i, '(') && At(s, i + 1, f) && FieldEnd(s, i + 1 + |f|)
    ensures var j := i + 1 + |f|;
      ParseFact(s, i) == match ParseFields(s, j) case Ok(args, pos) => Ok(Fact(f, args), pos) case Err(pos) => Err(pos)
  {
    hide ParseFact, ParseFields, ParseSymbol;
    SymbolReads(f, s, i + 1);
    AtFirst(s, i + 1, f);
    assert In(ClipsSymbol, f[0]);
    FactStep(s, i, f, i + 1 + |f|);
  }

  /** What a printed fact is read as, argument by argument, for every fact whose
      functor is one symbol and whose fields are read as fields. */
  lemma FactReadsAs(t: Term, s: string, i: nat)
    requires FactReadable(t) && At(s, i, RenderFact(t))
    ensures ParseFact(s, i) == Ok(FactAsRead(t), i + |RenderFact(t)|)
  {
    hide ParseFact, ParseFields, RenderFact, RenderFields, FieldReadable, FieldAsRead, SymbolKept, At;
    if t.Atom? {
      AtomFactSplits(t.name, s, i);
      FunctorReads(t.name, s, i);
      FieldsEnd(s, i + 1 + |t.name|);
    } else {
      var j := i + 1 + |t.functor|;
      CompoundFactSplits(t.functor, t.args, s, i);
      FunctorReads(t.functor, s, i);
      FieldsSkipSpace(s, j);
      if t.args == [] {
        NoFieldsRead(s, j + 1);
      } else {
        FieldsReadAs(t.args, s, j + 1);
      }
    }
  }

  lemma NoFieldsRead(s: string, i: nat)
    requires At(s, i, RenderFields([], " ") + ")")
    ensures ParseFields(s, i) == Ok([], i + 1) && |RenderFields([], " ")| == 0
  {
    hide ParseFields;
    AtFirst(s, i, RenderFields([], " ") + ")");
    FieldsEnd(s, i);
  }

  lemma FactReads(t: Term, s: string, i: nat)
    requires FactKept(t) && At(s, i, RenderFact(t))
    ensures ParseFact(s, i) == Ok(t, i + |RenderFact(t)|)
  {
    hide *;
    KeptIsReadAsItself(t);
    FactReadsAs(t, s, i);
  }

  lemma ReadFactFunctor(t: Term, s: string, i: nat)
    requires i <= |s| && ParseFact(s, i).Ok? && ParseFact(s, i).value == t
    ensures (t.Atom? && SymbolKept(t.name)) || (t.Compound? && SymbolKept(t.functor) && t.args != [])
  {
    hide ParseFields;
    var k := SkipSpace(s, SkipSpace(s, i) + 1);
    SpanIsInClass(ClipsSymbol, s, k);
  }

  lemma ReadFactIsKept(t: Term, s: string, i: nat)
    requires FloatFree(t) && At(s, i, RenderFact(t))
    requires ParseFact(s, i).Ok? && ParseFact(s, i).value == t
    ensures FactKept(t)
  {
    hide ParseFact, ParseFields, ParseSymbol, RenderFact, RenderFields, FieldKept;
    ReadFactFunctor(t, s, i);
    if t.Compound? {
      var j := i + 1 + |t.functor|;
      CompoundFactSplits(t.functor, t.args, s, i);
      FunctorReads(t.functor, s, i);
      FieldsSkipSpace(s, j);
      ReadFieldsAreKept(t.args, s, j + 1);
    }
  }

  /** A fact printed for CLIPS is read back unchanged exactly if it is flat, its
      functor is one CLIPS symbol, and each field is one that CLIPS can tell apart. */
  lemma PrintedFactReadsBackIff(t: Term, s: string, i: nat)
    requires FloatFree(t) && At(s, i, RenderFact(t))
    ensures ParseFact(s, i) == Ok(t, i + |RenderFact(t)|) <==> FactKept(t)
  {
    hide ParseFact, FactKept, FloatFree, RenderFact;
    if FactKept(t) {
      FactReads(t, s, i);
    }
    if ParseFact(s, i).Ok? && ParseFact(s, i).value == t {
      ReadFactIsKept(t, s, i);
    }
  }

  lemma FactPrintingIsInjective(t: Term, u: Term)
    requires FactKept(t) && FactKept(u) && RenderFact(t) == RenderFact(u)
    ensures t == u
  {
    hide ParseFact, FactKept, RenderFact;
    FactReads(t, RenderFact(t), 0);
    FactReads(u, RenderFact(u), 0);
  }

  // The two translations of event data

  /** Prolog term text to CLIPS fact text; `None` if the text does not parse. */
  function PrologToClips(s: string): Option<string> {
    match ParseText(s)
    case Ok(t, _) => Some(RenderFact(t))
    case Err(_) => None
  }

  /** CLIPS fact text to Prolog term text; `None` unless it starts with `(`. */
  function ClipsToProlog(s: string): Option<string> {
    var s := Trim(s);
    if !Next(s, 0, '(') then None
    else
      match ParseFact(s, 0)
      case Ok(t, _) => Some(Render(t))
      case Err(_) => None
  }

  lemma ClipsTextIsTrimmed(t: Term)
    requires t.Atom? || t.Compound?
    ensures Trim(RenderFact(t)) == RenderFact(t) && Next(RenderFact(t), 0, '(')
  {
    hide RenderFields, Underscored;
    TrimKeeps(RenderFact(t));
  }

  /** The text of every readable term crosses to CLIPS as its printed fact. */
  lemma TermCrosses(t: Term)
    requires Readable(t)
    ensures PrologToClips(Render(t)) == Some(RenderFact(t))
  {
    hide ParseText, Render, RenderFact, Readable;
    ReadableIsFloatFree(t);
    PrintedTextReadsBackIff(t);
  }

  lemma FactReturnsAs(t: Term)
    requires FactReadable(t)
    ensures ClipsToProlog(RenderFact(t)) == Some(Render(FactAsRead(t)))
  {
    hide ParseFact, Render, RenderFact, FactReadable, FactAsRead, Trim;
    assert t.Atom? || t.Compound? by { FactReadableIsFact(t); }
    ClipsTextIsTrimmed(t);
    AtWhole(RenderFact(t));
    FactReadsAs(t, RenderFact(t), 0);
  }

  lemma FactReadableIsFact(t: Term)
    requires FactReadable(t)
    ensures t.Atom? || t.Compound?
  {
  }

  /** The text of a fact survives CLIPS to Prolog to CLIPS. */
  lemma RelayRoundTrip(t: Term)
    requires FactKept(t) && Readable(t)
    ensures ClipsToProlog(RenderFact(t)).Some?
      && PrologToClips(ClipsToProlog(RenderFact(t)).value) == Some(RenderFact(t))
  {
    hide *;
    KeptIsReadAsItself(t);
    TermCrosses(t);
    FactReturnsAs(t);
  }

  /** A nested compound crosses as a string: that is what comes back in its place. */
  lemma NestedCompoundIsFlattened(t: Term, k: nat)
    requires t.Compound? && FactReadable(t) && k < |t.args| && t.args[k].Compound?
    ensures var back := ParseFact(RenderFact(t), 0);
      && back.Ok? && back.value != t && back.value.Compound? && k < |back.value.args|
      && back.value.args[k] == Str(t.args[k].functor + "(" + RenderFields(t.args[k].args, ",") + ")")
  {
    hide ParseFact, RenderFact, RenderFields;
    AtWhole(RenderFact(t));
    FactReadsAs(t, RenderFact(t), 0);
    assert FieldsAsRead(t.args)[k] == FieldAsRead(t.args[k]) != t.args[k];
  }

  // The text round trip, exactly

  /** The anonymous variable comes back too, as text. */
  predicate TextKept(t: Term) { FieldKept(t) || t == Variable("_") }

  predicate FactTextKept(t: Term) {
    match t
    case Atom(f) => SymbolKept(f)
    case Compound(f, args) => SymbolKept(f) && args != [] && forall k | 0 <= k < |args| :: TextKept(args[k])
    case _ => false
  }

  lemma TextKeptReads(t: Term)
    requires TextKept(t)
    ensures FieldReadable(t) && Render(FieldAsRead(t)) == Render(t)
  {
    hide Render, FieldKept;
    if FieldKept(t) {
      KeptIsReadAsItself(t);
    } else {
      UnderscoreRenders();
    }
  }

  lemma UnderscoreRenders()
    ensures Render(Variable("")) == Render(Variable("_")) == "_"
  {
  }

  lemma {:induction false} ArgsTextKept(args: seq<Term>)
    requires forall k | 0 <= k < |args| :: TextKept(args[k])
    ensures (forall k | 0 <= k < |args| :: FieldReadable(args[k])) && RenderArgs(FieldsAsRead(args)) == RenderArgs(args)
  {
    hide TextKept, FieldReadable, FieldAsRead, Render;
    if args != [] {
      TextKeptReads(args[0]);
      ArgsTextKept(args[1..]);
      assert FieldsAsRead(args)[1..] == FieldsAsRead(args[1..]);
      forall k | 0 <= k < |args| ensures FieldReadable(args[k]) {
        assert k > 0 ==> args[k] == args[1..][k - 1];
      }
    }
  }

  lemma KeptTextReturns(t: Term)
    requires FactTextKept(t)
    ensures ClipsToProlog(RenderFact(t)) == Some(Render(t))
  {
    hide ClipsToProlog, RenderFact, RenderArgs, TextKept, FieldReadable, FieldAsRead, SymbolKept, RenderAtom;
    if t.Compound? {
      ArgsTextKept(t.args);
      assert |FieldsAsRead(t.args)| > 0;
    }
    FactReturnsAs(t);
  }

  // The converse

  /** What stands after a printed name, or after a printed argument. */
  predicate Tail(s: string, c: char) { s != "" ==> s[0] == c }

  /** The name at the front of a text is determined by it. */
  lemma SameName(f: string, g: string, a: string, b: string)
    requires NameReadable(f) && g != "" && Tail(a, '(') && Tail(b, '(')
    requires RenderAtom(g) + a == RenderAtom(f) + b
    ensures f == g && a == b
  {
    hide RenderAtom, ParseHead, AtomNeedsQuoting;
    var s := RenderAtom(g) + a;
    FirstOfName(f);
    FirstOfName(g);
    assert s[0] == RenderAtom(g)[0] == RenderAtom(f)[0];
    if NameReadable(g) {
      AtStart(RenderAtom(g), a);
      AtStart(RenderAtom(f), b);
      NameReads(g, s, 0);
      NameReads(f, s, 0);
    }
    assert a == s[|RenderAtom(g)|..] && b == s[|RenderAtom(f)|..];
  }

  lemma AtStart(w: string, rest: string)
    ensures At(w + rest, 0, w)
  {
  }

  lemma FirstOfName(f: string)
    ensures RenderAtom(f) != "" && (RenderAtom(f)[0] == '\'' || In(Word, RenderAtom(f)[0]))
    ensures f != "" && !NameReadable(f) ==> RenderAtom(f)[0] == '_'
    ensures NameReadable(f) ==> RenderAtom(f)[0] != '_'
    ensures f != "" && (IsDigit(f[0]) || f[0] == '-') ==> RenderAtom(f)[0] == '\''
  {
    if !AtomNeedsQuoting(f) {
      assert In(Word, f[0]);
    } else if f != "" && f[0] == '-' {
      assert !In(Word, f[0]);
    }
  }

  lemma ReadNumberStarts(s: string, i: nat)
    requires i < |s| && (IsDigit(s[i]) || s[i] == '-') && ParseNumber(s, i).Ok?
    ensures var text := Render(ParseNumber(s, i).value); text != "" && (IsDigit(text[0]) || text[0] == '-')
  {
    hide Span, IntegerText;
    var t := ParseNumber(s, i).value;
    if t.Integer? {
      IntegerStart(t.value);
    }
  }

  lemma StartsDiffer(p: string, q: string, a: string, b: string)
    requires p != "" && q != "" && p[0] != q[0]
    ensures p + a != q + b
  {
    assert (p + a)[0] == p[0] && (q + b)[0] == q[0];
  }

  lemma LongerThanWildcard(w: string, a: string, b: string)
    requires w != "_" && w != "" && All(Word, w) && Tail(a, ',')
    ensures "_" + a != w + b
  {
    if |w| > 1 {
      assert In(Word, w[1]) && (w + b)[1] == w[1];
      assert a != "" ==> ("_" + a)[1] == a[0];
    } else {
      assert (w + b)[0] == w[0] && ("_" + a)[0] == '_' && w == [w[0]];
    }
  }

  /** A field that is not kept comes back as another text. */
  lemma UnkeptFieldDiffers(t: Term, s: string, i: nat, a: string, b: string)
    requires Readable(t) && !TextKept(t) && At(s, i, RenderField(t)) && FieldEnd(s, i + |RenderField(t)|)
    requires i < |s| && ParseField(s, i).Ok? && Tail(a, ',')
    ensures Render(ParseField(s, i).value) + a != Render(t) + b
  {
    hide At, ParseField, RenderFields, RenderArgs, RenderAtom, Escape, IntegerText;
    var u := ParseField(s, i).value;
    if FieldReadable(t) {
      FieldReadsAs(t, s, i);
    }
    match t
    case Atom(w) =>
      FirstOfName(w);
      if IsSimpleSymbol(w) {
        NumberField(w, s, i);
      }
      StartsDiffer(Render(u), Render(t), a, b);
    case Variable(w) =>
      WordsAreClipsVariables(w);
      LongerThanWildcard(w, a, b);
    case Compound(f, args) =>
      FirstOfName(f);
      assert Render(t)[0] == RenderAtom(f)[0];
      StartsDiffer(Render(u), Render(t), a, b);
  }

  lemma WordsAreClipsVariables(w: string)
    requires All(Word, w)
    ensures All(ClipsVariable, w)
  {
    forall k | 0 <= k < |w| ensures In(ClipsVariable, w[k]) {
      assert In(Word, w[k]);
    }
  }

  lemma NumberField(w: string, s: string, i: nat)
    requires w != "" && (IsDigit(w[0]) || w[0] == '-') && At(s, i, w)
    requires i < |s| && ParseField(s, i).Ok?
    ensures var text := Render(ParseField(s, i).value); text != "" && (IsDigit(text[0]) || text[0] == '-')
  {
    hide ParseNumber, StringBody, ParseSymbol;
    AtFirst(s, i, w);
    ReadNumberStarts(s, i);
  }

  function RestArgs(args: seq<Term>): string
    requires args != []
  {
    if |args| == 1 then "" else "," + RenderArgs(args[1..])
  }

  lemma RenderArgsSplits(args: seq<Term>)
    requires args != []
    ensures RenderArgs(args) == Render(args[0]) + RestArgs(args) && Tail(RestArgs(args), ',')
  {
    hide Render;
    assert Render(args[0]) + "" == Render(args[0]);
  }

  lemma {:induction false} ReturnedFieldsAreKept(args: seq<Term>, back: seq<Term>, s: string, i: nat)
    requires args != [] && back != [] && forall k | 0 <= k < |args| :: Readable(args[k])
    requires At(s, i, RenderFields(args, " ") + ")") && ParseFields(s, i).Ok? && ParseFields(s, i).value == back
    requires RenderArgs(back) == RenderArgs(args)
    ensures forall k | 0 <= k < |args| :: TextKept(args[k])
    decreases args
  {
    hide ParseFields, ParseField, RenderFields, RenderField, RenderArgs, Render, Readable, TextKept, FieldReadable,
        FieldAsRead, At;
    var t, j := args[0], i + |RenderField(args[0])|;
    FieldsSplit(args, s, i);
    ReadableIsFloatFree(t);
    FloatFreeIsNoFloat(t);
    FieldStarts(t, s, i);
    FieldsStep(s, i, ParseField(s, i));
    var first := ParseField(s, i);
    assert first.Ok? && ([first.value] + ParseFields(s, first.pos).value)[0] == back[0];
    RenderArgsSplits(args);
    RenderArgsSplits(back);
    if !TextKept(t) {
      UnkeptFieldDiffers(t, s, i, RestArgs(back), RestArgs(args));
    }
    if |args| > 1 {
      TextKeptReads(t);
      FieldReadsAs(t, s, i);
      FieldsSkipSpace(s, j);
      SameRest(args, back);
      assert ([first.value] + ParseFields(s, j).value)[1..] == ParseFields(s, j).value;
      ReturnedFieldsAreKept(args[1..], back[1..], s, j + 1);
      forall k | 0 <= k < |args| ensures TextKept(args[k]) {
        assert k > 0 ==> args[k] == args[1..][k - 1];
      }
    }
  }

  lemma FloatFreeIsNoFloat(t: Term)
    requires FloatFree(t)
    ensures !t.Float?
  {
  }

  lemma SameRest(args: seq<Term>, back: seq<Term>)
    requires |args| > 1 && back != [] && Render(back[0]) == Render(args[0]) && RenderArgs(args) == RenderArgs(back)
    ensures |back| > 1 && RenderArgs(args[1..]) == RenderArgs(back[1..])
  {
    hide Render, RenderArgs;
    RenderArgsSplits(args);
    RenderArgsSplits(back);
    var n := |Render(args[0])|;
    assert RestArgs(args) == RenderArgs(args)[n..] && RestArgs(back) == RenderArgs(back)[n..];
    assert RestArgs(args)[1..] == RenderArgs(args[1..]);
    assert |back| > 1 ==> RestArgs(back)[1..] == RenderArgs(back[1..]);
  }

  lemma OnlyFactsReturn(t: Term)
    requires Readable(t) && ClipsToProlog(RenderFact(t)).Some?
    ensures t.Atom? || t.Compound?
  {
    hide ParseFact, Trim, Escape, IntegerText;
    match t {
      case Variable(v) =>
        assert In(Word, v[|v| - 1]);
        TrimKeeps(RenderFact(t));
      case Integer(n) =>
        IntegerIsTrimmed(n);
        IntegerStart(n);
        TrimKeeps(RenderFact(t));
      case Str(_) => TrimKeeps(RenderFact(t));
      case _ =>
    }
  }

  function NameOf(t: Term): string
    requires t.Atom? || t.Compound?
  {
    if t.Atom? then t.name else t.functor
  }

  function ArgumentText(t: Term): string { if t.Compound? then "(" + RenderArgs(t.args) + ")" else "" }

  lemma RenderSplits(t: Term)
    requires t.Atom? || t.Compound?
    ensures Render(t) == RenderAtom(NameOf(t)) + ArgumentText(t) && Tail(ArgumentText(t), '(')
  {
    hide RenderAtom, RenderArgs;
    if t.Compound? {
      assert RenderAtom(t.functor) + "(" + RenderArgs(t.args) + ")" == RenderAtom(t.functor)
        + ("(" + RenderArgs(t.args) + ")");
    } else {
      assert RenderAtom(t.name) + "" == RenderAtom(t.name);
    }
  }

  lemma ReturnedFactIsKept(t: Term)
    requires Readable(t) && ClipsToProlog(RenderFact(t)) == Some(Render(t))
    ensures FactTextKept(t)
  {
    hide ParseFact, Trim, Render, RenderFact, RenderArgs, Readable, SymbolKept, TextKept, FieldReadable, FactAsRead;
    OnlyFactsReturn(t);
    ClipsTextIsTrimmed(t);
    var s := RenderFact(t);
    var u := ParseFact(s, 0).value;
    ReadFactFunctor(u, s, 0);
    RenderSplits(t);
    RenderSplits(u);
    ReadableName(t);
    SymbolIsNotEmpty(NameOf(u));
    SameName(NameOf(t), NameOf(u), ArgumentText(u), ArgumentText(t));
    if t.Compound? {
      AtWhole(s);
      if t.args == [] {
        FactReadsAs(t, s, 0);
        NoArgumentsLeft(t);
      } else {
        ReturnedArguments(t, u, s);
      }
    }
  }

  lemma NoArgumentsLeft(t: Term)
    requires t.Compound? && t.args == []
    ensures FactAsRead(t).Atom?
  {
    assert FieldsAsRead(t.args) == [];
  }

  lemma ReadableName(t: Term)
    requires Readable(t) && (t.Atom? || t.Compound?)
    ensures NameReadable(NameOf(t)) && (t.Compound? ==> forall k | 0 <= k < |t.args| :: Readable(t.args[k]))
  {
  }

  lemma SymbolIsNotEmpty(f: string)
    requires SymbolKept(f)
    ensures f != ""
  {
  }

  lemma ReturnedArguments(t: Term, u: Term, s: string)
    requires t.Compound? && u.Compound? && t.functor == u.functor && SymbolKept(t.functor) && t.args != []
      && u.args != []
    requires (forall k | 0 <= k < |t.args| :: Readable(t.args[k])) && s == RenderFact(t)
    requires ParseFact(s, 0).Ok? && ParseFact(s, 0).value == u && ArgumentText(t) == ArgumentText(u)
    ensures forall k | 0 <= k < |t.args| :: TextKept(t.args[k])
  {
    hide ParseFact, ParseFields, RenderFact, RenderFields, RenderArgs, Readable, SymbolKept, TextKept, At;
    var j := 1 + |t.functor|;
    AtWhole(s);
    CompoundFactSplits(t.functor, t.args, s, 0);
    FunctorReads(t.functor, s, 0);
    FieldsSkipSpace(s, j);
    assert ArgumentText(t)[1..|ArgumentText(t)| - 1] == RenderArgs(t.args);
    assert ArgumentText(u)[1..|ArgumentText(u)| - 1] == RenderArgs(u.args);
    ReturnedFieldsAreKept(t.args, u.args, s, j + 1);
  }

  /** Every readable term's text crosses to CLIPS as its printed fact, and that comes
      back as the same text exactly if the fact is flat, its functor is one symbol,
      and its fields are kept as text. */
  lemma RelayTextIff(t: Term)
    requires Readable(t)
    ensures PrologToClips(Render(t)) == Some(RenderFact(t))
    ensures ClipsToProlog(RenderFact(t)) == Some(Render(t)) <==> FactTextKept(t)
  {
    hide *;
    TermCrosses(t);
    if FactTextKept(t) {
      KeptTextReturns(t);
    }
    if ClipsToProlog(RenderFact(t)) == Some(Render(t)) {
      ReturnedFactIsKept(t);
    }
  }
}
