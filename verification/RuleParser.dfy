/** The rule parser as it runs: a cursor that moves over the input. Its term
    methods are the term parser's, which the program has twice. */
module RuleReading {
  import opened Wrappers
  import opened Text
  import opened Terms
  import opened PrologSyntax
  import opened ClauseSyntax

  class RuleParser {
    const input: string
    var pos: nat

    ghost predicate Valid()
      reads this
    {
      pos <= |input|
    }

    constructor (s: string)
      ensures Valid() && input == s && pos == 0
    {
      input := s;
      pos := 0;
    }

    predicate Peek(c: char)
      reads this
    {
      Next(input, pos, c)
    }

    method SkipWhile(cls: CharClass)
      requires Valid()
      modifies this
      ensures Valid() && pos == Span(cls, input, old(pos))
    {
      while pos < |input| && In(cls, input[pos])
        invariant Valid() && Span(cls, input, pos) == Span(cls, input, old(pos))
      {
        pos := pos + 1;
      }
    }

    method SkipSpaces()
      requires Valid()
      modifies this
      ensures Valid() && pos == SkipSpace(input, old(pos))
    {
      SkipWhile(Space);
    }

    method SkipSpaceAndLineComments()
      requires Valid()
      modifies this
      ensures Valid() && pos == SkipSpaceAndComments(input, old(pos))
    {
      SkipWhile(Space);
      while Peek('%')
        invariant Valid() && SkipSpace(input, pos) == pos
        invariant SkipSpaceAndComments(input, pos) == SkipSpaceAndComments(input, old(pos))
        decreases |input| - pos
      {
        SkipWhile(NotNewline);
        SkipWhile(Space);
        SkipsNothing(input, pos);
      }
    }

    /** Collects the text of a quoted atom; the opening quote has been consumed. */
    method ReadQuoted() returns (r: Option<string>)
      requires Valid()
      modifies this
      ensures Valid() && var p := QuotedBody(input, old(pos)); r == p.ToOption() && pos == p.pos
    {
      var text := "";
      PrependNothing(QuotedBody(input, pos));
      while pos < |input|
        invariant Valid() && Prepend(text, QuotedBody(input, pos)) == QuotedBody(input, old(pos))
      {
        var c := input[pos];
        pos := pos + 1;
        if c == '\'' {
          if Peek('\'') {
            pos := pos + 1;
            PrependTwice(text, "'", QuotedBody(input, pos));
            text := text + "'";
          } else {
            assert text + "" == text;
            return Some(text);
          }
        } else if c == '\\' {
          if pos == |input| {
            return None;
          }
          PrependTwice(text, QuotedEscape(input[pos]), QuotedBody(input, pos + 1));
          text := text + QuotedEscape(input[pos]);
          pos := pos + 1;
        } else {
          PrependTwice(text, [c], QuotedBody(input, pos));
          text := text + [c];
        }
      }
      r := None;
    }

    /** Collects the text of a string; the opening quote has been consumed. */
    method ReadString() returns (r: Option<string>)
      requires Valid()
      modifies this
      ensures Valid() && var p := StringBody(input, old(pos)); r == p.ToOption() && pos == p.pos
    {
      var text := "";
      PrependNothing(StringBody(input, pos));
      while pos < |input|
        invariant Valid() && Prepend(text, StringBody(input, pos)) == StringBody(input, old(pos))
      {
        var c := input[pos];
        pos := pos + 1;
        if c == '"' {
          assert text + "" == text;
          return Some(text);
        } else if c == '\\' {
          if pos == |input| {
            return None;
          }
          PrependTwice(text, [StringEscape(input[pos])], StringBody(input, pos + 1));
          text := text + [StringEscape(input[pos])];
          pos := pos + 1;
        } else {
          PrependTwice(text, [c], StringBody(input, pos));
          text := text + [c];
        }
      }
      r := None;
    }

    method ReadNumber() returns (r: Option<Term>)
      requires Valid() && pos < |input| && (IsDigit(input[pos]) || input[pos] == '-')
      modifies this
      ensures Valid() && var p := ParseNumber(input, old(pos)); r == p.ToOption() && pos == p.pos
    {
      var start := pos;
      if Peek('-') {
        pos := pos + 1;
      }
      SkipWhile(Digit);
      var isFloat := Peek('.');
      if isFloat {
        pos := pos + 1;
        SkipWhile(Digit);
      }
      var lexeme := input[start..pos];
      if isFloat {
        r := if IsFloatText(lexeme) then Some(Float(lexeme)) else None;
      } else if IsIntegerText(lexeme) && IsI64(IntegerValue(lexeme)) {
        r := Some(Integer(IntegerValue(lexeme)));
      } else {
        r := None;
      }
    }

    method ReadTerm() returns (r: Option<Term>)
      requires Valid()
      modifies this
      ensures Valid() && var p := ParseTerm(input, old(pos)); r == p.ToOption() && pos == p.pos
      decreases |input| - pos, 2
    {
      SkipSpaces();
      var start := pos;
      if pos == |input| {
        r := None;
      } else if Peek('\'') {
        pos := pos + 1;
        var name := ReadQuoted();
        if name == None {
          return None;
        }
        r := ReadMaybeCompound(name.value);
      } else if Peek('"') {
        pos := pos + 1;
        var text := ReadString();
        r := if text == None then None else Some(Str(text.value));
      } else if Peek('[') {
        pos := pos + 1;
        SkipSpaces();
        if Peek(']') {
          pos := pos + 1;
          r := Some(Atom("[]"));
        } else {
          r := None;
        }
      } else if Peek('-') || IsDigit(input[pos]) {
        r := ReadNumber();
      } else if IsUpper(input[pos]) || Peek('_') {
        SkipWhile(Word);
        r := Some(Variable(input[start..pos]));
      } else if IsLower(input[pos]) {
        SkipWhile(Word);
        r := ReadMaybeCompound(input[start..pos]);
      } else {
        r := None;
      }
    }

    method ReadMaybeCompound(name: string) returns (r: Option<Term>)
      requires Valid()
      modifies this
      ensures Valid() && var p := MaybeCompound(name, input, old(pos)); r == p.ToOption() && pos == p.pos
      decreases |input| - pos, 3
    {
      SkipSpaces();
      if Peek('(') {
        pos := pos + 1;
        var args := ReadArgs();
        r := if args == None then None else Some(Compound(name, args.value));
      } else {
        r := Some(Atom(name));
      }
    }

    method ReadArgs() returns (r: Option<seq<Term>>)
      requires Valid()
      modifies this
      ensures Valid() && var p := ParseArgs(input, old(pos)); r == p.ToOption() && pos == p.pos
      decreases |input| - pos, 4
    {
      SkipSpaces();
      if Peek(')') {
        pos := pos + 1;
        return Some([]);
      }
      r := ReadArgList();
    }

    method ReadArgList() returns (r: Option<seq<Term>>)
      requires Valid()
      modifies this
      ensures Valid() && var p := ParseArgList(input, old(pos)); r == p.ToOption() && pos == p.pos
      decreases |input| - pos, 3
    {
      hide ParseTerm, ParseArgs, SkipSpace;
      var args := [];
      PrependNothing(ParseArgList(input, pos));
      ghost var start := pos;
      while true
        invariant Valid() && start <= pos
        invariant Prepend(args, ParseArgList(input, pos)) == ParseArgList(input, start)
        decreases |input| - pos
      {
        ghost var before := pos;
        var t := ReadTerm();
        if t == None {
          return None;
        }
        SkipSpaces();
        PrependTwice(args, [t.value], ParseArgList(input, if Peek(',') then pos + 1 else pos));
        args := args + [t.value];
        if Peek(',') {
          pos := pos + 1;
        } else if Peek(')') {
          pos := pos + 1;
          return Some(args);
        } else {
          return None;
        }
      }
    }

    method ReadGoalTerm() returns (r: Option<Term>)
      requires Valid()
      modifies this
      ensures Valid() && var p := ParseGoalTerm(input, old(pos)); r == p.ToOption() && pos == p.pos
    {
      SkipSpaces();
      if Peek('(') {
        pos := pos + 1;
        r := ReadTerm();
        if r.Some? {
          SkipSpaces();
          if Peek(')') {
            pos := pos + 1;
          }
        }
      } else {
        r := ReadTerm();
      }
    }

    method ReadGoal() returns (r: Option<BodyGoal>)
      requires Valid()
      modifies this
      ensures Valid() && var p := ParseGoal(input, old(pos)); r == p.ToOption() && pos == p.pos
    {
      SkipSpaces();
      var negated := Peek('\\') && Next(input, pos + 1, '+');
      if negated {
        pos := pos + 2;
        SkipSpaces();
      }
      var t := ReadGoalTerm();
      r := if t == None then None else if negated then Some(Negative(t.value)) else Some(ClassifyGoal(t.value));
    }

    method ReadBody() returns (r: Option<seq<BodyGoal>>)
      requires Valid()
      modifies this
      ensures Valid() && var p := ParseBody(input, old(pos)); r == p.ToOption() && pos == p.pos
    {
      hide ParseGoal, SkipSpace, SkipSpaceAndComments;
      var goals := [];
      PrependNothing(ParseBody(input, pos));
      while true
        invariant Valid()
        invariant Prepend(goals, ParseBody(input, pos)) == ParseBody(input, old(pos))
        decreases |input| - pos
      {
        SkipSpaceAndLineComments();
        var g := ReadGoal();
        if g == None {
          return None;
        }
        SkipSpaces();
        PrependTwice(goals, [g.value], ParseBody(input, if Peek(',') || Peek(';') then pos + 1 else pos));
        goals := goals + [g.value];
        if Peek(',') || Peek(';') {
          pos := pos + 1;
        } else {
          return Some(goals);
        }
      }
    }

    /** `Some(None)` at the end of the input. */
    method ReadClause() returns (r: Option<Option<Rule>>)
      requires Valid()
      modifies this
      ensures Valid() && var p := ParseClause(input, old(pos)); r == p.ToOption() && pos == p.pos
    {
      hide ParseTerm, ParseBody, SkipSpace, SkipSpaceAndComments;
      SkipSpaceAndLineComments();
      if pos == |input| {
        return Some(None);
      }
      var head := ReadTerm();
      if head == None {
        return None;
      }
      SkipSpaces();
      if Peek(':') && Next(input, pos + 1, '-') {
        pos := pos + 2;
        SkipSpaces();
        var body := ReadBody();
        if body == None {
          return None;
        }
        SkipSpaces();
        if Peek('.') {
          pos := pos + 1;
        }
        r := Some(Some(Rule(head.value, body.value)));
      } else if Peek('.') {
        pos := pos + 1;
        r := Some(Some(Rule(head.value, [])));
      } else {
        r := None;
      }
    }

    method RecoverAtPeriod()
      requires Valid()
      modifies this
      ensures Valid() && pos == SkipToPeriod(input, old(pos))
    {
      while pos < |input|
        invariant Valid() && SkipToPeriod(input, pos) == SkipToPeriod(input, old(pos))
      {
        pos := pos + 1;
        if input[pos - 1] == '.' {
          return;
        }
      }
    }
  }

  lemma RulesStep(rules: seq<Rule>, source: string, i: nat)
    requires i <= |source|
    ensures rules + ParseRules(source, i) ==
      match ParseClause(source, i)
      case Ok(Some(rule), pos) => rules + [rule] + ParseRules(source, pos)
      case Ok(None, _) => rules
      case Err(pos) => rules + ParseRules(source, SkipToPeriod(source, pos))
  {
    hide ParseClause, SkipToPeriod;
  }

  /** Terminates on every input, errors included. */
  method ReadRules(source: string) returns (rules: seq<Rule>)
    ensures rules == ParseRules(source, 0)
  {
    hide ParseClause, SkipToPeriod;
    var parser := new RuleParser(source);
    rules := [];
    while true
      invariant parser.Valid() && fresh(parser) && parser.input == source
      invariant rules + ParseRules(source, parser.pos) == ParseRules(source, 0)
      decreases |source| - parser.pos
    {
      RulesStep(rules, source, parser.pos);
      var clause := parser.ReadClause();
      match clause
      case Some(Some(rule)) => rules := rules + [rule];
      case Some(None) => return;
      case None => parser.RecoverAtPeriod();
    }
  }
}
