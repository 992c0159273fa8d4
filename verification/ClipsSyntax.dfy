/** CLIPS ordered facts: the printer, what the fact reader computes, and the
    reader as it runs. */
module ClipsSyntax {
  import opened Wrappers
  import opened Text
  import opened Terms
  import opened PrologSyntax

  // Printing

  function Underscored(s: string): (r: string)
    ensures |r| == |s|
  {
    if s == "" then "" else [if s[0] == ' ' then '_' else s[0]] + Underscored(s[1..])
  }

  predicate IsSimpleChar(c: char) { IsAlphanumeric(c) || c == '_' || c == '-' || c == '.' }

  predicate IsSimpleSymbol(s: string) {
    s != "" && forall k | 0 <= k < |s| :: IsSimpleChar(s[k])
  }

  function ClipsString(s: string): string {
    "\"" + Escape(s, '"') + "\""
  }

  /** A field of a fact. A nested compound becomes a string; an anonymous variable
      becomes the single-field wildcard. */
  function RenderField(t: Term): string
    decreases t, 0
  {
    match t
    case Atom(s) => if IsSimpleSymbol(s) then s else ClipsString(s)
    case Variable(s) => if Next(s, 0, '_') then "?" else "?" + s
    case Integer(n) => IntegerText(n)
    case Float(lexeme) => lexeme
    case Str(s) => ClipsString(s)
    case Compound(f, args) => ClipsString(f + "(" + RenderFields(args, ",") + ")")
  }

  function RenderFields(args: seq<Term>, separator: string): string
    decreases args, 1
  {
    if args == [] then ""
    else if |args| == 1 then RenderField(args[0])
    else RenderField(args[0]) + separator + RenderFields(args[1..], separator)
  }

  function RenderFact(t: Term): string {
    match t
    case Atom(s) => "(" + Underscored(s) + ")"
    case Compound(f, args) => "(" + Underscored(f) + " " + RenderFields(args, " ") + ")"
    case Integer(n) => IntegerText(n)
    case Float(lexeme) => lexeme
    case Str(s) => ClipsString(s)
    case Variable(s) => "?" + s
  }

  // Reading

  function CapitalizeFirst(s: string): (r: string)
    ensures |r| == |s|
  {
    if s == "" then "" else [ToUpper(s[0])] + s[1..]
  }

  function ParseSymbol(s: string, i: nat): (r: Parsed<string>)
    requires i <= |s|
    ensures i <= r.pos <= |s| && (r.Ok? ==> i < r.pos)
  {
    var j := Span(ClipsSymbol, s, i);
    if i == j then Err(i) else Ok(s[i..j], j)
  }

  function ParseField(s: string, i: nat): (r: Parsed<Term>)
    requires i < |s|
    ensures i <= r.pos <= |s| && (r.Ok? ==> i < r.pos)
  {
    if s[i] == '"' then
      match StringBody(s, i + 1)
      case Err(pos) => Err(pos)
      case Ok(text, pos) => Ok(Str(text), pos)
    else if s[i] == '?' then
      var j := Span(ClipsVariable, s, i + 1);
      Ok(Variable(CapitalizeFirst(s[i + 1..j])), j)
    else if IsDigit(s[i]) || s[i] == '-' then ParseNumber(s, i)
    else
      match ParseSymbol(s, i)
      case Err(pos) => Err(pos)
      case Ok(name, pos) => Ok(Atom(name), pos)
  }

  /** Fields up to the closing parenthesis. */
  function ParseFields(s: string, i: nat): (r: Parsed<seq<Term>>)
    requires i <= |s|
    ensures i <= r.pos <= |s|
    decreases |s| - i
  {
    var j := SkipSpace(s, i);
    if j == |s| then Err(j)
    else if s[j] == ')' then Ok([], j + 1)
    else
      match ParseField(s, j)
      case Err(pos) => Err(pos)
      case Ok(t, pos) => Prepend([t], ParseFields(s, pos))
  }

  function Fact(functor: string, args: seq<Term>): Term {
    if args == [] then Atom(functor) else Compound(functor, args)
  }

  function ParseFact(s: string, i: nat): (r: Parsed<Term>)
    requires i <= |s|
    ensures i <= r.pos <= |s|
  {
    var j := SkipSpace(s, i);
    if !Next(s, j, '(') then Err(j)
    else
      match ParseSymbol(s, SkipSpace(s, j + 1))
      case Err(pos) => Err(pos)
      case Ok(functor, pos) =>
        match ParseFields(s, pos)
        case Err(pos) => Err(pos)
        case Ok(args, pos) => Ok(Fact(functor, args), pos)
  }

  /** The fact reader: a cursor that moves over the input. */
  class ClipsParser {
    const input: string
    var pos: nat

    ghost predicate Valid()
      reads this
    {
      pos <= |input|
    }

    constructor (s: string)
      ensures Valid() && input == s && pos == 0
    {
      input := s;
      pos := 0;
    }

    predicate Peek(c: char)
      reads this
    {
      Next(input, pos, c)
    }

    method SkipWhile(cls: CharClass)
      requires Valid()
      modifies this
      ensures Valid() && pos == Span(cls, input, old(pos))
    {
      while pos < |input| && In(cls, input[pos])
        invariant Valid() && Span(cls, input, pos) == Span(cls, input, old(pos))
      {
        pos := pos + 1;
      }
    }

    method ReadSymbol() returns (r: Option<string>)
      requires Valid()
      modifies this
      ensures Valid() && var p := ParseSymbol(input, old(pos)); r == p.ToOption() && pos == p.pos
    {
      var start := pos;
      SkipWhile(ClipsSymbol);
      r := if pos == start then None else Some(input[start..pos]);
    }

    method ReadString() returns (r: Option<string>)
      requires Valid()
      modifies this
      ensures Valid() && var p := StringBody(input, old(pos)); r == p.ToOption() && pos == p.pos
    {
      var text := "";
      PrependNothing(StringBody(input, pos));
      while pos < |input|
        invariant Valid() && Prepend(text, StringBody(input, pos)) == StringBody(input, old(pos))
      {
        var c := input[pos];
        pos := pos + 1;
        if c == '"' {
          assert text + "" == text;
          return Some(text);
        } else if c == '\\' {
          if pos == |input| {
            return None;
          }
          PrependTwice(text, [StringEscape(input[pos])], StringBody(input, pos + 1));
          text := text + [StringEscape(input[pos])];
          pos := pos + 1;
        } else {
          PrependTwice(text, [c], StringBody(input, pos));
          text := text + [c];
        }
      }
      r := None;
    }

    method ReadNumber() returns (r: Option<Term>)
      requires Valid() && pos < |input| && (IsDigit(input[pos]) || input[pos] == '-')
      modifies this
      ensures Valid() && var p := ParseNumber(input, old(pos)); r == p.ToOption() && pos == p.pos
    {
      var start := pos;
      if Peek('-') {
        pos := pos + 1;
      }
      SkipWhile(Digit);
      var isFloat := Peek('.');
      if isFloat {
        pos := pos + 1;
        SkipWhile(Digit);
      }
      var lexeme := input[start..pos];
      if isFloat {
        r := if IsFloatText(lexeme) then Some(Float(lexeme)) else None;
      } else if IsIntegerText(lexeme) && IsI64(IntegerValue(lexeme)) {
        r := Some(Integer(IntegerValue(lexeme)));
      } else {
        r := None;
      }
    }

    method ReadField() returns (r: Option<Term>)
      requires Valid() && pos < |input| && !IsSpace(input[pos])
      modifies this
      ensures Valid() && var p := ParseField(input, old(pos)); r == p.ToOption() && pos == p.pos
    {
      if Peek('"') {
        pos := pos + 1;
        var text := ReadString();
        r := if text == None then None else Some(Str(text.value));
      } else if Peek('?') {
        pos := pos + 1;
        var start := pos;
        SkipWhile(ClipsVariable);
        r := Some(Variable(CapitalizeFirst(input[start..pos])));
      } else if IsDigit(input[pos]) || Peek('-') {
        r := ReadNumber();
      } else {
        var name := ReadSymbol();
        r := if name == None then None else Some(Atom(name.value));
      }
    }

    method ReadFact() returns (r: Option<Term>)
      requires Valid()
      modifies this
      ensures Valid() && var p := ParseFact(input, old(pos)); r == p.ToOption() && pos == p.pos
    {
      SkipWhile(Space);
      if !Peek('(') {
        return None;
      }
      pos := pos + 1;
      SkipWhile(Space);
      var functor := ReadSymbol();
      if functor == None {
        return None;
      }
      var args := ReadFields();
      r := if args == None then None else Some(Fact(functor.value, args.value));
    }

    method ReadFields() returns (r: Option<seq<Term>>)
      requires Valid()
      modifies this
      ensures Valid() && var p := ParseFields(input, old(pos)); r == p.ToOption() && pos == p.pos
    {
      hide ParseField, SkipSpace;
      var args := [];
      PrependNothing(ParseFields(input, pos));
      while true
        invariant Valid()
        invariant Prepend(args, ParseFields(input, pos)) == ParseFields(input, old(pos))
        decreases |input| - pos
      {
        SkipSpaces();
        if pos == |input| {
          return None;
        }
        if Peek(')') {
          pos := pos + 1;
          assert args + [] == args;
          return Some(args);
        }
        var t := ReadField();
        if t == None {
          return None;
        }
        PrependTwice(args, [t.value], ParseFields(input, pos));
        args := args + [t.value];
      }
    }

    method SkipSpaces()
      requires Valid()
      modifies this
      ensures Valid() && pos == SkipSpace(input, old(pos))
    {
      SkipWhile(Space);
    }
  }
}
