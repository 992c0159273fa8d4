/** The shared term syntax tree and its Prolog printer. */
module Terms {
  import opened Text

  /** A float carries the text it was read from; its rounding and its canonical
      printing are not part of this model. */
  datatype Term =
    | Atom(name: string)
    | Variable(name: string)
    | Integer(value: i64)
    | Float(lexeme: string)
    | Str(text: string)
    | Compound(functor: string, args: seq<Term>)

  /** Doubles backslashes and puts a backslash before each `quote`. */
  function Escape(s: string, quote: char): string
  {
    if s == "" then ""
    else
      (if s[0] == '\\' then "\\\\" else if s[0] == quote then ['\\', quote] else [s[0]])
      + Escape(s[1..], quote)
  }

  predicate AtomNeedsQuoting(s: string) {
    s == "" || IsUpper(s[0]) || IsDigit(s[0]) || !All(Word, s)
  }

  function RenderAtom(s: string): string {
    if AtomNeedsQuoting(s) then "'" + Escape(s, '\'') + "'" else s
  }

  function ToUpper(c: char): char {
    if IsLower(c) then (c as int - 32) as char else c
  }

  /** Makes a variable name start with an upper-case letter or `_`. */
  function EnsureVariable(s: string): string {
    if s == "" then "_"
    else if IsUpper(s[0]) || s[0] == '_' then s
    else [ToUpper(s[0])] + s[1..]
  }

  function Render(t: Term): string
    decreases t, 0
  {
    match t
    case Atom(s) => RenderAtom(s)
    case Variable(s) => EnsureVariable(s)
    case Integer(n) => IntegerText(n)
    case Float(lexeme) => lexeme
    case Str(s) => "\"" + Escape(s, '"') + "\""
    case Compound(f, args) => RenderAtom(f) + "(" + RenderArgs(args) + ")"
  }

  function RenderArgs(args: seq<Term>): string
    decreases args, 1
  {
    if args == [] then ""
    else if |args| == 1 then Render(args[0])
    else Render(args[0]) + "," + RenderArgs(args[1..])
  }
}
