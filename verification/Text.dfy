/** Characters, scanning from a position, and decimal numerals.
    A `char` stands for one input byte; text that is printed is ASCII. */
module Text {

  datatype CharClass = Space | Digit | Word | ClipsSymbol | ClipsVariable | NotNewline

  predicate IsDigit(c: char) { '0' <= c <= '9' }
  predicate IsUpper(c: char) { 'A' <= c <= 'Z' }
  predicate IsLower(c: char) { 'a' <= c <= 'z' }
  predicate IsAlphanumeric(c: char) { IsDigit(c) || IsUpper(c) || IsLower(c) }

  /** `u8::is_ascii_whitespace`: vertical tab is not included. */
  predicate IsSpace(c: char) { c == ' ' || c == '\t' || c == '\n' || c == '\r' || c == 12 as char }

  /** `char::is_whitespace` on ASCII, as used by `str::trim`: vertical tab is included. */
  predicate IsTrimmed(c: char) { IsSpace(c) || c == 11 as char }

  predicate In(cls: CharClass, c: char) {
    match cls
    case Space => IsSpace(c)
    case Digit => IsDigit(c)
    case Word => IsAlphanumeric(c) || c == '_'
    case ClipsSymbol => !IsSpace(c) && c != '(' && c != ')' && c != '"' && c != ';'
    case ClipsVariable => IsAlphanumeric(c) || c == '_' || c == '-'
    case NotNewline => c != '\n'
  }

  predicate All(cls: CharClass, s: string) {
    forall k | 0 <= k < |s| :: In(cls, s[k])
  }

  /** The character at position `i` exists and is `c`. */
  predicate Next(s: string, i: nat, c: char) { i < |s| && s[i] == c }

  /** The text `w` stands in `s` at position `i`. */
  predicate At(s: string, i: nat, w: string) {
    i + |w| <= |s| && s[i..i + |w|] == w
  }

  lemma AtFirst(s: string, i: nat, w: string)
    requires At(s, i, w) && w != ""
    ensures i < |s| && s[i] == w[0]
  {
    assert s[i..i + |w|][0] == w[0];
  }

  lemma AtSplits(s: string, i: nat, a: string, b: string)
    requires At(s, i, a + b)
    ensures At(s, i, a) && At(s, i + |a|, b)
  {
    assert s[i..i + |a|] == (a + b)[..|a|];
    assert s[i + |a|..i + |a| + |b|] == (a + b)[|a|..];
  }

  lemma AtSplitsAround(s: string, i: nat, a: string, c: char, b: string)
    requires At(s, i, a + [c] + b)
    ensures At(s, i, a) && Next(s, i + |a|, c) && At(s, i + |a| + 1, b)
  {
    AtSplits(s, i, a + [c], b);
    AtSplits(s, i, a, [c]);
    AtFirst(s, i + |a|, [c]);
  }

  lemma AtWhole(s: string)
    ensures At(s, 0, s)
  {
  }

  lemma AtEndsWith(s: string, i: nat, a: string, c: char)
    requires At(s, i, a + [c])
    ensures At(s, i, a) && Next(s, i + |a|, c)
  {
    AtSplits(s, i, a, [c]);
    AtFirst(s, i + |a|, [c]);
  }

  lemma AtOpens(s: string, i: nat, c: char, a: string)
    requires At(s, i, [c] + a)
    ensures Next(s, i, c) && At(s, i + 1, a)
  {
    AtSplits(s, i, [c], a);
    AtFirst(s, i, [c]);
  }

  lemma AtPair(s: string, i: nat, c: char, d: char)
    requires At(s, i, [c, d])
    ensures Next(s, i, c) && Next(s, i + 1, d)
  {
    assert [c, d] == [c] + [d];
    AtEndsWith(s, i, [c], d);
    AtFirst(s, i, [c]);
  }

  lemma AtAssociates(s: string, i: nat, a: string, b: string, c: string)
    requires At(s, i, a + b + c)
    ensures At(s, i, a + (b + c))
  {
    assert a + b + c == a + (b + c);
  }

  /** First position from `i` on whose character is outside the class. */
  function Span(cls: CharClass, s: string, i: nat): (j: nat)
    requires i <= |s|
    ensures i <= j <= |s|
    ensures j < |s| ==> !In(cls, s[j])
    decreases |s| - i
  {
    if i < |s| && In(cls, s[i]) then Span(cls, s, i + 1) else i
  }

  lemma {:induction false} SpanIsInClass(cls: CharClass, s: string, i: nat)
    requires i <= |s|
    ensures forall k | i <= k < Span(cls, s, i) :: In(cls, s[k])
    decreases |s| - i
  {
    if i < |s| && In(cls, s[i]) {
      SpanIsInClass(cls, s, i + 1);
    }
  }

  lemma {:induction false} SpanReaches(cls: CharClass, s: string, i: nat, j: nat)
    requires i <= j <= |s|
    requires forall k | i <= k < j :: In(cls, s[k])
    requires j < |s| ==> !In(cls, s[j])
    ensures Span(cls, s, i) == j
    decreases j - i
  {
    if i < j {
      SpanReaches(cls, s, i + 1, j);
    }
  }

  lemma SpanOfText(cls: CharClass, s: string, i: nat, w: string)
    requires At(s, i, w) && All(cls, w)
    requires i + |w| < |s| ==> !In(cls, s[i + |w|])
    ensures Span(cls, s, i) == i + |w|
  {
    forall k | i <= k < i + |w| ensures In(cls, s[k]) {
      assert s[k] == s[i..i + |w|][k - i];
      assert In(cls, w[k - i]);
    }
    SpanReaches(cls, s, i, i + |w|);
  }

  function SkipSpace(s: string, i: nat): (j: nat)
    requires i <= |s|
    ensures i <= j <= |s|
    ensures j < |s| ==> !IsSpace(s[j])
  {
    Span(Space, s, i)
  }

  lemma SkipsNothing(s: string, i: nat)
    requires i <= |s| && (i < |s| ==> !IsSpace(s[i]))
    ensures SkipSpace(s, i) == i
  {
  }

  lemma SkipsOneSpace(s: string, i: nat)
    requires Next(s, i, ' ') && (i + 1 < |s| ==> !IsSpace(s[i + 1]))
    ensures SkipSpace(s, i) == i + 1
  {
    SkipsNothing(s, i + 1);
  }

  // Trimming

  function TrimStart(s: string): string {
    if s != "" && IsTrimmed(s[0]) then TrimStart(s[1..]) else s
  }

  function TrimEnd(s: string): string {
    if s != "" && IsTrimmed(s[|s| - 1]) then TrimEnd(s[..|s| - 1]) else s
  }

  function Trim(s: string): string { TrimEnd(TrimStart(s)) }

  lemma TrimKeeps(s: string)
    requires s != "" && !IsTrimmed(s[0]) && !IsTrimmed(s[|s| - 1])
    ensures Trim(s) == s
  {
  }

  // Decimal numerals

  function DigitChar(d: nat): (c: char)
    requires d < 10
    ensures IsDigit(c)
  {
    (d + '0' as int) as char
  }

  function Numeral(n: nat): (s: string)
    ensures |s| > 0 && All(Digit, s)
  {
    if n < 10 then [DigitChar(n)] else Numeral(n / 10) + [DigitChar(n % 10)]
  }

  function NumeralValue(s: string): nat
    requires All(Digit, s)
  {
    if s == "" then 0
    else NumeralValue(s[..|s| - 1]) * 10 + (s[|s| - 1] as int - '0' as int)
  }

  lemma {:induction false} NumeralRoundTrip(n: nat)
    ensures NumeralValue(Numeral(n)) == n
  {
    var s := Numeral(n);
    if n < 10 {
      assert s[..|s| - 1] == "";
    } else {
      NumeralRoundTrip(n / 10);
      assert s[..|s| - 1] == Numeral(n / 10);
    }
  }

  lemma NumeralInjective(m: nat, n: nat)
    requires Numeral(m) == Numeral(n)
    ensures m == n
  {
    NumeralRoundTrip(m);
    NumeralRoundTrip(n);
  }

  predicate IsI64(n: int) { -0x8000_0000_0000_0000 <= n < 0x8000_0000_0000_0000 }

  /** 64-bit signed integers, the range of `Term::Integer`. */
  type i64 = n: int | IsI64(n)

  function IntegerText(n: int): (s: string)
    ensures |s| > 0
  {
    if n < 0 then "-" + Numeral(-n) else Numeral(n)
  }

  /** Digits after an optional minus sign. */
  predicate IsIntegerText(s: string) {
    var digits := if Next(s, 0, '-') then s[1..] else s;
    digits != "" && All(Digit, digits)
  }

  function IntegerValue(s: string): (n: int)
    requires IsIntegerText(s)
  {
    if Next(s, 0, '-') then -(NumeralValue(s[1..]) as int) else NumeralValue(s)
  }

  lemma IntegerRoundTrip(n: int)
    ensures IsIntegerText(IntegerText(n)) && IntegerValue(IntegerText(n)) == n
  {
    if n < 0 {
      NumeralRoundTrip(-n);
      assert IntegerText(n)[1..] == Numeral(-n);
    } else {
      NumeralRoundTrip(n);
    }
  }
}
