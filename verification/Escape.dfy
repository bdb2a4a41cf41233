/**
 Escaping literals and identifiers for SQL text, and how a server's lexer reads them.
 */
module Escape {
  import opened Wrappers
  import opened Sequences

  const SINGLE: char := '\''
  const DOUBLE: char := '"'
  const BACKSLASH: char := '\\'

  // ---- Lexing, after PostgreSQL sections 4.1.1, 4.1.2.1 and 4.1.2.2 ----

  predicate IsSpace(c: char) {
    c == ' ' || c == '\t' || c == '\n' || c == '\r' || c == '\U{0b}' || c == '\U{0c}'
  }

  predicate IsNewline(c: char) {
    c == '\n' || c == '\r'
  }

  // How far white space goes.
  function Spaces(s: string): (n: nat)
    ensures n <= |s| && (n < |s| ==> !IsSpace(s[n])) && forall i :: 0 <= i < n ==> IsSpace(s[i])
  {
    if s == [] || !IsSpace(s[0]) then 0 else 1 + Spaces(s[1..])
  }

  /** A constant goes on after white space with a newline in it and another quote. */
  function Gap(rest: string): (r: Option<nat>)
    ensures r.Some? ==> 0 < r.value <= |rest|
  {
    var n := Spaces(rest);
    if n < |rest| && rest[n] == SINGLE && exists i :: 0 <= i < n && IsNewline(rest[i]) then Some(n + 1) else None
  }

  /** One backslash escape; the numeric ones are not part of this model. */
  function Unescaped(c: char): Option<char> {
    if c == 'b' then Some('\U{08}')
    else if c == 'f' then Some('\U{0c}')
    else if c == 'n' then Some('\n')
    else if c == 'r' then Some('\r')
    else if c == 't' then Some('\t')
    else if '0' <= c <= '7' || c == 'x' || c == 'u' || c == 'U' then None
    else Some(c)
  }

  function Prepend(c: char, r: Option<(string, string)>): Option<(string, string)> {
    match r case None => None case Some((v, rest)) => Some(([c] + v, rest))
  }

  /** What follows an opening quote: the value, and the text after the closing quote. */
  function LexBody(s: string, quote: char, escapes: bool): (r: Option<(string, string)>)
    ensures r.Some? ==> |r.value.1| < |s|
    decreases |s|
  {
    if s == [] then None
    else if s[0] == quote then
      if |s| > 1 && s[1] == quote then Prepend(quote, LexBody(s[2..], quote, escapes))
      else
        match if quote == SINGLE then Gap(s[1..]) else None
        case Some(n) => LexBody(s[1..][n..], quote, escapes)
        case None => Some(([], s[1..]))
    else if escapes && s[0] == BACKSLASH then
      if |s| < 2 then None
      else match Unescaped(s[1])
        case None => None
        case Some(c) => Prepend(c, LexBody(s[2..], quote, escapes))
    else Prepend(s[0], LexBody(s[1..], quote, escapes))
  }

  /** A string constant, under either setting of `standard_conforming_strings`. */
  function LexLiteral(s: string, conforming: bool): Option<(string, string)> {
    var t := s[Spaces(s)..];
    if |t| >= 2 && (t[0] == 'E' || t[0] == 'e') && t[1] == SINGLE then LexBody(t[2..], SINGLE, true)
    else if |t| >= 1 && t[0] == SINGLE then LexBody(t[1..], SINGLE, !conforming)
    else None
  }

  /** A delimited identifier; it must not be empty. */
  function LexIdentifier(s: string): Option<(string, string)> {
    var t := s[Spaces(s)..];
    if |t| >= 1 && t[0] == DOUBLE then
      match LexBody(t[1..], DOUBLE, false)
      case Some((v, rest)) => if v == [] then None else Some((v, rest))
      case None => None
    else None
  }

  // ---- Escaping ----

  /** Every quote, and every backslash if they count, twice. */
  function Doubled(s: string, quote: char, slashes: bool): string {
    if s == [] then [] else Doubled(s[..|s| - 1], quote, slashes) + Twice(s[|s| - 1], quote, slashes)
  }

  function Twice(c: char, quote: char, slashes: bool): string {
    if c == quote || (slashes && c == BACKSLASH) then [c, c] else [c]
  }

  function QuoteOf(asIdent: bool): char {
    if asIdent then DOUBLE else SINGLE
  }

  function Escaped(s: string, asIdent: bool): string {
    (if !asIdent && BACKSLASH in s then " E" else "") +
    [QuoteOf(asIdent)] + Doubled(s, QuoteOf(asIdent), !asIdent) + [QuoteOf(asIdent)]
  }

  function Count(s: string, c: char): nat {
    if s == [] then 0 else Count(s[..|s| - 1], c) + if s[|s| - 1] == c then 1 else 0
  }

  /** The UTF-8 length of a string. */
  function Width(c: char): nat {
    if c < '\U{80}' then 1 else if c < '\U{800}' then 2 else if c < '\U{10000}' then 3 else 4
  }

  function ByteLength(s: string): nat {
    if s == [] then 0 else ByteLength(s[..|s| - 1]) + Width(s[|s| - 1])
  }

  lemma Snoc(s: string, c: char, quote: char, slashes: bool)
    ensures ByteLength(s + [c]) == ByteLength(s) + Width(c)
    ensures Count(s + [c], quote) == Count(s, quote) + if c == quote then 1 else 0
    ensures Doubled(s + [c], quote, slashes)
         == Doubled(s, quote, slashes) + Twice(c, quote, slashes)
  {
    assert (s + [c])[..|s|] == s;
  }

  lemma {:induction false} CountNone(s: string, c: char)
    ensures Count(s, c) == 0 <==> c !in s
  {
    if s != [] {
      CountNone(s[..|s| - 1], c);
      assert s == s[..|s| - 1] + [s[|s| - 1]];
    }
  }

  /** The fast path: without anything to double, the text is copied as it is. */
  lemma {:induction false} NothingDoubled(s: string, quote: char, slashes: bool)
    requires quote !in s && (slashes ==> BACKSLASH !in s)
    ensures Doubled(s, quote, slashes) == s
  {
    if s != [] {
      NothingDoubled(s[..|s| - 1], quote, slashes);
      assert s == s[..|s| - 1] + [s[|s| - 1]];
    }
  }

  lemma {:induction false} ByteLengthConcat(a: string, b: string)
    ensures ByteLength(a + b) == ByteLength(a) + ByteLength(b)
    decreases |b|
  {
    if b == [] {
      assert a + b == a;
    } else {
      ByteLengthConcat(a, b[..|b| - 1]);
      assert (a + b)[..|a + b| - 1] == a + b[..|b| - 1];
    }
  }

  lemma TwiceLength(c: char, quote: char, slashes: bool)
    requires quote == SINGLE || quote == DOUBLE
    ensures ByteLength(Twice(c, quote, slashes))
         == Width(c) + (if c == quote then 1 else 0) + if slashes && c == BACKSLASH then 1 else 0
  {
    Snoc([], c, quote, slashes);
    Snoc([c], c, quote, slashes);
    assert [] + [c] == [c] && [c] + [c] == [c, c];
    NoBytes();
  }

  lemma NoBytes()
    ensures ByteLength([]) == 0
  {}

  // Each doubled character adds one byte.
  lemma {:induction false} DoubledLength(s: string, quote: char, slashes: bool)
    requires quote == SINGLE || quote == DOUBLE
    ensures ByteLength(Doubled(s, quote, slashes))
         == ByteLength(s) + Count(s, quote) + if slashes then Count(s, BACKSLASH) else 0
    decreases |s|
  {
    hide ByteLength, Doubled, Count, Twice;
    if s == [] {
      Empty(quote);
      NoBytes();
    } else {
      var most, c := s[..|s| - 1], s[|s| - 1];
      assert most + [c] == s;
      DoubledLength(most, quote, slashes);
      Snoc(most, c, quote, slashes);
      Snoc(most, c, BACKSLASH, slashes);
      TwiceLength(c, quote, slashes);
      ByteLengthConcat(Doubled(most, quote, slashes), Twice(c, quote, slashes));
    }
  }

  lemma EscapedLength(s: string, asIdent: bool)
    ensures ByteLength(Escaped(s, asIdent))
         == ByteLength(s) + Count(s, QuoteOf(asIdent)) + 2 +
            if !asIdent && BACKSLASH in s then Count(s, BACKSLASH) + 2 else 0
  {
    hide Doubled, Count;
    var q := QuoteOf(asIdent);
    var prefix := if !asIdent && BACKSLASH in s then " E" else "";
    DoubledLength(s, q, !asIdent);
    CountNone(s, BACKSLASH);
    ByteLengthConcat(prefix + [q] + Doubled(s, q, !asIdent), [q]);
    ByteLengthConcat(prefix + [q], Doubled(s, q, !asIdent));
    ByteLengthConcat(prefix, [q]);
    assert ByteLength(" E") == 2 && ByteLength("") == 0 && ByteLength([q]) == 1 by {
      assert " E"[..1] == " ";
      assert " "[..0] == "" && [q][..0] == "";
    }
  }

  /** `escape_internal`, and the size it reserves: the output and a final NUL. */
  method EscapeInternal(input: string, asIdent: bool) returns (output: string, resultSize: nat)
    ensures output == Escaped(input, asIdent)
    ensures ByteLength(output) == resultSize - 1
  {
    hide Doubled, Count, ByteLength;
    var numBackslashes, numQuotes := 0, 0;
    var quote := if asIdent then DOUBLE else SINGLE;
    Empty(quote);
    for i := 0 to |input|
      invariant numQuotes == Count(input[..i], quote) && numBackslashes == Count(input[..i], BACKSLASH)
    {
      Snoc(input[..i], input[i], quote, true);
      Snoc(input[..i], input[i], BACKSLASH, true);
      assert input[..i] + [input[i]] == input[..i + 1];
      if input[i] == quote {
        numQuotes := numQuotes + 1;
      } else if input[i] == BACKSLASH {
        numBackslashes := numBackslashes + 1;
      }
    }
    assert input[..|input|] == input;
    CountNone(input, quote);
    CountNone(input, BACKSLASH);
    resultSize := ByteLength(input) + numQuotes + 3;
    if !asIdent && numBackslashes > 0 {
      resultSize := resultSize + numBackslashes + 2;
    }
    output := [];
    if !asIdent && numBackslashes > 0 {
      output := output + [' '];
      output := output + ['E'];
    }
    output := output + [quote];
    ghost var opening := output;
    if numQuotes == 0 && (numBackslashes == 0 || asIdent) {
      NothingDoubled(input, quote, !asIdent);
      output := output + input;
    } else {
      for i := 0 to |input|
        invariant output == opening + Doubled(input[..i], quote, !asIdent)
      {
        Snoc(input[..i], input[i], quote, !asIdent);
        assert input[..i] + [input[i]] == input[..i + 1];
        if input[i] == quote || (!asIdent && input[i] == BACKSLASH) {
          output := output + [input[i]];
        }
        output := output + [input[i]];
      }
    }
    assert output == opening + Doubled(input, quote, !asIdent);
    output := output + [quote];
    assert ['E'] == "E" && [' '] + ['E'] == " E";
    EscapedLength(input, asIdent);
  }

  lemma Empty(quote: char)
    ensures Count([], quote) == 0 && Count([], BACKSLASH) == 0
    ensures Doubled([], quote, true) == [] && Doubled([], quote, false) == []
  {}

  // ---- Lexing undoes escaping ----

  lemma {:induction false} DoubledFront(c: char, s: string, quote: char, slashes: bool)
    ensures Doubled([c] + s, quote, slashes) == Twice(c, quote, slashes) + Doubled(s, quote, slashes)
    decreases |s|
  {
    hide Doubled, Twice, ByteLength, Count;
    Empty(quote);
    if s == [] {
      Snoc([], c, quote, slashes);
      assert [c] + s == [] + [c];
      assert [] + Twice(c, quote, slashes) == Twice(c, quote, slashes) + [];
    } else {
      var most, last := s[..|s| - 1], s[|s| - 1];
      DoubledFront(c, most, quote, slashes);
      Snoc([c] + most, last, quote, slashes);
      Snoc(most, last, quote, slashes);
      assert ([c] + most) + [last] == [c] + s && most + [last] == s;
      Assoc(Twice(c, quote, slashes), Doubled(most, quote, slashes), Twice(last, quote, slashes));
    }
  }

  /** Does text after a closing quote make the constant go on? */
  predicate GoesOn(tail: string, quote: char) {
    (tail != [] && tail[0] == quote) || (quote == SINGLE && Gap(tail).Some?)
  }

  lemma {:induction false} BodyBack(s: string, quote: char, slashes: bool, escapes: bool, tail: string)
    requires quote != BACKSLASH && (slashes == escapes || BACKSLASH !in s)
    ensures LexBody(Doubled(s, quote, slashes) + [quote] + tail, quote, escapes) == Some((s, tail)) <==>
      !GoesOn(tail, quote)
    decreases |s|
  {
    hide GoesOn, LexBody, Doubled, Prepend;
    if s == [] {
      EndBack(quote, escapes, tail);
      Empty(quote);
      assert [] + [quote] + tail == [quote] + tail;
    } else {
      var c, rest := s[0], Doubled(s[1..], quote, slashes) + [quote] + tail;
      assert [c] + s[1..] == s;
      BodyBack(s[1..], quote, slashes, escapes, tail);
      PrependBack(c, LexBody(rest, quote, escapes), s[1..], tail);
      OneMore(c, s[1..], quote, slashes, tail);
      if c == quote || (slashes && c == BACKSLASH) {
        TwoChars(c, rest, quote, escapes);
      } else {
        OneChar(c, rest, quote, escapes);
      }
    }
  }

  // One character more in front of a body.
  lemma OneMore(c: char, s: string, quote: char, slashes: bool, tail: string)
    ensures Doubled([c] + s, quote, slashes) + [quote] + tail
         == Twice(c, quote, slashes) + (Doubled(s, quote, slashes) + [quote] + tail)
  {
    hide Doubled, Twice;
    DoubledFront(c, s, quote, slashes);
    var d, e := Twice(c, quote, slashes), Doubled(s, quote, slashes);
    Assoc(d, e, [quote]);
    Assoc(d, e + [quote], tail);
  }

  lemma PrependBack(c: char, r: Option<(string, string)>, v: string, tail: string)
    ensures Prepend(c, r) == Some(([c] + v, tail)) <==> r == Some((v, tail))
  {
    if r.Some? && [c] + r.value.0 == [c] + v {
      assert ([c] + r.value.0)[1..] == r.value.0 && ([c] + v)[1..] == v;
    }
  }

  lemma TwoChars(c: char, rest: string, quote: char, escapes: bool)
    requires c == quote || (c == BACKSLASH && escapes)
    requires quote != BACKSLASH
    ensures LexBody([c, c] + rest, quote, escapes) == Prepend(c, LexBody(rest, quote, escapes))
  {
    assert ([c, c] + rest)[2..] == rest;
  }

  lemma OneChar(c: char, rest: string, quote: char, escapes: bool)
    requires c != quote && (c == BACKSLASH ==> !escapes)
    ensures LexBody([c] + rest, quote, escapes) == Prepend(c, LexBody(rest, quote, escapes))
  {
    assert ([c] + rest)[1..] == rest;
  }

  lemma EndBack(quote: char, escapes: bool, tail: string)
    ensures LexBody([quote] + tail, quote, escapes) == Some(([], tail)) <==> !GoesOn(tail, quote)
  {
    var s := [quote] + tail;
    assert s[1..] == tail;
    if tail != [] && tail[0] == quote {
      assert s[2..] == tail[1..];
    }
  }

  lemma {:induction false} SpacesNone(s: string)
    requires s != [] && !IsSpace(s[0])
    ensures Spaces(s) == 0 && s[Spaces(s)..] == s
  {}

  /**
   A literal lexes back to the input, under either setting, and stops at its final quote,
   exactly when the text after it does not make the constant go on.
   */
  lemma LiteralBack(input: string, conforming: bool, tail: string)
    ensures LexLiteral(Escaped(input, false) + tail, conforming) == Some((input, tail)) <==> !GoesOn(tail, SINGLE)
  {
    hide LexBody, Doubled, GoesOn, Spaces;
    var body := Doubled(input, SINGLE, true) + [SINGLE] + tail;
    if BACKSLASH in input {
      var t := "E" + [SINGLE] + body;
      assert Escaped(input, false) + tail == " " + t;
      SpacesNone(t);
      OneSpace(t);
      BodyBack(input, SINGLE, true, true, tail);
      assert t[2..] == body;
    } else {
      var t := [SINGLE] + body;
      assert Escaped(input, false) + tail == t;
      SpacesNone(t);
      BodyBack(input, SINGLE, true, !conforming, tail);
      assert t[1..] == body;
    }
  }

  lemma OneSpace(t: string)
    requires Spaces(t) == 0
    ensures (" " + t)[Spaces(" " + t)..] == t
  {
    assert (" " + t)[1..] == t;
  }

  /** An identifier lexes back exactly when it is not empty and no quote follows it. */
  lemma IdentifierBack(input: string, tail: string)
    ensures LexIdentifier(Escaped(input, true) + tail) == Some((input, tail)) <==> input != [] && !GoesOn(tail, DOUBLE)
  {
    hide LexBody, Doubled, GoesOn, Spaces;
    var body := Doubled(input, DOUBLE, false) + [DOUBLE] + tail;
    var t := [DOUBLE] + body;
    assert Escaped(input, true) + tail == t;
    SpacesNone(t);
    BodyBack(input, DOUBLE, false, false, tail);
    assert t[1..] == body;
  }
}
