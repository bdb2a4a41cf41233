/**
 The key-value form of connection strings: the parser, and the printing rule it undoes.
 */
module ConfigParser {
  import opened Wrappers
  import opened Sequences
  import opened Scanning

  /** Unicode white space. */
  predicate IsWhitespace(c: char) {
    '\t' <= c <= '\r' || c == ' ' || c == '\U{85}' || c == '\U{a0}' || c == '\U{1680}' ||
    '\U{2000}' <= c <= '\U{200a}' ||
    c == '\U{2028}' || c == '\U{2029}' || c == '\U{202f}' || c == '\U{205f}' || c == '\U{3000}'
  }

  predicate IsKeyword(c: char) {
    !IsWhitespace(c) && c != '='
  }

  const QUOTE: char := '\''
  const ESCAPE: char := '\\'

  datatype Error = UnexpectedEof | UnexpectedCharacter | Unterminated | Rejected

  /** One parameter of a connection string. */
  datatype Pair = Pair(key: string, value: string)

  function Prepend(c: char, r: (string, string)): (string, string) {
    ([c] + r.0, r.1)
  }

  /**
   The characters up to the first unescaped one that `stops`, with each backslash giving way
   to the character after it, and the text from there on.
   */
  function Unescape(stops: char -> bool, s: string): (r: (string, string))
    ensures |r.1| <= |s| && (r.1 != [] ==> stops(r.1[0])) && (r.0 != [] ==> |r.1| < |s|)
    decreases |s|
  {
    if s == [] || stops(s[0]) then ([], s)
    else if s[0] != ESCAPE then Prepend(s[0], Unescape(stops, s[1..]))
    else if |s| == 1 then ([], [])
    else Prepend(s[1], Unescape(stops, s[2..]))
  }

  predicate IsQuote(c: char) {
    c == QUOTE
  }

  function ReadValue(s: string): (r: Result<(string, string), Error>)
    ensures r.Ok? ==> |r.value.1| < |s|
  {
    match Eaten(s, QUOTE)
    case None =>
      var (value, rest) := Unescape(IsWhitespace, s);
      if value == [] then Err(UnexpectedEof) else Ok((value, rest))
    case Some(t) =>
      var (value, rest) := Unescape(IsQuote, t);
      if rest == [] then Err(Unterminated) else Ok((value, rest[1..]))
  }

  /** The next parameter and the text after it. Anything without a key ends the string. */
  function ReadParameter(s: string): (r: Result<Option<(Pair, string)>, Error>)
    ensures r.Ok? && r.value.Some? ==> |r.value.value.1| < |s|
  {
    var s1 := Dropped(IsWhitespace, s);
    var key := Taken(IsKeyword, s1);
    if key == [] then Ok(None)
    else
      var s2 := Dropped(IsWhitespace, Dropped(IsKeyword, s1));
      match Eaten(s2, '=')
      case None => Err(if s2 == [] then UnexpectedEof else UnexpectedCharacter)
      case Some(s3) =>
        match ReadValue(Dropped(IsWhitespace, s3))
        case Err(e) => Err(e)
        case Ok((value, rest)) => Ok(Some((Pair(key, value), rest)))
  }

  /** Reading up to the first error, of the text or of what `Config` accepts. */
  function ReadAll(s: string, accepts: Pair -> bool): Result<seq<Pair>, Error>
    decreases |s|
  {
    match ReadParameter(s)
    case Err(e) => Err(e)
    case Ok(None) => Ok([])
    case Ok(Some((pair, rest))) => if accepts(pair) then After([pair], ReadAll(rest, accepts)) else Err(Rejected)
  }

  // ---- The parser itself ----

  // `simple_value` and the loop of `quoted_value`.
  method TakeUnescaped(it: Scanner, stops: char -> bool) returns (value: string)
    modifies it
    ensures (value, it.rest) == Unescape(stops, old(it.rest))
  {
    value := [];
    PutNothing(Unescape(stops, it.rest));
    while it.rest != [] && !stops(it.rest[0])
      invariant Put(value, Unescape(stops, it.rest)) == Unescape(stops, old(it.rest))
      decreases |it.rest|
    {
      var c := it.rest[0];
      ghost var s := it.rest;
      it.rest := it.rest[1..];
      if c == ESCAPE {
        if it.rest != [] {
          PutOne(value, it.rest[0], Unescape(stops, s[2..]));
          value := value + [it.rest[0]];
          it.rest := it.rest[1..];
          assert it.rest == s[2..];
        }
      } else {
        PutOne(value, c, Unescape(stops, it.rest));
        value := value + [c];
      }
    }
    assert value + [] == value;
  }

  function Put(done: string, r: (string, string)): (string, string) {
    (done + r.0, r.1)
  }

  lemma PutNothing(r: (string, string))
    ensures Put([], r) == r
  {
    assert [] + r.0 == r.0;
  }

  lemma PutOne(done: string, c: char, r: (string, string))
    ensures Put(done, Prepend(c, r)) == Put(done + [c], r)
  {
    assert done + ([c] + r.0) == (done + [c]) + r.0;
  }

  method TakeValue(it: Scanner) returns (r: Result<string, Error>)
    modifies it
    ensures r == (match ReadValue(old(it.rest)) case Err(e) => Err(e) case Ok((value, _)) => Ok(value))
    ensures r.Ok? ==> it.rest == ReadValue(old(it.rest)).value.1
  {
    var quoted := it.EatIf(QUOTE);
    if quoted {
      var value := TakeUnescaped(it, IsQuote);
      if it.rest == [] {
        return Err(Unterminated);
      }
      var closed := it.Eat(QUOTE);
      return Ok(value);
    }
    var value := TakeUnescaped(it, IsWhitespace);
    return if value == [] then Err(UnexpectedEof) else Ok(value);
  }

  method Parameter(it: Scanner) returns (r: Result<Option<Pair>, Error>)
    modifies it
    ensures r == (match ReadParameter(old(it.rest))
                  case Err(e) => Err(e)
                  case Ok(None) => Ok(None)
                  case Ok(Some((p, _))) => Ok(Some(p)))
    ensures r.Ok? && r.value.Some? ==> it.rest == ReadParameter(old(it.rest)).value.value.1
  {
    hide Taken, Dropped, ReadValue;
    var skipped := it.TakeWhile(IsWhitespace);
    var key := it.TakeWhile(IsKeyword);
    if key == [] {
      return Ok(None);
    }
    skipped := it.TakeWhile(IsWhitespace);
    var empty := it.rest == [];
    var ok := it.Eat('=');
    if !ok {
      return Err(if empty then UnexpectedEof else UnexpectedCharacter);
    }
    skipped := it.TakeWhile(IsWhitespace);
    var value := TakeValue(it);
    return match value case Err(e) => Err(e) case Ok(v) => Ok(Some(Pair(key, v)));
  }

  /** `parse`: every turn of the loop consumes text, so it ends. */
  method Parse(s: string, accepts: Pair -> bool) returns (r: Result<seq<Pair>, Error>)
    ensures r == ReadAll(s, accepts)
  {
    hide ReadParameter;
    var it := new Scanner(s);
    var pairs: seq<Pair> := [];
    AfterNothing(ReadAll(s, accepts));
    while true
      invariant fresh(it) && ReadAll(s, accepts) == After(pairs, ReadAll(it.rest, accepts))
      decreases |it.rest|
    {
      var p := Parameter(it);
      match p {
        case Err(e) => return Err(e);
        case Ok(None) =>
          assert pairs + [] == pairs;
          return Ok(pairs);
        case Ok(Some(pair)) =>
          if !accepts(pair) {
            return Err(Rejected);
          }
          AfterBoth(pairs, [pair], ReadAll(it.rest, accepts));
          pairs := pairs + [pair];
      }
    }
  }

  // ---- Printing ----

  /** Does a character of a value need a backslash, in the quoted or the bare form? */
  predicate NeedsEscape(quoted: bool, c: char) {
    c == ESCAPE || c == QUOTE || (!quoted && IsWhitespace(c))
  }

  function Escaped(quoted: bool, value: string): string {
    if value == [] then []
    else (if NeedsEscape(quoted, value[0]) then [ESCAPE, value[0]] else [value[0]]) + Escaped(quoted, value[1..])
  }

  /** A parameter as it may be written: white space anywhere around its parts, the value quoted or bare. */
  datatype Piece = Piece(before: string, pair: Pair, beforeEquals: string, afterEquals: string, quoted: bool)

  predicate Printable(p: Piece) {
    && All(IsWhitespace, p.before) && All(IsWhitespace, p.beforeEquals) && All(IsWhitespace, p.afterEquals)
    && p.pair.key != [] && All(IsKeyword, p.pair.key)
    && (p.pair.value == [] ==> p.quoted)
  }

  function PrintValue(p: Piece): string {
    if p.quoted then [QUOTE] + Escaped(true, p.pair.value) + [QUOTE] else Escaped(false, p.pair.value)
  }

  function Print(p: Piece): string {
    p.before + p.pair.key + p.beforeEquals + "=" + p.afterEquals + PrintValue(p)
  }

  function PrintAll(ps: seq<Piece>, end: string): string {
    if ps == [] then end else Print(ps[0]) + PrintAll(ps[1..], end)
  }

  /** A bare value must be followed by white space before the next parameter. */
  predicate Separated(ps: seq<Piece>) {
    forall i :: 0 < i < |ps| && !ps[i - 1].quoted ==> ps[i].before != []
  }

  predicate AllPrintable(ps: seq<Piece>) {
    forall i :: 0 <= i < |ps| ==> Printable(ps[i])
  }

  function Pairs(ps: seq<Piece>): seq<Pair> {
    seq(|ps|, i requires 0 <= i < |ps| => ps[i].pair)
  }

  // ---- Parsing undoes printing ----

  // Where the reader stops, and everything it would change, is escaped.
  ghost predicate Escapes(quoted: bool, stops: char -> bool) {
    !stops(ESCAPE) && forall c :: stops(c) || c == ESCAPE ==> NeedsEscape(quoted, c)
  }

  // One character, escaped or not, comes out and the rest is read on.
  lemma UnescapeOne(stops: char -> bool, escaped: bool, c: char, more: string)
    requires if escaped then !stops(ESCAPE) else !stops(c) && c != ESCAPE
    ensures Unescape(stops, (if escaped then [ESCAPE, c] else [c]) + more) == Prepend(c, Unescape(stops, more))
  {
    if escaped {
      assert ([ESCAPE, c] + more)[2..] == more;
    } else {
      assert ([c] + more)[1..] == more;
    }
  }

  lemma {:induction false} UnescapeBack(quoted: bool, stops: char -> bool, value: string, rest: string)
    requires Escapes(quoted, stops) && (rest == [] || stops(rest[0]))
    ensures Unescape(stops, Escaped(quoted, value) + rest) == (value, rest)
    decreases |value|
  {
    hide NeedsEscape;
    if value == [] {
      assert Escaped(quoted, value) + rest == rest;
    } else {
      hide Unescape;
      var c, more := value[0], Escaped(quoted, value[1..]);
      UnescapeBack(quoted, stops, value[1..], rest);
      UnescapeOne(stops, NeedsEscape(quoted, c), c, more + rest);
      Assoc(if NeedsEscape(quoted, c) then [ESCAPE, c] else [c], more, rest);
      assert [c] + value[1..] == value;
    }
  }

  lemma ValueBack(p: Piece, rest: string)
    requires Printable(p) && (!p.quoted && rest != [] ==> IsWhitespace(rest[0]))
    ensures ReadValue(PrintValue(p) + rest) == Ok((p.pair.value, rest))
    ensures PrintValue(p) != [] && !IsWhitespace(PrintValue(p)[0])
  {
    hide Unescape;
    var value := p.pair.value;
    if p.quoted {
      var t := Escaped(true, value) + ([QUOTE] + rest);
      assert PrintValue(p) + rest == [QUOTE] + t && ([QUOTE] + t)[1..] == t;
      UnescapeBack(true, IsQuote, value, [QUOTE] + rest);
      assert ([QUOTE] + rest)[1..] == rest;
    } else {
      UnescapeBack(false, IsWhitespace, value, rest);
      assert PrintValue(p)[0] == if NeedsEscape(false, value[0]) then ESCAPE else value[0];
    }
  }

  lemma Regrouped(p: Piece, rest: string)
    ensures Print(p) + rest
         == p.before + (p.pair.key + (p.beforeEquals + ("=" + (p.afterEquals + (PrintValue(p) + rest)))))
  {
    hide PrintValue;
    Regroup(p.before, p.pair.key, p.beforeEquals, "=", p.afterEquals, PrintValue(p) + rest);
    assert Print(p) + rest == p.before + p.pair.key + p.beforeEquals + "=" + p.afterEquals + (PrintValue(p) + rest);
  }

  lemma ParameterBack(p: Piece, rest: string)
    requires Printable(p) && (!p.quoted && rest != [] ==> IsWhitespace(rest[0]))
    ensures ReadParameter(Print(p) + rest) == Ok(Some((p.pair, rest)))
  {
    hide Taken, Dropped, Print, PrintValue, ReadValue, IsWhitespace;
    ValueBack(p, rest);
    Regrouped(p, rest);
    var s5 := PrintValue(p) + rest;
    var s4 := p.afterEquals + s5;
    var s3 := "=" + s4;
    var s2 := p.beforeEquals + s3;
    var s1 := p.pair.key + s2;
    assert !IsWhitespace('=') by {
      NotWhitespace();
    }
    assert s1[0] == p.pair.key[0] && s3[0] == '=' && s3[1..] == s4;
    TakenRun(IsWhitespace, p.before, s1);
    assert s2[0] == if p.beforeEquals == [] then '=' else p.beforeEquals[0];
    TakenRun(IsKeyword, p.pair.key, s2);
    TakenRun(IsWhitespace, p.beforeEquals, s3);
    TakenRun(IsWhitespace, p.afterEquals, s5);
  }

  /** A parameter as far as its value: key, equals sign and the white space around it. */
  function Opening(before: string, key: string, beforeEquals: string, afterEquals: string): string {
    before + (key + (beforeEquals + ("=" + afterEquals)))
  }

  lemma ValueFollows(before: string, key: string, beforeEquals: string, afterEquals: string, s: string)
    requires All(IsWhitespace, before) && All(IsWhitespace, beforeEquals) && All(IsWhitespace, afterEquals)
    requires key != [] && All(IsKeyword, key) && (s == [] || !IsWhitespace(s[0]))
    ensures ReadParameter(Opening(before, key, beforeEquals, afterEquals) + s)
         == match ReadValue(s) case Err(e) => Err(e) case Ok((v, rest)) => Ok(Some((Pair(key, v), rest)))
  {
    hide Taken, Dropped, ReadValue, IsWhitespace;
    NotWhitespace();
    var s4 := afterEquals + s;
    var s3 := "=" + s4;
    var s2 := beforeEquals + s3;
    var s1 := key + s2;
    assert Opening(before, key, beforeEquals, afterEquals) + s == before + s1;
    assert s1[0] == key[0] && s3[0] == '=' && s3[1..] == s4;
    TakenRun(IsWhitespace, before, s1);
    assert s2[0] == if beforeEquals == [] then '=' else beforeEquals[0];
    TakenRun(IsKeyword, key, s2);
    TakenRun(IsWhitespace, beforeEquals, s3);
    TakenRun(IsWhitespace, afterEquals, s);
  }

  /** What is not a parameter is refused: no value, a quoted value that does not end, no equals sign. */
  lemma Malformed(before: string, key: string, beforeEquals: string, afterEquals: string, value: string, other: char)
    requires All(IsWhitespace, before) && All(IsWhitespace, beforeEquals) && All(IsWhitespace, afterEquals)
    requires key != [] && All(IsKeyword, key)
    ensures ReadParameter(Opening(before, key, beforeEquals, afterEquals)) == Err(UnexpectedEof)
    ensures ReadParameter(Opening(before, key, beforeEquals, afterEquals) + ([QUOTE] + Escaped(true, value)))
         == Err(Unterminated)
    ensures ReadParameter(before + (key + beforeEquals)) == Err(UnexpectedEof)
    ensures beforeEquals != [] && IsKeyword(other) ==>
      ReadParameter(before + (key + (beforeEquals + [other] + value))) == Err(UnexpectedCharacter)
  {
    hide Unescape, Taken, Dropped;
    var opening := Opening(before, key, beforeEquals, afterEquals);
    ValueFollows(before, key, beforeEquals, afterEquals, []);
    assert opening + [] == opening;
    NoValue();
    var quoted := [QUOTE] + Escaped(true, value);
    ValueFollows(before, key, beforeEquals, afterEquals, quoted);
    UnescapeBack(true, IsQuote, value, []);
    assert Escaped(true, value) + [] == Escaped(true, value) && quoted[1..] == Escaped(true, value);
    TakenRun(IsWhitespace, before, key + beforeEquals);
    TakenRun(IsKeyword, key, beforeEquals);
    TakenRun(IsWhitespace, beforeEquals, []);
    assert beforeEquals + [] == beforeEquals;
    if beforeEquals != [] && IsKeyword(other) {
      var rest := [other] + value;
      assert beforeEquals + [other] + value == beforeEquals + rest;
      TakenRun(IsWhitespace, before, key + (beforeEquals + rest));
      TakenRun(IsKeyword, key, beforeEquals + rest);
      TakenRun(IsWhitespace, beforeEquals, rest);
    }
  }

  lemma NoValue()
    ensures ReadValue([]) == Err(UnexpectedEof)
  {}

  lemma NotWhitespace()
    ensures !IsWhitespace('=')
  {}

  /**
   Every list of pairs, printed with any white space, each value quoted or bare, is parsed
   back as exactly that list if each pair is accepted, and rejected if one is not.
   */
  lemma {:induction false} ParseBack(ps: seq<Piece>, end: string, accepts: Pair -> bool)
    requires AllPrintable(ps) && Separated(ps) && All(IsWhitespace, end)
    ensures ReadAll(PrintAll(ps, end), accepts)
         == if forall i :: 0 <= i < |ps| ==> accepts(ps[i].pair) then Ok(Pairs(ps)) else Err(Rejected)
    decreases |ps|
  {
    hide Printable, Print, IsWhitespace, ReadParameter;
    if ps == [] {
      NothingLeft(end);
    } else {
      var rest := PrintAll(ps[1..], end);
      ParseBack(ps[1..], end, accepts);
      StartsWithSpace(ps, end);
      ParameterBack(ps[0], rest);
      assert [ps[0].pair] + Pairs(ps[1..]) == Pairs(ps);
      assert ps == [ps[0]] + ps[1..];
    }
  }

  lemma NothingLeft(end: string)
    requires All(IsWhitespace, end)
    ensures ReadParameter(end) == Ok(None)
  {
    TakenRun(IsWhitespace, end, []);
    assert end + [] == end;
  }

  lemma StartsWithSpace(ps: seq<Piece>, end: string)
    requires ps != [] && AllPrintable(ps) && Separated(ps) && All(IsWhitespace, end)
    ensures var rest := PrintAll(ps[1..], end); !ps[0].quoted && rest != [] ==> IsWhitespace(rest[0])
  {
    hide IsWhitespace, PrintValue;
    if !ps[0].quoted && |ps| > 1 {
      assert Printable(ps[1]) && ps[1].before != [];
      assert Print(ps[1])[0] == ps[1].before[0];
    }
  }

  /**
   A string ends quietly wherever a key should start and does not: at its end, but also at a
   stray equals sign, and then everything after it is ignored.
   */
  lemma EndsQuietly(s: string)
    ensures ReadParameter(s) == Ok(None) <==> (var t := Dropped(IsWhitespace, s); t == [] || t[0] == '=')
  {
    var t := Dropped(IsWhitespace, s);
    if t != [] && t[0] != '=' {
      assert Leading(IsKeyword, t) > 0;
    }
  }
}
