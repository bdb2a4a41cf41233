/**
 SCRAM-SHA-256: the client's side as the library runs it, a server that follows RFC 5802,
 and the run of one against the other.
 */
module Scram {
  import opened Bytes
  import opened Wrappers
  import opened Sequences
  import opened Decimals
  import opened Scanning

  /** The primitives, as functions. */
  datatype Crypto = Crypto(
    hmac: (seq<byte>, seq<byte>) -> seq<byte>,
    hash: seq<byte> -> seq<byte>,
    encode64: seq<byte> -> string,
    decode64: string -> Option<seq<byte>>,
    normalize: seq<byte> -> seq<byte>,
    utf8: string -> seq<byte>)

  const DIGEST: nat := 32

  predicate IsBase64(ch: char) {
    'a' <= ch <= 'z' || 'A' <= ch <= 'Z' || '0' <= ch <= '9' || ch == '/' || ch == '+' || ch == '='
  }

  predicate IsPrintable(ch: char) {
    '\U{21}' <= ch <= '\U{2b}' || '\U{2d}' <= ch <= '\U{7e}'
  }

  predicate IsDigit(ch: char) {
    '0' <= ch <= '9'
  }

  /** Digests have their length, and base64 decodes what it encodes, within its alphabet. */
  ghost predicate Lawful(c: Crypto) {
    && (forall k, m :: |c.hmac(k, m)| == DIGEST)
    && (forall m :: |c.hash(m)| == DIGEST)
    && (forall b :: c.decode64(c.encode64(b)) == Some(b))
    && (forall b :: All(IsBase64, c.encode64(b)))
  }

  // ---- Exclusive or ----

  function Power2(n: nat): nat {
    if n == 0 then 1 else 2 * Power2(n - 1)
  }

  // Bit by bit, from the lowest of `n` bits.
  function XorBits(a: nat, b: nat, n: nat): (r: nat)
    ensures r < Power2(n)
  {
    if n == 0 then 0 else (if a % 2 == b % 2 then 0 else 1) + 2 * XorBits(a / 2, b / 2, n - 1)
  }

  function XorByte(a: byte, b: byte): byte {
    assert Power2(8) == 0x100;
    XorBits(a as nat, b as nat, 8) as byte
  }

  function Xor(a: seq<byte>, b: seq<byte>): (r: seq<byte>)
    requires |a| == |b|
    ensures |r| == |a|
  {
    seq(|a|, i requires 0 <= i < |a| && |a| == |b| => XorByte(a[i], b[i]))
  }

  lemma LowBit(bit: nat, rest: nat)
    requires bit < 2
    ensures (bit + 2 * rest) % 2 == bit && (bit + 2 * rest) / 2 == rest
  {}

  lemma {:induction false} XorBitsBack(a: nat, b: nat, n: nat)
    requires a < Power2(n)
    ensures XorBits(XorBits(a, b, n), b, n) == a
    decreases n
  {
    if n > 0 {
      var bit := if a % 2 == b % 2 then 0 else 1;
      var rest := XorBits(a / 2, b / 2, n - 1);
      assert XorBits(a, b, n) == bit + 2 * rest;
      LowBit(bit, rest);
      XorBitsBack(a / 2, b / 2, n - 1);
      XorTop(bit + 2 * rest, b, n);
    }
  }

  lemma XorTop(a: nat, b: nat, n: nat)
    requires n > 0
    ensures XorBits(a, b, n) == (if a % 2 == b % 2 then 0 else 1) + 2 * XorBits(a / 2, b / 2, n - 1)
  {}

  lemma XorByteBack(a: byte, b: byte)
    ensures XorByte(XorByte(a, b), b) == a
  {
    assert Power2(8) == 0x100;
    XorBitsBack(a as nat, b as nat, 8);
  }

  lemma XorBack(a: seq<byte>, b: seq<byte>)
    requires |a| == |b|
    ensures Xor(Xor(a, b), b) == a
  {
    hide XorByte;
    forall i | 0 <= i < |a|
      ensures Xor(Xor(a, b), b)[i] == a[i]
    {
      XorByteBack(a[i], b[i]);
    }
  }

  method XorInto(a: array<byte>, b: seq<byte>)
    requires a.Length == |b|
    modifies a
    ensures a[..] == Xor(old(a[..]), b)
  {
    hide XorByte;
    for i := 0 to a.Length
      invariant forall k :: 0 <= k < i ==> a[k] == XorByte(old(a[k]), b[k])
      invariant forall k :: i <= k < a.Length ==> a[k] == old(a[k])
    {
      a[i] := XorByte(a[i], b[i]);
    }
  }

  // ---- The key derivation ----

  const INT_1: seq<byte> := [0, 0, 0, 1]

  /** U1, U2, ... of RFC 5802, section 2.2. */
  function U(c: Crypto, str: seq<byte>, salt: seq<byte>, k: nat): seq<byte>
    requires k >= 1
  {
    if k == 1 then c.hmac(str, salt + INT_1) else c.hmac(str, U(c, str, salt, k - 1))
  }

  /** Hi of the same section: the exclusive or of U1 up to Ui. */
  ghost function Hi(c: Crypto, str: seq<byte>, salt: seq<byte>, i: nat): (r: seq<byte>)
    requires Lawful(c) && i >= 1
    ensures |r| == DIGEST
  {
    assert forall k :: k >= 1 ==> |U(c, str, salt, k)| == DIGEST;
    if i == 1 then U(c, str, salt, 1) else Xor(Hi(c, str, salt, i - 1), U(c, str, salt, i))
  }

  /** The loop computes Hi; it runs once even for an iteration count of zero. */
  method ComputeHi(c: Crypto, str: seq<byte>, salt: seq<byte>, i: u32) returns (r: seq<byte>)
    requires Lawful(c)
    ensures r == Hi(c, str, salt, if i == 0 then 1 else i)
  {
    hide Xor;
    var prev := c.hmac(str, salt + INT_1);
    var hi := new byte[DIGEST](k requires 0 <= k < DIGEST => prev[k]);
    assert hi[..] == prev;
    for j := 1 to if i == 0 then 1 else i
      invariant prev == U(c, str, salt, j) && hi[..] == Hi(c, str, salt, j) && fresh(hi)
    {
      prev := c.hmac(str, prev);
      XorInto(hi, prev);
    }
    return hi[..];
  }

  // ---- The parser of the server's messages ----

  /** A field `tag=` and the longest run of allowed characters, and what follows it. */
  function ReadField(s: string, tag: char, f: char -> bool): Option<(string, string)> {
    match Eaten(s, tag)
    case None => None
    case Some(s1) =>
      match Eaten(s1, '=')
      case None => None
      case Some(s2) => Some((Taken(f, s2), Dropped(f, s2)))
  }

  function ParseCount(digits: string): Option<u32> {
    if digits == [] || Value(digits) > U32_MAX then None else Some(Value(digits))
  }

  datatype ServerFirst = ServerFirst(nonce: string, salt: string, iterations: u32)

  function ReadServerFirst(s: string): Option<ServerFirst> {
    match ReadField(s, 'r', IsPrintable)
    case None => None
    case Some((nonce, s1)) =>
      match Eaten(s1, ',')
      case None => None
      case Some(s2) =>
        match ReadField(s2, 's', IsBase64)
        case None => None
        case Some((salt, s3)) =>
          match Eaten(s3, ',')
          case None => None
          case Some(s4) =>
            match ReadField(s4, 'i', IsDigit)
            case None => None
            case Some((digits, s5)) =>
              match ParseCount(digits)
              case None => None
              case Some(n) => if s5 == [] then Some(ServerFirst(nonce, salt, n)) else None
  }

  datatype ServerFinal = ServerError(text: string) | Verifier(signature: string)

  // The characters that the library lets through in an error text.
  predicate IsValue(ch: char) {
    ch == '\0' || ch == '=' || ch == ','
  }

  function ReadServerFinal(s: string): Option<ServerFinal> {
    var failed := s != [] && s[0] == 'e';
    match if failed then ReadField(s, 'e', IsValue) else ReadField(s, 'v', IsBase64)
    case None => None
    case Some((text, rest)) =>
      if rest != [] then None else Some(if failed then ServerError(text) else Verifier(text))
  }

  method Field(it: Scanner, tag: char, f: char -> bool) returns (r: Option<string>)
    modifies it
    ensures r.Some? <==> ReadField(old(it.rest), tag, f).Some?
    ensures r.Some? ==> ReadField(old(it.rest), tag, f) == Some((r.value, it.rest))
  {
    var ok := it.Eat(tag);
    if !ok {
      return None;
    }
    ok := it.Eat('=');
    if !ok {
      return None;
    }
    var taken := it.TakeWhile(f);
    return Some(taken);
  }

  method ServerFirstMessage(it: Scanner) returns (r: Option<ServerFirst>)
    modifies it
    ensures r == ReadServerFirst(old(it.rest))
  {
    hide ReadField;
    var nonce := Field(it, 'r', IsPrintable);
    if nonce.None? {
      return None;
    }
    var ok := it.Eat(',');
    if !ok {
      return None;
    }
    var salt := Field(it, 's', IsBase64);
    if salt.None? {
      return None;
    }
    ok := it.Eat(',');
    if !ok {
      return None;
    }
    var digits := Field(it, 'i', IsDigit);
    if digits.None? {
      return None;
    }
    var count := ParseCount(digits.value);
    if count.None? || it.rest != [] {
      return None;
    }
    return Some(ServerFirst(nonce.value, salt.value, count.value));
  }

  method ServerFinalMessage(it: Scanner) returns (r: Option<ServerFinal>)
    modifies it
    ensures r == ReadServerFinal(old(it.rest))
  {
    hide ReadField;
    var failed := it.rest != [] && it.rest[0] == 'e';
    var text;
    if failed {
      text := Field(it, 'e', IsValue);
    } else {
      text := Field(it, 'v', IsBase64);
    }
    if text.None? || it.rest != [] {
      return None;
    }
    return Some(if failed then ServerError(text.value) else Verifier(text.value));
  }

  // ---- The client ----

  datatype ChannelBinding = Unrequested | Unsupported | TlsServerEndPoint(signature: seq<byte>)

  function Gs2Header(b: ChannelBinding): string {
    match b
    case Unrequested => "y,,"
    case Unsupported => "n,,"
    case TlsServerEndPoint(_) => "p=tls-server-end-point,,"
  }

  function CbindInput(c: Crypto, b: ChannelBinding): seq<byte> {
    c.utf8(Gs2Header(b)) + match b case TlsServerEndPoint(signature) => signature case _ => []
  }

  datatype State =
    | Updating(nonce: string, password: seq<byte>, binding: ChannelBinding)
    | Finishing(saltedPassword: seq<byte>, authMessage: string)
    | Done

  datatype Error = InvalidState | Malformed | InvalidNonce | InvalidBase64 | ServerFailed | VerificationFailed

  const CLIENT_KEY: string := "Client Key"
  const SERVER_KEY: string := "Server Key"

  ghost function ClientKey(c: Crypto, salted: seq<byte>): seq<byte> {
    c.hmac(salted, c.utf8(CLIENT_KEY))
  }

  ghost function ServerSignature(c: Crypto, salted: seq<byte>, authMessage: string): seq<byte> {
    c.hmac(c.hmac(salted, c.utf8(SERVER_KEY)), c.utf8(authMessage))
  }

  function WithoutProof(c: Crypto, binding: ChannelBinding, nonce: string): string {
    "c=" + c.encode64(CbindInput(c, binding)) + ",r=" + nonce
  }

  function AuthMessage(clientNonce: string, serverFirst: string, withoutProof: string): string {
    "n=,r=" + clientNonce + "," + serverFirst + "," + withoutProof
  }

  ghost function Proof(c: Crypto, salted: seq<byte>, authMessage: string): seq<byte>
    requires Lawful(c)
  {
    var key := ClientKey(c, salted);
    Xor(key, c.hmac(c.hash(key), c.utf8(authMessage)))
  }

  function Iterations(n: u32): nat {
    if n == 0 then 1 else n
  }

  /** What `update` makes of the message in the first state, or why it fails. */
  ghost function Answered(c: Crypto, s: State, message: string): Result<(string, State), Error>
    requires Lawful(c) && s.Updating?
  {
    match ReadServerFirst(message)
    case None => Err(Malformed)
    case Some(first) =>
      if !(s.nonce <= first.nonce) then Err(InvalidNonce)
      else match c.decode64(first.salt)
        case None => Err(InvalidBase64)
        case Some(salt) =>
          var salted := Hi(c, s.password, salt, Iterations(first.iterations));
          var without := WithoutProof(c, s.binding, first.nonce);
          var auth := AuthMessage(s.nonce, message, without);
          Ok((without + ",p=" + c.encode64(Proof(c, salted, auth)), Finishing(salted, auth)))
  }

  /** Whether `finish` accepts the message in the second state. */
  ghost function Verified(c: Crypto, s: State, message: string): Result<(), Error>
    requires s.Finishing?
  {
    match ReadServerFinal(message)
    case None => Err(Malformed)
    case Some(ServerError(_)) => Err(ServerFailed)
    case Some(Verifier(v)) =>
      match c.decode64(v)
      case None => Err(InvalidBase64)
      case Some(signature) =>
        if signature == ServerSignature(c, s.saltedPassword, s.authMessage) then Ok(()) else Err(VerificationFailed)
  }

  class ScramSha256 {
    const crypto: Crypto
    var message: string
    var state: State

    constructor (crypto: Crypto, password: seq<byte>, binding: ChannelBinding, nonce: string)
      ensures this.crypto == crypto && message == Gs2Header(binding) + "n=,r=" + nonce
      ensures state == Updating(nonce, crypto.normalize(password), binding)
    {
      this.crypto := crypto;
      message := Gs2Header(binding) + "n=,r=" + nonce;
      state := Updating(nonce, crypto.normalize(password), binding);
    }

    /** Whatever happens, an update uses the first state up. */
    method Update(serverFirst: string) returns (r: Result<(), Error>)
      requires Lawful(crypto)
      modifies this
      ensures !old(state).Updating? ==> r == Err(InvalidState) && state == Done
      ensures old(state).Updating? && Answered(crypto, old(state), serverFirst).Err? ==>
        r == Err(Answered(crypto, old(state), serverFirst).error) && state == Done
      ensures old(state).Updating? && Answered(crypto, old(state), serverFirst).Ok? ==>
        r == Ok(()) && (message, state) == Answered(crypto, old(state), serverFirst).value
    {
      hide ReadServerFirst, Hi, Xor;
      var c := crypto;
      var before := state;
      state := Done;
      if !before.Updating? {
        return Err(InvalidState);
      }
      var it := new Scanner(serverFirst);
      var parsed := ServerFirstMessage(it);
      if parsed.None? {
        return Err(Malformed);
      }
      var first := parsed.value;
      if !(before.nonce <= first.nonce) {
        return Err(InvalidNonce);
      }
      var salt := c.decode64(first.salt);
      if salt.None? {
        return Err(InvalidBase64);
      }
      var salted := ComputeHi(c, before.password, salt.value, first.iterations);
      var clientKey := c.hmac(salted, c.utf8(CLIENT_KEY));
      var storedKey := c.hash(clientKey);
      message := "c=" + c.encode64(CbindInput(c, before.binding)) + ",r=" + first.nonce;
      var authMessage := "n=,r=" + before.nonce + "," + serverFirst + "," + message;
      var clientSignature := c.hmac(storedKey, c.utf8(authMessage));
      var proof := new byte[DIGEST](k requires 0 <= k < DIGEST => clientKey[k]);
      assert proof[..] == clientKey;
      XorInto(proof, clientSignature);
      message := message + ",p=" + c.encode64(proof[..]);
      state := Finishing(salted, authMessage);
      return Ok(());
    }

    /** Whatever happens, a finish ends the exchange. */
    method Finish(serverFinal: string) returns (r: Result<(), Error>)
      modifies this`state
      ensures state == Done
      ensures r == if old(state).Finishing? then Verified(crypto, old(state), serverFinal) else Err(InvalidState)
    {
      hide ReadServerFinal;
      var before := state;
      state := Done;
      if !before.Finishing? {
        return Err(InvalidState);
      }
      var it := new Scanner(serverFinal);
      var parsed := ServerFinalMessage(it);
      if parsed.None? {
        return Err(Malformed);
      }
      if parsed.value.ServerError? {
        return Err(ServerFailed);
      }
      var signature := crypto.decode64(parsed.value.signature);
      if signature.None? {
        return Err(InvalidBase64);
      }
      var serverKey := crypto.hmac(before.saltedPassword, crypto.utf8(SERVER_KEY));
      if signature.value != crypto.hmac(serverKey, crypto.utf8(before.authMessage)) {
        return Err(VerificationFailed);
      }
      return Ok(());
    }
  }

  // ---- Parsing back ----

  lemma FieldBack(tag: char, f: char -> bool, a: string, rest: string)
    requires All(f, a) && (rest == [] || !f(rest[0]))
    ensures ReadField([tag] + "=" + a + rest, tag, f) == Some((a, rest))
  {
    var s := [tag] + "=" + a + rest;
    assert s[1..] == "=" + a + rest && s[1..][1..] == a + rest;
    TakenRun(f, a, rest);
  }

  lemma CountBack(n: u32)
    ensures ParseCount(Decimal(n)) == Some(n) && All(IsDigit, Decimal(n))
  {
    DecimalValue(n);
    DecimalDigits(n);
  }

  function ServerFirstText(nonce: string, salt: string, iterations: u32): string {
    "r=" + nonce + ",s=" + salt + ",i=" + Decimal(iterations)
  }

  lemma ServerFirstBack(nonce: string, salt: string, n: u32)
    requires All(IsPrintable, nonce) && All(IsBase64, salt)
    ensures ReadServerFirst(ServerFirstText(nonce, salt, n)) == Some(ServerFirst(nonce, salt, n))
  {
    hide Taken, Dropped, Decimal, Value, ParseCount, ReadField;
    CountBack(n);
    assert ['r'] + "=" == "r=" && ['s'] + "=" == "s=" && ['i'] + "=" == "i=";
    var i := "i=" + Decimal(n);
    var si := "s=" + salt + ("," + i);
    var whole := "r=" + nonce + ("," + si);
    assert whole == ServerFirstText(nonce, salt, n);
    FieldBack('r', IsPrintable, nonce, "," + si);
    assert ("," + si)[1..] == si;
    FieldBack('s', IsBase64, salt, "," + i);
    assert ("," + i)[1..] == i;
    FieldBack('i', IsDigit, Decimal(n), []);
    assert i + [] == i;
  }

  lemma FieldOnly(s: string, tag: char, f: char -> bool)
    ensures ReadField(s, tag, f).Some? ==>
      var (a, rest) := ReadField(s, tag, f).value;
      s == [tag] + "=" + a + rest && All(f, a)
  {
    if ReadField(s, tag, f).Some? {
      var s2 := s[2..];
      assert s == [tag] + "=" + s2 && s2 == Taken(f, s2) + Dropped(f, s2);
    }
  }

  /** Nothing but the three fields of a server's first message is read as one. */
  lemma ServerFirstOnly(s: string) returns (digits: string)
    requires ReadServerFirst(s).Some?
    ensures var first := ReadServerFirst(s).value;
      && s == "r=" + first.nonce + ",s=" + first.salt + ",i=" + digits
      && All(IsPrintable, first.nonce) && All(IsBase64, first.salt)
      && digits != [] && All(IsDigit, digits) && Value(digits) == first.iterations
  {
    hide ReadField, Value;
    FieldOnly(s, 'r', IsPrintable);
    var (nonce, s1) := ReadField(s, 'r', IsPrintable).value;
    FieldOnly(s1[1..], 's', IsBase64);
    var (salt, s3) := ReadField(s1[1..], 's', IsBase64).value;
    FieldOnly(s3[1..], 'i', IsDigit);
    digits := ReadField(s3[1..], 'i', IsDigit).value.0;
    assert s1 == "," + s1[1..] && s3 == "," + s3[1..];
    assert ['r'] + "=" == "r=" && ['s'] + "=" == "s=" && ['i'] + "=" == "i=";
    assert digits + [] == digits;
    assert s3 == ",i=" + digits;
    assert s1 == ",s=" + salt + s3;
  }

  /**
   The client answers a server exactly if the message is well-formed, its nonce extends the
   client's own, and its salt is base64; the answer repeats that nonce.
   */
  lemma AnswersOnlyItsNonce(c: Crypto, s: State, message: string)
    requires Lawful(c) && s.Updating?
    ensures Answered(c, s, message).Ok? <==>
      ReadServerFirst(message).Some? && s.nonce <= ReadServerFirst(message).value.nonce
      && c.decode64(ReadServerFirst(message).value.salt).Some?
    ensures Answered(c, s, message).Ok? ==> "r=" + s.nonce <= message
    ensures Answered(c, s, message).Ok? ==>
      WithoutProof(c, s.binding, ReadServerFirst(message).value.nonce) + ",p=" <= Answered(c, s, message).value.0
  {
    hide ReadServerFirst, Hi, Proof, ServerSignature;
    if Answered(c, s, message).Ok? {
      var digits := ServerFirstOnly(message);
    }
  }

  /** The client accepts exactly the base64 of the signature that only the server's key gives. */
  lemma AcceptsOnlyTheSignature(c: Crypto, s: State, message: string)
    requires s.Finishing?
    ensures Verified(c, s, message) == Ok(()) <==>
      && |message| >= 2 && message[..2] == "v=" && All(IsBase64, message[2..])
      && c.decode64(message[2..]) == Some(ServerSignature(c, s.saltedPassword, s.authMessage))
  {
    hide Taken, Dropped, ServerSignature;
    var v := if |message| >= 2 then message[2..] else [];
    if Verified(c, s, message) == Ok(()) {
      FieldOnly(message, 'v', IsBase64);
      assert ReadField(message, 'v', IsBase64).value.0 + [] == ReadField(message, 'v', IsBase64).value.0;
      assert message == ['v'] + "=" + ReadField(message, 'v', IsBase64).value.0;
    }
    if |message| >= 2 && message[..2] == "v=" && All(IsBase64, v) {
      FieldBack('v', IsBase64, v, []);
      assert ['v'] + "=" + v + [] == message;
    }
  }

  lemma ServerFinalBack(v: string)
    requires All(IsBase64, v)
    ensures ReadServerFinal("v=" + v) == Some(Verifier(v))
  {
    hide Taken, Dropped, ReadField;
    assert ['v'] + "=" == "v=";
    FieldBack('v', IsBase64, v, []);
    assert "v=" + v + [] == "v=" + v;
  }

  // ---- The stored verifier ----

  /** What the server keeps of a password. */
  datatype Secret = Secret(iterations: u32, salt: seq<byte>, storedKey: seq<byte>, serverKey: seq<byte>)

  ghost function SecretOf(c: Crypto, password: seq<byte>, salt: seq<byte>, iterations: u32): Secret
    requires Lawful(c)
  {
    var salted := Hi(c, c.normalize(password), salt, Iterations(iterations));
    Secret(iterations, salt, c.hash(ClientKey(c, salted)), c.hmac(salted, c.utf8(SERVER_KEY)))
  }

  const SCHEME: string := "SCRAM-SHA-256"
  const DEFAULT_ITERATIONS: u32 := 4096

  function SecretText(c: Crypto, s: Secret): string {
    SCHEME + "$" + Decimal(s.iterations) + ":" + c.encode64(s.salt) +
    "$" + c.encode64(s.storedKey) + ":" + c.encode64(s.serverKey)
  }

  /** `scram_sha_256_salt`: the verifier for a password, to be stored by the server. */
  method ScramSha256Salt(c: Crypto, password: seq<byte>, salt: seq<byte>) returns (r: string)
    requires Lawful(c)
    ensures r == SecretText(c, SecretOf(c, password, salt, DEFAULT_ITERATIONS))
  {
    hide Decimal, Hi;
    var prepared := c.normalize(password);
    var salted := ComputeHi(c, prepared, salt, DEFAULT_ITERATIONS);
    var clientKey := c.hmac(salted, c.utf8(CLIENT_KEY));
    var storedKey := c.hash(clientKey);
    var serverKey := c.hmac(salted, c.utf8(SERVER_KEY));
    r := SecretText(c, Secret(DEFAULT_ITERATIONS, salt, storedKey, serverKey));
  }

  /** Cuts at the first `at`. */
  function Cut(s: string, at: char): Option<(string, string)> {
    if s == [] then None
    else if s[0] == at then Some(([], s[1..]))
    else match Cut(s[1..], at) case None => None case Some((a, b)) => Some(([s[0]] + a, b))
  }

  lemma {:induction false} CutBack(a: string, at: char, b: string)
    requires at !in a
    ensures Cut(a + [at] + b, at) == Some((a, b))
    decreases |a|
  {
    var s := a + [at] + b;
    if a == [] {
      assert s == [at] + b && s[1..] == b;
    } else {
      assert s[1..] == a[1..] + [at] + b;
      CutBack(a[1..], at, b);
      assert [a[0]] + a[1..] == a;
    }
  }

  /** How the server reads a stored verifier. */
  function ReadSecret(c: Crypto, text: string): Option<Secret> {
    match Cut(text, '$')
    case None => None
    case Some((scheme, t1)) =>
      match Cut(t1, ':')
      case None => None
      case Some((digits, t2)) =>
        match Cut(t2, '$')
        case None => None
        case Some((salt, t3)) =>
          match Cut(t3, ':')
          case None => None
          case Some((stored, server)) =>
            var (n, sa, st, se) := (ParseCount(digits), c.decode64(salt), c.decode64(stored), c.decode64(server));
            if scheme == SCHEME && n.Some? && sa.Some? && st.Some? && se.Some?
            then Some(Secret(n.value, sa.value, st.value, se.value)) else None
  }

  lemma SecretBack(c: Crypto, s: Secret)
    requires Lawful(c)
    ensures ReadSecret(c, SecretText(c, s)) == Some(s)
  {
    hide Decimal, ParseCount, Cut;
    CountBack(s.iterations);
    var sa, st, se := c.encode64(s.salt), c.encode64(s.storedKey), c.encode64(s.serverKey);
    assert All(IsBase64, sa) && All(IsBase64, st);
    var t3 := st + ":" + se;
    var t2 := sa + "$" + t3;
    var t1 := Decimal(s.iterations) + ":" + t2;
    assert SecretText(c, s) == SCHEME + "$" + t1;
    assert ['$'] == "$" && [':'] == ":";
    CutBack(SCHEME, '$', t1);
    CutBack(Decimal(s.iterations), ':', t2);
    CutBack(sa, '$', t3);
    CutBack(st, ':', se);
  }

  // ---- The server of RFC 5802, section 3 ----

  /** Cuts at the last comma. */
  function CutLast(s: string): Option<(string, string)> {
    if s == [] then None
    else
      var most, last := s[..|s| - 1], s[|s| - 1];
      if last == ',' then Some((most, []))
      else match CutLast(most) case None => None case Some((a, b)) => Some((a, b + [last]))
  }

  lemma {:induction false} CutLastBack(a: string, b: string)
    requires ',' !in b
    ensures CutLast(a + "," + b) == Some((a, b))
    decreases |b|
  {
    var s := a + "," + b;
    if b == [] {
      assert s[..|s| - 1] == a;
    } else {
      var most := b[..|b| - 1];
      CutLastBack(a, most);
      assert s[..|s| - 1] == a + "," + most && most + [b[|b| - 1]] == b;
    }
  }

  /**
   The server's check of the client's final message, and its own final message if the proof
   is right: the proof must uncover a key whose hash is the stored one.
   */
  function ServerAccepts(
      c: Crypto, secret: Secret, binding: ChannelBinding, clientNonce: string, nonce: string, clientFinal: string)
    : Option<string>
  {
    match CutLast(clientFinal)
    case None => None
    case Some((without, field)) =>
      if !("p=" <= field) || without != WithoutProof(c, binding, nonce) then None
      else match c.decode64(field[2..])
        case None => None
        case Some(proof) =>
          var auth := AuthMessage(clientNonce,
            ServerFirstText(nonce, c.encode64(secret.salt), secret.iterations), without);
          var signature := c.hmac(secret.storedKey, c.utf8(auth));
          if |proof| != |signature| || c.hash(Xor(proof, signature)) != secret.storedKey then None
          else Some("v=" + c.encode64(c.hmac(secret.serverKey, c.utf8(auth))))
  }

  /** An honest client's answer is accepted by a server that holds its password's secret. */
  lemma ProofAccepted(c: Crypto, salted: seq<byte>, secret: Secret, binding: ChannelBinding, clientNonce: string,
      nonce: string)
    requires Lawful(c) && secret.storedKey == c.hash(ClientKey(c, salted))
    ensures var without := WithoutProof(c, binding, nonce);
      var auth := AuthMessage(clientNonce, ServerFirstText(nonce, c.encode64(secret.salt), secret.iterations), without);
      ServerAccepts(c, secret, binding, clientNonce, nonce, without + ",p=" + c.encode64(Proof(c, salted, auth)))
      == Some("v=" + c.encode64(c.hmac(secret.serverKey, c.utf8(auth))))
  {
    hide CutLast, Xor, ServerFirstText;
    var without := WithoutProof(c, binding, nonce);
    var auth := AuthMessage(clientNonce, ServerFirstText(nonce, c.encode64(secret.salt), secret.iterations), without);
    var proof := Proof(c, salted, auth);
    assert All(IsBase64, c.encode64(proof));
    hide WithoutProof, AuthMessage;
    var field := "p=" + c.encode64(proof);
    CutLastBack(without, field);
    assert without + ",p=" + c.encode64(proof) == without + "," + field;
    assert field[2..] == c.encode64(proof);
    XorBack(ClientKey(c, salted), c.hmac(secret.storedKey, c.utf8(auth)));
  }

  /**
   An honest run succeeds: for every password, salt, iteration count, channel binding and
   server nonce that extends the client's, the server accepts the client's proof and the
   client accepts the server's signature.
   */
  lemma HonestRun(c: Crypto, password: seq<byte>, salt: seq<byte>, iterations: u32, binding: ChannelBinding,
                  clientNonce: string, extension: string)
    requires Lawful(c) && All(IsPrintable, clientNonce) && All(IsPrintable, extension)
    ensures var secret := SecretOf(c, password, salt, iterations);
      var nonce := clientNonce + extension;
      var answered := Answered(c, Updating(clientNonce, c.normalize(password), binding),
                               ServerFirstText(nonce, c.encode64(salt), iterations));
      && answered.Ok?
      && var accepted := ServerAccepts(c, secret, binding, clientNonce, nonce, answered.value.0);
      accepted.Some? && answered.value.1.Finishing? && Verified(c, answered.value.1, accepted.value) == Ok(())
  {
    hide ReadServerFirst, ReadServerFinal, ServerFirstText, ServerAccepts, Proof, WithoutProof, AuthMessage, Hi;
    var secret := SecretOf(c, password, salt, iterations);
    var nonce := clientNonce + extension;
    var serverFirst := ServerFirstText(nonce, c.encode64(salt), iterations);
    ServerFirstBack(nonce, c.encode64(salt), iterations);
    var salted := Hi(c, c.normalize(password), salt, Iterations(iterations));
    ProofAccepted(c, salted, secret, binding, clientNonce, nonce);
    var auth := AuthMessage(clientNonce, serverFirst, WithoutProof(c, binding, nonce));
    ServerFinalBack(c.encode64(ServerSignature(c, salted, auth)));
  }

  /** The same with the secret read out of the verifier that `scram_sha_256_salt` prints. */
  lemma HonestRunFromVerifier(c: Crypto, password: seq<byte>, salt: seq<byte>, binding: ChannelBinding,
                              clientNonce: string, extension: string)
    requires Lawful(c) && All(IsPrintable, clientNonce) && All(IsPrintable, extension)
    ensures var stored := ReadSecret(c, SecretText(c, SecretOf(c, password, salt, DEFAULT_ITERATIONS)));
      var nonce := clientNonce + extension;
      && stored.Some?
      && var answered := Answered(c, Updating(clientNonce, c.normalize(password), binding),
                                  ServerFirstText(nonce, c.encode64(stored.value.salt), stored.value.iterations));
      && answered.Ok? && answered.value.1.Finishing?
      && var accepted := ServerAccepts(c, stored.value, binding, clientNonce, nonce, answered.value.0);
      accepted.Some? && Verified(c, answered.value.1, accepted.value) == Ok(())
  {
    hide ReadSecret, SecretText, Answered, ServerAccepts, Verified, ServerFirstText, Hi;
    SecretBack(c, SecretOf(c, password, salt, DEFAULT_ITERATIONS));
    HonestRun(c, password, salt, DEFAULT_ITERATIONS, binding, clientNonce, extension);
  }

  // ---- The order of calls ----

  datatype Call = CallUpdate(message: string) | CallFinish(message: string)

  ghost function Outcome(c: Crypto, s: State, call: Call): (Result<(), Error>, State)
    requires Lawful(c)
  {
    match call
    case CallUpdate(m) =>
      if !s.Updating? then (Err(InvalidState), Done)
      else (match Answered(c, s, m) case Err(e) => (Err(e), Done) case Ok((_, s')) => (Ok(()), s'))
    case CallFinish(m) => (if s.Finishing? then Verified(c, s, m) else Err(InvalidState), Done)
  }

  ghost function StateAfter(c: Crypto, s: State, calls: seq<Call>): State
    requires Lawful(c)
  {
    if calls == [] then s else Outcome(c, StateAfter(c, s, calls[..|calls| - 1]), calls[|calls| - 1]).1
  }

  lemma {:induction false} SpentAfterTwo(c: Crypto, s: State, calls: seq<Call>)
    requires Lawful(c) && s.Updating?
    ensures var s' := StateAfter(c, s, calls);
      && (s'.Updating? <==> calls == [])
      && (s'.Finishing? ==> |calls| == 1 && calls[0].CallUpdate? && Answered(c, s, calls[0].message).Ok?)
  {
    hide Answered, Verified;
    if calls != [] {
      SpentAfterTwo(c, s, calls[..|calls| - 1]);
      if |calls| == 1 {
        assert calls[..0] == [];
      }
      AnsweredFinishing(c, StateAfter(c, s, calls[..|calls| - 1]), calls[|calls| - 1]);
    }
  }

  lemma AnsweredFinishing(c: Crypto, s: State, call: Call)
    requires Lawful(c)
    ensures s.Updating? && call.CallUpdate? && Answered(c, s, call.message).Ok? ==>
      Answered(c, s, call.message).value.1.Finishing?
  {
    hide ReadServerFirst, Hi, Xor, Proof, WithoutProof, AuthMessage;
  }

  /** Authentication succeeds only as the second call, right after one successful update. */
  lemma FinishOnlyAfterUpdate(c: Crypto, s: State, calls: seq<Call>, last: Call)
    requires Lawful(c) && s.Updating? && last.CallFinish?
    requires Outcome(c, StateAfter(c, s, calls), last).0.Ok?
    ensures |calls| == 1 && calls[0].CallUpdate? && Outcome(c, s, calls[0]).0.Ok?
  {
    hide Answered, Verified;
    SpentAfterTwo(c, s, calls);
  }
}
