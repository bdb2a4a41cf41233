/**
 Frontend messages before a session starts: the untagged openings of a connection, and the
 replies to an authentication request, which share one tag and are told apart by what was
 asked for.
 */
module Handshake {
  import opened Bytes
  import opened Wrappers
  import opened Sequences
  import opened Backend
  import opened Frontend

  type Parameter = (seq<byte>, seq<byte>)

  datatype Opening =
    | StartupMessage(parameters: seq<Parameter>)
    | CancelRequest(processId: i32, secretKey: i32)
    | SslRequest

  datatype Reply =
    | PasswordMessage(password: seq<byte>)
    | SaslInitialResponse(mechanism: seq<byte>, initial: seq<byte>)
    | SaslResponse(data: seq<byte>)

  /** What the server asked for, which decides how a reply is read. */
  datatype Asked = ForPassword | ForSasl | ForSaslData

  const PROTOCOL: i32 := 196_608
  const CANCEL_CODE: i32 := 80_877_102
  const SSL_CODE: i32 := 80_877_103
  const REPLY_TAG: byte := 'p' as byte

  // ---- Layout ----

  function Pair(p: Parameter): seq<byte> {
    Cstr(p.0) + Cstr(p.1)
  }

  function Pairs(ps: seq<Parameter>): seq<byte> {
    if ps == [] then [] else Pairs(ps[..|ps| - 1]) + Pair(ps[|ps| - 1])
  }

  predicate NoNul(p: Parameter) {
    0 !in p.0 && 0 !in p.1
  }

  predicate NoNuls(ps: seq<Parameter>) {
    forall i :: 0 <= i < |ps| ==> NoNul(ps[i])
  }

  function OpeningBody(o: Opening): seq<byte> {
    match o
    case StartupMessage(ps) => I32Bytes(PROTOCOL) + Pairs(ps) + [0]
    case CancelRequest(pid, key) => I32Bytes(CANCEL_CODE) + I32Bytes(pid) + I32Bytes(key)
    case SslRequest => I32Bytes(SSL_CODE)
  }

  function OpeningWire(o: Opening): seq<byte> {
    I32Bytes(WrapI32(|OpeningBody(o)| + 4)) + OpeningBody(o)
  }

  predicate OpeningEncodable(o: Opening) {
    && |OpeningBody(o)| + 4 <= I32_MAX
    && (o.StartupMessage? ==> NoNuls(o.parameters))
  }

  function ReplyBody(r: Reply): seq<byte> {
    match r
    case PasswordMessage(password) => Cstr(password)
    case SaslInitialResponse(mechanism, data) => Cstr(mechanism) + (I32Bytes(WrapI32(|data|)) + data)
    case SaslResponse(data) => data
  }

  function ReplyFrame(r: Reply): Frame {
    Frame(REPLY_TAG, ReplyBody(r))
  }

  predicate ReplyEncodable(r: Reply) {
    && WellFormed(ReplyFrame(r))
    && match r
       case PasswordMessage(password) => 0 !in password
       case SaslInitialResponse(mechanism, _) => 0 !in mechanism
       case SaslResponse(_) => true
  }

  // ---- Serializers ----

  lemma PairsSnoc(ps: seq<Parameter>, p: Parameter)
    ensures Pairs(ps + [p]) == Pairs(ps) + Pair(p)
  {
    assert (ps + [p])[..|ps|] == ps;
  }

  method WriteParameter(p: Parameter, buf: BytesMut) returns (r: Result<(), EncodeError>)
    modifies buf
    ensures r == if NoNul(p) then Ok(()) else Err(EmbeddedNul)
    ensures r.Ok? ==> buf.data == old(buf.data) + Pair(p)
    ensures old(buf.data) <= buf.data
  {
    hide Cstr;
    r := WriteCstr(p.0, buf);
    if r.Ok? {
      r := WriteCstr(p.1, buf);
    }
  }

  lemma NoNulsSnoc(ps: seq<Parameter>, i: nat)
    requires i < |ps| && NoNuls(ps[..i])
    ensures NoNuls(ps[..i + 1]) <==> NoNul(ps[i])
    ensures !NoNul(ps[i]) ==> !NoNuls(ps)
  {
    hide NoNul;
    assert ps[..i + 1] == ps[..i] + [ps[i]] && ps[..i + 1][i] == ps[i];
  }

  lemma NoNulsNone(ps: seq<Parameter>)
    ensures NoNuls(ps[..0])
  {}

  method WriteParameters(ps: seq<Parameter>, buf: BytesMut) returns (r: Result<(), EncodeError>)
    modifies buf
    ensures r == if NoNuls(ps) then Ok(()) else Err(EmbeddedNul)
    ensures r.Ok? ==> buf.data == old(buf.data) + Pairs(ps)
    ensures old(buf.data) <= buf.data
  {
    hide Pair, NoNuls, NoNul, Cat;
    var i := 0;
    CatNothing(old(buf.data));
    NoNulsNone(ps);
    while i < |ps|
      invariant i <= |ps|
      invariant buf.data == Cat(old(buf.data), Pairs(ps[..i])) && old(buf.data) <= buf.data
      invariant NoNuls(ps[..i])
    {
      NoNulsSnoc(ps, i);
      r := WriteParameter(ps[i], buf);
      if r.Err? {
        return;
      }
      CatMore(old(buf.data), Pairs(ps[..i]), Pair(ps[i]));
      PairsSnoc(ps[..i], ps[i]);
      assert ps[..i] + [ps[i]] == ps[..i + 1];
      i := i + 1;
    }
    assert ps[..i] == ps;
    CatIs(old(buf.data), Pairs(ps));
    return Ok(());
  }

  method WriteStartup(ps: seq<Parameter>, buf: BytesMut) returns (r: Result<(), EncodeError>)
    modifies buf
    ensures r.Ok? <==> OpeningEncodable(StartupMessage(ps))
    ensures r.Ok? ==> buf.data == old(buf.data) + OpeningWire(StartupMessage(ps))
    ensures old(buf.data) <= buf.data
  {
    hide I32Bytes, WrapI32, Pairs, NoNuls;
    ghost var before := buf.data;
    var base := |buf.data|;
    buf.Put([0, 0, 0, 0]);
    buf.Put(I32Bytes(PROTOCOL));
    r := WriteParameters(ps, buf);
    if r.Err? {
      return;
    }
    buf.Put([0]);
    assert buf.data == before + [0, 0, 0, 0] + OpeningBody(StartupMessage(ps));
    r := PatchLength(buf, base, before, OpeningBody(StartupMessage(ps)));
  }

  /** The two openings of fixed length, which never fail. */
  method WriteFixed(o: Opening, buf: BytesMut)
    requires !o.StartupMessage?
    modifies buf
    ensures OpeningEncodable(o) && buf.data == old(buf.data) + OpeningWire(o)
  {
    hide I32Bytes, WrapI32;
    ghost var before := buf.data;
    var base := |buf.data|;
    buf.Put([0, 0, 0, 0]);
    match o {
      case CancelRequest(pid, key) =>
        buf.Put(I32Bytes(CANCEL_CODE));
        buf.Put(I32Bytes(pid));
        buf.Put(I32Bytes(key));
      case SslRequest =>
        buf.Put(I32Bytes(SSL_CODE));
    }
    var w := PatchLength(buf, base, before, OpeningBody(o));
  }

  method WriteReply(reply: Reply, buf: BytesMut) returns (r: Result<(), EncodeError>)
    modifies buf
    ensures r.Ok? <==> ReplyEncodable(reply)
    ensures r.Ok? ==> buf.data == old(buf.data) + Encode(ReplyFrame(reply))
    ensures old(buf.data) <= buf.data
  {
    hide Encode, I32Bytes, WrapI32;
    ghost var before := buf.data;
    var base := BeginBody(REPLY_TAG, buf);
    match reply {
      case PasswordMessage(password) =>
        var w := WriteCstr(password, buf);
        if w.Err? {
          return w;
        }
      case SaslInitialResponse(mechanism, data) =>
        var w := WriteCstr(mechanism, buf);
        if w.Err? {
          return w;
        }
        if |data| > I32_MAX {
          return Err(TooLarge);
        }
        WrapFits(|data|);
        buf.Put(I32Bytes(|data|));
        buf.Put(data);
      case SaslResponse(data) =>
        buf.Put(data);
    }
    assert buf.data == before + [REPLY_TAG] + [0, 0, 0, 0] + ReplyBody(reply);
    r := FinishBody(base, buf, before, ReplyFrame(reply));
  }

  // ---- The server's reading ----

  // Names and values up to the empty name, which must be the last byte.
  function ReadPairs(b: seq<byte>): Option<seq<Parameter>>
    decreases |b|
  {
    match ReadCstr(b)
    case Err(_) => None
    case Ok((key, b1)) =>
      if key == [] then if b1 == [] then Some([]) else None
      else match ReadCstr(b1)
        case Err(_) => None
        case Ok((value, b2)) =>
          match ReadPairs(b2) case None => None case Some(more) => Some([(key, value)] + more)
  }

  /** Reads one opening off the front of a fresh connection. */
  function ReadOpening(b: seq<byte>): Option<(Opening, seq<byte>)> {
    if |b| < 8 then None
    else
      var len, code := I32Of(b[..4]), I32Of(b[4..8]);
      if len < 8 || |b| < len then None
      else
        var body, rest := b[8..len], b[len..];
        if code == CANCEL_CODE then
          if |body| == 8 then Some((CancelRequest(I32Of(body[..4]), I32Of(body[4..])), rest)) else None
        else if code == SSL_CODE then if body == [] then Some((SslRequest, rest)) else None
        else if code == PROTOCOL then
          match ReadPairs(body) case None => None case Some(ps) => Some((StartupMessage(ps), rest))
        else None
  }

  function ReadReply(asked: Asked, f: Frame): Option<Reply> {
    if f.tag != REPLY_TAG then None
    else match asked
      case ForPassword => (match OneCstr(f.body) case None => None case Some(s) => Some(PasswordMessage(s)))
      case ForSaslData => Some(SaslResponse(f.body))
      case ForSasl =>
        match ReadCstr(f.body)
        case Err(_) => None
        case Ok((mechanism, rest)) =>
          if |rest| < 4 || I32Of(rest[..4]) != |rest| - 4 then None
          else Some(SaslInitialResponse(mechanism, rest[4..]))
  }

  predicate Named(ps: seq<Parameter>) {
    forall i :: 0 <= i < |ps| ==> ps[i].0 != []
  }

  lemma {:induction false} PairsCons(p: Parameter, ps: seq<Parameter>)
    ensures Pairs([p] + ps) == Pair(p) + Pairs(ps)
    decreases |ps|
  {
    hide Pair;
    if ps == [] {
      assert [p] + ps == [p] && [p][..0] == [];
      assert Pair(p) + [] == Pair(p);
    } else {
      var most, last := ps[..|ps| - 1], ps[|ps| - 1];
      PairsCons(p, most);
      PairsSnoc([p] + most, last);
      assert ([p] + most) + [last] == [p] + ps;
    }
  }

  lemma {:induction false} PairsBack(ps: seq<Parameter>)
    requires NoNuls(ps)
    ensures ReadPairs(Pairs(ps) + [0]) == Some(ps) <==> Named(ps)
    decreases |ps|
  {
    hide Cstr, ReadCstr, Pairs;
    if ps == [] {
      NoPairs();
    } else {
      var p, rest := ps[0], Pairs(ps[1..]) + [0];
      assert ps == [p] + ps[1..];
      PairsCons(p, ps[1..]);
      assert Pairs(ps) + [0] == Cstr(p.0) + (Cstr(p.1) + rest);
      CstrBack(p.0, Cstr(p.1) + rest);
      CstrBack(p.1, rest);
      PairsBack(ps[1..]);
      assert Named(ps) <==> p.0 != [] && Named(ps[1..]);
    }
  }

  lemma NoPairs()
    ensures ReadPairs(Pairs([]) + [0]) == Some([])
  {
    CstrBack([], []);
    assert Pairs([]) + [0] == Cstr([]) + [];
  }

  /**
   An opening is read back as itself, and the bytes after it are left alone, exactly when no
   parameter of a startup message has an empty name: that name ends the list.
   */
  lemma OpeningBack(o: Opening, tail: seq<byte>)
    requires OpeningEncodable(o)
    ensures ReadOpening(OpeningWire(o) + tail) == Some((o, tail)) <==> (o.StartupMessage? ==> Named(o.parameters))
  {
    hide I32Bytes, I32Of, WrapI32, ReadPairs, Pairs, Named;
    var body, b := OpeningBody(o), OpeningWire(o) + tail;
    var code := if o.StartupMessage? then PROTOCOL else if o.CancelRequest? then CANCEL_CODE else SSL_CODE;
    var len: i32 := |body| + 4;
    WrapFits(len);
    I32RoundTrip(len);
    I32RoundTrip(code);
    assert b[..4] == I32Bytes(len) && b[4..8] == body[..4] == I32Bytes(code);
    assert b[8..len] == body[4..] && b[len..] == tail;
    match o {
      case StartupMessage(ps) =>
        assert body[4..] == Pairs(ps) + [0];
        PairsBack(ps);
      case CancelRequest(pid, key) =>
        assert body[4..][..4] == I32Bytes(pid) && body[4..][4..] == I32Bytes(key);
        I32RoundTrip(pid);
        I32RoundTrip(key);
      case SslRequest =>
    }
  }

  function AskedFor(r: Reply): Asked {
    match r
    case PasswordMessage(_) => ForPassword
    case SaslInitialResponse(_, _) => ForSasl
    case SaslResponse(_) => ForSaslData
  }

  /** A reply is read back as itself by a server that asked for it. */
  lemma ReplyBack(r: Reply)
    requires ReplyEncodable(r)
    ensures ReadReply(AskedFor(r), ReplyFrame(r)) == Some(r)
  {
    hide Cstr, ReadCstr, OneCstr, I32Bytes, I32Of, WrapI32;
    match r {
      case PasswordMessage(password) => OneCstrBack(password);
      case SaslInitialResponse(mechanism, data) =>
        var rest := I32Bytes(WrapI32(|data|)) + data;
        CstrBack(mechanism, rest);
        WrapFits(|data|);
        I32RoundTrip(|data|);
        assert rest[..4] == I32Bytes(|data|) && rest[4..] == data;
      case SaslResponse(_) =>
    }
  }
}
