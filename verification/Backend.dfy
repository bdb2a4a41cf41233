/**
 Backend messages: frames (a tag byte, a length that counts itself, a body), the header
 parser and the message parser.
 */
module Backend {
  import opened Bytes
  import opened Wrappers
  import opened Sequences

  const PARSE_COMPLETE_TAG: byte := '1' as byte
  const BIND_COMPLETE_TAG: byte := '2' as byte
  const CLOSE_COMPLETE_TAG: byte := '3' as byte
  const NOTIFICATION_RESPONSE_TAG: byte := 'A' as byte
  const COPY_DONE_TAG: byte := 'c' as byte
  const COMMAND_COMPLETE_TAG: byte := 'C' as byte
  const COPY_DATA_TAG: byte := 'd' as byte
  const DATA_ROW_TAG: byte := 'D' as byte
  const ERROR_RESPONSE_TAG: byte := 'E' as byte
  const COPY_IN_RESPONSE_TAG: byte := 'G' as byte
  const COPY_OUT_RESPONSE_TAG: byte := 'H' as byte
  const EMPTY_QUERY_RESPONSE_TAG: byte := 'I' as byte
  const BACKEND_KEY_DATA_TAG: byte := 'K' as byte
  const NO_DATA_TAG: byte := 'n' as byte
  const NOTICE_RESPONSE_TAG: byte := 'N' as byte
  const AUTHENTICATION_TAG: byte := 'R' as byte
  const PORTAL_SUSPENDED_TAG: byte := 's' as byte
  const PARAMETER_STATUS_TAG: byte := 'S' as byte
  const PARAMETER_DESCRIPTION_TAG: byte := 't' as byte
  const ROW_DESCRIPTION_TAG: byte := 'T' as byte
  const READY_FOR_QUERY_TAG: byte := 'Z' as byte

  datatype Error = InvalidLength | UnexpectedEof | UnknownTag | TrailingData

  datatype Message =
    | ParseComplete
    | BindComplete
    | CloseComplete
    | NotificationResponse(processId: i32, channel: seq<byte>, payload: seq<byte>)
    | CopyDone
    | CommandComplete(commandTag: seq<byte>)
    | CopyData(data: seq<byte>)
    | DataRow(columns: u16, row: seq<byte>)
    | ErrorResponse(fields: seq<byte>)
    | CopyInResponse(inFormat: byte, inColumns: u16, inFormats: seq<byte>)
    | CopyOutResponse(outFormat: byte, outColumns: u16, outFormats: seq<byte>)
    | EmptyQueryResponse
    | BackendKeyData(backendId: i32, secretKey: i32)
    | NoData
    | NoticeResponse(notice: seq<byte>)
    | Authentication(kind: i32, authData: seq<byte>)
    | PortalSuspended
    | ParameterStatus(name: seq<byte>, value: seq<byte>)
    | ParameterDescription(params: u16, oids: seq<byte>)
    | RowDescription(fieldCount: u16, descriptions: seq<byte>)
    | ReadyForQuery(status: byte)

  /** One frame of the server's stream. */
  datatype Frame = Frame(tag: byte, body: seq<byte>)

  /** The length field is an `i32` that counts itself. */
  predicate WellFormed(f: Frame) {
    |f.body| + 4 <= I32_MAX
  }

  predicate AllWellFormed(fs: seq<Frame>) {
    forall i :: 0 <= i < |fs| ==> WellFormed(fs[i])
  }

  function Encode(f: Frame): (b: seq<byte>)
    ensures |b| == |f.body| + 5
  {
    [f.tag] + I32Bytes(WrapI32(|f.body| + 4)) + f.body
  }

  function EncodeAll(fs: seq<Frame>): seq<byte> {
    if fs == [] then [] else Encode(fs[0]) + EncodeAll(fs[1..])
  }

  /** The three message kinds the server may send at any moment. */
  predicate IsAsyncTag(tag: byte) {
    tag == NOTICE_RESPONSE_TAG || tag == NOTIFICATION_RESPONSE_TAG || tag == PARAMETER_STATUS_TAG
  }

  datatype Header = Header(tag: byte, len: i32)

  function ParseHeader(buf: seq<byte>): Result<Option<Header>, Error> {
    if |buf| < 5 then Ok(None)
    else
      var len := I32Of(buf[1..5]);
      if len < 4 then Err(InvalidLength) else Ok(Some(Header(buf[0], len)))
  }

  // Position of the first NUL, as `memchr(0, ..)` finds it.
  function FirstNul(b: seq<byte>): (r: Option<nat>)
    ensures r.Some? ==> r.value < |b| && b[r.value] == 0 && 0 !in b[..r.value]
    ensures r.None? ==> 0 !in b
  {
    if b == [] then None
    else if b[0] == 0 then Some(0)
    else match FirstNul(b[1..])
      case None => None
      case Some(i) => assert b[..i + 1] == [b[0]] + b[1..][..i]; Some(i + 1)
  }

  function ReadCstr(b: seq<byte>): Result<(seq<byte>, seq<byte>), Error> {
    match FirstNul(b)
    case None => Err(UnexpectedEof)
    case Some(i) => Ok((b[..i], b[i + 1..]))
  }

  // A body that must be empty once its fixed part has been read.
  function Drained(rest: seq<byte>, m: Message): Result<Message, Error> {
    if rest == [] then Ok(m) else Err(TrailingData)
  }

  function ParseAuthentication(body: seq<byte>): Result<Message, Error> {
    if |body| < 4 then Err(UnexpectedEof)
    else
      var kind := I32Of(body[..4]);
      var rest := body[4..];
      if kind in {0, 2, 3, 6, 7, 9} then Drained(rest, Authentication(kind, []))
      else if kind == 5 then
        if |rest| < 4 then Err(UnexpectedEof) else Drained(rest[4..], Authentication(5, rest[..4]))
      else if kind in {8, 10, 11, 12} then Ok(Authentication(kind, rest))
      else Err(UnknownTag)
  }

  // `CopyInResponse` and `CopyOutResponse` share their layout.
  function ParseCopyResponse(tag: byte, body: seq<byte>): Result<Message, Error> {
    if |body| < 3 then Err(UnexpectedEof)
    else
      var n := U16Of(body[1..3]);
      Ok(if tag == COPY_IN_RESPONSE_TAG then CopyInResponse(body[0], n, body[3..])
         else CopyOutResponse(body[0], n, body[3..]))
  }

  function ParseCounted(tag: byte, body: seq<byte>): Result<Message, Error> {
    if |body| < 2 then Err(UnexpectedEof)
    else
      var n, rest := U16Of(body[..2]), body[2..];
      Ok(if tag == DATA_ROW_TAG then DataRow(n, rest)
         else if tag == PARAMETER_DESCRIPTION_TAG then ParameterDescription(n, rest)
         else RowDescription(n, rest))
  }

  function ParseNotification(body: seq<byte>): Result<Message, Error> {
    if |body| < 4 then Err(UnexpectedEof)
    else match ReadCstr(body[4..])
      case Err(e) => Err(e)
      case Ok((channel, rest)) =>
        match ReadCstr(rest)
        case Err(e) => Err(e)
        case Ok((payload, rest')) => Drained(rest', NotificationResponse(I32Of(body[..4]), channel, payload))
  }

  function ParseParameterStatus(body: seq<byte>): Result<Message, Error> {
    match ReadCstr(body)
    case Err(e) => Err(e)
    case Ok((name, rest)) =>
      match ReadCstr(rest)
      case Err(e) => Err(e)
      case Ok((value, rest')) => Drained(rest', ParameterStatus(name, value))
  }

  /** What a frame says, once its bytes have been cut out of the buffer. */
  function MessageOf(f: Frame): Result<Message, Error> {
    var (tag, body) := (f.tag, f.body);
    if tag == PARSE_COMPLETE_TAG then Drained(body, ParseComplete)
    else if tag == BIND_COMPLETE_TAG then Drained(body, BindComplete)
    else if tag == CLOSE_COMPLETE_TAG then Drained(body, CloseComplete)
    else if tag == NOTIFICATION_RESPONSE_TAG then ParseNotification(body)
    else if tag == COPY_DONE_TAG then Drained(body, CopyDone)
    else if tag == COMMAND_COMPLETE_TAG then
      match ReadCstr(body)
      case Err(e) => Err(e)
      case Ok((t, rest)) => Drained(rest, CommandComplete(t))
    else if tag == COPY_DATA_TAG then Ok(CopyData(body))
    else if tag in {DATA_ROW_TAG, PARAMETER_DESCRIPTION_TAG, ROW_DESCRIPTION_TAG} then ParseCounted(tag, body)
    else if tag == ERROR_RESPONSE_TAG then Ok(ErrorResponse(body))
    else if tag in {COPY_IN_RESPONSE_TAG, COPY_OUT_RESPONSE_TAG} then ParseCopyResponse(tag, body)
    else if tag == EMPTY_QUERY_RESPONSE_TAG then Drained(body, EmptyQueryResponse)
    else if tag == BACKEND_KEY_DATA_TAG then
      if |body| < 8 then Err(UnexpectedEof)
      else Drained(body[8..], BackendKeyData(I32Of(body[..4]), I32Of(body[4..8])))
    else if tag == NO_DATA_TAG then Drained(body, NoData)
    else if tag == NOTICE_RESPONSE_TAG then Ok(NoticeResponse(body))
    else if tag == AUTHENTICATION_TAG then ParseAuthentication(body)
    else if tag == PORTAL_SUSPENDED_TAG then Drained(body, PortalSuspended)
    else if tag == PARAMETER_STATUS_TAG then ParseParameterStatus(body)
    else if tag == READY_FOR_QUERY_TAG then
      if |body| < 1 then Err(UnexpectedEof) else Drained(body[1..], ReadyForQuery(body[0]))
    else Err(UnknownTag)
  }

  /**
   One step of `Message::parse`: the outcome and the bytes left in the buffer. The frame
   leaves the buffer before its body is examined, so a bad body still consumes it.
   */
  function ParseStep(buf: seq<byte>): (r: (Result<Option<Message>, Error>, seq<byte>))
    ensures r.0 == Ok(None) ==> r.1 == buf
    ensures |r.1| <= |buf|
  {
    if |buf| < 5 then (Ok(None), buf)
    else
      var len := U32Of(buf[1..5]);
      if len < 4 then (Err(InvalidLength), buf)
      else if |buf| < len + 1 then (Ok(None), buf)
      else
        match MessageOf(Frame(buf[0], buf[5..len + 1]))
        case Err(e) => (Err(e), buf[len + 1..])
        case Ok(m) => (Ok(Some(m)), buf[len + 1..])
  }

  method ParseMessage(buf: BytesMut) returns (r: Result<Option<Message>, Error>)
    modifies buf
    ensures (r, buf.data) == ParseStep(old(buf.data))
  {
    if |buf.data| < 5 {
      return Ok(None);
    }
    var tag, len: int := buf.data[0], U32Of(buf.data[1..5]);
    if len < 4 {
      return Err(InvalidLength);
    }
    if |buf.data| < len + 1 {
      return Ok(None);
    }
    var bytes := buf.SplitTo(len + 1);
    assert bytes[5..] == old(buf.data)[5..len + 1];
    match MessageOf(Frame(tag, bytes[5..]))
    case Err(e) => r := Err(e);
    case Ok(m) => r := Ok(Some(m));
  }

  // ---- Facts about encoded frames ----

  lemma EncodedLength(f: Frame, tail: seq<byte>)
    requires WellFormed(f)
    ensures var b := Encode(f) + tail;
      && I32Of(b[1..5]) == U32Of(b[1..5]) == |f.body| + 4
      && b[0] == f.tag && b[5..|f.body| + 5] == f.body && b[|f.body| + 5..] == tail
      && b[..|f.body| + 5] == Encode(f)
  {
    var b := Encode(f) + tail;
    assert WrapI32(|f.body| + 4) == |f.body| + 4;
    assert b[1..5] == U32Bytes(|f.body| + 4);
    U32RoundTrip(|f.body| + 4);
  }

  lemma EncodedHeader(f: Frame, tail: seq<byte>)
    requires WellFormed(f)
    ensures ParseHeader(Encode(f) + tail) == Ok(Some(Header(f.tag, |f.body| + 4)))
    ensures (Encode(f) + tail)[..|f.body| + 5] == Encode(f)
    ensures (Encode(f) + tail)[|f.body| + 5..] == tail
  {
    hide Encode, I32Of;
    EncodedLength(f, tail);
  }

  lemma ParseEncoded(f: Frame, tail: seq<byte>)
    requires WellFormed(f)
    ensures ParseStep(Encode(f) + tail)
         == (match MessageOf(f) case Err(e) => (Err(e), tail) case Ok(m) => (Ok(Some(m)), tail))
  {
    hide Encode, U32Of, I32Of, MessageOf;
    EncodedLength(f, tail);
  }

  lemma EncodeAllCons(f: Frame, fs: seq<Frame>)
    ensures EncodeAll([f] + fs) == Encode(f) + EncodeAll(fs)
  {
    assert ([f] + fs)[1..] == fs;
  }

  lemma {:induction false} EncodeAllConcat(a: seq<Frame>, b: seq<Frame>)
    ensures EncodeAll(a + b) == EncodeAll(a) + EncodeAll(b)
    decreases |a|
  {
    hide Encode;
    if a == [] {
      assert a + b == b;
    } else {
      assert (a + b)[1..] == a[1..] + b;
      EncodeAllConcat(a[1..], b);
    }
  }

  /** `tail` is what is left of a frame that has not arrived completely. */
  predicate ProperPrefix(tail: seq<byte>, f: Frame) {
    WellFormed(f) && |tail| < |f.body| + 5 && tail <= Encode(f)
  }

  /** Less than one whole frame of a stream. */
  predicate ShortOf(tail: seq<byte>, fs: seq<Frame>) {
    tail == [] || (fs != [] && ProperPrefix(tail, fs[0]))
  }

  lemma NothingEncoded()
    ensures EncodeAll([]) == []
  {}

  // One whole frame more in front of a cut.
  lemma CutOneMore(f: Frame, fs: seq<Frame>, cut: seq<byte>, whole: seq<Frame>, others: seq<Frame>, tail: seq<byte>)
    requires WellFormed(f) && AllWellFormed(whole) && fs == whole + others && cut == EncodeAll(whole) + tail
    ensures [f] + fs == ([f] + whole) + others && AllWellFormed([f] + whole)
    ensures Encode(f) + cut == EncodeAll([f] + whole) + tail
  {
    hide Encode, EncodeAll;
    EncodeAllCons(f, whole);
    Assoc(Encode(f), EncodeAll(whole), tail);
  }

  /** Any cut of a frame stream is some whole frames and a proper prefix of the next. */
  lemma {:induction false} CutFrames(fs: seq<Frame>, cut: seq<byte>)
    returns (whole: seq<Frame>, others: seq<Frame>, tail: seq<byte>)
    requires AllWellFormed(fs) && cut <= EncodeAll(fs)
    ensures fs == whole + others && AllWellFormed(whole) && cut == EncodeAll(whole) + tail
    ensures ShortOf(tail, others)
    decreases |fs|
  {
    hide Encode;
    if fs == [] {
      whole, others, tail := [], [], cut;
    } else {
      var head := Encode(fs[0]);
      CutOfConcat(cut, head, EncodeAll(fs[1..]));
      if |cut| < |head| {
        whole, others, tail := [], fs, cut;
        assert EncodeAll([]) + cut == cut;
      } else {
        whole, others, tail := CutFrames(fs[1..], cut[|head|..]);
        hide EncodeAll, ProperPrefix;
        assert fs == [fs[0]] + fs[1..] && cut == head + cut[|head|..];
        CutOneMore(fs[0], fs[1..], cut[|head|..], whole, others, tail);
        whole := [fs[0]] + whole;
      }
    }
  }
}
