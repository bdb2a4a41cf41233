/**
 The server's messages written out after the protocol's message formats, and the proof that
 the client's parser reads exactly what is so written.
 */
module ServerMessages {
  import opened Bytes
  import opened Wrappers
  import opened Sequences
  import opened Backend
  import opened Frontend

  function TagOf(m: Message): char {
    match m
    case ParseComplete => '1'
    case BindComplete => '2'
    case CloseComplete => '3'
    case NotificationResponse(_, _, _) => 'A'
    case CopyDone => 'c'
    case CommandComplete(_) => 'C'
    case CopyData(_) => 'd'
    case DataRow(_, _) => 'D'
    case ErrorResponse(_) => 'E'
    case CopyInResponse(_, _, _) => 'G'
    case CopyOutResponse(_, _, _) => 'H'
    case EmptyQueryResponse => 'I'
    case BackendKeyData(_, _) => 'K'
    case NoData => 'n'
    case NoticeResponse(_) => 'N'
    case Authentication(_, _) => 'R'
    case PortalSuspended => 's'
    case ParameterStatus(_, _) => 'S'
    case ParameterDescription(_, _) => 't'
    case RowDescription(_, _) => 'T'
    case ReadyForQuery(_) => 'Z'
  }

  function BodyOf(m: Message): seq<byte> {
    match m
    case NotificationResponse(pid, channel, payload) => I32Bytes(pid) + (Cstr(channel) + Cstr(payload))
    case CommandComplete(tag) => Cstr(tag)
    case CopyData(data) => data
    case DataRow(columns, row) => U16Bytes(columns) + row
    case ErrorResponse(fields) => fields
    case CopyInResponse(format, columns, formats) => [format] + (U16Bytes(columns) + formats)
    case CopyOutResponse(format, columns, formats) => [format] + (U16Bytes(columns) + formats)
    case BackendKeyData(pid, key) => I32Bytes(pid) + I32Bytes(key)
    case NoticeResponse(fields) => fields
    case Authentication(kind, data) => I32Bytes(kind) + data
    case ParameterStatus(name, value) => Cstr(name) + Cstr(value)
    case ParameterDescription(params, oids) => U16Bytes(params) + oids
    case RowDescription(fields, descriptions) => U16Bytes(fields) + descriptions
    case ReadyForQuery(status) => [status]
    case _ => []
  }

  /** The frame a server sends for a message. */
  function Written(m: Message): Frame {
    Frame(TagOf(m) as byte, BodyOf(m))
  }

  /** Ok, Kerberos, clear text, SCM, GSS and SSPI carry nothing, MD5 its salt, the GSS and SASL steps anything. */
  predicate AuthenticationFits(kind: i32, data: seq<byte>) {
    (kind in {0, 2, 3, 6, 7, 9} && data == []) || (kind == 5 && |data| == 4) || kind in {8, 10, 11, 12}
  }

  /** What the formats can carry: no NUL inside a string, and one of the authentication requests. */
  predicate Sayable(m: Message) {
    match m
    case NotificationResponse(_, channel, payload) => 0 !in channel && 0 !in payload
    case CommandComplete(tag) => 0 !in tag
    case ParameterStatus(name, value) => 0 !in name && 0 !in value
    case Authentication(kind, data) => AuthenticationFits(kind, data)
    case _ => true
  }

  // ---- Reading back ----

  lemma TwoStringsBack(a: seq<byte>, b: seq<byte>)
    requires 0 !in a && 0 !in b
    ensures ReadCstr(Cstr(a) + Cstr(b)) == Ok((a, Cstr(b))) && ReadCstr(Cstr(b)) == Ok((b, []))
  {
    hide Cstr, ReadCstr;
    CstrBack(a, Cstr(b));
    CstrBack(b, []);
    assert Cstr(b) + [] == Cstr(b);
  }

  lemma NotificationBack(pid: i32, channel: seq<byte>, payload: seq<byte>)
    requires 0 !in channel && 0 !in payload
    ensures ParseNotification(I32Bytes(pid) + (Cstr(channel) + Cstr(payload)))
         == Ok(NotificationResponse(pid, channel, payload))
  {
    hide Cstr, ReadCstr, I32Bytes, I32Of;
    var strings := Cstr(channel) + Cstr(payload);
    TwoStringsBack(channel, payload);
    I32RoundTrip(pid);
    assert (I32Bytes(pid) + strings)[..4] == I32Bytes(pid) && (I32Bytes(pid) + strings)[4..] == strings;
  }

  lemma StatusBack(name: seq<byte>, value: seq<byte>)
    requires 0 !in name && 0 !in value
    ensures ParseParameterStatus(Cstr(name) + Cstr(value)) == Ok(ParameterStatus(name, value))
  {
    hide Cstr, ReadCstr;
    TwoStringsBack(name, value);
  }

  lemma AuthenticationBack(kind: i32, data: seq<byte>)
    requires AuthenticationFits(kind, data)
    ensures ParseAuthentication(I32Bytes(kind) + data) == Ok(Authentication(kind, data))
  {
    hide I32Bytes, I32Of;
    I32RoundTrip(kind);
    assert (I32Bytes(kind) + data)[..4] == I32Bytes(kind) && (I32Bytes(kind) + data)[4..] == data;
    assert kind == 5 ==> data[..4] == data;
  }

  lemma CountedBack(n: u16, data: seq<byte>)
    ensures U16Of((U16Bytes(n) + data)[..2]) == n && (U16Bytes(n) + data)[2..] == data
  {
    hide U16Bytes, U16Of;
    U16RoundTrip(n);
    assert (U16Bytes(n) + data)[..2] == U16Bytes(n);
  }

  lemma CopyResponseBack(format: byte, n: u16, data: seq<byte>)
    ensures var b := [format] + (U16Bytes(n) + data);
      |b| >= 3 && b[0] == format && U16Of(b[1..3]) == n && b[3..] == data
  {
    hide U16Bytes, U16Of;
    U16RoundTrip(n);
    assert ([format] + (U16Bytes(n) + data))[1..3] == U16Bytes(n);
  }

  lemma KeyBack(pid: i32, key: i32)
    ensures var b := I32Bytes(pid) + I32Bytes(key);
      |b| == 8 && I32Of(b[..4]) == pid && I32Of(b[4..8]) == key && b[8..] == []
  {
    hide I32Bytes, I32Of;
    I32RoundTrip(pid);
    I32RoundTrip(key);
    assert (I32Bytes(pid) + I32Bytes(key))[..4] == I32Bytes(pid);
    assert (I32Bytes(pid) + I32Bytes(key))[4..8] == I32Bytes(key);
  }

  lemma SaidIsRead(m: Message)
    requires Sayable(m)
    ensures MessageOf(Written(m)) == Ok(m)
  {
    hide Cstr, ReadCstr, I32Bytes, I32Of, U16Bytes, U16Of;
    hide ParseAuthentication, ParseNotification, ParseParameterStatus;
    match m
    case NotificationResponse(pid, channel, payload) => NotificationBack(pid, channel, payload);
    case ParameterStatus(name, value) => StatusBack(name, value);
    case Authentication(kind, data) => AuthenticationBack(kind, data);
    case CommandComplete(tag) =>
      CstrBack(tag, []);
      assert Cstr(tag) + [] == Cstr(tag);
    case _ => CountsAreRead(m);
  }

  // The messages without a string in them.
  lemma CountsAreRead(m: Message)
    requires !m.NotificationResponse? && !m.ParameterStatus? && !m.Authentication? && !m.CommandComplete?
    ensures MessageOf(Written(m)) == Ok(m)
  {
    hide Cstr, ReadCstr, I32Bytes, I32Of, U16Bytes, U16Of;
    hide ParseAuthentication, ParseNotification, ParseParameterStatus;
    match m
    case DataRow(n, data) => CountedBack(n, data);
    case ParameterDescription(n, data) => CountedBack(n, data);
    case RowDescription(n, data) => CountedBack(n, data);
    case CopyInResponse(format, n, data) => CopyResponseBack(format, n, data);
    case CopyOutResponse(format, n, data) => CopyResponseBack(format, n, data);
    case BackendKeyData(pid, key) => KeyBack(pid, key);
    case _ =>
  }

  // ---- Nothing else is read ----

  lemma CstrOnly(b: seq<byte>)
    ensures ReadCstr(b).Ok? ==>
      0 !in ReadCstr(b).value.0 && b == Cstr(ReadCstr(b).value.0) + ReadCstr(b).value.1
  {}

  lemma NotificationOnly(body: seq<byte>)
    requires ParseNotification(body).Ok?
    ensures var m := ParseNotification(body).value;
      m.NotificationResponse? && Sayable(m) && body == BodyOf(m)
  {
    hide Cstr, ReadCstr, I32Bytes, I32Of;
    I32Only(body[..4]);
    CstrOnly(body[4..]);
    var (channel, rest) := ReadCstr(body[4..]).value;
    CstrOnly(rest);
    var payload := ReadCstr(rest).value.0;
    assert Cstr(payload) + [] == Cstr(payload);
    assert body == body[..4] + body[4..];
  }

  lemma StatusOnly(body: seq<byte>)
    requires ParseParameterStatus(body).Ok?
    ensures var m := ParseParameterStatus(body).value;
      m.ParameterStatus? && Sayable(m) && body == BodyOf(m)
  {
    hide Cstr, ReadCstr;
    CstrOnly(body);
    var (name, rest) := ReadCstr(body).value;
    CstrOnly(rest);
    var value := ReadCstr(rest).value.0;
    assert Cstr(value) + [] == Cstr(value);
  }

  lemma AuthenticationOnly(body: seq<byte>)
    requires ParseAuthentication(body).Ok?
    ensures var m := ParseAuthentication(body).value;
      m.Authentication? && Sayable(m) && body == BodyOf(m)
  {
    hide I32Bytes, I32Of;
    I32Only(body[..4]);
    assert body == body[..4] + body[4..];
    var rest := body[4..];
    assert |rest| >= 4 && rest[4..] == [] ==> rest[..4] == rest;
  }

  lemma CountedOnly(body: seq<byte>)
    requires |body| >= 2
    ensures body == U16Bytes(U16Of(body[..2])) + body[2..]
  {
    hide U16Bytes, U16Of;
    U16Only(body[..2]);
    assert body == body[..2] + body[2..];
  }

  lemma CopyResponseOnly(body: seq<byte>)
    requires |body| >= 3
    ensures body == [body[0]] + (U16Bytes(U16Of(body[1..3])) + body[3..])
  {
    hide U16Bytes, U16Of;
    U16Only(body[1..3]);
    assert body == [body[0]] + (body[1..3] + body[3..]);
  }

  lemma KeyOnly(body: seq<byte>)
    requires |body| >= 8 && body[8..] == []
    ensures body == I32Bytes(I32Of(body[..4])) + I32Bytes(I32Of(body[4..8]))
  {
    hide I32Bytes, I32Of;
    I32Only(body[..4]);
    I32Only(body[4..8]);
    assert body == body[..4] + body[4..8];
  }

  lemma ReadIsSaid(f: Frame)
    requires MessageOf(f).Ok?
    ensures Sayable(MessageOf(f).value) && f == Written(MessageOf(f).value)
  {
    hide Cstr, ReadCstr, I32Bytes, I32Of, U16Bytes, U16Of;
    hide ParseAuthentication, ParseNotification, ParseParameterStatus;
    var tag, body := f.tag, f.body;
    if tag == NOTIFICATION_RESPONSE_TAG {
      NotificationOnly(body);
    } else if tag == PARAMETER_STATUS_TAG {
      StatusOnly(body);
    } else if tag == AUTHENTICATION_TAG {
      AuthenticationOnly(body);
    } else if tag == COMMAND_COMPLETE_TAG {
      CstrOnly(body);
      var t := ReadCstr(body).value.0;
      assert Cstr(t) + [] == Cstr(t);
    } else if tag in {DATA_ROW_TAG, PARAMETER_DESCRIPTION_TAG, ROW_DESCRIPTION_TAG} {
      CountedOnly(body);
    } else if tag in {COPY_IN_RESPONSE_TAG, COPY_OUT_RESPONSE_TAG} {
      CopyResponseOnly(body);
    } else if tag == BACKEND_KEY_DATA_TAG {
      KeyOnly(body);
    } else if tag == READY_FOR_QUERY_TAG {
      assert body == [body[0]] + body[1..];
    }
  }

  /** A frame says a message exactly if it is the one a server writes for it. */
  lemma SaysExactly(f: Frame, m: Message)
    ensures MessageOf(f) == Ok(m) <==> Sayable(m) && f == Written(m)
  {
    hide MessageOf, Sayable, Written;
    if MessageOf(f) == Ok(m) {
      ReadIsSaid(f);
    }
    if Sayable(m) && f == Written(m) {
      SaidIsRead(m);
    }
  }

  /** What a server writes is parsed back as itself, and the bytes after it are left alone. */
  lemma WrittenBack(m: Message, tail: seq<byte>)
    requires Sayable(m) && WellFormed(Written(m))
    ensures ParseStep(Encode(Written(m)) + tail) == (Ok(Some(m)), tail)
  {
    hide MessageOf, Sayable, Written, Encode, ParseStep;
    SaidIsRead(m);
    ParseEncoded(Written(m), tail);
  }
}
