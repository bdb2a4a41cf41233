/**
 The end of the startup: reading the session's parameters and key until the server is ready,
 then handing the stream over to the connection task.
 */
module Startup {
  import opened Bytes
  import opened Wrappers
  import opened Sequences
  import opened Backend
  import opened Codec
  import opened Answers
  import Connection
  import Pipelining

  datatype Error = Io | Db | UnexpectedMessage | Closed

  /** What `read_info` has gathered. */
  datatype Info = Info(processId: i32, secretKey: i32, parameters: map<seq<byte>, seq<byte>>,
    delayed: seq<BackendMessage>)

  datatype Outcome = Waiting | Failed(error: Error) | Done(info: Info)

  /** One message: gathered, or the end. */
  datatype Verdict = More(info: Info) | Complete | Bad(error: Error)

  function Judge(info: Info, m: Message): Verdict {
    match m
    case BackendKeyData(id, key) => More(info.(processId := id, secretKey := key))
    case ParameterStatus(name, value) => More(info.(parameters := info.parameters[name := value]))
    case NoticeResponse(_) => More(info.(delayed := info.delayed + [Async(m)]))
    case ReadyForQuery(_) => Complete
    case ErrorResponse(_) => Bad(Db)
    case _ => Bad(UnexpectedMessage)
  }

  /** Reading a stream of frames from its beginning: the outcome, and the frames it does not read. */
  function Gather(info: Info, fs: seq<Frame>): (Outcome, seq<Frame>)
    decreases |fs|
  {
    if fs == [] then (Waiting, [])
    else match MessageOf(fs[0])
      case Err(_) => (Failed(Io), fs[1..])
      case Ok(m) =>
        match Judge(info, m)
        case More(info') => Gather(info', fs[1..])
        case Complete => (Done(info), fs[1..])
        case Bad(e) => (Failed(e), fs[1..])
  }

  const NOTHING: Info := Info(0, 0, map[], [])

  /** What waiting comes to: an error if the stream ends after `tail`, less than a whole frame. */
  function AtEnd(o: Outcome, ends: bool, tail: seq<byte>): Outcome {
    if o.Waiting? && ends then Failed(if tail == [] then Closed else Io) else o
  }

  function AsIo(r: Result<Message, Backend.Error>): Result<Message, Error> {
    match r case Ok(m) => Ok(m) case Err(_) => Err(Io)
  }

  // ---- The stream ----

  /** A batch that has been begun: what is left of it is a batch or nothing. */
  predicate Begun(h: seq<Frame>) {
    h == [] || IsBatch(h)
  }

  lemma JoinedNothing(b: seq<byte>)
    ensures b + Joined([]) == b
  {}

  lemma BegunRest(h: seq<Frame>)
    requires h != [] && Begun(h)
    ensures Begun(h[1..]) && (h[0].tag == READY_FOR_QUERY_TAG ==> h[1..] == []) && !IsAsyncTag(h[0].tag)
  {}

  lemma ReadyTag(f: Frame)
    ensures MessageOf(f).Ok? && MessageOf(f).value.ReadyForQuery? ==> f.tag == READY_FOR_QUERY_TAG
  {}

  class StartupStream {
    const src: BytesMut
    const buf: BytesMut
    var network: seq<seq<byte>>
    const ends: bool
    ghost const tail: seq<byte>
    ghost const next: Frame
    var delayed: seq<BackendMessage>

    /** The chunks to come are any cut of a stream: the frames `fs` and the beginning of `next`. */
    constructor (network: seq<seq<byte>>, ends: bool, ghost fs: seq<Frame>, ghost tail: seq<byte>, ghost next: Frame)
      requires AllWellFormed(fs) && ShortOf(tail, [next]) && EncodeAll(fs) + tail == Joined(network)
      ensures Holds([], fs) && delayed == [] && fresh(src) && fresh(buf)
      ensures this.ends == ends && this.tail == tail && this.next == next
    {
      this.ends := ends;
      this.tail := tail;
      this.next := next;
      src := new BytesMut();
      buf := new BytesMut();
      this.network := network;
      delayed := [];
      new;
      NothingEncoded();
    }

    /** `h` is decoded and not yet read; `rest` and then `tail` is everything that arrives after that. */
    ghost predicate Holds(h: seq<Frame>, rest: seq<Frame>)
      reads this`network, src, buf
    {
      && src != buf && AllWellFormed(h) && AllWellFormed(rest) && Begun(h)
      && buf.data == EncodeAll(h) && src.data + Joined(network) == EncodeAll(rest) + tail && ShortOf(tail, [next])
    }

    // The first frame of what was decoded, if there is any.
    method NextBuffered(ghost h: seq<Frame>, ghost rest: seq<Frame>) returns (r: Option<Result<Message, Error>>)
      requires Holds(h, rest)
      modifies buf
      ensures h == [] ==> r == None && Holds(h, rest)
      ensures h != [] ==> r == Some(AsIo(MessageOf(h[0]))) && Holds(h[1..], rest)
    {
      hide MessageOf, Encode;
      if h == [] {
        NothingEncoded();
      } else {
        ParseEncoded(h[0], EncodeAll(h[1..]));
        BegunRest(h);
      }
      hide EncodeAll, IsBatch, Begun;
      var parsed := ParseMessage(buf);
      match parsed {
        case Err(_) => return Some(Err(Io));
        case Ok(None) => return None;
        case Ok(Some(m)) => return Some(Ok(m));
      }
    }

    /**
     `poll_next`: the next message, first out of the decoded batch and then off the stream.
     Nothing is ready only if no whole frame has arrived; the stream ends only where the
     server's does, and with an error if that is inside a frame.
     */
    method NextMessage(ghost h: seq<Frame>, ghost rest: seq<Frame>)
      returns (r: Poll<Option<Result<Message, Error>>>, ghost h': seq<Frame>, ghost rest': seq<Frame>)
      requires Holds(h, rest)
      modifies src, buf
      ensures Holds(h', rest')
      ensures r.Pending? ==> h == [] && !(ends && network == []) && (network == [] ==> rest == [])
      ensures r.Pending? ==> h' == h && rest' == rest
      ensures r.Ready? ==> (h + rest == [] || r == Ready(Some(AsIo(MessageOf((h + rest)[0])))))
      ensures r.Ready? && h + rest == [] ==>
        ends && network == [] && r == Ready(if tail == [] then None else Some(Err(Io)))
      ensures r.Ready? && h + rest != [] ==> (h + rest)[1..] == h' + rest'
      ensures r.Ready? && h + rest != [] && (h + rest)[0].tag == READY_FOR_QUERY_TAG ==> h' == []
    {
      hide MessageOf, Encode, EncodeAll, Decoded;
      h', rest' := h, rest;
      var first := NextBuffered(h, rest);
      if first.Some? {
        BegunRest(h);
        return Ready(first), h[1..], rest;
      }
      ghost var taken, left := DecodeShort(rest, tail, next, src.data, Joined(network));
      SplitWellFormed(taken, left);
      var decoded := Decode(src);
      match decoded {
        case Ok(Some(Normal(messages, _))) =>
          buf.data := messages;
          first := NextBuffered(taken, left);
          BegunRest(taken);
          return Ready(first), taken[1..], left;
        case Ok(Some(Async(m))) =>
          return Ready(Some(Ok(m))), [], left;
        case Err(_) =>
          return Ready(Some(Err(Io))), [], left;
        case Ok(None) =>
          JoinedNothing(src.data);
          NothingEncoded();
          if ends && network == [] {
            return Ready(if src.data == [] then None else Some(Err(Io))), [], rest;
          }
          return Pending, [], rest;
      }
    }

    // The next chunk arrives.
    method Arrive(ghost h: seq<Frame>, ghost rest: seq<Frame>)
      requires Holds(h, rest) && network != []
      modifies this`network, src
      ensures Holds(h, rest) && network == old(network)[1..]
    {
      hide EncodeAll, Begun, AllWellFormed;
      AppendChunk(src.data, network);
      src.Put(network[0]);
      network := network[1..];
    }

    lemma HeldBytes(rest: seq<Frame>)
      requires Holds([], rest)
      ensures EncodeAll(rest) + tail == src.data + Joined(network)
    {}

    lemma HoldsNothing(rest: seq<Frame>)
      requires Holds([], rest)
      ensures buf.data == []
    {}

    /** `read_info`: waits for more bytes whenever nothing is ready. */
    method ReadInfo(ghost h: seq<Frame>, ghost rest: seq<Frame>) returns (r: Outcome)
      requires Holds(h, rest)
      modifies this, src, buf
      ensures r == AtEnd(Gather(NOTHING.(delayed := old(delayed)), h + rest).0, ends, tail)
      ensures r.Done? ==> buf.data == [] && Holds([], Gather(NOTHING.(delayed := old(delayed)), h + rest).1)
      ensures r.Done? ==> delayed == r.info.delayed
    {
      hide MessageOf, EncodeAll, Holds;
      var processId: i32, secretKey: i32 := 0, 0;
      var parameters: map<seq<byte>, seq<byte>> := map[];
      ghost var h', rest' := h, rest;
      while true
        invariant Holds(h', rest')
        invariant Gather(NOTHING.(delayed := old(delayed)), h + rest)
          == Gather(Info(processId, secretKey, parameters, delayed), h' + rest')
        decreases |h'| + |rest'|, |network|
      {
        var polled;
        ghost var fs := h' + rest';
        polled, h', rest' := NextMessage(h', rest');
        if polled.Pending? {
          if network == [] {
            return Waiting;
          }
          Arrive(h', rest');
        } else {
          if polled.value.None? {
            return Failed(Closed);
          }
          if polled.value.value.Err? {
            return Failed(polled.value.value.error);
          }
          match polled.value.value.value {
            case BackendKeyData(id, key) => processId, secretKey := id, key;
            case ParameterStatus(name, value) => parameters := parameters[name := value];
            case NoticeResponse(_) => delayed := delayed + [Async(polled.value.value.value)];
            case ReadyForQuery(_) =>
              ReadyTag(fs[0]);
              HoldsNothing(rest');
              assert [] + rest' == rest';
              return Done(Info(processId, secretKey, parameters, delayed));
            case ErrorResponse(_) => return Failed(Db);
            case _ => return Failed(UnexpectedMessage);
          }
        }
      }
    }
  }

  /** One `decode` of a stream that ends in the beginning `tail` of a frame. */
  lemma DecodeShort(rest: seq<Frame>, tail: seq<byte>, next: Frame, src: seq<byte>, flight: seq<byte>)
    returns (taken: seq<Frame>, left: seq<Frame>)
    requires AllWellFormed(rest) && ShortOf(tail, [next]) && src + flight == EncodeAll(rest) + tail
    ensures rest == taken + left && EncodeAll(left) + tail == Decoded(src).1 + flight
    ensures IsTaken(taken, Decoded(src).0)
    ensures taken == [] ==> Decoded(src).1 == src && (flight == [] ==> rest == [])
  {
    hide Encode, Decoded, IsTaken, EncodeAll;
    if tail == [] {
      assert EncodeAll(rest) + tail == EncodeAll(rest);
      taken, left := DecodeNext(rest, src, flight);
      assert EncodeAll(left) + tail == EncodeAll(left);
    } else {
      var missing := Encode(next)[|tail|..];
      var all := rest + [next];
      EncodeAllSnoc(rest, next);
      assert tail + missing == Encode(next);
      assert EncodeAll(all) == src + (flight + missing) by {
        Assoc(EncodeAll(rest), tail, missing);
        Assoc(src, flight, missing);
      }
      var left';
      taken, left' := DecodeNext(all, src, flight + missing);
      NothingEncoded();
      left := left'[..|left'| - 1];
      assert left'[|left'| - 1] == all[|all| - 1];
      assert left' == left + [next];
      assert rest == taken + left by {
        assert all[..|rest|] == rest && (taken + left')[..|rest|] == taken + left;
      }
      EncodeAllSnoc(left, next);
      Assoc(EncodeAll(left), tail, missing);
      Assoc(Decoded(src).1, flight, missing);
      CancelEnd(EncodeAll(left) + tail, Decoded(src).1 + flight, missing);
      if rest != [] {
        EncodeAllCons(rest[0], rest[1..]);
        assert rest == [rest[0]] + rest[1..] && all[0] == rest[0];
      }
    }
  }

  lemma EncodeAllSnoc(fs: seq<Frame>, f: Frame)
    ensures EncodeAll(fs + [f]) == EncodeAll(fs) + Encode(f)
  {
    hide Encode;
    EncodeAllConcat(fs, [f]);
    EncodeAllCons(f, []);
    assert [f] + [] == [f];
    NothingEncoded();
  }

  lemma CancelEnd(a: seq<byte>, b: seq<byte>, end: seq<byte>)
    requires a + end == b + end
    ensures a == b
  {
    assert |a + end| == |b + end|;
    assert (a + end)[..|a|] == a && (b + end)[..|b|] == b;
  }

  lemma AppendChunk(src: seq<byte>, network: seq<seq<byte>>)
    requires network != []
    ensures src + Joined(network) == (src + network[0]) + Joined(network[1..])
  {
    JoinedCons(network);
  }

  lemma SplitWellFormed(a: seq<Frame>, b: seq<Frame>)
    requires AllWellFormed(a + b)
    ensures AllWellFormed(a) && AllWellFormed(b)
  {
    assert forall i :: 0 <= i < |a| ==> a[i] == (a + b)[i];
    assert forall i :: 0 <= i < |b| ==> b[i] == (a + b)[|a| + i];
  }

  // ---- What was gathered ----

  function AsDelayed(ms: seq<Message>): seq<BackendMessage> {
    seq(|ms|, i requires 0 <= i < |ms| => Async(ms[i]))
  }

  /** The process id and the secret key of the last BackendKeyData, or zeros without one. */
  function LastKey(fs: seq<Frame>): (i32, i32) {
    if fs == [] then (0, 0)
    else match MessageOf(fs[|fs| - 1])
      case Ok(BackendKeyData(pid, key)) => (pid, key)
      case _ => LastKey(fs[..|fs| - 1])
  }

  lemma LastKeySnoc(fs: seq<Frame>, f: Frame)
    ensures LastKey(fs + [f])
         == match MessageOf(f) case Ok(BackendKeyData(pid, key)) => (pid, key) case _ => LastKey(fs)
  {
    hide MessageOf;
    assert (fs + [f])[..|fs|] == fs;
  }

  // After the frames `seen`: the notices are put aside, the parameters and the key recorded.
  ghost predicate Gathered(info: Info, seen: seq<Frame>) {
    && info.delayed == AsDelayed(Announcements(seen))
    && info.parameters == Parameters(map[], seen)
    && (info.processId, info.secretKey) == LastKey(seen)
    && Completed(seen) == 0
  }

  lemma AnnouncedOne(f: Frame)
    ensures MessageOf(f).Ok? && MessageOf(f).value.NoticeResponse? ==> Announced(f) == [MessageOf(f).value]
    ensures MessageOf(f).Ok? && (MessageOf(f).value.ParameterStatus? || MessageOf(f).value.BackendKeyData?) ==>
      Announced(f) == []
    ensures f.tag == READY_FOR_QUERY_TAG ==> MessageOf(f).Err? || MessageOf(f).value.ReadyForQuery?
  {}

  lemma GatherStep(info: Info, seen: seq<Frame>, f: Frame)
    requires Gathered(info, seen) && MessageOf(f).Ok? && Judge(info, MessageOf(f).value).More?
    ensures Gathered(Judge(info, MessageOf(f).value).info, seen + [f])
  {
    hide MessageOf, Announced;
    AnnouncedOne(f);
    Snoc(seen, f);
    SnocParameters(map[], seen, f);
    LastKeySnoc(seen, f);
    hide Announcements, Parameters, LastKey, Completed, Answer;
    var m := MessageOf(f).value;
    if m.NoticeResponse? {
      assert AsDelayed(Announcements(seen) + [m]) == AsDelayed(Announcements(seen)) + [Async(m)];
    } else {
      assert Announcements(seen) + [] == Announcements(seen);
    }
  }

  lemma {:induction false} GatherFrom(info: Info, seen: seq<Frame>, fs: seq<Frame>) returns (read: seq<Frame>)
    requires Gathered(info, seen) && Gather(info, fs).0.Done?
    ensures fs == read + Gather(info, fs).1 && EndsReady(read)
    ensures Gathered(Gather(info, fs).0.info, seen + read[..|read| - 1])
    decreases |fs|
  {
    hide MessageOf, Gathered;
    var f := fs[0];
    var judged := Judge(info, MessageOf(f).value);
    if judged.More? {
      GatherStep(info, seen, f);
      var more := GatherFrom(judged.info, seen + [f], fs[1..]);
      read := [f] + more;
      assert seen + [f] + more[..|more| - 1] == seen + read[..|read| - 1];
      assert fs == [f] + fs[1..];
    } else {
      ReadyTag(f);
      read := [f];
      assert seen + read[..0] == seen;
    }
  }

  /**
   When the startup is done it has read up to the first `ReadyForQuery`; the notices before
   it are put aside in order, and the parameters and the last key before it are recorded.
   */
  lemma GatheredInOrder(fs: seq<Frame>) returns (read: seq<Frame>)
    requires Gather(NOTHING, fs).0.Done?
    ensures fs == read + Gather(NOTHING, fs).1 && EndsReady(read)
    ensures var before := read[..|read| - 1];
      && Completed(before) == 0
      && Gather(NOTHING, fs).0.info.delayed == AsDelayed(Announcements(before))
      && Gather(NOTHING, fs).0.info.parameters == Parameters(map[], before)
      && (Gather(NOTHING, fs).0.info.processId, Gather(NOTHING, fs).0.info.secretKey) == LastKey(before)
  {
    hide Gather;
    assert AsDelayed([]) == [];
    read := GatherFrom(NOTHING, [], fs);
    assert [] + read[..|read| - 1] == read[..|read| - 1];
  }

  /** A message that reading the parameters takes in its stride. */
  predicate TakenIn(f: Frame) {
    MessageOf(f).Ok? &&
    (MessageOf(f).value.BackendKeyData? || MessageOf(f).value.ParameterStatus? || MessageOf(f).value.NoticeResponse?)
  }

  /**
   The first frame that is neither a key, a parameter nor a notice decides: `ReadyForQuery`
   is success, an error of the server is reported as such, anything else is out of place.
   */
  lemma {:induction false} FirstOtherDecides(info: Info, fs: seq<Frame>, k: nat)
    requires k <= |fs| && (forall i :: 0 <= i < k ==> TakenIn(fs[i])) && (k < |fs| ==> !TakenIn(fs[k]))
    ensures var (o, rest) := Gather(info, fs);
      if k == |fs| then o == Waiting && rest == []
      else
        && rest == fs[k + 1..]
        && match MessageOf(fs[k])
           case Err(_) => o == Failed(Io)
           case Ok(ReadyForQuery(_)) => o.Done?
           case Ok(ErrorResponse(_)) => o == Failed(Db)
           case Ok(_) => o == Failed(UnexpectedMessage)
    decreases |fs|
  {
    hide MessageOf;
    if k > 0 {
      assert TakenIn(fs[0]);
      FirstOtherDecides(Judge(info, MessageOf(fs[0]).value).info, fs[1..], k - 1);
      assert k < |fs| ==> fs[1..][k - 1] == fs[k] && fs[1..][k..] == fs[k + 1..];
    }
  }

  // ---- The hand-over ----

  lemma {:induction false} OnlyNotices(fs: seq<Frame>)
    ensures forall i :: 0 <= i < |Announcements(fs)| ==> !Announcements(fs)[i].ParameterStatus?
  {
    hide MessageOf;
    if fs != [] {
      OnlyNotices(fs[..|fs| - 1]);
    }
  }

  /** Everything around a connection built from what `read_info` leaves, as `connect_raw` builds it. */
  function HandedOver(info: Info, src: seq<byte>, flight: seq<byte>, after: seq<Frame>, closed: bool)
    : Pipelining.World
  {
    Pipelining.World(
      Connection.Conn(src, false, [], info.parameters, [], false, None, info.delayed, [],
        Connection.Active, [], [], []),
      after, flight, [], [], closed, false)
  }

  /** The frames of a stream with the one it is in the middle of, and the bytes missing of that one. */
  function Coming(fs: seq<Frame>, tail: seq<byte>, next: Frame): seq<Frame> {
    if tail == [] then fs else fs + [next]
  }

  function Missing(tail: seq<byte>, next: Frame): seq<byte>
    requires ShortOf(tail, [next])
  {
    if tail == [] then [] else Encode(next)[|tail|..]
  }

  /** A server that sends good frames, and unasked only asynchronous ones after its first `ReadyForQuery`. */
  predicate GoodServer(fs: seq<Frame>, tail: seq<byte>, next: Frame) {
    && ShortOf(tail, [next]) && GoodFrames(Coming(fs, tail, next))
    && var unread := Coming(Gather(NOTHING, fs).1, tail, next);
    forall i :: 0 <= i < |unread| ==> IsAsyncTag(unread[i].tag)
  }

  lemma ComingEncoded(fs: seq<Frame>, tail: seq<byte>, next: Frame, src: seq<byte>, flight: seq<byte>)
    requires ShortOf(tail, [next]) && EncodeAll(fs) + tail == src + flight
    ensures EncodeAll(Coming(fs, tail, next)) == src + (flight + Missing(tail, next))
  {
    hide Encode, EncodeAll;
    var missing := Missing(tail, next);
    Assoc(src, flight, missing);
    if tail == [] {
      assert EncodeAll(fs) + [] == EncodeAll(fs) && flight + [] == flight;
    } else {
      EncodeAllSnoc(fs, next);
      assert tail + missing == Encode(next);
      Assoc(EncodeAll(fs), tail, missing);
    }
  }

  /**
   The hand-over loses nothing: the startup's buffer is empty, so the bytes of the framed
   stream are exactly the frames not read, be the last one cut or not, and the connection
   starts from them with the startup's notices, all of them and in order, to surface first.
   */
  lemma HandOver(fs: seq<Frame>, tail: seq<byte>, next: Frame, src: seq<byte>, flight: seq<byte>, closed: bool)
    returns (read: seq<Frame>, o: Pipelining.Origin)
    requires GoodServer(fs, tail, next) && Gather(NOTHING, fs).0.Done?
    requires EncodeAll(Gather(NOTHING, fs).1) + tail == src + flight
    ensures var (outcome, after) := Gather(NOTHING, fs);
      && fs == read + after && EndsReady(read) && Completed(read[..|read| - 1]) == 0
      && Pipelining.Starts(
          HandedOver(outcome.info, src, flight + Missing(tail, next), Coming(after, tail, next), closed), o)
      && o.delayed == Announcements(read[..|read| - 1])
      && o.parameters == Parameters(map[], read[..|read| - 1])
  {
    hide EncodeAll, Gather, MessageOf, Announcements, Parameters, Completed, Missing;
    read := GatheredInOrder(fs);
    var before, after := read[..|read| - 1], Gather(NOTHING, fs).1;
    OnlyNotices(before);
    assert Coming(fs, tail, next) == read + Coming(after, tail, next);
    GoodSplit(read, Coming(after, tail, next));
    ComingEncoded(after, tail, next, src, flight);
    o := Pipelining.Origin(Announcements(before), Parameters(map[], before));
    assert Pipelining.MessagesOf(AsDelayed(o.delayed)) == o.delayed;
  }

  /**
   The end of `connect_raw`: when the startup is done, a connection built from the framed
   stream and the delayed notices, and with it, what is around it, everything the theorems
   about runs start from.
   */
  method ConnectRaw(stream: StartupStream, ghost fs: seq<Frame>)
    returns (outcome: Outcome, connection: Option<Connection.Connection>,
        ghost w: Pipelining.World, ghost o: Pipelining.Origin)
    requires stream.Holds([], fs) && stream.delayed == [] && GoodServer(fs, stream.tail, stream.next)
    modifies stream, stream.src, stream.buf
    ensures outcome == AtEnd(Gather(NOTHING, fs).0, stream.ends, stream.tail)
    ensures connection.Some? <==> outcome.Done?
    ensures connection.Some? ==> fresh(connection.value) && connection.value.View() == w.conn
    ensures connection.Some? ==> Pipelining.Starts(w, o)
    ensures connection.Some? ==>
      var flight := Joined(stream.network) + Missing(stream.tail, stream.next);
      var unread := Coming(Gather(NOTHING, fs).1, stream.tail, stream.next);
      w == HandedOver(outcome.info, stream.src.data, flight, unread, stream.ends)
  {
    hide EncodeAll, Gather, GoodServer, Pipelining.Starts, Missing;
    assert [] + fs == fs;
    outcome := stream.ReadInfo([], fs);
    connection, w, o := None, HandedOver(NOTHING, [], [], [], false), Pipelining.Origin([], map[]);
    if outcome.Done? {
      var info, unread := outcome.info, Gather(NOTHING, fs).1;
      stream.HeldBytes(unread);
      var flight := Joined(stream.network);
      ghost var read;
      read, o := HandOver(fs, stream.tail, stream.next, stream.src.data, flight, stream.ends);
      w := HandedOver(info, stream.src.data, flight + Missing(stream.tail, stream.next),
        Coming(unread, stream.tail, stream.next), stream.ends);
      var c := new Connection.Connection(stream.src, stream.delayed, info.parameters);
      connection := Some(c);
    }
  }

  // ---- From the first byte on ----

  lemma {:induction false} SentGrows(start: Pipelining.World, steps: seq<Pipelining.Step>)
    ensures start.sent <= Pipelining.Run(start, steps).sent
    decreases |steps|
  {
    hide Pipelining.Allowed, Pipelining.AfterPoll, Connection.Valid, Encode;
    if steps != [] {
      SentGrows(start, steps[..|steps| - 1]);
      SentStep(Pipelining.Run(start, steps[..|steps| - 1]), steps[|steps| - 1]);
    }
  }

  lemma SentStep(w: Pipelining.World, step: Pipelining.Step)
    ensures w.sent <= Pipelining.Next(w, step).sent
  {
    hide Pipelining.Allowed, Connection.Valid, Connection.PollMessage, Encode;
  }

  /**
   The whole session: of all frames the server sends, the first to the first `ReadyForQuery`
   are the startup's answer and each client is given, in order, the frames of the answer that
   its request's place asks for; the parameters are those of all frames processed, and the
   notices and notifications surfaced are all of theirs, the startup's first.
   */
  lemma WholeSession(fs: seq<Frame>, tail: seq<byte>, next: Frame, src: seq<byte>, flight: seq<byte>, closed: bool,
      steps: seq<Pipelining.Step>)
    returns (read: seq<Frame>, s: Pipelining.Split)
    requires GoodServer(fs, tail, next) && Gather(NOTHING, fs).0.Done?
    requires EncodeAll(Gather(NOTHING, fs).1) + tail == src + flight
    ensures var (outcome, after) := Gather(NOTHING, fs);
      var start := HandedOver(outcome.info, src, flight + Missing(tail, next), Coming(after, tail, next), closed);
      var w := Pipelining.Run(start, steps);
      && fs == read + after && EndsReady(read) && Completed(read) == 1
      && Coming(fs, tail, next) <= read + w.sent && Pipelining.HowFar(w, s)
      && (forall i :: 0 <= i < |w.conn.channels| ==>
          && Pipelining.Given(w.conn.channels[i]) <= Answer(read + w.sent, i + 1)
          && (w.conn.channels[i].open ==> Pipelining.Given(w.conn.channels[i]) == Answer(read + s.consumed, i + 1)))
      && w.conn.parameters == Parameters(map[], read + s.consumed)
      && (s.held != [] || w.conn.pendingResponses == [] ==> w.surfaced == Announcements(read + s.consumed))
  {
    assert ShortOf(tail, [next]);
    hide EncodeAll, Gather, Announcements, Parameters, Completed, Answer, Missing, GoodServer, Coming;
    hide Pipelining.Starts, Pipelining.Run, Pipelining.Given;
    var (outcome, after) := Gather(NOTHING, fs);
    var o;
    read, o := HandOver(fs, tail, next, src, flight, closed);
    var start := HandedOver(outcome.info, src, flight + Missing(tail, next), Coming(after, tail, next), closed);
    var w := Pipelining.Run(start, steps);
    SentGrows(start, steps);
    ReadAndComing(read, after, tail, next, w.sent);
    s := Pipelining.NothingLost(start, o, steps);
    ReadBefore(read, s.consumed);
    forall i | 0 <= i < |w.conn.channels|
      ensures Pipelining.Given(w.conn.channels[i]) <= Answer(read + w.sent, i + 1)
      ensures w.conn.channels[i].open ==> Pipelining.Given(w.conn.channels[i]) == Answer(read + s.consumed, i + 1)
    {
      var t := Pipelining.PipeliningSafety(start, o, steps, i);
      Pipelining.HowFarIsUnique(w, s, t);
      LaterAnswers(read, w.sent, i);
      LaterAnswers(read, s.consumed, i);
    }
  }

  lemma ReadAndComing(read: seq<Frame>, after: seq<Frame>, tail: seq<byte>, next: Frame, sent: seq<Frame>)
    requires Coming(after, tail, next) <= sent
    ensures Coming(read + after, tail, next) <= read + sent
  {}

  // The startup's own frames come before all others.
  lemma ReadBefore(read: seq<Frame>, consumed: seq<Frame>)
    requires EndsReady(read)
    ensures Announcements(read + consumed) == Announcements(read[..|read| - 1]) + Announcements(consumed)
    ensures Parameters(map[], read + consumed) == Parameters(Parameters(map[], read[..|read| - 1]), consumed)
    ensures Completed(read) == Completed(read[..|read| - 1]) + 1
  {
    hide Announcements, Parameters, Answer;
    var before, last := read[..|read| - 1], read[|read| - 1];
    assert read == before + [last];
    OrdinaryFrame(map[], before, last);
    AnnouncementsConcat(read, consumed);
    ParametersConcat(map[], read, consumed);
  }

  lemma LaterAnswers(read: seq<Frame>, sent: seq<Frame>, i: nat)
    requires EndsReady(read) && Completed(read) == 1
    ensures Answer(read + sent, i + 1) == Answer(sent, i)
  {
    hide Answer, Completed;
    AnswersConcat(read, sent, i);
    NoneAfter(read, i + 1);
    assert [] + Answer(sent, i) == Answer(sent, i);
  }
}
