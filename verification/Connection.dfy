/**
 The connection task: it reads batches off the stream and hands them to the outstanding
 requests by position, and writes queued requests, all from one `poll_message`.
 */
module Connection {
  import opened Bytes
  import opened Wrappers
  import opened Backend
  import opened Codec
  import Frontend
  import CopyIn

  datatype RequestMessages = Single(bytes: seq<byte>) | CopyIn(copy: nat)

  /** A request and the response channel its sender belongs to. */
  datatype Request = Request(messages: RequestMessages, sender: nat)

  datatype State = Active | Terminating | Closing

  datatype Error = Parse | Db | UnexpectedMessage | Closed

  /** Response channels hold one batch plus the sender's own slot. */
  const RESPONSE_BUFFER: nat := 1

  /** A bounded channel of batches: still queued, already taken by the client, and whether the client listens. */
  datatype ResponseChannel = ResponseChannel(queue: seq<seq<byte>>, taken: seq<seq<byte>>, open: bool)

  /** The client takes the oldest batch. */
  function OneTaken(ch: ResponseChannel): ResponseChannel
    requires ch.queue != []
  {
    ch.(queue := ch.queue[1..], taken := ch.taken + [ch.queue[0]])
  }

  /**
   Everything `poll_message` can see. `channels` and `copies` are the other ends of the
   request and copy channels; `written` is all that was handed to the socket and
   `accepted` the history of requests taken from the client.
   */
  datatype Conn = Conn(
    src: seq<byte>, eof: bool, written: seq<byte>,
    parameters: map<seq<byte>, seq<byte>>,
    receiver: seq<Request>, receiverClosed: bool,
    pendingRequest: Option<RequestMessages>,
    pendingResponses: seq<BackendMessage>,
    responses: seq<nat>,
    state: State,
    channels: seq<ResponseChannel>,
    copies: seq<CopyIn.Receiver>,
    accepted: seq<Request>)

  const TERMINATE: seq<byte> := Frontend.Wire(Frontend.Terminate)

  /** Senders and copies name channels that exist. */
  predicate Valid(c: Conn) {
    && (forall i :: 0 <= i < |c.responses| ==> c.responses[i] < |c.channels|)
    && (forall i :: 0 <= i < |c.receiver| ==> c.receiver[i].sender < |c.channels|)
    && (forall i :: 0 <= i < |c.receiver| && c.receiver[i].messages.CopyIn? ==>
        c.receiver[i].messages.copy < |c.copies|)
    && (c.pendingRequest.Some? ==> c.pendingRequest.value.CopyIn? && c.pendingRequest.value.copy < |c.copies|)
  }

  // ---- Reading ----

  datatype ReadOutcome = Continue | Stop(result: Result<Option<Message>, Error>)

  /** `poll_response`: a message put aside earlier, else the next one of the stream. */
  function PollResponse(c: Conn): (r: (Conn, Poll<Option<Result<BackendMessage, Error>>>))
    ensures r.1.Ready? && r.1.value.Some? && r.1.value.value.Ok? ==>
      |r.0.pendingResponses| + |r.0.src| < |c.pendingResponses| + |c.src|
  {
    if c.pendingResponses != [] then
      (c.(pendingResponses := c.pendingResponses[1..]), Ready(Some(Ok(c.pendingResponses[0]))))
    else
      var (decoded, rest) := Decoded(c.src);
      match decoded
      case Err(_) => (c.(src := rest), Ready(Some(Err(Parse))))
      case Ok(Some(m)) => (c.(src := rest), Ready(Some(Ok(m))))
      case Ok(None) => (c, if c.eof then (if c.src == [] then Ready(None) else Ready(Some(Err(Parse)))) else Pending)
  }

  /** How a stream that has nothing more to decode ends: inside a frame or not. */
  function EndError(c: Conn): Error {
    if c.src == [] then Closed else Parse
  }

  // `poll_ready` and `start_send` of one response sender.
  function SendReady(ch: ResponseChannel): Poll<bool> {
    if !ch.open then Ready(false) else if |ch.queue| <= RESPONSE_BUFFER then Ready(true) else Pending
  }

  /** A batch for the oldest outstanding request, or an error when there is none. */
  function Dispatch(c: Conn, batch: seq<byte>, complete: bool): (Conn, ReadOutcome)
    requires Valid(c)
  {
    if c.responses == [] then
      (c, Stop(Err(match ParseStep(batch).0
                   case Err(_) => Parse
                   case Ok(Some(ErrorResponse(_))) => Db
                   case Ok(_) => UnexpectedMessage)))
    else
      var id := c.responses[0];
      var ch := c.channels[id];
      var left := if complete then c.responses[1..] else c.responses;
      match SendReady(ch)
      case Pending => (c.(pendingResponses := c.pendingResponses + [Normal(batch, complete)]), Stop(Ok(None)))
      case Ready(false) => (c.(responses := left), Continue)
      case Ready(true) =>
        (c.(responses := left, channels := c.channels[id := ch.(queue := ch.queue + [batch])]), Continue)
  }

  /** One turn of the loop in `poll_read`. */
  function ReadStep(c: Conn): (Conn, ReadOutcome)
    requires Valid(c)
  {
    match PollResponse(c)
    case (c', Pending) => (c', Stop(Ok(None)))
    case (c', Ready(None)) => (c', Stop(Err(Closed)))
    case (c', Ready(Some(Err(e)))) => (c', Stop(Err(e)))
    case (c', Ready(Some(Ok(Async(m))))) =>
      if m.ParameterStatus? then (c'.(parameters := c'.parameters[m.name := m.value]), Continue)
      else (c', Stop(Ok(Some(m))))
    case (c', Ready(Some(Ok(Normal(batch, complete))))) => Dispatch(c', batch, complete)
  }

  lemma DispatchValid(c: Conn, batch: seq<byte>, complete: bool)
    requires Valid(c)
    ensures Valid(Dispatch(c, batch, complete).0) && Dispatch(c, batch, complete).0.eof == c.eof
    ensures Dispatch(c, batch, complete).1.Continue? ==>
      && Dispatch(c, batch, complete).0.pendingResponses == c.pendingResponses
      && Dispatch(c, batch, complete).0.src == c.src
  {
    hide ParseStep;
  }

  lemma ReadStepValid(c: Conn)
    requires Valid(c)
    ensures Valid(ReadStep(c).0) && ReadStep(c).0.eof == c.eof
    ensures ReadStep(c).1.Continue? ==>
      |ReadStep(c).0.pendingResponses| + |ReadStep(c).0.src| < |c.pendingResponses| + |c.src|
  {
    hide Decoded, Dispatch;
    var (c', polled) := PollResponse(c);
    assert Valid(c');
    if polled.Ready? && polled.value.Some? && polled.value.value.Ok? && polled.value.value.value.Normal? {
      DispatchValid(c', polled.value.value.value.messages, polled.value.value.value.requestComplete);
    }
  }

  function ReadLoop(c: Conn): (Conn, Result<Option<Message>, Error>)
    requires Valid(c)
    decreases |c.pendingResponses| + |c.src|
  {
    ReadStepValid(c);
    match ReadStep(c)
    case (c', Continue) => ReadLoop(c')
    case (c', Stop(r)) => (c', r)
  }

  function PollRead(c: Conn): (Conn, Result<Option<Message>, Error>)
    requires Valid(c)
  {
    if c.state != Active then (c, Ok(None)) else ReadLoop(c)
  }

  // ---- Writing ----

  /** `poll_request`: the copy in progress, else the next queued request. */
  function PollRequest(c: Conn): (Conn, Poll<Option<RequestMessages>>) {
    if c.pendingRequest.Some? then (c.(pendingRequest := None), Ready(Some(c.pendingRequest.value)))
    else if c.receiver != [] then
      var q := c.receiver[0];
      (c.(receiver := c.receiver[1..], responses := c.responses + [q.sender], accepted := c.accepted + [q]),
       Ready(Some(q.messages)))
    else (c, if c.receiverClosed then Ready(None) else Pending)
  }

  datatype WriteOutcome = Again | Done(wantFlush: bool)

  function WriteSingle(c: Conn, bytes: seq<byte>): (Conn, WriteOutcome) {
    (c.(written := c.written + bytes, state := if c.state == Terminating then Closing else c.state), Again)
  }

  function WriteCopy(c: Conn, id: nat): (Conn, WriteOutcome)
    requires id < |c.copies|
  {
    var (r, polled) := CopyIn.PollReceiver(c.copies[id]);
    var c' := c.(copies := c.copies[id := r]);
    match polled
    case Ready(None) => (c.(copies := c.copies[id := CopyIn.HangUp(r)]), Again)
    case Pending => (c'.(pendingRequest := Some(RequestMessages.CopyIn(id))), Done(true))
    case Ready(Some(bytes)) =>
      (c'.(written := c'.written + bytes, pendingRequest := Some(RequestMessages.CopyIn(id))), Again)
  }

  /** One turn of the loop in `poll_write`, the socket being ready. */
  function WriteStep(c: Conn): (Conn, WriteOutcome)
    requires Valid(c)
  {
    match PollRequest(c)
    case (c', Pending) => (c', Done(true))
    case (c', Ready(None)) =>
      if c'.responses == [] && c'.state == Active then WriteSingle(c'.(state := Terminating), TERMINATE)
      else (c', Done(true))
    case (c', Ready(Some(Single(bytes)))) => WriteSingle(c', bytes)
    case (c', Ready(Some(CopyIn(id)))) => WriteCopy(c', id)
  }

  lemma WriteCopyValid(c: Conn, id: nat)
    requires Valid(c) && id < |c.copies|
    ensures Valid(WriteCopy(c, id).0) && WriteCopy(c, id).0.eof == c.eof
  {
    hide CopyIn.PollReceiver;
  }

  lemma WriteStepValid(c: Conn)
    requires Valid(c)
    ensures Valid(WriteStep(c).0) && WriteStep(c).0.eof == c.eof
  {
    hide WriteCopy;
    var (c', polled) := PollRequest(c);
    assert Valid(c');
    if polled.Ready? && polled.value.Some? && polled.value.value.CopyIn? {
      WriteCopyValid(c', polled.value.value.copy);
    }
  }

  /** `poll_write` against a socket that is ready `budget` times before it makes us wait. */
  function PollWrite(c: Conn, budget: nat): (Conn, bool)
    requires Valid(c)
    decreases budget
  {
    if c.state == Closing || budget == 0 then (c, false)
    else
      WriteStepValid(c);
      match WriteStep(c)
      case (c', Again) => PollWrite(c', budget - 1)
      case (c', Done(wantFlush)) => (c', wantFlush)
  }

  lemma {:induction false} PollWriteValid(c: Conn, budget: nat)
    requires Valid(c)
    ensures Valid(PollWrite(c, budget).0) && PollWrite(c, budget).0.eof == c.eof
    decreases budget
  {
    hide WriteStep, Valid;
    if c.state != Closing && budget > 0 {
      WriteStepValid(c);
      if WriteStep(c).1.Again? {
        PollWriteValid(WriteStep(c).0, budget - 1);
      }
    }
  }

  // ---- Polling ----

  /** What the caller of `poll_message` sees. */
  datatype Polled = Nothing | Message(message: Backend.Message) | Finished | Failed(error: Error)

  lemma {:induction false} ReadLoopValid(c: Conn)
    requires Valid(c)
    ensures Valid(ReadLoop(c).0) && ReadLoop(c).0.eof == c.eof
    decreases |c.pendingResponses| + |c.src|
  {
    hide ReadStep;
    ReadStepValid(c);
    if ReadStep(c).1.Continue? {
      ReadLoopValid(ReadStep(c).0);
    }
  }

  /** `poll_message`; `shut` says whether the socket has finished closing. */
  function PollMessage(c: Conn, budget: nat, shut: bool): (Conn, Polled)
    requires Valid(c)
  {
    ReadLoopValid(c);
    match PollRead(c)
    case (c', Err(e)) => (c'.(receiverClosed := true), Failed(e))
    case (c', Ok(message)) =>
      var c'' := PollWrite(c', budget).0;
      match message
      case Some(m) => (c'', Message(m))
      case None => if c''.state == Closing && shut then (c''.(receiverClosed := true), Finished) else (c'', Nothing)
  }

  // ---- The connection task itself ----

  class Connection {
    const src: BytesMut
    var eof: bool
    var written: seq<byte>
    var parameters: map<seq<byte>, seq<byte>>
    var receiver: seq<Request>
    var receiverClosed: bool
    var pendingRequest: Option<RequestMessages>
    var pendingResponses: seq<BackendMessage>
    var responses: seq<nat>
    var state: State
    var channels: seq<ResponseChannel>
    var copies: seq<CopyIn.Receiver>
    ghost var accepted: seq<Request>

    ghost function View(): Conn
      reads this, src
    {
      Conn(src.data, eof, written, parameters, receiver, receiverClosed, pendingRequest, pendingResponses,
           responses, state, channels, copies, accepted)
    }

    /** A connection starts with the notices put aside during startup and nothing outstanding. */
    constructor (stream: BytesMut, delayed: seq<BackendMessage>, parameters: map<seq<byte>, seq<byte>>)
      ensures View() == Conn(stream.data, false, [], parameters, [], false, None, delayed, [], Active, [], [], [])
      ensures Valid(View())
    {
      src := stream;
      eof, written := false, [];
      this.parameters := parameters;
      receiver, receiverClosed := [], false;
      pendingRequest, pendingResponses := None, delayed;
      responses, state := [], Active;
      channels, copies, accepted := [], [], [];
    }

    method NextResponse() returns (r: Poll<Option<Result<BackendMessage, Error>>>)
      modifies this`pendingResponses, src
      ensures (View(), r) == PollResponse(old(View()))
    {
      hide Decoded;
      if pendingResponses != [] {
        var m := pendingResponses[0];
        pendingResponses := pendingResponses[1..];
        return Ready(Some(Ok(m)));
      }
      var decoded := Decode(src);
      match decoded
      case Err(_) => return Ready(Some(Err(Parse)));
      case Ok(Some(m)) => return Ready(Some(Ok(m)));
      case Ok(None) =>
        if !eof {
          return Pending;
        } else if src.data == [] {
          return Ready(None);
        } else {
          return Ready(Some(Err(Parse)));
        }
    }

    /** The batch goes to the oldest request, which stays first until its answer is complete. */
    method Deliver(batch: seq<byte>, complete: bool) returns (r: ReadOutcome)
      requires Valid(View())
      modifies this`responses, this`channels, this`pendingResponses
      ensures (View(), r) == Dispatch(old(View()), batch, complete)
    {
      hide ParseStep;
      if responses == [] {
        match ParseStep(batch).0 {
          case Err(_) => return Stop(Err(Parse));
          case Ok(Some(ErrorResponse(_))) => return Stop(Err(Db));
          case Ok(_) => return Stop(Err(UnexpectedMessage));
        }
      }
      ghost var all := responses;
      var id := responses[0];
      responses := responses[1..];
      assert [id] + responses == all;
      match SendReady(channels[id]) {
        case Ready(true) =>
          channels := channels[id := channels[id].(queue := channels[id].queue + [batch])];
          if !complete {
            responses := [id] + responses;
          }
        case Ready(false) =>
          if !complete {
            responses := [id] + responses;
          }
        case Pending =>
          responses := [id] + responses;
          pendingResponses := pendingResponses + [Normal(batch, complete)];
          return Stop(Ok(None));
      }
      return Continue;
    }

    method Read() returns (r: Result<Option<Backend.Message>, Error>)
      requires Valid(View())
      modifies this, src
      ensures (View(), r) == PollRead(old(View())) && Valid(View())
    {
      hide Decoded, PollResponse, Dispatch;
      if state != Active {
        return Ok(None);
      }
      while true
        invariant Valid(View()) && ReadLoop(View()) == ReadLoop(old(View()))
        decreases |pendingResponses| + |src.data|
      {
        ghost var before := View();
        ReadStepValid(before);
        var polled := NextResponse();
        if polled.Pending? {
          return Ok(None);
        }
        if polled.value.None? {
          return Err(Closed);
        }
        if polled.value.value.Err? {
          return Err(polled.value.value.error);
        }
        match polled.value.value.value {
          case Async(m) =>
            if m.ParameterStatus? {
              parameters := parameters[m.name := m.value];
            } else {
              return Ok(Some(m));
            }
          case Normal(batch, complete) =>
            var outcome := Deliver(batch, complete);
            if outcome.Stop? {
              return outcome.result;
            }
        }
        assert ReadStep(before) == (View(), Continue);
      }
    }

    method NextRequest() returns (r: Poll<Option<RequestMessages>>)
      modifies this
      ensures (View(), r) == PollRequest(old(View()))
    {
      if pendingRequest.Some? {
        var m := pendingRequest.value;
        pendingRequest := None;
        return Ready(Some(m));
      }
      if receiver != [] {
        var q := receiver[0];
        receiver := receiver[1..];
        responses := responses + [q.sender];
        accepted := accepted + [q];
        return Ready(Some(q.messages));
      }
      if receiverClosed {
        return Ready(None);
      }
      return Pending;
    }

    /** A single message is sent whole; a copy sends its next message and stays pending. */
    method SendMessages(request: RequestMessages) returns (r: WriteOutcome)
      requires request.CopyIn? ==> request.copy < |copies|
      modifies this`written, this`state, this`copies, this`pendingRequest
      ensures (View(), r)
           == match request
              case Single(bytes) => WriteSingle(old(View()), bytes)
              case CopyIn(id) => WriteCopy(old(View()), id)
    {
      hide CopyIn.PollReceiver;
      match request {
        case Single(bytes) =>
          written := written + bytes;
          if state == Terminating {
            state := Closing;
          }
        case CopyIn(id) =>
          var (receiver, next) := CopyIn.PollReceiver(copies[id]);
          copies := copies[id := receiver];
          match next {
            case Ready(None) =>
              // The finished receiver is dropped.
              copies := copies[id := CopyIn.HangUp(copies[id])];
              assert copies == old(copies)[id := CopyIn.HangUp(receiver)];
            case Pending =>
              pendingRequest := Some(request);
              return Done(true);
            case Ready(Some(bytes)) =>
              written := written + bytes;
              pendingRequest := Some(request);
          }
      }
      return Again;
    }

    method Write(budget: nat) returns (wantFlush: bool)
      requires Valid(View())
      modifies this
      ensures (View(), wantFlush) == PollWrite(old(View()), budget) && Valid(View())
    {
      hide WriteSingle, WriteCopy, Frontend.Wire;
      var ready: nat := budget;
      while true
        invariant Valid(View()) && ready <= budget && PollWrite(View(), ready) == PollWrite(old(View()), budget)
        decreases ready
      {
        ghost var before := View();
        WriteStepValid(before);
        if state == Closing || ready == 0 {
          return false;
        }
        ready := ready - 1;
        var polled := NextRequest();
        var request;
        match polled {
          case Pending => return true;
          case Ready(None) =>
            if responses == [] && state == Active {
              state := Terminating;
              var buf := new BytesMut();
              Frontend.WriteEmpty(Frontend.Terminate, buf);
              assert buf.data == TERMINATE;
              request := Single(buf.data);
            } else {
              return true;
            }
          case Ready(Some(q)) => request := q;
        }
        var outcome := SendMessages(request);
        if outcome.Done? {
          return outcome.wantFlush;
        }
        assert WriteStep(before) == (View(), Again);
      }
    }

    method Poll(budget: nat, shut: bool) returns (r: Polled)
      requires Valid(View())
      modifies this, src
      ensures (View(), r) == PollMessage(old(View()), budget, shut) && Valid(View())
    {
      hide ReadLoop, WriteStep;
      var message := Read();
      if message.Err? {
        receiverClosed := true;
        return Failed(message.error);
      }
      var wantFlush := Write(budget);
      if message.value.Some? {
        return Message(message.value.value);
      }
      if state == Closing && shut {
        receiverClosed := true;
        return Finished;
      }
      return Nothing;
    }
  }
}
