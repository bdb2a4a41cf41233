/**
 The read side over whole runs. A server, a client and the connection task take turns in
 any order; every request sees an in-order prefix of its own answer and nothing else.
 */
module Pipelining {
  import opened Bytes
  import opened Wrappers
  import opened Sequences
  import opened Backend
  import opened Codec
  import opened Answers
  import opened Connection
  import CopyIn

  /** The connection with its surroundings. */
  datatype World = World(
    conn: Conn,
    sent: seq<Frame>,          // frames the server has sent
    flight: seq<byte>,         // their bytes not yet arrived
    submitted: seq<Request>,   // requests the client has submitted
    surfaced: seq<Message>,    // notices and notifications `poll_message` has returned
    closed: bool,              // the server sends no more
    over: bool)                // `poll_message` returned for the last time

  datatype Step =
    | ServerSends(frame: Frame)
    | ServerCloses
    | EndArrives
    | Arrive(count: nat)
    | Poll(budget: nat, shut: bool)
    | Take(client: nat)
    | Abandon(client: nat)
    | Submit(bytes: seq<byte>)
    | SubmitCopy
    | CopyPush(copy: nat, item: CopyIn.Item)
    | CopyHangUp(copy: nat)
    | CloseClient

  /**
   What the environment may do. The server answers only requests it can have seen, each
   answer ending in one `ReadyForQuery`; asynchronous messages it sends at any time.
   */
  predicate Allowed(w: World, step: Step) {
    match step
    case ServerSends(f) =>
      && !w.closed && WellFormed(f)
      && (IsAsyncTag(f.tag) ==> MessageOf(f).Ok?)
      && (!IsAsyncTag(f.tag) ==> Completed(w.sent) < |w.conn.accepted|)
    case ServerCloses => true
    case EndArrives => w.closed
    case Arrive(n) => n <= |w.flight| && !w.conn.eof
    case Poll(_, _) => !w.over
    case Take(id) => id < |w.conn.channels| && w.conn.channels[id].open && w.conn.channels[id].queue != []
    case Abandon(id) => id < |w.conn.channels|
    case Submit(_) => !w.conn.receiverClosed
    case SubmitCopy => !w.conn.receiverClosed
    case CopyPush(id, _) => id < |w.conn.copies|
    case CopyHangUp(id) => id < |w.conn.copies|
    case CloseClient => true
  }

  const NEW_CHANNEL := ResponseChannel([], [], true)

  function AddRequest(w: World, m: RequestMessages): World {
    var q := Request(m, |w.conn.channels|);
    w.(submitted := w.submitted + [q],
       conn := w.conn.(receiver := w.conn.receiver + [q], channels := w.conn.channels + [NEW_CHANNEL]))
  }

  // The receiver is on its way before its sender has put anything in.
  const NEW_COPY := CopyIn.Receiver(CopyIn.Channel([], [], true, true), false, [])

  function AfterPoll(w: World, budget: nat, shut: bool): World
    requires Valid(w.conn)
  {
    var (c, polled) := PollMessage(w.conn, budget, shut);
    w.(conn := c,
       surfaced := if polled.Message? then w.surfaced + [polled.message] else w.surfaced,
       over := polled.Finished? || polled.Failed?)
  }

  function After(w: World, step: Step): World
    requires Valid(w.conn) && Allowed(w, step)
  {
    match step
    case ServerSends(f) => w.(sent := w.sent + [f], flight := w.flight + Encode(f))
    case ServerCloses => w.(closed := true)
    case EndArrives => w.(conn := w.conn.(eof := true))
    case Arrive(n) => w.(conn := w.conn.(src := w.conn.src + w.flight[..n]), flight := w.flight[n..])
    case Poll(budget, shut) => AfterPoll(w, budget, shut)
    case Take(id) =>
      w.(conn := w.conn.(channels := w.conn.channels[id := OneTaken(w.conn.channels[id])]))
    case Abandon(id) =>
      w.(conn := w.conn.(channels := w.conn.channels[id := w.conn.channels[id].(queue := [], open := false)]))
    case Submit(bytes) => AddRequest(w, Single(bytes))
    case SubmitCopy =>
      AddRequest(w.(conn := w.conn.(copies := w.conn.copies + [NEW_COPY])), RequestMessages.CopyIn(|w.conn.copies|))
    case CopyPush(id, item) =>
      var r := w.conn.copies[id];
      w.(conn := w.conn.(copies := w.conn.copies[id := r.(channel := CopyIn.Push(r.channel, item).0)]))
    case CopyHangUp(id) =>
      var r := w.conn.copies[id];
      w.(conn := w.conn.(copies := w.conn.copies[id := r.(channel := r.channel.(senderOpen := false))]))
    case CloseClient => w.(conn := w.conn.(receiverClosed := true))
  }

  // ---- The invariant of the read side ----

  /** The stream seen so far, by how far it has come. */
  datatype Split = Split(consumed: seq<Frame>, held: seq<Frame>, rest: seq<Frame>)

  /** What the connection started from. */
  datatype Origin = Origin(delayed: seq<Message>, parameters: map<seq<byte>, seq<byte>>)

  predicate AllAsync(ms: seq<BackendMessage>) {
    forall i :: 0 <= i < |ms| ==> ms[i].Async? && !ms[i].message.ParameterStatus?
  }

  function MessagesOf(ms: seq<BackendMessage>): seq<Message>
    requires AllAsync(ms)
  {
    seq(|ms|, i requires 0 <= i < |ms| => ms[i].message)
  }

  /** Frames a request's client has been given, in order. */
  function Given(ch: ResponseChannel): seq<Frame> {
    FramesOfAll(ch.taken + ch.queue)
  }

  /** Every batch a client has been given is whole frames and nothing else. */
  predicate AllWhole(batches: seq<seq<byte>>) {
    forall k :: 0 <= k < |batches| ==> Whole(batches[k])
  }

  /**
   `pending_responses` holds either leftover startup notices, before any frame has been
   processed, or at most one batch, and then somebody is waiting for it.
   */
  predicate HeldRight(c: Conn, surfaced: seq<Message>, o: Origin, s: Split) {
    if s.held == [] then
      AllAsync(c.pendingResponses)
      && (c.pendingResponses != [] ==> s.consumed == [])
      && surfaced + MessagesOf(c.pendingResponses) == o.delayed + Announcements(s.consumed)
    else
      IsBatch(s.held)
      && c.pendingResponses == [Normal(EncodeAll(s.held), EndsReady(s.held))]
      && surfaced == o.delayed + Announcements(s.consumed)
  }

  /** Outstanding requests are the accepted ones whose answers are not complete, in order. */
  predicate QueueRight(c: Conn, consumed: seq<Frame>) {
    && Completed(consumed) + |c.responses| == |c.accepted|
    && forall k :: 0 <= k < |c.responses| ==> c.responses[k] == Completed(consumed) + k
  }

  ghost predicate ChannelsRight(c: Conn, consumed: seq<Frame>) {
    forall i :: 0 <= i < |c.channels| ==>
      Given(c.channels[i]) <= Answer(consumed, i)
      && (c.channels[i].open ==> Given(c.channels[i]) == Answer(consumed, i))
      && AllWhole(c.channels[i].taken + c.channels[i].queue)
  }

  predicate RequestsRight(c: Conn, submitted: seq<Request>) {
    && submitted == c.accepted + c.receiver
    && |submitted| == |c.channels|
    && (forall i :: 0 <= i < |submitted| ==> submitted[i].sender == i)
  }

  ghost predicate ReadInv(c: Conn, sent: seq<Frame>, flight: seq<byte>, submitted: seq<Request>, surfaced: seq<Message>,
                          o: Origin, s: Split) {
    && Valid(c)
    && sent == s.consumed + s.held + s.rest && GoodFrames(sent)
    && EncodeAll(s.rest) == c.src + flight
    && HeldRight(c, surfaced, o, s)
    && QueueRight(c, s.consumed)
    && (forall i :: i >= |c.accepted| ==> Answer(sent, i) == [])
    && ChannelsRight(c, s.consumed)
    && RequestsRight(c, submitted)
    && c.parameters == Parameters(o.parameters, s.consumed)
  }

  // ---- One turn of the read loop ----

  // A batch in hand always has somebody waiting for it.
  lemma SomebodyWaits(c: Conn, sent: seq<Frame>, consumed: seq<Frame>, batch: seq<Frame>, rest: seq<Frame>)
    requires sent == consumed + batch + rest && IsBatch(batch)
    requires Completed(consumed) + |c.responses| == |c.accepted|
    requires forall i :: i >= |c.accepted| ==> Answer(sent, i) == []
    ensures c.responses != []
  {
    BatchIsOneAnswer(consumed, batch);
    AnswersGrow(consumed + batch, rest, Completed(consumed));
    assert Answer(sent, Completed(consumed)) != [];
  }

  // Putting a batch into a channel that can take it.
  lemma ChannelTakesBatch(ch: ResponseChannel, batch: seq<Frame>)
    requires AllWellFormed(batch)
    ensures Given(ch.(queue := ch.queue + [EncodeAll(batch)])) == Given(ch) + batch
    ensures AllWhole(ch.taken + ch.queue) ==> AllWhole(ch.taken + (ch.queue + [EncodeAll(batch)]))
  {
    hide EncodeAll;
    FramesOfEncoded(batch);
    assert ch.taken + (ch.queue + [EncodeAll(batch)]) == (ch.taken + ch.queue) + [EncodeAll(batch)];
    FramesOfAllSnoc(ch.taken + ch.queue, EncodeAll(batch));
  }

  /** A batch taken off the stream or out of `pending_responses`, not yet handed on. */
  ghost predicate InHand(c: Conn, sent: seq<Frame>, flight: seq<byte>, submitted: seq<Request>, surfaced: seq<Message>,
                         o: Origin, consumed: seq<Frame>, batch: seq<Frame>, rest: seq<Frame>) {
    && Valid(c)
    && sent == consumed + batch + rest && GoodFrames(sent) && IsBatch(batch)
    && EncodeAll(rest) == c.src + flight
    && c.pendingResponses == [] && surfaced == o.delayed + Announcements(consumed)
    && QueueRight(c, consumed)
    && (forall i :: i >= |c.accepted| ==> Answer(sent, i) == [])
    && ChannelsRight(c, consumed)
    && RequestsRight(c, submitted)
    && c.parameters == Parameters(o.parameters, consumed)
  }

  lemma BatchEncodable(consumed: seq<Frame>, batch: seq<Frame>, rest: seq<Frame>)
    requires GoodFrames(consumed + batch + rest)
    ensures AllWellFormed(batch)
  {
    hide MessageOf;
    GoodSplit(consumed + batch, rest);
    GoodSplit(consumed, batch);
  }

  // The channels after the oldest outstanding request received `batch`, or was found gone.
  lemma ChannelsAfterBatch(c: Conn, c': Conn, consumed: seq<Frame>, batch: seq<Frame>)
    requires ChannelsRight(c, consumed) && IsBatch(batch) && AllWellFormed(batch)
    requires c.responses != [] && c.responses[0] == Completed(consumed) < |c.channels|
    requires var id := c.responses[0];
      var ch := c.channels[id];
      c'.channels == if ch.open then c.channels[id := ch.(queue := ch.queue + [EncodeAll(batch)])] else c.channels
    ensures ChannelsRight(c', consumed + batch)
  {
    hide EncodeAll, Given, Answer, AllWhole;
    BatchIsOneAnswer(consumed, batch);
    var id := c.responses[0];
    ChannelTakesBatch(c.channels[id], batch);
    forall i | 0 <= i < |c'.channels|
      ensures Given(c'.channels[i]) <= Answer(consumed + batch, i)
        && (c'.channels[i].open ==> Given(c'.channels[i]) == Answer(consumed + batch, i))
        && AllWhole(c'.channels[i].taken + c'.channels[i].queue)
    {
      assert Given(c.channels[i]) <= Answer(consumed, i) <= Answer(consumed + batch, i);
    }
  }

  lemma DispatchKeepsInv(c: Conn, sent: seq<Frame>, flight: seq<byte>, submitted: seq<Request>, surfaced: seq<Message>,
                         o: Origin, consumed: seq<Frame>, batch: seq<Frame>, rest: seq<Frame>) returns (s: Split)
    requires InHand(c, sent, flight, submitted, surfaced, o, consumed, batch, rest)
    ensures var (c', outcome) := Dispatch(c, EncodeAll(batch), EndsReady(batch));
      && ReadInv(c', sent, flight, submitted, surfaced, o, s)
      && (outcome.Stop? ==> outcome.result == Ok(None))
  {
    hide EncodeAll, Given, Answer, MessageOf, Completed, Announcements, Parameters, ParseStep, GoodFrames;
    SomebodyWaits(c, sent, consumed, batch, rest);
    BatchEncodable(consumed, batch, rest);
    DispatchValid(c, EncodeAll(batch), EndsReady(batch));
    var id := c.responses[0];
    var c' := Dispatch(c, EncodeAll(batch), EndsReady(batch)).0;
    if SendReady(c.channels[id]).Pending? {
      s := Split(consumed, batch, rest);
      assert c.pendingResponses + [Normal(EncodeAll(batch), EndsReady(batch))]
        == [Normal(EncodeAll(batch), EndsReady(batch))];
      assert ChannelsRight(c', s.consumed);
    } else {
      s := Split(consumed + batch, [], rest);
      BatchIsOneAnswer(consumed, batch);
      OrdinaryFrames(o.parameters, consumed, batch);
      ChannelsAfterBatch(c, c', consumed, batch);
      assert consumed + batch + [] + rest == sent;
      assert surfaced + MessagesOf([]) == surfaced;
      assert ChannelsRight(c', s.consumed);
    }
  }

  // What the decoder takes next of the frames still to come.
  lemma NextOfStream(c: Conn, sent: seq<Frame>, flight: seq<byte>, consumed: seq<Frame>, rest: seq<Frame>)
    returns (batch: seq<Frame>, rest': seq<Frame>)
    requires sent == consumed + rest && GoodFrames(sent) && EncodeAll(rest) == c.src + flight
    ensures rest == batch + rest' && EncodeAll(rest') == Decoded(c.src).1 + flight
    ensures batch == [] ==> Decoded(c.src) == (Ok(None), c.src) && ShortOf(c.src, rest) && (flight == [] ==> rest == [])
    ensures batch != [] && IsAsyncTag(batch[0].tag) ==>
      batch == [batch[0]] && MessageOf(batch[0]).Ok? && Decoded(c.src).0 == Ok(Some(Async(MessageOf(batch[0]).value)))
    ensures batch != [] && !IsAsyncTag(batch[0].tag) ==>
      IsBatch(batch) && Decoded(c.src).0 == Ok(Some(Normal(EncodeAll(batch), EndsReady(batch))))
  {
    hide EncodeAll, Encode, MessageOf, Decoded;
    GoodSplit(consumed, rest);
    batch, rest' := DecodeNext(rest, c.src, flight);
    GoodSplit(batch, rest');
  }

  // What a finished turn of the loop adds to the surfaced messages.
  function Surfacing(surfaced: seq<Message>, outcome: ReadOutcome): seq<Message> {
    if outcome.Stop? && outcome.result.Ok? && outcome.result.value.Some?
    then surfaced + [outcome.result.value.value]
    else surfaced
  }

  lemma RetryNotice(c: Conn, sent: seq<Frame>, flight: seq<byte>, submitted: seq<Request>, surfaced: seq<Message>,
      o: Origin, s: Split)
    requires ReadInv(c, sent, flight, submitted, surfaced, o, s) && c.pendingResponses != [] && s.held == []
    ensures var (c', outcome) := ReadStep(c);
      outcome.Stop? && outcome.result.Ok? && ReadInv(c', sent, flight, submitted, Surfacing(surfaced, outcome), o, s)
  {
    hide EncodeAll, Given, Answer, Completed, Announcements, Parameters, GoodFrames, Decoded;
    var m := c.pendingResponses[0].message;
    assert MessagesOf(c.pendingResponses) == [m] + MessagesOf(c.pendingResponses[1..]);
    assert surfaced + [m] + MessagesOf(c.pendingResponses[1..]) == surfaced + MessagesOf(c.pendingResponses);
    assert ChannelsRight(ReadStep(c).0, s.consumed);
  }

  lemma RetryBatch(c: Conn, sent: seq<Frame>, flight: seq<byte>, submitted: seq<Request>, surfaced: seq<Message>,
      o: Origin, s: Split)
    returns (s': Split)
    requires ReadInv(c, sent, flight, submitted, surfaced, o, s) && s.held != []
    ensures var (c', outcome) := ReadStep(c);
      && ReadInv(c', sent, flight, submitted, surfaced, o, s')
      && (outcome.Stop? ==> outcome.result == Ok(None))
  {
    hide EncodeAll, Given, Answer, Completed, Announcements, Parameters, GoodFrames, Decoded, Dispatch;
    var c1 := c.(pendingResponses := []);
    assert c.pendingResponses[1..] == [];
    assert ChannelsRight(c1, s.consumed);
    s' := DispatchKeepsInv(c1, sent, flight, submitted, surfaced, o, s.consumed, s.held, s.rest);
    assert ReadStep(c) == Dispatch(c1, EncodeAll(s.held), EndsReady(s.held));
  }

  // An asynchronous frame comes off the stream.
  lemma AsyncArrives(c: Conn, sent: seq<Frame>, flight: seq<byte>, submitted: seq<Request>, surfaced: seq<Message>,
      o: Origin, s: Split, f: Frame, rest: seq<Frame>, c': Conn, surfaced': seq<Message>)
    requires ReadInv(c, sent, flight, submitted, surfaced, o, s) && c.pendingResponses == [] && s.held == []
    requires s.rest == [f] + rest && IsAsyncTag(f.tag) && MessageOf(f).Ok?
    requires var m := MessageOf(f).value;
      var parameters := if m.ParameterStatus? then c.parameters[m.name := m.value] else c.parameters;
      && c' == c.(src := c'.src, parameters := parameters)
      && surfaced' == surfaced + (if m.ParameterStatus? then [] else [m])
    requires EncodeAll(rest) == c'.src + flight
    ensures ReadInv(c', sent, flight, submitted, surfaced', o, Split(s.consumed + [f], [], rest))
  {
    hide EncodeAll, Given, Answer, Completed, Announcements, Parameters, GoodFrames, MessageOf;
    Snoc(s.consumed, f);
    AsyncIsNoAnswer(s.consumed, f);
    SnocParameters(o.parameters, s.consumed, f);
    assert s.consumed + [f] + [] + rest == sent;
    assert surfaced + MessagesOf([]) == surfaced && surfaced' + MessagesOf([]) == surfaced';
    assert ChannelsRight(c', s.consumed + [f]);
  }

  /** The read loop fails only here: the stream has ended, and every frame that arrived whole has been read. */
  predicate AtEnd(c: Conn, outcome: ReadOutcome, flight: seq<byte>, s: Split) {
    && outcome == Stop(Err(EndError(c))) && c.eof && c.pendingResponses == [] && s.held == []
    && ShortOf(c.src, s.rest) && (flight == [] ==> s.rest == [])
  }

  lemma NextFromStream(c: Conn, sent: seq<Frame>, flight: seq<byte>, submitted: seq<Request>, surfaced: seq<Message>,
      o: Origin, s: Split)
    returns (s': Split)
    requires ReadInv(c, sent, flight, submitted, surfaced, o, s) && c.pendingResponses == []
    ensures var (c', outcome) := ReadStep(c);
      && ReadInv(c', sent, flight, submitted, Surfacing(surfaced, outcome), o, s')
      && (outcome.Stop? ==> outcome.result.Ok? || AtEnd(c', outcome, flight, s'))
  {
    hide EncodeAll, Given, Answer, Completed, Announcements, Parameters, MessageOf, Decoded, Dispatch;
    assert s.held == [];
    assert sent == s.consumed + s.rest;
    var batch, rest := NextOfStream(c, sent, flight, s.consumed, s.rest);
    var c1 := c.(src := Decoded(c.src).1);
    if batch == [] {
      s' := s;
      if c.eof {
        assert ReadStep(c) == (c, Stop(Err(EndError(c))));
      } else {
        assert ReadStep(c) == (c, Stop(Ok(None)));
      }
    } else if IsAsyncTag(batch[0].tag) {
      s' := Split(s.consumed + [batch[0]], [], rest);
      var (c', outcome) := ReadStep(c);
      var m := MessageOf(batch[0]).value;
      assert Surfacing(surfaced, outcome) == surfaced + (if m.ParameterStatus? then [] else [m]);
      AsyncArrives(c, sent, flight, submitted, surfaced, o, s, batch[0], rest, c', Surfacing(surfaced, outcome));
    } else {
      assert surfaced + MessagesOf([]) == surfaced;
      assert sent == s.consumed + batch + rest;
      assert ChannelsRight(c1, s.consumed);
      s' := DispatchKeepsInv(c1, sent, flight, submitted, surfaced, o, s.consumed, batch, rest);
      assert ReadStep(c) == Dispatch(c1, EncodeAll(batch), EndsReady(batch));
    }
  }

  /** One turn of the read loop keeps the invariant, and fails only at the end of the stream. */
  lemma ReadStepKeepsInv(c: Conn, sent: seq<Frame>, flight: seq<byte>, submitted: seq<Request>,
      surfaced: seq<Message>, o: Origin, s: Split)
    returns (s': Split)
    requires ReadInv(c, sent, flight, submitted, surfaced, o, s)
    ensures var (c', outcome) := ReadStep(c);
      && ReadInv(c', sent, flight, submitted, Surfacing(surfaced, outcome), o, s')
      && (outcome.Stop? ==> outcome.result.Ok? || AtEnd(c', outcome, flight, s'))
  {
    hide ReadStep, Valid, QueueRight, ChannelsRight, RequestsRight, GoodFrames, EncodeAll, Answer, Parameters;
    if s.held != [] {
      s' := RetryBatch(c, sent, flight, submitted, surfaced, o, s);
    } else if c.pendingResponses != [] {
      s' := s;
      RetryNotice(c, sent, flight, submitted, surfaced, o, s);
    } else {
      s' := NextFromStream(c, sent, flight, submitted, surfaced, o, s);
    }
  }

  lemma {:induction false} ReadLoopKeepsInv(c: Conn, sent: seq<Frame>, flight: seq<byte>, submitted: seq<Request>,
      surfaced: seq<Message>, o: Origin, s: Split)
    returns (s': Split)
    requires ReadInv(c, sent, flight, submitted, surfaced, o, s)
    ensures ReadLoop(c).1.Ok? || AtEnd(ReadLoop(c).0, Stop(ReadLoop(c).1), flight, s')
    ensures ReadInv(ReadLoop(c).0, sent, flight, submitted, Surfacing(surfaced, Stop(ReadLoop(c).1)), o, s')
    decreases |c.pendingResponses| + |c.src|
  {
    hide ReadStep, Valid, HeldRight, QueueRight, ChannelsRight, RequestsRight, GoodFrames, EncodeAll, Answer;
    hide Parameters;
    ReadStepValid(c);
    s' := ReadStepKeepsInv(c, sent, flight, submitted, surfaced, o, s);
    if ReadStep(c).1.Continue? {
      s' := ReadLoopKeepsInv(ReadStep(c).0, sent, flight, submitted, surfaced, o, s');
    }
  }

  // ---- The write loop leaves the read side right ----

  lemma AcceptKeepsInv(c: Conn, sent: seq<Frame>, flight: seq<byte>, submitted: seq<Request>, surfaced: seq<Message>,
      o: Origin, s: Split)
    requires ReadInv(c, sent, flight, submitted, surfaced, o, s)
    ensures ReadInv(PollRequest(c).0, sent, flight, submitted, surfaced, o, s)
  {
    hide AllWhole, EncodeAll, Given, Answer, Completed, Announcements, Parameters, GoodFrames;
    var c' := PollRequest(c).0;
    if c.pendingRequest.None? && c.receiver != [] {
      assert submitted[|c.accepted|] == c.receiver[0];
      assert c.accepted + [c.receiver[0]] + c.receiver[1..] == submitted;
      assert ChannelsRight(c', s.consumed);
    } else {
      assert ChannelsRight(c', s.consumed);
    }
  }

  // Changes the read side does not look at.
  lemma SameReadSide(c: Conn, c': Conn, sent: seq<Frame>, flight: seq<byte>, submitted: seq<Request>,
      surfaced: seq<Message>, o: Origin, s: Split)
    requires ReadInv(c, sent, flight, submitted, surfaced, o, s) && Valid(c')
    requires OnlyWrites(c, c')
    ensures ReadInv(c', sent, flight, submitted, surfaced, o, s)
  {
    hide EncodeAll, Given, Answer, Completed, Announcements, Parameters, GoodFrames;
    assert ChannelsRight(c', s.consumed);
  }

  /** Nothing changed that the read side looks at. */
  ghost predicate OnlyWrites(c: Conn, c': Conn) {
    c' == c.(written := c'.written, state := c'.state, copies := c'.copies, pendingRequest := c'.pendingRequest,
             receiverClosed := c'.receiverClosed)
  }

  lemma SingleOnlyWrites(c: Conn, c0: Conn, bytes: seq<byte>)
    requires OnlyWrites(c0, c)
    ensures OnlyWrites(c0, WriteSingle(c, bytes).0)
  {}

  lemma CopyOnlyWrites(c: Conn, id: nat)
    requires id < |c.copies|
    ensures OnlyWrites(c, WriteCopy(c, id).0)
  {
    hide CopyIn.PollReceiver;
  }

  // Past the request taken, a write step only writes.
  lemma WriteStepWrites(c: Conn)
    requires Valid(c)
    ensures OnlyWrites(PollRequest(c).0, WriteStep(c).0)
  {
    var (c1, polled) := PollRequest(c);
    assert OnlyWrites(c1, c1) && OnlyWrites(c1, c1.(state := Terminating));
    assert polled.Ready? && polled.value.Some? && polled.value.value.CopyIn? ==> polled.value.value.copy < |c1.copies|;
    hide CopyIn.PollReceiver, OnlyWrites, WriteSingle, WriteCopy, PollRequest, Valid;
    match polled {
      case Pending =>
      case Ready(None) => SingleOnlyWrites(c1.(state := Terminating), c1, TERMINATE);
      case Ready(Some(Single(bytes))) => SingleOnlyWrites(c1, c1, bytes);
      case Ready(Some(CopyIn(id))) => CopyOnlyWrites(c1, id);
    }
  }

  lemma WriteStepKeepsReadInv(c: Conn, sent: seq<Frame>, flight: seq<byte>, submitted: seq<Request>,
      surfaced: seq<Message>, o: Origin, s: Split)
    requires ReadInv(c, sent, flight, submitted, surfaced, o, s)
    ensures ReadInv(WriteStep(c).0, sent, flight, submitted, surfaced, o, s)
  {
    hide HeldRight, QueueRight, ChannelsRight, RequestsRight, EncodeAll, Answer, Parameters, GoodFrames;
    hide CopyIn.PollReceiver, ReadInv, WriteStep, PollRequest, Valid;
    assert Valid(c) by { ReadInvValid(c, sent, flight, submitted, surfaced, o, s); }
    AcceptKeepsInv(c, sent, flight, submitted, surfaced, o, s);
    WriteStepValid(c);
    WriteStepWrites(c);
    SameReadSide(PollRequest(c).0, WriteStep(c).0, sent, flight, submitted, surfaced, o, s);
  }

  lemma ReadInvValid(c: Conn, sent: seq<Frame>, flight: seq<byte>, submitted: seq<Request>, surfaced: seq<Message>,
      o: Origin, s: Split)
    requires ReadInv(c, sent, flight, submitted, surfaced, o, s)
    ensures Valid(c)
  {
    hide Valid, HeldRight, QueueRight, ChannelsRight, RequestsRight, EncodeAll, Answer, Parameters, GoodFrames;
  }

  lemma {:induction false} PollWriteKeepsReadInv(c: Conn, budget: nat, sent: seq<Frame>, flight: seq<byte>,
      submitted: seq<Request>, surfaced: seq<Message>, o: Origin, s: Split)
    requires ReadInv(c, sent, flight, submitted, surfaced, o, s) && Valid(c)
    ensures ReadInv(PollWrite(c, budget).0, sent, flight, submitted, surfaced, o, s)
    decreases budget
  {
    hide ReadInv, Valid, WriteStep;
    if c.state != Closing && budget > 0 {
      WriteStepValid(c);
      WriteStepKeepsReadInv(c, sent, flight, submitted, surfaced, o, s);
      if WriteStep(c).1.Again? {
        PollWriteKeepsReadInv(WriteStep(c).0, budget - 1, sent, flight, submitted, surfaced, o, s);
      }
    }
  }

  // ---- Whole runs ----

  ghost predicate Inv(w: World, o: Origin, s: Split) {
    ReadInv(w.conn, w.sent, w.flight, w.submitted, w.surfaced, o, s) && (w.conn.eof ==> w.closed)
  }

  lemma PollKeepsInv(w: World, budget: nat, shut: bool, o: Origin, s: Split) returns (s': Split)
    requires Inv(w, o, s) && Valid(w.conn)
    ensures Inv(AfterPoll(w, budget, shut), o, s')
    ensures PollMessage(w.conn, budget, shut).1.Failed? ==>
      AtEnd(PollRead(w.conn).0, Stop(PollRead(w.conn).1), w.flight, s') && w.conn.state == Active
  {
    hide Valid, HeldRight, QueueRight, ChannelsRight, RequestsRight, EncodeAll, Answer, Parameters, GoodFrames;
    hide ReadInv, ReadLoop, PollWrite, AtEnd;
    s' := s;
    var c1 := PollRead(w.conn).0;
    ReadLoopValid(w.conn);
    var surfaced := Surfacing(w.surfaced, Stop(PollRead(w.conn).1));
    if w.conn.state == Active {
      s' := ReadLoopKeepsInv(w.conn, w.sent, w.flight, w.submitted, w.surfaced, o, s);
    }
    if PollRead(w.conn).1.Err? {
      var c3 := c1.(receiverClosed := true);
      assert Valid(c3) by { CloseValid(c1); }
      SameReadSide(c1, c3, w.sent, w.flight, w.submitted, surfaced, o, s');
    } else {
      PollWriteKeepsReadInv(c1, budget, w.sent, w.flight, w.submitted, surfaced, o, s');
      PollWriteValid(c1, budget);
      var c2 := PollWrite(c1, budget).0;
      var c3 := c2.(receiverClosed := true);
      assert Valid(c3) by { CloseValid(c2); }
      SameReadSide(c2, c3, w.sent, w.flight, w.submitted, surfaced, o, s');
    }
  }

  lemma CloseValid(c: Conn)
    requires Valid(c)
    ensures Valid(c.(receiverClosed := true))
  {}

  lemma ServerKeepsInv(w: World, f: Frame, o: Origin, s: Split) returns (s': Split)
    requires Inv(w, o, s) && Allowed(w, ServerSends(f))
    ensures Inv(After(w, ServerSends(f)), o, s')
  {
    hide Valid, MessagesOf, Announcements, QueueRight, ChannelsRight, RequestsRight, Encode, EncodeAll, Answer;
    hide Completed, Parameters, MessageOf;
    s' := s.(rest := s.rest + [f]);
    EncodeAllConcat(s.rest, [f]);
    EncodeAllCons(f, []);
    assert [f] + [] == [f];
    assert EncodeAll([]) == [] by { NothingEncoded(); }
    assert s.consumed + s.held + (s.rest + [f]) == w.sent + [f];
    Snoc(w.sent, f);
    assert w.conn.src + w.flight + Encode(f) == w.conn.src + (w.flight + Encode(f));
  }

  // Changes confined to the channels.
  lemma ChannelKeepsInv(w: World, id: nat, ch: ResponseChannel, o: Origin, s: Split)
    requires Inv(w, o, s) && id < |w.conn.channels|
    requires Given(ch) <= Given(w.conn.channels[id])
    requires ch.open ==> w.conn.channels[id].open && Given(ch) == Given(w.conn.channels[id])
    requires AllWhole(w.conn.channels[id].taken + w.conn.channels[id].queue) ==> AllWhole(ch.taken + ch.queue)
    ensures Inv(w.(conn := w.conn.(channels := w.conn.channels[id := ch])), o, s)
  {
    hide Given, EncodeAll, Answer, Completed, Parameters, GoodFrames, Announcements, AllWhole;
    assert ChannelsRight(w.conn.(channels := w.conn.channels[id := ch]), s.consumed);
  }

  lemma {:induction false} FewerBatches(a: seq<seq<byte>>, b: seq<seq<byte>>)
    ensures FramesOfAll(a) <= FramesOfAll(a + b)
    decreases |b|
  {
    hide FramesOf;
    if b == [] {
      assert a + b == a;
    } else {
      var most := b[..|b| - 1];
      FewerBatches(a, most);
      FramesOfAllSnoc(a + most, b[|b| - 1]);
      assert (a + most) + [b[|b| - 1]] == a + b;
    }
  }

  lemma NothingGivenYet()
    ensures Given(NEW_CHANNEL) == [] && AllWhole(NEW_CHANNEL.taken + NEW_CHANNEL.queue)
  {
    assert NEW_CHANNEL.taken + NEW_CHANNEL.queue == [];
  }

  lemma NewChannelRight(c: Conn, consumed: seq<Frame>, c': Conn)
    requires ChannelsRight(c, consumed) && Answer(consumed, |c.channels|) == []
    requires c'.channels == c.channels + [NEW_CHANNEL]
    ensures ChannelsRight(c', consumed)
  {
    hide Given, Answer, AllWhole;
    NothingGivenYet();
  }

  lemma SubmitKeepsInv(w: World, m: RequestMessages, o: Origin, s: Split)
    requires Inv(w, o, s) && (m.CopyIn? ==> m.copy < |w.conn.copies|)
    ensures Inv(AddRequest(w, m), o, s)
  {
    hide EncodeAll, Answer, Completed, Parameters, GoodFrames, Announcements, ChannelsRight;
    var n := |w.conn.channels|;
    AnswersGrow(s.consumed, s.held + s.rest, n);
    assert s.consumed + (s.held + s.rest) == w.sent;
    var w' := AddRequest(w, m);
    assert w'.submitted == w'.conn.accepted + w'.conn.receiver;
    NewChannelRight(w.conn, s.consumed, w'.conn);
  }

  lemma StepKeepsInv(w: World, step: Step, o: Origin, s: Split) returns (s': Split)
    requires Inv(w, o, s) && Valid(w.conn) && Allowed(w, step)
    ensures Inv(After(w, step), o, s')
  {
    hide ReadInv, MessageOf, Encode, PollMessage, Given, Valid;
    s' := s;
    match step
    case ServerSends(f) =>
      s' := ServerKeepsInv(w, f, o, s);
    case ServerCloses =>
    case EndArrives =>
      EndKeepsInv(w, o, s);
    case Arrive(n) =>
      ArriveKeepsInv(w, n, o, s);
    case Poll(budget, shut) =>
      s' := PollKeepsInv(w, budget, shut, o, s);
    case Take(id) =>
      TakeKeepsInv(w, id, o, s);
    case Abandon(id) =>
      AbandonKeepsInv(w, id, o, s);
    case Submit(bytes) =>
      SubmitKeepsInv(w, Single(bytes), o, s);
    case SubmitCopy =>
      var c' := w.conn.(copies := w.conn.copies + [NEW_COPY]);
      CopiesValid(w.conn, c');
      SameReadSide(w.conn, c', w.sent, w.flight, w.submitted, w.surfaced, o, s);
      SubmitKeepsInv(w.(conn := c'), RequestMessages.CopyIn(|w.conn.copies|), o, s);
    case CopyPush(id, item) =>
      var c' := After(w, step).conn;
      CopiesValid(w.conn, c');
      SameReadSide(w.conn, c', w.sent, w.flight, w.submitted, w.surfaced, o, s);
    case CopyHangUp(id) =>
      var c' := After(w, step).conn;
      CopiesValid(w.conn, c');
      SameReadSide(w.conn, c', w.sent, w.flight, w.submitted, w.surfaced, o, s);
    case CloseClient =>
      CloseValid(w.conn);
      SameReadSide(w.conn, After(w, step).conn, w.sent, w.flight, w.submitted, w.surfaced, o, s);
  }

  lemma CopiesValid(c: Conn, c': Conn)
    requires Valid(c) && c' == c.(copies := c'.copies) && |c'.copies| >= |c.copies|
    ensures Valid(c')
  {}

  lemma EndKeepsInv(w: World, o: Origin, s: Split)
    requires Inv(w, o, s) && Allowed(w, EndArrives)
    ensures Inv(After(w, EndArrives), o, s)
  {
    hide EncodeAll, Given, Answer, Completed, Parameters, GoodFrames, Announcements;
    assert ChannelsRight(After(w, EndArrives).conn, s.consumed);
  }

  lemma ArriveKeepsInv(w: World, n: nat, o: Origin, s: Split)
    requires Inv(w, o, s) && Valid(w.conn) && Allowed(w, Arrive(n))
    ensures Inv(After(w, Arrive(n)), o, s)
  {
    hide EncodeAll, Given, Answer, Completed, Parameters, GoodFrames, Announcements;
    assert w.conn.src + w.flight == w.conn.src + w.flight[..n] + w.flight[n..];
    assert ChannelsRight(After(w, Arrive(n)).conn, s.consumed);
  }

  lemma TakeKeepsInv(w: World, id: nat, o: Origin, s: Split)
    requires Inv(w, o, s) && Valid(w.conn) && Allowed(w, Take(id))
    ensures Inv(After(w, Take(id)), o, s)
  {
    hide ReadInv, FramesOfAll, AllWhole, Valid;
    var ch := w.conn.channels[id];
    assert ch.taken + [ch.queue[0]] + ch.queue[1..] == ch.taken + ch.queue;
    ChannelKeepsInv(w, id, ch.(queue := ch.queue[1..], taken := ch.taken + [ch.queue[0]]), o, s);
  }

  lemma WholeFront(a: seq<seq<byte>>, b: seq<seq<byte>>)
    ensures AllWhole(a + b) ==> AllWhole(a)
  {
    hide Whole;
    assert forall k :: 0 <= k < |a| ==> (a + b)[k] == a[k];
  }

  lemma AbandonKeepsInv(w: World, id: nat, o: Origin, s: Split)
    requires Inv(w, o, s) && Valid(w.conn) && Allowed(w, Abandon(id))
    ensures Inv(After(w, Abandon(id)), o, s)
  {
    hide ReadInv, FramesOfAll, AllWhole, Valid;
    var ch := w.conn.channels[id];
    FewerBatches(ch.taken, ch.queue);
    WholeFront(ch.taken, ch.queue);
    assert ch.taken + [] == ch.taken;
    ChannelKeepsInv(w, id, ch.(queue := [], open := false), o, s);
  }

  /** A step the environment may not take does not happen. */
  function Next(w: World, step: Step): World {
    if Valid(w.conn) && Allowed(w, step) then After(w, step) else w
  }

  function Run(start: World, steps: seq<Step>): World {
    if steps == [] then start else Next(Run(start, steps[..|steps| - 1]), steps[|steps| - 1])
  }

  /**
   A connection as the startup hands it over: nothing outstanding, the delayed notices
   pending, and on the wire at most asynchronous messages.
   */
  predicate Starts(w: World, o: Origin) {
    && AllAsync(w.conn.pendingResponses) && o == Origin(MessagesOf(w.conn.pendingResponses), w.conn.parameters)
    && w.conn == Conn(w.conn.src, false, [], w.conn.parameters, [], false, None, w.conn.pendingResponses, [],
      Active, [], [], [])
    && w.submitted == [] && w.surfaced == [] && !w.over
    && GoodFrames(w.sent) && EncodeAll(w.sent) == w.conn.src + w.flight
    && forall i :: 0 <= i < |w.sent| ==> IsAsyncTag(w.sent[i].tag)
  }

  lemma {:induction false} OnlyAsyncAnswersNothing(fs: seq<Frame>, i: nat)
    requires forall k :: 0 <= k < |fs| ==> IsAsyncTag(fs[k].tag)
    ensures Answer(fs, i) == []
    decreases |fs|
  {
    if fs != [] {
      OnlyAsyncAnswersNothing(fs[..|fs| - 1], i);
    }
  }

  lemma StartKeepsInv(w: World, o: Origin)
    requires Starts(w, o)
    ensures Inv(w, o, Split([], [], w.sent))
  {
    hide EncodeAll, GoodFrames;
    forall i | i >= 0
      ensures Answer(w.sent, i) == []
    {
      OnlyAsyncAnswersNothing(w.sent, i);
    }
    assert [] + [] + w.sent == w.sent;
    hide Answer;
  }

  /** Every interleaving of the server, the client, the network and the polls keeps the invariant. */
  lemma {:induction false} RunKeepsInv(start: World, o: Origin, steps: seq<Step>) returns (s: Split)
    requires Starts(start, o)
    ensures Inv(Run(start, steps), o, s)
    decreases |steps|
  {
    hide ReadInv, Starts, After, Allowed, Valid;
    if steps == [] {
      StartKeepsInv(start, o);
      s := Split([], [], start.sent);
    } else {
      var before := Run(start, steps[..|steps| - 1]);
      s := RunKeepsInv(start, o, steps[..|steps| - 1]);
      if Valid(before.conn) && Allowed(before, steps[|steps| - 1]) {
        s := StepKeepsInv(before, steps[|steps| - 1], o, s);
      }
    }
  }

  // ---- How far the connection has come ----

  /**
   The frames it has processed, the batch it has put aside, and the frames not yet decoded,
   which are the bytes it has read and the bytes still in flight.
   */
  ghost predicate HowFar(w: World, s: Split) {
    && w.sent == s.consumed + s.held + s.rest
    && EncodeAll(s.rest) == w.conn.src + w.flight
    && if s.held == [] then AllAsync(w.conn.pendingResponses)
       else w.conn.pendingResponses == [Normal(EncodeAll(s.held), EndsReady(s.held))]
  }

  // Two ends of one stream that encode to equally many bytes are the same.
  lemma SameEnds(a: seq<Frame>, b: seq<Frame>, a': seq<Frame>, b': seq<Frame>)
    requires a + b == a' + b' && |EncodeAll(b)| == |EncodeAll(b')|
    ensures a == a' && b == b'
    decreases |b|
  {
    hide Encode, EncodeAll;
    if |b| > |b'| {
      SameEnds(a', b', a, b);
    } else {
      var n := |b'| - |b|;
      assert b == b'[n..] by {
        assert b == (a + b)[|a|..] && b'[n..] == (a' + b')[|a|..];
      }
      EncodeAllConcat(b'[..n], b);
      assert b' == b'[..n] + b;
      LongerThanFrames(b'[..n]);
      assert n == 0;
      assert a == (a + b)[..|a|] && a' == (a' + b')[..|a|];
    }
  }

  lemma {:induction false} LongerThanFrames(fs: seq<Frame>)
    ensures |EncodeAll(fs)| >= |fs|
    decreases |fs|
  {
    if fs != [] {
      LongerThanFrames(fs[1..]);
    }
  }

  /** The connection, the frames sent and the bytes in flight leave no choice. */
  lemma HowFarIsUnique(w: World, s: Split, t: Split)
    requires HowFar(w, s) && HowFar(w, t)
    ensures s == t
  {
    hide EncodeAll;
    SameEnds(s.consumed + s.held, s.rest, t.consumed + t.held, t.rest);
    if s.held != [] && t.held != [] {
      SameEnds(s.consumed, s.held, t.consumed, t.held);
    } else {
      var p := w.conn.pendingResponses;
      assert AllAsync(p) ==> p == [] || p[0].Async?;
      assert s.held == t.held == [];
      assert s.consumed + [] == s.consumed && t.consumed + [] == t.consumed;
    }
  }

  lemma InvTellsHowFar(w: World, o: Origin, s: Split)
    requires Inv(w, o, s)
    ensures HowFar(w, s)
  {
    hide Valid, QueueRight, ChannelsRight, RequestsRight, EncodeAll, Answer, Parameters, GoodFrames;
  }

  /**
   Pipelining safety: in every reachable state the client of request `i` has been given an
   in-order prefix of exactly the `i`-th answer, and if it still listens, all of it that the
   connection has processed; nothing arrives out of order, twice, or at another client.
   */
  lemma PipeliningSafety(start: World, o: Origin, steps: seq<Step>, i: nat) returns (s: Split)
    requires Starts(start, o) && i < |Run(start, steps).conn.channels|
    ensures var w := Run(start, steps);
      && HowFar(w, s)
      && Given(w.conn.channels[i]) <= Answer(w.sent, i)
      && (w.conn.channels[i].open ==> Given(w.conn.channels[i]) == Answer(s.consumed, i))
  {
    hide HeldRight, QueueRight, RequestsRight, Given, Answer, Parameters, EncodeAll, GoodFrames, Starts, Run;
    s := RunKeepsInv(start, o, steps);
    var w := Run(start, steps);
    InvTellsHowFar(w, o, s);
    AnswersGrow(s.consumed, s.held + s.rest, i);
    assert s.consumed + (s.held + s.rest) == w.sent;
  }

  /**
   No frame is lost: the bytes still buffered or in flight, the batch put aside, and the
   frames already processed make up everything the server sent; the processed notices and
   notifications have all been surfaced, in order, after the startup's.
   */
  lemma NothingLost(start: World, o: Origin, steps: seq<Step>) returns (s: Split)
    requires Starts(start, o)
    ensures var w := Run(start, steps);
      && HowFar(w, s)
      && (s.held != [] || w.conn.pendingResponses == [] ==> w.surfaced == o.delayed + Announcements(s.consumed))
      && w.conn.parameters == Parameters(o.parameters, s.consumed)
  {
    hide QueueRight, ChannelsRight, RequestsRight, Announcements, Answer, Parameters, EncodeAll, GoodFrames;
    hide Starts, Run;
    s := RunKeepsInv(start, o, steps);
    var w := Run(start, steps);
    InvTellsHowFar(w, o, s);
    assert w.surfaced + [] == w.surfaced;
  }

  /**
   A poll fails only at the end of the stream, when the server has closed and every frame that
   arrived whole has been processed: then every client that still listens has all of its answer
   that arrived, and all of it if nothing was lost on the way. The error tells whether a frame
   was cut in two.
   */
  lemma FailsOnlyAtEnd(start: World, o: Origin, steps: seq<Step>, budget: nat, shut: bool) returns (s: Split)
    requires Starts(start, o)
    ensures Valid(Run(start, steps).conn)
    ensures var w := Run(start, steps);
      var (c, polled) := PollMessage(w.conn, budget, shut);
      polled.Failed? ==>
        && polled.error == EndError(c) && w.closed && w.conn.eof
        && w.sent == s.consumed + s.rest && EncodeAll(s.rest) == c.src + w.flight && ShortOf(c.src, s.rest)
        && (w.flight == [] ==> w.sent == s.consumed && polled.error == Closed)
        && (forall i :: 0 <= i < |c.channels| && c.channels[i].open ==> Given(c.channels[i]) == Answer(s.consumed, i))
  {
    hide HeldRight, QueueRight, RequestsRight, Given, Answer, Parameters, EncodeAll, GoodFrames, Starts, Run, PollRead;
    s := RunKeepsInv(start, o, steps);
    var w := Run(start, steps);
    ReadInvValid(w.conn, w.sent, w.flight, w.submitted, w.surfaced, o, s);
    hide Valid;
    ReadLoopValid(w.conn);
    s := PollKeepsInv(w, budget, shut, o, s);
    if PollMessage(w.conn, budget, shut).1.Failed? {
      assert s.consumed + [] + s.rest == s.consumed + s.rest && s.consumed + [] == s.consumed;
      NothingEncoded();
      assert w.flight == [] ==> PollRead(w.conn).0.src == [];
      SameEnd(w.conn);
    }
  }

  lemma SameEnd(c: Conn)
    requires Valid(c)
    ensures PollRead(c).0.eof == c.eof
  {
    hide Valid, ReadLoop;
    ReadLoopValid(c);
  }
}
