/**
 What one poll of the connection achieves: it reads as far as it can, and writes as much as
 the socket takes.
 */
module Progress {
  import opened Bytes
  import opened Wrappers
  import opened Sequences
  import opened Backend
  import opened Codec
  import opened Answers
  import opened Connection
  import opened Pipelining
  import CopyIn
  import WireOrder

  // ---- Reading ----

  /** The oldest outstanding request's client listens, but its channel has no room. */
  predicate NoRoom(c: Conn)
    requires Valid(c)
  {
    c.responses != [] && var ch := c.channels[c.responses[0]]; ch.open && |ch.queue| > RESPONSE_BUFFER
  }

  /** Why a connection reads no further: a batch finds no room, or no whole frame is left. */
  predicate CannotRead(c: Conn, s: Split)
    requires Valid(c)
  {
    if s.held != [] then NoRoom(c) else c.pendingResponses == [] && !c.eof && ShortOf(c.src, s.rest)
  }

  /** The last frame processed, if any was, is the announcement of this message. */
  predicate EndsWith(s: Split, m: Message) {
    s.consumed != [] ==>
      var f := s.consumed[|s.consumed| - 1];
      IsAsyncTag(f.tag) && MessageOf(f) == Ok(m)
  }

  function Around(c: Conn, sent: seq<Frame>, flight: seq<byte>): World {
    World(c, sent, flight, [], [], false, false)
  }

  lemma InvHowFar(c: Conn, sent: seq<Frame>, flight: seq<byte>, submitted: seq<Request>, surfaced: seq<Message>,
      o: Origin, s: Split)
    requires ReadInv(c, sent, flight, submitted, surfaced, o, s)
    ensures HowFar(Around(c, sent, flight), s)
  {
    hide Valid, QueueRight, ChannelsRight, RequestsRight, EncodeAll, Answer, Parameters, GoodFrames;
  }

  lemma DispatchStops(c: Conn, batch: seq<byte>, complete: bool)
    requires Valid(c) && c.responses != [] && c.pendingResponses == []
    ensures var (c', outcome) := Dispatch(c, batch, complete);
      outcome.Stop? ==>
        outcome == Stop(Ok(None)) && c'.pendingResponses == [Normal(batch, complete)] && Valid(c') && NoRoom(c')
  {
    hide ParseStep;
    assert [] + [Normal(batch, complete)] == [Normal(batch, complete)];
  }

  // Where a turn of the loop stops, the split it has come to.
  lemma TurnStops(c: Conn, sent: seq<Frame>, flight: seq<byte>, submitted: seq<Request>, surfaced: seq<Message>,
      o: Origin, s: Split)
    returns (s': Split)
    requires ReadInv(c, sent, flight, submitted, surfaced, o, s) && Valid(c) && Valid(ReadStep(c).0)
    ensures var (c', outcome) := ReadStep(c);
      && (outcome == Stop(Ok(None)) ==>
          if c'.pendingResponses == [] then c' == c && CannotRead(c, s) && s.held == []
          else NoRoom(c') && c'.pendingResponses[0].Normal?)
      && (outcome.Stop? && outcome.result.Ok? && outcome.result.value.Some? ==>
          HowFar(Around(c', sent, flight), s') && s'.held == [] && EndsWith(s', outcome.result.value.value))
  {
    hide EncodeAll, Given, Answer, Completed, Announcements, Parameters, MessageOf, Decoded, Dispatch, GoodFrames;
    s' := s;
    if s.held != [] {
      SomebodyWaits(c, sent, s.consumed, s.held, s.rest);
      DispatchStops(c.(pendingResponses := []), EncodeAll(s.held), EndsReady(s.held));
      assert c.pendingResponses[1..] == [];
    } else if c.pendingResponses != [] {
      assert s.consumed == [];
    } else {
      assert sent == s.consumed + s.rest;
      var batch, rest := NextOfStream(c, sent, flight, s.consumed, s.rest);
      if batch != [] {
        if IsAsyncTag(batch[0].tag) {
          s' := Split(s.consumed + [batch[0]], [], rest);
          assert s.consumed + [batch[0]] + [] + rest == sent;
        } else {
          assert sent == s.consumed + batch + rest;
          SomebodyWaits(c, sent, s.consumed, batch, rest);
          DispatchStops(c.(src := Decoded(c.src).1), EncodeAll(batch), EndsReady(batch));
        }
      }
    }
  }

  // The same of the split that the invariant goes on with.
  lemma TurnStopsAt(c: Conn, sent: seq<Frame>, flight: seq<byte>, submitted: seq<Request>, surfaced: seq<Message>,
      o: Origin, s: Split)
    returns (s': Split)
    requires ReadInv(c, sent, flight, submitted, surfaced, o, s) && Valid(c)
    ensures var (c', outcome) := ReadStep(c);
      && Valid(c') && ReadInv(c', sent, flight, submitted, Surfacing(surfaced, outcome), o, s')
      && (outcome == Stop(Ok(None)) ==> CannotRead(c', s'))
      && (outcome.Stop? && outcome.result.Ok? && outcome.result.value.Some? ==>
          s'.held == [] && EndsWith(s', outcome.result.value.value))
  {
    hide ReadInv, ReadStep, Valid, HowFar, NoRoom, EndsWith, ShortOf, CannotRead;
    ReadStepValid(c);
    var (c', outcome) := ReadStep(c);
    var t := TurnStops(c, sent, flight, submitted, surfaced, o, s);
    s' := ReadStepKeepsInv(c, sent, flight, submitted, surfaced, o, s);
    InvHowFar(c', sent, flight, submitted, Surfacing(surfaced, outcome), o, s');
    var w := Around(c', sent, flight);
    if outcome == Stop(Ok(None)) {
      if c'.pendingResponses == [] {
        InvHowFar(c, sent, flight, submitted, surfaced, o, s);
        HowFarIsUnique(w, s, s');
      } else {
        HeldIsPending(w, s');
        assert CannotRead(c', s') by { RoomStops(c', s'); }
      }
    } else if outcome.Stop? && outcome.result.Ok? {
      HowFarIsUnique(w, t, s');
    }
  }

  lemma HeldIsPending(w: World, s: Split)
    requires HowFar(w, s) && w.conn.pendingResponses != []
    ensures w.conn.pendingResponses[0].Normal? ==> s.held != []
  {
    hide EncodeAll;
    if s.held == [] {
      assert w.conn.pendingResponses[0].Async?;
    }
  }

  lemma RoomStops(c: Conn, s: Split)
    requires Valid(c) && NoRoom(c) && s.held != []
    ensures CannotRead(c, s)
  {}

  lemma {:induction false} LoopStopsAt(c: Conn, sent: seq<Frame>, flight: seq<byte>, submitted: seq<Request>,
      surfaced: seq<Message>, o: Origin, s: Split)
    returns (s': Split)
    requires ReadInv(c, sent, flight, submitted, surfaced, o, s) && Valid(c)
    ensures var (c', r) := ReadLoop(c);
      && Valid(c') && ReadInv(c', sent, flight, submitted, Surfacing(surfaced, Stop(r)), o, s')
      && (r == Ok(None) ==> CannotRead(c', s'))
      && (r.Ok? && r.value.Some? ==> s'.held == [] && EndsWith(s', r.value.value))
    decreases |c.pendingResponses| + |c.src|
  {
    hide ReadInv, ReadStep, Valid, CannotRead, EndsWith;
    ReadStepValid(c);
    s' := TurnStopsAt(c, sent, flight, submitted, surfaced, o, s);
    if ReadStep(c).1.Continue? {
      s' := LoopStopsAt(ReadStep(c).0, sent, flight, submitted, surfaced, o, s');
    }
  }

  /** What writing leaves alone of what was read. */
  predicate SameReading(c: Conn, c': Conn) {
    && c'.src == c.src && c'.eof == c.eof && c'.pendingResponses == c.pendingResponses && c'.channels == c.channels
    && c.responses <= c'.responses
  }

  lemma WriteStepReadsNothing(c: Conn)
    requires Valid(c)
    ensures SameReading(c, WriteStep(c).0)
  {
    hide WriteStep, Valid;
    WriteStepWrites(c);
  }

  lemma {:induction false} WriteReadsNothing(c: Conn, budget: nat)
    requires Valid(c)
    ensures SameReading(c, PollWrite(c, budget).0)
    decreases budget
  {
    hide WriteStep, Valid;
    if c.state != Closing && budget > 0 {
      WriteStepValid(c);
      WriteStepReadsNothing(c);
      if WriteStep(c).1.Again? {
        WriteReadsNothing(WriteStep(c).0, budget - 1);
      }
    }
  }

  lemma StillCannotRead(c: Conn, c': Conn, s: Split)
    requires Valid(c) && Valid(c') && CannotRead(c, s) && SameReading(c, c')
    ensures CannotRead(c', s)
  {
    hide ShortOf;
    assert c.responses != [] ==> c'.responses[0] == c.responses[0];
  }

  /**
   Reading progresses: in every reachable state a poll of an active connection that does not
   fail either ends with nothing more to read, because the batch in hand finds no room in its
   listening client's channel or no whole frame is left; or it returns the first notice or
   notification not surfaced yet, and has processed everything up to it.
   */
  lemma PollReadsOn(start: World, o: Origin, steps: seq<Step>, budget: nat, shut: bool) returns (s: Split)
    requires Starts(start, o) && Run(start, steps).conn.state == Active
    ensures Valid(Run(start, steps).conn)
    ensures var w := Run(start, steps);
      var (w', polled) := (AfterPoll(w, budget, shut), PollMessage(w.conn, budget, shut).1);
      && Valid(w'.conn) && HowFar(w', s)
      && (polled.Nothing? || polled.Finished? ==> CannotRead(w'.conn, s))
      && (polled.Message? ==>
          && w'.surfaced == w.surfaced + [polled.message] && w'.surfaced <= o.delayed + Announcements(w.sent)
          && s.held == [] && EndsWith(s, polled.message)
          && (s.consumed == [] || w'.conn.pendingResponses == [])
          && (w'.conn.pendingResponses == [] ==> w'.surfaced == o.delayed + Announcements(s.consumed)))
  {
    hide ReadInv, Starts, Run, Valid, ReadLoop, PollWrite, CannotRead, EndsWith, Announcements, HowFar;
    var w := Run(start, steps);
    var s0 := RunKeepsInv(start, o, steps);
    ReadInvValid(w.conn, w.sent, w.flight, w.submitted, w.surfaced, o, s0);
    var w' := AfterPoll(w, budget, shut);
    ReadLoopValid(w.conn);
    var t := LoopStopsAt(w.conn, w.sent, w.flight, w.submitted, w.surfaced, o, s0);
    var (c1, r) := ReadLoop(w.conn);
    s := PollKeepsInv(w, budget, shut, o, s0);
    ReadInvValid(w'.conn, w'.sent, w'.flight, w'.submitted, w'.surfaced, o, s);
    InvTellsHowFar(w', o, s);
    if r.Ok? {
      WriteReadsNothing(c1, budget);
      InvHowFar(c1, w.sent, w.flight, w.submitted, Surfacing(w.surfaced, Stop(r)), o, t);
      SameHowFar(Around(c1, w.sent, w.flight), w', t);
      HowFarIsUnique(w', s, t);
      if r.value.None? {
        StillCannotRead(c1, w'.conn, t);
      } else {
        Surfaced(w', o, s);
      }
    }
  }

  lemma SameHowFar(w: World, w': World, s: Split)
    requires HowFar(w, s) && w'.sent == w.sent && w'.flight == w.flight
    requires w'.conn.src == w.conn.src && w'.conn.pendingResponses == w.conn.pendingResponses
    ensures HowFar(w', s)
  {
    hide EncodeAll, AllAsync;
  }

  // What has surfaced when no batch is held.
  lemma Surfaced(w: World, o: Origin, s: Split)
    requires Inv(w, o, s) && s.held == []
    ensures w.surfaced <= o.delayed + Announcements(w.sent)
    ensures s.consumed == [] || w.conn.pendingResponses == []
    ensures w.conn.pendingResponses == [] ==> w.surfaced == o.delayed + Announcements(s.consumed)
  {
    hide Valid, QueueRight, ChannelsRight, RequestsRight, EncodeAll, Answer, Parameters, GoodFrames, Announcements;
    AnnouncementsConcat(s.consumed, s.rest);
    assert s.consumed + [] + s.rest == s.consumed + s.rest;
    var pending := MessagesOf(w.conn.pendingResponses);
    assert w.conn.pendingResponses == [] ==> w.surfaced + pending == w.surfaced;
    assert w.surfaced + pending + Announcements(s.rest) == o.delayed + Announcements(w.sent) by {
      Assoc(o.delayed, Announcements(s.consumed), Announcements(s.rest));
    }
    Assoc(w.surfaced, pending, Announcements(s.rest));
  }

  // ---- Writing ----

  /** Why a connection has nothing to write: its copy waits for data, or no request is queued and none may end it. */
  predicate NothingToWrite(c: Conn)
    requires Valid(c)
  {
    match c.pendingRequest
    case Some(CopyIn(id)) =>
      var r := c.copies[id];
      !r.done && r.channel.queue == [] && r.channel.senderOpen
    case _ => c.receiver == [] && (c.receiverClosed ==> c.responses != [])
  }

  // How many turns a copy still takes at most: its messages, its end, and the turn that drops it.
  function CopyTurns(r: CopyIn.Receiver): nat {
    |r.channel.queue| + if r.done then 1 else 2
  }

  function RequestTurns(m: RequestMessages, copies: seq<CopyIn.Receiver>): nat {
    match m
    case Single(_) => 1
    case CopyIn(id) => if id < |copies| then CopyTurns(copies[id]) else 0
  }

  function QueueTurns(qs: seq<Request>, copies: seq<CopyIn.Receiver>): nat {
    if qs == [] then 0 else RequestTurns(qs[0].messages, copies) + QueueTurns(qs[1..], copies)
  }

  /** How many messages the socket must take, at most, to write all there is: the queue, the copies and Terminate. */
  function Turns(c: Conn): nat {
    (match c.pendingRequest case None => 0 case Some(m) => RequestTurns(m, c.copies))
    + QueueTurns(c.receiver, c.copies)
    + if c.state == Closing then 0 else 1
  }

  predicate NoLonger(copies: seq<CopyIn.Receiver>, copies': seq<CopyIn.Receiver>) {
    |copies| == |copies'| && forall id :: 0 <= id < |copies| ==> CopyTurns(copies'[id]) <= CopyTurns(copies[id])
  }

  lemma {:induction false} QueueNoLonger(qs: seq<Request>, copies: seq<CopyIn.Receiver>, copies': seq<CopyIn.Receiver>)
    requires NoLonger(copies, copies')
    ensures QueueTurns(qs, copies') <= QueueTurns(qs, copies)
    decreases |qs|
  {
    hide CopyTurns;
    if qs != [] {
      QueueNoLonger(qs[1..], copies, copies');
    }
  }

  // A turn of a copy: it comes nearer to its end, or waits for data.
  lemma CopyTurn(c: Conn, id: nat)
    requires id < |c.copies| && c.pendingRequest.None?
    ensures var (c', outcome) := WriteCopy(c, id);
      && c' == c.(written := c'.written, copies := c'.copies, pendingRequest := c'.pendingRequest)
      && NoLonger(c.copies, c'.copies) && (outcome == Again || outcome == Done(true))
      && (outcome.Done? ==>
          && c'.pendingRequest == Some(RequestMessages.CopyIn(id)) && !c'.copies[id].done
          && c'.copies[id].channel.queue == [] && c'.copies[id].channel.senderOpen)
      && (outcome.Again? ==>
          (match c'.pendingRequest case None => 0 case Some(m) => RequestTurns(m, c'.copies)) < CopyTurns(c.copies[id]))
  {
    hide CopyIn.ItemWire;
  }

  // One turn of the loop: one turn less to go, or nothing to write.
  lemma WriteTurn(c: Conn)
    requires Valid(c) && c.state == Active && Valid(WriteStep(c).0)
    ensures var (c', outcome) := WriteStep(c);
      && c'.state != Terminating
      && (outcome.Again? ==> Turns(c') < Turns(c))
      && (outcome.Done? ==> outcome == Done(true) && c'.state == Active && NothingToWrite(c'))
  {
    hide CopyTurns, WriteCopy;
    var (c1, polled) := PollRequest(c);
    if polled.Ready? && polled.value.Some? && polled.value.value.CopyIn? {
      var id := polled.value.value.copy;
      CopyTurn(c1, id);
      QueueNoLonger(c1.receiver, c1.copies, WriteCopy(c1, id).0.copies);
    }
  }

  /**
   Writing progresses: against a socket that takes `budget` messages in a row, a write poll
   asks for a flush exactly if it stops because there is nothing more to write; otherwise
   the connection is closing, or that many turns fewer are left.
   */
  lemma {:induction false} WritePollGoesOn(c: Conn, budget: nat)
    requires Valid(c) && c.state != Terminating
    ensures var (c', flush) := PollWrite(c, budget);
      && Valid(c') && c'.state != Terminating
      && (flush ==> c'.state == Active && NothingToWrite(c'))
      && (!flush ==> c'.state == Closing || Turns(c') + budget <= Turns(c))
    decreases budget
  {
    hide Valid, WriteStep, NothingToWrite, Turns;
    if c.state != Closing && budget > 0 {
      WriteStepValid(c);
      WriteTurn(c);
      if WriteStep(c).1.Again? {
        WritePollGoesOn(WriteStep(c).0, budget - 1);
      }
    }
  }

  /** What reading leaves alone of what is to be written. */
  predicate SameWriting(c: Conn, c': Conn) {
    c' == c.(src := c'.src, parameters := c'.parameters, pendingResponses := c'.pendingResponses,
             responses := c'.responses, channels := c'.channels)
  }

  lemma {:induction false} ReadWritesNothing(c: Conn)
    requires Valid(c)
    ensures SameWriting(c, ReadLoop(c).0)
    decreases |c.pendingResponses| + |c.src|
  {
    hide ReadStep, Valid;
    ReadStepValid(c);
    WireOrder.ReadStepWrites(c);
    if ReadStep(c).1.Continue? {
      ReadWritesNothing(ReadStep(c).0);
    }
  }

  lemma PollReadWritesNothing(c: Conn)
    requires Valid(c)
    ensures Valid(PollRead(c).0) && SameWriting(c, PollRead(c).0) && Turns(PollRead(c).0) == Turns(c)
  {
    hide Valid, ReadLoop, QueueTurns, RequestTurns;
    ReadLoopValid(c);
    ReadWritesNothing(c);
  }

  /**
   In every reachable state a poll that does not fail writes until there is nothing more to
   write or the connection closes, or as much as the socket takes; what is on the wire then
   is the accepted requests' messages, and Terminate exactly when closing.
   */
  lemma PollWritesOn(start: World, o: Origin, steps: seq<Step>, budget: nat, shut: bool)
    requires Starts(start, o)
    ensures Valid(Run(start, steps).conn)
    ensures var w := Run(start, steps);
      var (c, polled) := PollMessage(w.conn, budget, shut);
      && Valid(c) && WireOrder.CopiesKnown(c.accepted, c.copies)
      && (!polled.Failed? ==>
          && (c.state == Closing || (c.state == Active && (NothingToWrite(c) || Turns(c) + budget <= Turns(w.conn))))
          && c.accepted + c.receiver == w.submitted
          && c.written == WireOrder.Outputs(c.accepted, c.copies) + (if c.state == Closing then TERMINATE else [])
          && (c.state == Closing ==> c.receiver == [] && c.receiverClosed && c.responses == [])
          && (polled.Finished? <==> c.state == Closing && shut && !polled.Message?))
  {
    hide Starts, Run, Valid, PollRead, PollWrite, NothingToWrite, Turns, WireOrder.Outputs, WireOrder.CopiesFinished;
    var w := Run(start, steps);
    WireOrder.RunKeepsInv(start, o, steps);
    WireOrder.PollKeepsWriteInv(w.conn, budget, shut);
    var c1 := PollRead(w.conn).0;
    PollReadWritesNothing(w.conn);
    WritePollGoesOn(c1, budget);
    WireOrder.PollWriteRequests(c1, budget);
    CloseValid(c1);
    CloseValid(PollWrite(c1, budget).0);
  }

  // ---- A queue of single messages ----

  predicate AllSingle(qs: seq<Request>) {
    forall i :: 0 <= i < |qs| ==> qs[i].messages.Single?
  }

  function Messages(qs: seq<Request>): (r: seq<seq<byte>>)
    requires AllSingle(qs)
    ensures |r| == |qs|
  {
    seq(|qs|, i requires 0 <= i < |qs| && qs[i].messages.Single? => qs[i].messages.bytes)
  }

  /** May the connection end: no client is left and every answer has been read? */
  predicate MayEnd(c: Conn) {
    c.receiverClosed && c.responses == []
  }

  lemma SinglesTurn(c: Conn)
    requires Valid(c) && c.state == Active && c.pendingRequest.None? && c.receiver != [] && AllSingle(c.receiver)
    ensures var q := c.receiver[0];
      WriteStep(c) == (c.(receiver := c.receiver[1..], responses := c.responses + [q.sender],
                          accepted := c.accepted + [q], written := c.written + q.messages.bytes), Again)
  {}

  lemma {:induction false} SinglesGo(c: Conn, budget: nat)
    requires Valid(c) && c.state == Active && c.pendingRequest.None? && AllSingle(c.receiver)
    requires budget > |c.receiver| + 1
    ensures var c' := PollWrite(c, budget).0;
      && c'.receiver == [] && c'.accepted == c.accepted + c.receiver
      && c'.written == c.written + Joined(Messages(c.receiver)) + (if MayEnd(c') then TERMINATE else [])
      && (c'.state == Closing <==> MayEnd(c')) && (PollWrite(c, budget).1 <==> !MayEnd(c'))
    decreases |c.receiver|
  {
    hide Valid, Joined, TERMINATE;
    WriteStepValid(c);
    if c.receiver == [] {
      NothingJoined();
      assert c.accepted + [] == c.accepted && c.written + [] == c.written;
    } else {
      SinglesTurn(c);
      var q, c1 := c.receiver[0], WriteStep(c).0;
      hide WriteStep;
      SinglesGo(c1, budget - 1);
      JoinedCons(Messages(c.receiver));
      assert Messages(c.receiver)[1..] == Messages(c.receiver[1..]);
      assert c.accepted + [q] + c.receiver[1..] == c.accepted + c.receiver;
      Assoc(c.written, q.messages.bytes, Joined(Messages(c.receiver[1..])));
    }
  }

  lemma NothingJoined()
    ensures Joined(Messages([])) == []
  {}

  /**
   In every reachable state with a queue of single messages and no copy under way, one poll
   against a socket that takes them writes all of them, in order, and then Terminate exactly
   if the client is gone and nothing is outstanding.
   */
  lemma QueuedSinglesAreWritten(start: World, o: Origin, steps: seq<Step>, budget: nat, shut: bool)
    requires Starts(start, o)
    requires var c := Run(start, steps).conn;
      c.state == Active && c.pendingRequest.None? && AllSingle(c.receiver) && budget > |c.receiver| + 1
    ensures Valid(Run(start, steps).conn)
    ensures var w := Run(start, steps);
      var (c, polled) := PollMessage(w.conn, budget, shut);
      !polled.Failed? ==>
        && c.receiver == [] && c.accepted == w.submitted && (c.state == Closing <==> MayEnd(c))
        && c.written == w.conn.written + Joined(Messages(w.conn.receiver)) + (if MayEnd(c) then TERMINATE else [])
  {
    hide Starts, Run, Valid, ReadLoop, PollWrite, Turns, Joined, TERMINATE, WireOrder.WriteInv;
    var w := Run(start, steps);
    WireOrder.RunKeepsInv(start, o, steps);
    PollReadWritesNothing(w.conn);
    var s := RunKeepsInv(start, o, steps);
    SubmittedAre(w, o, s);
    SinglesGo(PollRead(w.conn).0, budget);
  }

  lemma SubmittedAre(w: World, o: Origin, s: Split)
    requires Inv(w, o, s)
    ensures w.submitted == w.conn.accepted + w.conn.receiver
  {
    hide Valid, HeldRight, QueueRight, ChannelsRight, EncodeAll, Answer, Parameters, GoodFrames;
  }
}
