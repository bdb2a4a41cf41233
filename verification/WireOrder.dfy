/**
 The write side over the same runs: what was handed to the socket is the accepted requests'
 messages in queue order, a copy's messages together, and at the very end one Terminate.
 */
module WireOrder {
  import opened Bytes
  import opened Wrappers
  import Sequences
  import opened Backend
  import opened Codec
  import opened Answers
  import opened Connection
  import opened Pipelining
  import CopyIn

  /** What one request puts on the wire, as far as its copy has come. */
  function Output(m: RequestMessages, copies: seq<CopyIn.Receiver>): seq<byte>
    requires m.CopyIn? ==> m.copy < |copies|
  {
    match m
    case Single(bytes) => bytes
    case CopyIn(id) => Sequences.Joined(copies[id].emitted)
  }

  predicate CopiesKnown(qs: seq<Request>, copies: seq<CopyIn.Receiver>) {
    forall i :: 0 <= i < |qs| && qs[i].messages.CopyIn? ==> qs[i].messages.copy < |copies|
  }

  function Outputs(qs: seq<Request>, copies: seq<CopyIn.Receiver>): seq<byte>
    requires CopiesKnown(qs, copies)
  {
    if qs == [] then []
    else Outputs(qs[..|qs| - 1], copies) + Output(qs[|qs| - 1].messages, copies)
  }

  /** No two requests share a copy. */
  predicate CopiesDistinct(qs: seq<Request>) {
    forall i, j :: 0 <= i < j < |qs| && qs[i].messages.CopyIn? && qs[j].messages.CopyIn? ==>
      qs[i].messages.copy != qs[j].messages.copy
  }

  /** Every accepted copy is over, except the one the connection is in the middle of. */
  predicate CopiesFinished(c: Conn)
    requires CopiesKnown(c.accepted, c.copies)
  {
    && (c.pendingRequest.Some? ==>
        && c.accepted != [] && c.pendingRequest.value.CopyIn?
        && c.accepted[|c.accepted| - 1].messages == c.pendingRequest.value)
    && forall i :: 0 <= i < |c.accepted| && c.accepted[i].messages.CopyIn? ==>
        c.copies[c.accepted[i].messages.copy].done || (i == |c.accepted| - 1 && c.pendingRequest.Some?)
  }

  /** A copy whose request is still queued has put nothing on the wire. */
  predicate CopiesUntouched(c: Conn)
    requires CopiesKnown(c.receiver, c.copies)
  {
    forall i :: 0 <= i < |c.receiver| && c.receiver[i].messages.CopyIn? ==>
      c.copies[c.receiver[i].messages.copy].emitted == [] && !c.copies[c.receiver[i].messages.copy].done
  }

  predicate WriteInv(c: Conn) {
    && CopiesKnown(c.accepted, c.copies) && CopiesKnown(c.receiver, c.copies)
    && CopiesDistinct(c.accepted + c.receiver)
    && c.state != Terminating
    && c.written == Outputs(c.accepted, c.copies) + (if c.state == Closing then TERMINATE else [])
    && CopiesFinished(c)
    && CopiesUntouched(c)
    && (c.state == Closing ==> c.receiver == [] && c.receiverClosed && c.responses == [] && c.pendingRequest.None?)
  }

  // ---- Copies and outputs ----

  lemma OutputsSnoc(qs: seq<Request>, q: Request, copies: seq<CopyIn.Receiver>)
    requires CopiesKnown(qs + [q], copies)
    ensures CopiesKnown(qs, copies) && (q.messages.CopyIn? ==> q.messages.copy < |copies|)
    ensures Outputs(qs + [q], copies) == Outputs(qs, copies) + Output(q.messages, copies)
  {
    assert (qs + [q])[..|qs|] == qs && (qs + [q])[|qs|] == q;
    assert forall i :: 0 <= i < |qs| ==> (qs + [q])[i] == qs[i];
  }

  // Outputs depend only on what the copies of the requests have emitted.
  lemma {:induction false} SameOutputs(qs: seq<Request>, copies: seq<CopyIn.Receiver>, copies': seq<CopyIn.Receiver>)
    requires CopiesKnown(qs, copies) && |copies| <= |copies'|
    requires forall i :: 0 <= i < |qs| && qs[i].messages.CopyIn? ==>
      copies'[qs[i].messages.copy].emitted == copies[qs[i].messages.copy].emitted
    ensures CopiesKnown(qs, copies') && Outputs(qs, copies') == Outputs(qs, copies)
    decreases |qs|
  {
    if qs != [] {
      SameOutputs(qs[..|qs| - 1], copies, copies');
    }
  }

  // ---- One turn of the write loop ----

  /** The state between taking a request and sending it. */
  predicate InHand(c: Conn, m: RequestMessages) {
    && CopiesKnown(c.accepted, c.copies) && CopiesKnown(c.receiver, c.copies)
    && CopiesDistinct(c.accepted + c.receiver)
    && c.state == Active && c.pendingRequest.None?
    && CopiesUntouched(c)
    && c.accepted != [] && c.accepted[|c.accepted| - 1].messages == m
    && (forall i :: 0 <= i < |c.accepted| - 1 && c.accepted[i].messages.CopyIn? ==>
        c.copies[c.accepted[i].messages.copy].done)
  }

  // The written bytes when the request in hand has put `sofar` on the wire.
  predicate WrittenSoFar(c: Conn, sofar: seq<byte>)
    requires CopiesKnown(c.accepted, c.copies) && c.accepted != []
  {
    var before := c.accepted[..|c.accepted| - 1];
    CopiesKnown(before, c.copies) && c.written == Outputs(before, c.copies) + sofar
  }

  lemma TakeRequest(c: Conn)
    requires WriteInv(c) && c.state == Active && PollRequest(c).1.Ready? && PollRequest(c).1.value.Some?
    ensures var (c', polled) := PollRequest(c);
      && InHand(c', polled.value.value)
      && WrittenSoFar(c', if polled.value.value.CopyIn? then Output(polled.value.value, c'.copies) else [])
  {
    hide WriteInv, InHand, WrittenSoFar, Outputs, Output;
    if c.pendingRequest.Some? {
      TakeRetry(c);
    } else {
      TakeQueued(c);
    }
  }

  lemma TakeRetry(c: Conn)
    requires WriteInv(c) && c.state == Active && c.pendingRequest.Some?
    ensures var c' := PollRequest(c).0;
      && c.pendingRequest.value.CopyIn? && c.pendingRequest.value.copy < |c.copies|
      && InHand(c', c.pendingRequest.value) && WrittenSoFar(c', Output(c.pendingRequest.value, c'.copies))
  {
    hide Output, Outputs;
    var before, last := c.accepted[..|c.accepted| - 1], c.accepted[|c.accepted| - 1];
    assert before + [last] == c.accepted;
    OutputsSnoc(before, last, c.copies);
    assert Outputs(c.accepted, c.copies) + [] == Outputs(c.accepted, c.copies);
  }

  lemma TakeQueued(c: Conn)
    requires WriteInv(c) && c.state == Active && c.pendingRequest.None? && c.receiver != []
    ensures var c' := PollRequest(c).0;
      && InHand(c', c.receiver[0].messages)
      && WrittenSoFar(c', if c.receiver[0].messages.CopyIn? then Output(c.receiver[0].messages, c'.copies) else [])
  {
    hide Output, Outputs;
    var c' := PollRequest(c).0;
    var q := c.receiver[0];
    assert c'.accepted[..|c'.accepted| - 1] == c.accepted;
    assert c'.accepted + c'.receiver == c.accepted + c.receiver;
    assert c'.accepted[|c.accepted|] == q;
    assert c.written == Outputs(c.accepted, c.copies) + [];
    if q.messages.CopyIn? {
      NoOutputYet(q.messages.copy, c.copies);
    }
  }

  lemma NoOutputYet(id: nat, copies: seq<CopyIn.Receiver>)
    requires id < |copies| && copies[id].emitted == []
    ensures Output(RequestMessages.CopyIn(id), copies) == []
  {}

  lemma SendSingle(c: Conn, bytes: seq<byte>)
    requires InHand(c, Single(bytes)) && WrittenSoFar(c, [])
    ensures WriteInv(WriteSingle(c, bytes).0)
  {
    var before, last := c.accepted[..|c.accepted| - 1], c.accepted[|c.accepted| - 1];
    assert c.accepted == before + [last];
    OutputsSnoc(before, last, c.copies);
    hide Outputs;
    assert Outputs(before, c.copies) + [] + bytes + [] == Outputs(before, c.copies) + bytes;
  }

  // No other request has the copy of the request in hand.
  lemma OwnCopy(c: Conn, id: nat)
    requires InHand(c, RequestMessages.CopyIn(id)) && id < |c.copies|
    ensures forall i :: 0 <= i < |c.accepted| - 1 && c.accepted[i].messages.CopyIn? ==>
      c.accepted[i].messages.copy != id
    ensures forall i :: 0 <= i < |c.receiver| && c.receiver[i].messages.CopyIn? ==> c.receiver[i].messages.copy != id
  {
    var all, last := c.accepted + c.receiver, |c.accepted| - 1;
    assert all[last].messages == RequestMessages.CopyIn(id);
    forall i | 0 <= i < last && c.accepted[i].messages.CopyIn?
      ensures c.accepted[i].messages.copy != id
    {
      assert all[i] == c.accepted[i];
    }
    forall i | 0 <= i < |c.receiver| && c.receiver[i].messages.CopyIn?
      ensures c.receiver[i].messages.copy != id
    {
      assert all[|c.accepted| + i] == c.receiver[i];
    }
  }

  // The copy in hand may have become `r`; the other copies are as they were.
  lemma CopyMoves(c: Conn, id: nat, r: CopyIn.Receiver, c': Conn)
    requires InHand(c, RequestMessages.CopyIn(id)) && id < |c.copies|
    requires c' == c.(copies := c.copies[id := r], pendingRequest := c'.pendingRequest, written := c'.written)
    requires if c'.pendingRequest.Some? then c'.pendingRequest.value == RequestMessages.CopyIn(id) else r.done
    ensures CopiesKnown(c'.accepted, c'.copies) && CopiesKnown(c'.receiver, c'.copies)
    ensures CopiesFinished(c') && CopiesUntouched(c')
  {
    OwnCopy(c, id);
  }

  lemma OutputsMove(c: Conn, id: nat, r: CopyIn.Receiver)
    requires InHand(c, RequestMessages.CopyIn(id)) && id < |c.copies|
    ensures var copies := c.copies[id := r];
      var before := c.accepted[..|c.accepted| - 1];
      && CopiesKnown(before, c.copies) && CopiesKnown(c.accepted, copies)
      && Outputs(c.accepted, copies) == Outputs(before, c.copies) + Sequences.Joined(r.emitted)
  {
    var copies := c.copies[id := r];
    var before, last := c.accepted[..|c.accepted| - 1], c.accepted[|c.accepted| - 1];
    assert c.accepted == before + [last];
    OwnCopy(c, id);
    assert forall i :: 0 <= i < |before| ==> before[i] == c.accepted[i];
    SameOutputs(before, c.copies, copies);
    OutputsSnoc(before, last, copies);
  }

  lemma SendCopy(c: Conn, id: nat)
    requires InHand(c, RequestMessages.CopyIn(id)) && id < |c.copies|
    requires WrittenSoFar(c, Sequences.Joined(c.copies[id].emitted))
    ensures WriteInv(WriteCopy(c, id).0)
  {
    hide CopyIn.ItemWire, Outputs, Sequences.Joined, CopiesFinished, CopiesUntouched;
    var c' := WriteCopy(c, id).0;
    var (r, polled) := CopyIn.PollReceiver(c.copies[id]);
    var r' := c'.copies[id];
    CopyMoves(c, id, r', c');
    OutputsMove(c, id, r');
    if polled.Ready? && polled.value.Some? {
      Sequences.JoinedSnoc(c.copies[id].emitted, polled.value.value);
      var before := Outputs(c.accepted[..|c.accepted| - 1], c.copies);
      var emitted := Sequences.Joined(c.copies[id].emitted);
      Sequences.Assoc(before, emitted, polled.value.value);
    }
    assert c'.written + [] == c'.written;
    assert Outputs(c'.accepted, c'.copies) + [] == Outputs(c'.accepted, c'.copies);
  }

  lemma WriteStepKeepsWriteInv(c: Conn)
    requires Valid(c) && WriteInv(c) && c.state == Active
    ensures WriteInv(WriteStep(c).0)
  {
    hide WriteInv, InHand, WrittenSoFar, Outputs, CopyIn.PollReceiver;
    var (c', polled) := PollRequest(c);
    if polled.Ready? && polled.value.Some? {
      TakeRequest(c);
      match polled.value.value
      case Single(bytes) =>
        SendSingle(c', bytes);
      case CopyIn(id) =>
        SendCopy(c', id);
    } else if polled.Ready? && c.responses == [] {
      TerminateLast(c);
    }
  }

  lemma TerminateLast(c: Conn)
    requires WriteInv(c) && c.state == Active && PollRequest(c) == (c, Ready(None)) && c.responses == []
    ensures WriteInv(WriteSingle(c.(state := Terminating), TERMINATE).0)
  {
    hide Outputs, CopiesFinished, CopiesUntouched, CopiesDistinct, CopiesKnown;
    assert c.pendingRequest.None?;
    var c' := WriteSingle(c.(state := Terminating), TERMINATE).0;
    SameCopies(c, c');
    assert Outputs(c.accepted, c.copies) + [] + TERMINATE == Outputs(c.accepted, c.copies) + TERMINATE by {
      assert Outputs(c.accepted, c.copies) + [] == Outputs(c.accepted, c.copies);
    }
  }

  // The copy predicates look only at the requests and the copies.
  lemma SameCopies(c: Conn, c': Conn)
    requires c'.accepted == c.accepted && c'.receiver == c.receiver
    requires c'.copies == c.copies && c'.pendingRequest == c.pendingRequest
    requires CopiesKnown(c.accepted, c.copies) && CopiesKnown(c.receiver, c.copies)
    requires CopiesFinished(c) && CopiesUntouched(c)
    ensures CopiesFinished(c') && CopiesUntouched(c')
  {}

  lemma {:induction false} PollWriteKeepsWriteInv(c: Conn, budget: nat)
    requires Valid(c) && WriteInv(c)
    ensures WriteInv(PollWrite(c, budget).0)
    decreases budget
  {
    hide Valid, WriteStep;
    if c.state != Closing && budget > 0 {
      WriteStepValid(c);
      WriteStepKeepsWriteInv(c);
      if WriteStep(c).1.Again? {
        PollWriteKeepsWriteInv(WriteStep(c).0, budget - 1);
      }
    }
  }

  // ---- The read loop and the environment ----

  // Changes the write side does not look at, while the connection is active.
  lemma SameWriteSide(c: Conn, c': Conn)
    requires WriteInv(c) && (c.state == Active || c'.responses == c.responses)
    requires c' == c.(src := c'.src, eof := c'.eof, parameters := c'.parameters,
                      pendingResponses := c'.pendingResponses, responses := c'.responses, channels := c'.channels)
    ensures WriteInv(c')
  {
    hide Outputs;
    SameCopies(c, c');
  }

  lemma DispatchWrites(c: Conn, batch: seq<byte>, complete: bool)
    requires Valid(c)
    ensures var c' := Dispatch(c, batch, complete).0;
      c' == c.(pendingResponses := c'.pendingResponses, responses := c'.responses, channels := c'.channels)
  {
    hide ParseStep, SendReady;
  }

  lemma ReadStepWrites(c: Conn)
    requires Valid(c)
    ensures var c' := ReadStep(c).0;
      c' == c.(src := c'.src, parameters := c'.parameters, pendingResponses := c'.pendingResponses,
               responses := c'.responses, channels := c'.channels)
  {
    hide Decoded, Dispatch;
    var (c', polled) := PollResponse(c);
    if polled.Ready? && polled.value.Some? && polled.value.value.Ok? && polled.value.value.value.Normal? {
      DispatchWrites(c', polled.value.value.value.messages, polled.value.value.value.requestComplete);
    }
  }

  lemma {:induction false} ReadLoopKeepsWriteInv(c: Conn)
    requires Valid(c) && WriteInv(c) && c.state == Active
    ensures WriteInv(ReadLoop(c).0)
    decreases |c.pendingResponses| + |c.src|
  {
    hide ReadStep, WriteInv, Valid;
    ReadStepValid(c);
    ReadStepWrites(c);
    SameWriteSide(c, ReadStep(c).0);
    if ReadStep(c).1.Continue? {
      ReadLoopKeepsWriteInv(ReadStep(c).0);
    }
  }

  lemma CloseKeepsWriteInv(c: Conn)
    requires WriteInv(c)
    ensures WriteInv(c.(receiverClosed := true))
  {
    hide Outputs;
    SameCopies(c, c.(receiverClosed := true));
  }

  lemma PollKeepsWriteInv(c: Conn, budget: nat, shut: bool)
    requires Valid(c) && WriteInv(c)
    ensures WriteInv(PollMessage(c, budget, shut).0)
  {
    hide ReadLoop, PollWrite, WriteInv, Valid;
    ReadLoopValid(c);
    if c.state == Active {
      ReadLoopKeepsWriteInv(c);
    }
    var c1 := PollRead(c).0;
    PollWriteKeepsWriteInv(c1, budget);
    CloseKeepsWriteInv(c1);
    CloseKeepsWriteInv(PollWrite(c1, budget).0);
  }

  // A queue that grows while the client channel is open.
  lemma SubmitKeepsWriteInv(w: World, m: RequestMessages)
    requires WriteInv(w.conn) && !w.conn.receiverClosed
    requires m.CopyIn? ==>
      m.copy < |w.conn.copies| && w.conn.copies[m.copy].emitted == [] && !w.conn.copies[m.copy].done
    requires forall i :: 0 <= i < |w.submitted| && w.submitted[i].messages.CopyIn? ==>
      RequestMessages.CopyIn(w.submitted[i].messages.copy) != m
    requires w.submitted == w.conn.accepted + w.conn.receiver
    ensures WriteInv(AddRequest(w, m).conn)
  {
    hide Outputs;
    var c, c' := w.conn, AddRequest(w, m).conn;
    assert c'.accepted + c'.receiver == w.submitted + [c'.receiver[|c.receiver|]];
    assert CopiesKnown(c'.receiver, c'.copies);
  }

  // Items and hang-ups reach a copy's channel, not what it has emitted.
  lemma ChannelMoves(c: Conn, id: nat, channel: CopyIn.Channel)
    requires WriteInv(c) && id < |c.copies|
    ensures WriteInv(c.(copies := c.copies[id := c.copies[id].(channel := channel)]))
  {
    var copies := c.copies[id := c.copies[id].(channel := channel)];
    SameOutputs(c.accepted, c.copies, copies);
    hide Outputs;
  }

  lemma MoreCopies(c: Conn, r: CopyIn.Receiver)
    requires WriteInv(c)
    ensures WriteInv(c.(copies := c.copies + [r]))
  {
    SameOutputs(c.accepted, c.copies, c.copies + [r]);
    hide Outputs;
  }

  /** Copies are named in the order they were submitted, so a new one is new to everybody. */
  predicate CopiesExist(w: World) {
    w.submitted == w.conn.accepted + w.conn.receiver && CopiesKnown(w.submitted, w.conn.copies)
  }

  ghost predicate Inv(w: World) {
    Valid(w.conn) && WriteInv(w.conn) && CopiesExist(w)
  }

  lemma PollKeepsRequests(c: Conn, budget: nat, shut: bool)
    requires Valid(c)
    ensures var c' := PollMessage(c, budget, shut).0;
      Valid(c') && c'.accepted + c'.receiver == c.accepted + c.receiver && |c'.copies| == |c.copies|
      && c.accepted <= c'.accepted
  {
    hide ReadLoop, PollWrite, Valid;
    ReadLoopValid(c);
    ReadLoopRequests(c);
    var c1 := PollRead(c).0;
    PollWriteRequests(c1, budget);
    CloseValid(c1);
    CloseValid(PollWrite(c1, budget).0);
  }

  lemma {:induction false} ReadLoopRequests(c: Conn)
    requires Valid(c)
    ensures var c' := ReadLoop(c).0; c'.accepted == c.accepted && c'.receiver == c.receiver && |c'.copies| == |c.copies|
    decreases |c.pendingResponses| + |c.src|
  {
    hide ReadStep, Valid;
    ReadStepValid(c);
    ReadStepWrites(c);
    if ReadStep(c).1.Continue? {
      ReadLoopRequests(ReadStep(c).0);
    }
  }

  lemma WriteStepRequests(c: Conn)
    requires Valid(c)
    ensures var c' := WriteStep(c).0;
      c'.accepted + c'.receiver == c.accepted + c.receiver && |c'.copies| == |c.copies| && c.accepted <= c'.accepted
  {
    hide CopyIn.PollReceiver;
    assert c.receiver != [] ==> c.accepted + [c.receiver[0]] + c.receiver[1..] == c.accepted + c.receiver;
  }

  lemma {:induction false} PollWriteRequests(c: Conn, budget: nat)
    requires Valid(c)
    ensures var c' := PollWrite(c, budget).0;
      && Valid(c') && c'.accepted + c'.receiver == c.accepted + c.receiver
      && |c'.copies| == |c.copies| && c.accepted <= c'.accepted
    decreases budget
  {
    hide WriteStep, Valid;
    if c.state != Closing && budget > 0 {
      WriteStepValid(c);
      WriteStepRequests(c);
      if WriteStep(c).1.Again? {
        PollWriteRequests(WriteStep(c).0, budget - 1);
      }
    }
  }

  lemma StepKeepsInv(w: World, step: Step)
    requires Inv(w) && Allowed(w, step)
    ensures Inv(After(w, step))
  {
    hide PollMessage, WriteInv, MessageOf, Encode, Valid;
    match step
    case ServerSends(f) =>
    case ServerCloses =>
    case EndArrives =>
      QuietStep(w, step);
    case Arrive(n) =>
      QuietStep(w, step);
    case Poll(budget, shut) =>
      PollKeepsWriteInv(w.conn, budget, shut);
      PollKeepsRequests(w.conn, budget, shut);
    case Take(id) =>
      QuietStep(w, step);
    case Abandon(id) =>
      QuietStep(w, step);
    case Submit(bytes) =>
      SubmitKeepsWriteInv(w, Single(bytes));
      SubmitKeepsValid(w, Single(bytes));
    case SubmitCopy =>
      var w' := w.(conn := w.conn.(copies := w.conn.copies + [NEW_COPY]));
      MoreCopies(w.conn, NEW_COPY);
      CopiesValid(w.conn, w'.conn);
      SubmitKeepsWriteInv(w', RequestMessages.CopyIn(|w.conn.copies|));
      SubmitKeepsValid(w', RequestMessages.CopyIn(|w.conn.copies|));
    case CopyPush(id, item) =>
      ChannelMoves(w.conn, id, CopyIn.Push(w.conn.copies[id].channel, item).0);
      CopiesValid(w.conn, After(w, step).conn);
    case CopyHangUp(id) =>
      ChannelMoves(w.conn, id, w.conn.copies[id].channel.(senderOpen := false));
      CopiesValid(w.conn, After(w, step).conn);
    case CloseClient =>
      CloseKeepsWriteInv(w.conn);
      CloseValid(w.conn);
  }

  // Steps that touch only the read buffer or the response channels.
  lemma QuietStep(w: World, step: Step)
    requires Inv(w) && Allowed(w, step) && (step.EndArrives? || step.Arrive? || step.Take? || step.Abandon?)
    ensures Inv(After(w, step))
  {
    hide WriteInv;
    SameWriteSide(w.conn, After(w, step).conn);
  }

  lemma SubmitKeepsValid(w: World, m: RequestMessages)
    requires Valid(w.conn) && CopiesExist(w) && (m.CopyIn? ==> m.copy < |w.conn.copies|)
    ensures Valid(AddRequest(w, m).conn) && CopiesExist(AddRequest(w, m))
  {
    var w' := AddRequest(w, m);
    assert w'.submitted == w'.conn.accepted + w'.conn.receiver;
  }

  lemma StartKeepsInv(w: World, o: Origin)
    requires Starts(w, o)
    ensures Inv(w)
  {}

  lemma {:induction false} RunKeepsInv(start: World, o: Origin, steps: seq<Step>)
    requires Starts(start, o)
    ensures Inv(Run(start, steps))
    decreases |steps|
  {
    hide Inv, Starts, After, Allowed, Valid;
    if steps == [] {
      StartKeepsInv(start, o);
    } else {
      var before := Run(start, steps[..|steps| - 1]);
      RunKeepsInv(start, o, steps[..|steps| - 1]);
      if Valid(before.conn) && Allowed(before, steps[|steps| - 1]) {
        StepKeepsInv(before, steps[|steps| - 1]);
      }
    }
  }

  /**
   What is on the wire, in every reachable state: the accepted requests' messages in queue
   order, each copy's messages together, only the last accepted copy possibly unfinished,
   and one Terminate exactly when the connection is closing.
   */
  lemma WireIsRequestsInOrder(start: World, o: Origin, steps: seq<Step>)
    requires Starts(start, o)
    ensures var c := Run(start, steps).conn;
      && CopiesKnown(c.accepted, c.copies)
      && c.written == Outputs(c.accepted, c.copies) + (if c.state == Closing then TERMINATE else [])
      && Run(start, steps).submitted == c.accepted + c.receiver
      && forall i :: 0 <= i < |c.accepted| - 1 && c.accepted[i].messages.CopyIn? ==>
        c.copies[c.accepted[i].messages.copy].done
  {
    hide Run, Outputs, Starts;
    RunKeepsInv(start, o, steps);
  }

  /**
   Terminate goes out only once the client channel is closed and empty and every accepted
   request's answer has been read to its `ReadyForQuery`.
   */
  lemma TerminateIsLast(start: World, o: Origin, steps: seq<Step>) returns (s: Split)
    requires Starts(start, o) && Run(start, steps).conn.state == Closing
    ensures var w := Run(start, steps);
      && w.conn.receiverClosed && w.conn.receiver == [] && w.conn.accepted == w.submitted
      && HowFar(w, s) && s.held == [] && w.conn.responses == []
      && Completed(s.consumed) == |w.submitted|
  {
    hide Run, Outputs, Starts, EncodeAll, Answer, Given, Parameters, Announcements, GoodFrames;
    RunKeepsInv(start, o, steps);
    s := Pipelining.RunKeepsInv(start, o, steps);
    var w := Run(start, steps);
    InvTellsHowFar(w, o, s);
    assert w.conn.accepted + [] == w.conn.accepted;
    if s.held != [] {
      assert w.sent == s.consumed + s.held + s.rest;
      SomebodyWaits(w.conn, w.sent, s.consumed, s.held, s.rest);
    }
  }

  /** Once closing, nothing more is ever written. */
  lemma {:induction false} NothingAfterTerminate(start: World, o: Origin, steps: seq<Step>, more: seq<Step>)
    requires Starts(start, o) && Run(start, steps).conn.state == Closing
    ensures Run(start, steps + more).conn.state == Closing
    ensures Run(start, steps + more).conn.written == Run(start, steps).conn.written
    decreases |more|
  {
    hide Starts, After, Allowed, Valid;
    if more == [] {
      assert steps + more == steps;
    } else {
      var most, last := more[..|more| - 1], more[|more| - 1];
      NothingAfterTerminate(start, o, steps, most);
      assert (steps + more)[..|steps + more| - 1] == steps + most;
      var before := Run(start, steps + most);
      if Valid(before.conn) && Allowed(before, last) {
        ClosedStep(before, last);
      }
    }
  }

  lemma ClosedStep(w: World, step: Step)
    requires Valid(w.conn) && Allowed(w, step) && w.conn.state == Closing
    ensures After(w, step).conn.state == Closing && After(w, step).conn.written == w.conn.written
  {
    hide MessageOf, Encode;
  }

  /** The wire only grows, and so does the list of accepted requests. */
  lemma StepExtendsWire(w: World, step: Step)
    requires Valid(w.conn) && Allowed(w, step)
    ensures w.conn.written <= After(w, step).conn.written && w.conn.accepted <= After(w, step).conn.accepted
  {
    hide MessageOf, Encode, PollMessage, Valid;
    if step.Poll? {
      PollKeepsRequests(w.conn, step.budget, step.shut);
      PollExtends(w.conn, step.budget, step.shut);
    }
  }

  lemma PollExtends(c: Conn, budget: nat, shut: bool)
    requires Valid(c)
    ensures c.written <= PollMessage(c, budget, shut).0.written
  {
    hide ReadLoop, PollWrite, Valid;
    ReadLoopValid(c);
    ReadLoopWritesNothing(c);
    WriteExtends(PollRead(c).0, budget);
  }

  lemma {:induction false} ReadLoopWritesNothing(c: Conn)
    requires Valid(c)
    ensures ReadLoop(c).0.written == c.written
    decreases |c.pendingResponses| + |c.src|
  {
    hide ReadStep, Valid;
    ReadStepValid(c);
    ReadStepWrites(c);
    if ReadStep(c).1.Continue? {
      ReadLoopWritesNothing(ReadStep(c).0);
    }
  }

  lemma {:induction false} WriteExtends(c: Conn, budget: nat)
    requires Valid(c)
    ensures c.written <= PollWrite(c, budget).0.written
    decreases budget
  {
    hide WriteStep, Valid;
    if c.state != Closing && budget > 0 {
      WriteStepValid(c);
      WriteStepExtends(c);
      if WriteStep(c).1.Again? {
        WriteExtends(WriteStep(c).0, budget - 1);
      }
    }
  }

  lemma WriteStepExtends(c: Conn)
    requires Valid(c)
    ensures c.written <= WriteStep(c).0.written
  {
    hide CopyIn.PollReceiver;
  }
}
