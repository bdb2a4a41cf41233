/**
 The end of the server's stream: exactly when a poll of the connection fails.
 */
module StreamEnd {
  import opened Bytes
  import opened Wrappers
  import opened Sequences
  import opened Backend
  import opened Codec
  import opened Answers
  import opened Connection
  import opened Pipelining

  /** The outstanding requests and their channels. */
  datatype Outlet = Outlet(responses: seq<nat>, channels: seq<ResponseChannel>)

  function OutletOf(c: Conn): Outlet {
    Outlet(c.responses, c.channels)
  }

  /** Handing one batch to the oldest request: `None` when nobody waits or the channel is full. */
  function Hand(out: Outlet, batch: seq<byte>, complete: bool): Option<Outlet> {
    if out.responses == [] || out.responses[0] >= |out.channels| then None
    else
      var ch := out.channels[out.responses[0]];
      var left := if complete then out.responses[1..] else out.responses;
      match SendReady(ch)
      case Pending => None
      case Ready(false) => Some(Outlet(left, out.channels))
      case Ready(true) => Some(Outlet(left, out.channels[out.responses[0] := ch.(queue := ch.queue + [batch])]))
  }

  /** Can the frames all be processed in one go, with no announcement to surface and no full channel? */
  predicate Drains(out: Outlet, fs: seq<Frame>)
    decreases |fs|
  {
    if fs == [] then true
    else if IsAsyncTag(fs[0].tag) then
      MessageOf(fs[0]).Ok? && MessageOf(fs[0]).value.ParameterStatus? && Drains(out, fs[1..])
    else
      var (batch, rest) := NextBatch(fs);
      var handed := Hand(out, EncodeAll(batch), EndsReady(batch));
      handed.Some? && Drains(handed.value, rest)
  }

  /** The same of everything a connection holds: the batch put aside and the bytes read. */
  predicate AllDrains(c: Conn) {
    if c.pendingResponses == [] then Drains(OutletOf(c), FramesOf(c.src))
    else
      |c.pendingResponses| == 1 && c.pendingResponses[0].Normal? &&
      var handed := Hand(OutletOf(c), c.pendingResponses[0].messages, c.pendingResponses[0].requestComplete);
      handed.Some? && Drains(handed.value, FramesOf(c.src))
  }

  lemma HandIsDispatch(c: Conn, batch: seq<byte>, complete: bool)
    requires Valid(c) && c.responses != []
    ensures var (c', outcome) := Dispatch(c, batch, complete);
      var handed := Hand(OutletOf(c), batch, complete);
      && (handed.Some? <==> outcome.Continue?)
      && (handed.Some? ==> OutletOf(c') == handed.value && c'.src == c.src && c'.pendingResponses == c.pendingResponses)
      && (handed.None? ==> outcome == Stop(Ok(None)))
  {
    hide ParseStep;
  }

  // Nothing is cut out of less than one frame.
  lemma NoneInShort(tail: seq<byte>, fs: seq<Frame>)
    requires ShortOf(tail, fs)
    ensures FramesOf(tail) == []
  {
    hide I32Of, I32Bytes, WrapI32;
    if |tail| >= 5 {
      var n := |fs[0].body| + 4;
      WrapFits(n);
      I32RoundTrip(n);
      assert tail[1..5] == Encode(fs[0])[1..5] == I32Bytes(n);
    }
  }

  lemma {:induction false} FramesOfCut(fs: seq<Frame>, tail: seq<byte>, others: seq<Frame>)
    requires AllWellFormed(fs) && ShortOf(tail, others)
    ensures FramesOf(EncodeAll(fs) + tail) == fs
    decreases |fs|
  {
    hide Encode, FramesOf, ShortOf;
    if fs == [] {
      assert EncodeAll(fs) + tail == tail;
      NoneInShort(tail, others);
    } else {
      FramesOfCons(fs[0], EncodeAll(fs[1..]) + tail);
      FramesOfCut(fs[1..], tail, others);
      assert EncodeAll(fs) + tail == Encode(fs[0]) + (EncodeAll(fs[1..]) + tail);
      assert fs == [fs[0]] + fs[1..];
    }
  }

  lemma LeftWellFormed(fs: seq<Frame>)
    requires AllWellFormed(fs)
    ensures AllWellFormed(DecodedFrames(fs).1)
  {
    hide WellFormed, DecodedFrames, IsTaken;
    var taken := TakenByDecode(fs);
    var left := DecodedFrames(fs).1;
    assert forall i :: 0 <= i < |left| ==> left[i] == fs[|taken| + i];
  }

  /** What `decode` and the cutting of frames see of a stream: the frames that arrived whole. */
  lemma WholeFrames(rest: seq<Frame>, src: seq<byte>)
    returns (whole: seq<Frame>, left: seq<Frame>, others: seq<Frame>, tail: seq<byte>)
    requires AllWellFormed(rest) && src <= EncodeAll(rest)
    ensures rest == whole + others && left == DecodedFrames(whole).1 && AllWellFormed(left)
    ensures Decoded(src) == (DecodedFrames(whole).0, EncodeAll(left) + tail)
    ensures FramesOf(src) == whole && FramesOf(EncodeAll(left) + tail) == left
  {
    hide Encode, EncodeAll, Decoded, DecodedFrames, FramesOf, ProperPrefix;
    whole, others, tail := CutFrames(rest, src);
    left := DecodedFrames(whole).1;
    DecodeFrames(whole, tail, if others == [] then Frame(0, []) else others[0]);
    LeftWellFormed(whole);
    FramesOfCut(whole, tail, others);
    FramesOfCut(left, tail, others);
  }

  /** What one turn of the read loop at the end of the stream does to that question. */
  ghost predicate Decides(c: Conn, c': Conn, outcome: ReadOutcome) {
    match outcome
    case Continue => AllDrains(c) <==> AllDrains(c')
    case Stop(r) => AllDrains(c) <==> r.Err?
  }

  lemma RetryDecides(c: Conn, sent: seq<Frame>, flight: seq<byte>, submitted: seq<Request>, surfaced: seq<Message>,
      o: Origin, s: Split)
    requires ReadInv(c, sent, flight, submitted, surfaced, o, s) && c.pendingResponses != []
    ensures Decides(c, ReadStep(c).0, ReadStep(c).1)
  {
    hide EncodeAll, Given, Answer, Completed, Announcements, Parameters, GoodFrames, Drains, FramesOf,
      MessageOf, Decoded;
    if s.held != [] {
      var c1 := c.(pendingResponses := []);
      assert c.pendingResponses[1..] == [];
      SomebodyWaits(c, sent, s.consumed, s.held, s.rest);
      HandIsDispatch(c1, EncodeAll(s.held), EndsReady(s.held));
      hide Dispatch, Hand;
      assert ReadStep(c) == Dispatch(c1, EncodeAll(s.held), EndsReady(s.held));
      assert OutletOf(c1) == OutletOf(c);
    }
  }

  lemma StreamDecides(c: Conn, sent: seq<Frame>, flight: seq<byte>, submitted: seq<Request>, surfaced: seq<Message>,
      o: Origin, s: Split)
    requires ReadInv(c, sent, flight, submitted, surfaced, o, s) && c.pendingResponses == [] && c.eof
    ensures Decides(c, ReadStep(c).0, ReadStep(c).1)
  {
    hide EncodeAll, Given, Answer, Completed, Announcements, Parameters, FramesOf, MessageOf, Decoded, NextBatch;
    assert s.held == [] && sent == s.consumed + s.rest;
    GoodSplit(s.consumed, s.rest);
    var whole, left, others, tail := WholeFrames(s.rest, c.src);
    GoodSplit(whole, others);
    var c1 := c.(src := EncodeAll(left) + tail);
    if whole != [] && !IsAsyncTag(whole[0].tag) {
      var batch := NextBatch(whole).0;
      NextBatchIsMaximal(whole);
      assert s.consumed + batch + (left + others) == sent;
      SomebodyWaits(c, sent, s.consumed, batch, left + others);
      HandIsDispatch(c1, EncodeAll(batch), EndsReady(batch));
      hide Dispatch, Hand;
      assert ReadStep(c) == Dispatch(c1, EncodeAll(batch), EndsReady(batch));
    }
  }

  lemma {:induction false} LoopDecides(c: Conn, sent: seq<Frame>, flight: seq<byte>, submitted: seq<Request>,
      surfaced: seq<Message>, o: Origin, s: Split)
    requires ReadInv(c, sent, flight, submitted, surfaced, o, s) && Valid(c) && c.eof
    ensures ReadLoop(c).1.Err? <==> AllDrains(c)
    decreases |c.pendingResponses| + |c.src|
  {
    hide ReadInv, ReadStep, Valid, AllDrains;
    ReadStepValid(c);
    if c.pendingResponses != [] {
      RetryDecides(c, sent, flight, submitted, surfaced, o, s);
    } else {
      StreamDecides(c, sent, flight, submitted, surfaced, o, s);
    }
    if ReadStep(c).1.Continue? {
      var s' := ReadStepKeepsInv(c, sent, flight, submitted, surfaced, o, s);
      LoopDecides(ReadStep(c).0, sent, flight, submitted, surfaced, o, s');
    }
  }

  // ---- The condition in closed form ----

  /** Does a batch begin at this frame? */
  predicate Begins(fs: seq<Frame>, p: nat)
    requires p < |fs|
  {
    && !IsAsyncTag(fs[p].tag)
    && (p == 0 || IsAsyncTag(fs[p - 1].tag) || fs[p - 1].tag == READY_FOR_QUERY_TAG)
  }

  /** How many batches of the `k`-th answer from here begin in the frames. */
  function Batches(fs: seq<Frame>, k: int): nat {
    if fs == [] then 0
    else
      var most := fs[..|fs| - 1];
      Batches(most, k) + if Begins(fs, |fs| - 1) && Completed(most) == k then 1 else 0
  }

  /** The same with a batch put aside before the frames, which may have been the last of its answer. */
  function Due(held: Option<bool>, fs: seq<Frame>, k: int): nat {
    match held
    case None => Batches(fs, k)
    case Some(complete) => (if k == 0 then 1 else 0) + Batches(fs, if complete then k - 1 else k)
  }

  /** All asynchronous frames are `ParameterStatus`, which is not surfaced. */
  predicate Silent(fs: seq<Frame>) {
    forall i :: 0 <= i < |fs| && IsAsyncTag(fs[i].tag) ==>
      MessageOf(fs[i]).Ok? && MessageOf(fs[i]).value.ParameterStatus?
  }

  /** Nobody listens, or there is room for so many batches. */
  predicate TakesAll(ch: ResponseChannel, n: nat) {
    n == 0 || !ch.open || |ch.queue| + n <= RESPONSE_BUFFER + 1
  }

  predicate Room(out: Outlet, k: nat, n: nat) {
    n == 0 || (k < |out.responses| && out.responses[k] < |out.channels| && TakesAll(out.channels[out.responses[k]], n))
  }

  ghost predicate RoomForAll(out: Outlet, held: Option<bool>, fs: seq<Frame>) {
    forall k: nat :: Room(out, k, Due(held, fs, k))
  }

  lemma BatchesSnoc(fs: seq<Frame>, f: Frame, k: int)
    ensures Batches(fs + [f], k)
         == Batches(fs, k) + if Begins(fs + [f], |fs|) && Completed(fs) == k then 1 else 0
    ensures Completed(fs + [f]) == Completed(fs) + if f.tag == READY_FOR_QUERY_TAG then 1 else 0
  {
    assert (fs + [f])[..|fs|] == fs;
  }

  // Where a batch cannot go on from `a` into `b`, it begins in `b` alone or in both.
  lemma SameBeginning(a: seq<Frame>, most: seq<Frame>, last: Frame)
    requires a != [] && (IsAsyncTag((most + [last])[0].tag) || IsAsyncTag(a[|a| - 1].tag) || EndsReady(a))
    ensures Begins(a + most + [last], |a + most|) <==> Begins(most + [last], |most|)
  {
    var all := a + most + [last];
    assert all[|a + most|] == last && (most + [last])[|most|] == last;
    if most == [] {
      assert all[|a + most| - 1] == a[|a| - 1];
    } else {
      assert all[|a + most| - 1] == most[|most| - 1] == (most + [last])[|most| - 1];
    }
  }

  // Frames cut where a batch cannot go on.
  lemma {:induction false} BatchesConcat(a: seq<Frame>, b: seq<Frame>, k: int)
    requires a != [] && (b == [] || IsAsyncTag(b[0].tag) || IsAsyncTag(a[|a| - 1].tag) || EndsReady(a))
    ensures Batches(a + b, k) == Batches(a, k) + Batches(b, k - Completed(a))
    ensures Completed(a + b) == Completed(a) + Completed(b)
    decreases |b|
  {
    hide Batches, Begins, Completed;
    if b == [] {
      assert a + b == a;
      NoBatches(k - Completed(a));
    } else {
      var most, last, j := b[..|b| - 1], b[|b| - 1], k - Completed(a);
      assert b == most + [last];
      Assoc(a, most, [last]);
      BatchesConcat(a, most, k);
      SameBeginning(a, most, last);
      hide EndsReady, IsAsyncTag;
      var am := a + most;
      BatchesSnoc(am, last, k);
      BatchesSnoc(most, last, j);
      assert Completed(am) == k <==> Completed(most) == j;
      assert Batches(am + [last], k) - Batches(am, k) == Batches(most + [last], j) - Batches(most, j);
    }
  }

  lemma NoBatches(k: int)
    ensures Batches([], k) == 0 && Completed([]) == 0
  {}

  // A batch is one batch, of the answer in progress.
  lemma {:induction false} BatchesOfRun(fs: seq<Frame>, k: int)
    requires fs != [] && forall i :: 0 <= i < |fs| ==> !IsAsyncTag(fs[i].tag)
    requires forall i :: 0 <= i < |fs| - 1 ==> fs[i].tag != READY_FOR_QUERY_TAG
    ensures Batches(fs, k) == if k == 0 then 1 else 0
    ensures Completed(fs) == if EndsReady(fs) then 1 else 0
    decreases |fs|
  {
    hide Batches, Completed;
    var most, last := fs[..|fs| - 1], fs[|fs| - 1];
    assert most + [last] == fs;
    BatchesSnoc(most, last, k);
    if most == [] {
      NoBatches(k);
    } else {
      BatchesOfRun(most, k);
    }
  }

  lemma BatchesOfAsync(f: Frame, k: int)
    requires IsAsyncTag(f.tag)
    ensures Batches([f], k) == 0 && Completed([f]) == 0
  {
    assert [f][..0] == [];
  }

  predicate Distinct(ids: seq<nat>) {
    forall i, j :: 0 <= i < j < |ids| ==> ids[i] != ids[j]
  }

  lemma NoneBefore(fs: seq<Frame>, k: int)
    requires k < 0
    ensures Batches(fs, k) == 0
  {}

  // Handing a batch over leaves room for the others exactly if there was room for it and them.
  lemma HandLeavesRoom(out: Outlet, batch: seq<byte>, complete: bool, fs: seq<Frame>)
    requires Distinct(out.responses)
    ensures var handed := Hand(out, batch, complete);
      && (handed.Some? ==> Distinct(handed.value.responses))
      && (handed.Some? && RoomForAll(handed.value, None, fs) <==> RoomForAll(out, Some(complete), fs))
  {
    hide Batches;
    var handed := Hand(out, batch, complete);
    NoneBefore(fs, -1);
    if handed.None? {
      assert !Room(out, 0, Due(Some(complete), fs, 0));
    } else {
      var left := handed.value;
      forall k: nat
        ensures var j := if complete then k - 1 else k;
          Room(out, k, Due(Some(complete), fs, k)) <==> (k == 0 && complete) || Room(left, j, Batches(fs, j))
      {}
      if RoomForAll(out, Some(complete), fs) {
        forall k: nat
          ensures Room(left, k, Due(None, fs, k))
        {
          assert Room(out, if complete then k + 1 else k, Due(Some(complete), fs, if complete then k + 1 else k));
        }
      }
      if RoomForAll(left, None, fs) {
        forall k: nat
          ensures Room(out, k, Due(Some(complete), fs, k))
        {
          assert k > 0 || !complete ==>
            Room(left, if complete then k - 1 else k, Due(None, fs, if complete then k - 1 else k));
        }
      }
    }
  }

  lemma SilentConcat(a: seq<Frame>, b: seq<Frame>)
    ensures Silent(a + b) <==> Silent(a) && Silent(b)
  {
    hide MessageOf;
    if Silent(a + b) {
      assert forall i :: 0 <= i < |a| ==> a[i] == (a + b)[i];
      assert forall i :: 0 <= i < |b| ==> b[i] == (a + b)[|a| + i];
    }
  }

  lemma RoomForNothing(out: Outlet)
    ensures RoomForAll(out, None, [])
  {}

  lemma {:induction false} DrainsIfRoom(out: Outlet, fs: seq<Frame>)
    requires Distinct(out.responses)
    ensures Drains(out, fs) <==> Silent(fs) && RoomForAll(out, None, fs)
    decreases |fs|
  {
    hide Batches, MessageOf, Hand, Completed, NextBatch, EncodeAll, Room;
    if fs == [] {
      RoomForNothing(out);
    } else if IsAsyncTag(fs[0].tag) {
      var f, rest := fs[0], fs[1..];
      assert fs == [f] + rest;
      DrainsIfRoom(out, rest);
      SilentConcat([f], rest);
      forall k: nat
        ensures Due(None, fs, k) == Due(None, rest, k)
      {
        BatchesOfAsync(f, k);
        BatchesConcat([f], rest, k);
      }
    } else {
      var (batch, rest) := NextBatch(fs);
      NextBatchIsMaximal(fs);
      SilentConcat(batch, rest);
      var handed := Hand(out, EncodeAll(batch), EndsReady(batch));
      HandLeavesRoom(out, EncodeAll(batch), EndsReady(batch), rest);
      if handed.Some? {
        DrainsIfRoom(handed.value, rest);
      }
      forall k: nat
        ensures Due(None, fs, k) == Due(Some(EndsReady(batch)), rest, k)
      {
        BatchesOfRun(batch, k);
        BatchesConcat(batch, rest, k);
      }
    }
  }

  // ---- The connection's own condition ----

  /** Was a batch put aside, and does it complete its answer? */
  function HeldOf(c: Conn): Option<bool> {
    if c.pendingResponses == [] || c.pendingResponses[0].Async? then None
    else Some(c.pendingResponses[0].requestComplete)
  }

  /**
   Nothing is left that stops the read loop: no notice put aside, none and no notification
   among the frames that have arrived whole, and for every outstanding request whose client
   listens, room in its channel for all the batches left for it.
   */
  predicate Clear(c: Conn)
    requires Valid(c)
  {
    var fs := FramesOf(c.src);
    && (forall i :: 0 <= i < |c.pendingResponses| ==> c.pendingResponses[i].Normal?)
    && Silent(fs)
    && forall k :: 0 <= k < |c.responses| ==> TakesAll(c.channels[c.responses[k]], Due(HeldOf(c), fs, k))
  }

  lemma AllDrainsIfRoom(c: Conn)
    requires Distinct(c.responses)
    requires AllAsync(c.pendingResponses) || (|c.pendingResponses| == 1 && c.pendingResponses[0].Normal?)
    ensures var noNotice := forall i :: 0 <= i < |c.pendingResponses| ==> c.pendingResponses[i].Normal?;
      var fs := FramesOf(c.src);
      AllDrains(c) <==> noNotice && Silent(fs) && RoomForAll(OutletOf(c), HeldOf(c), fs)
  {
    hide FramesOf, Drains, Hand, Silent, RoomForAll;
    var out, fs := OutletOf(c), FramesOf(c.src);
    if c.pendingResponses == [] {
      DrainsIfRoom(out, fs);
    } else if c.pendingResponses[0].Normal? {
      var m := c.pendingResponses[0];
      HandLeavesRoom(out, m.messages, m.requestComplete, fs);
      var handed := Hand(out, m.messages, m.requestComplete);
      if handed.Some? {
        DrainsIfRoom(handed.value, fs);
      }
    }
  }

  lemma {:induction false} BatchesAnswer(fs: seq<Frame>, k: nat)
    requires Batches(fs, k) > 0
    ensures Answer(fs, k) != []
    decreases |fs|
  {
    var most := fs[..|fs| - 1];
    if Batches(most, k) > 0 {
      BatchesAnswer(most, k);
    }
  }

  // Frames that have arrived answer requests that have been accepted.
  lemma AnswersAccepted(c: Conn, sent: seq<Frame>, before: seq<Frame>, whole: seq<Frame>, others: seq<Frame>, k: nat)
    requires sent == before + (whole + others) && Batches(whole, k) > 0
    requires forall i :: i >= |c.accepted| ==> Answer(sent, i) == []
    ensures Completed(before) + k < |c.accepted|
  {
    hide Batches, Answer, Completed;
    BatchesAnswer(whole, k);
    AnswersConcat(before, whole, k);
    AnswersGrow(before + whole, others, Completed(before) + k);
    Assoc(before, whole, others);
  }

  lemma SomebodyWaitsForAll(c: Conn, sent: seq<Frame>, flight: seq<byte>, submitted: seq<Request>,
      surfaced: seq<Message>, o: Origin, s: Split, k: nat)
    requires ReadInv(c, sent, flight, submitted, surfaced, o, s) && Due(HeldOf(c), FramesOf(c.src), k) > 0
    ensures k < |c.responses|
  {
    hide Valid, ChannelsRight, RequestsRight, EncodeAll, Answer, Completed, Parameters, FramesOf, Batches;
    hide Announcements, MessagesOf;
    GoodSplit(s.consumed + s.held, s.rest);
    var whole, left, others, tail := WholeFrames(s.rest, c.src);
    if s.held == [] {
      assert s.consumed + s.held == s.consumed;
      AnswersAccepted(c, sent, s.consumed, whole, others, k);
    } else {
      SomebodyWaits(c, sent, s.consumed, s.held, s.rest);
      if k > 0 {
        BatchIsOneAnswer(s.consumed, s.held);
        AnswersAccepted(c, sent, s.consumed + s.held, whole, others, if EndsReady(s.held) then k - 1 else k);
      }
    }
  }

  lemma ClearIsDraining(c: Conn, sent: seq<Frame>, flight: seq<byte>, submitted: seq<Request>,
      surfaced: seq<Message>, o: Origin, s: Split)
    requires ReadInv(c, sent, flight, submitted, surfaced, o, s) && Valid(c)
    ensures AllDrains(c) <==> Clear(c)
  {
    hide AllDrains, EncodeAll, Answer, Completed, Parameters, FramesOf, Due, Silent, TakesAll, Announcements;
    var fs := FramesOf(c.src);
    AllDrainsIfRoom(c);
    forall k: nat
      ensures Due(HeldOf(c), fs, k) > 0 ==> k < |c.responses|
    {
      if Due(HeldOf(c), fs, k) > 0 {
        SomebodyWaitsForAll(c, sent, flight, submitted, surfaced, o, s, k);
      }
    }
    hide ReadInv;
    var out := OutletOf(c);
    forall k: nat
      ensures Room(out, k, Due(HeldOf(c), fs, k))
          <==> (k < |c.responses| ==> TakesAll(c.channels[c.responses[k]], Due(HeldOf(c), fs, k)))
    {
      NoneIsTaken(out, k);
    }
  }

  // Where there is nothing to take there is room for it.
  lemma NoneIsTaken(out: Outlet, k: nat)
    ensures Room(out, k, 0)
    ensures k < |out.responses| && out.responses[k] < |out.channels| ==> TakesAll(out.channels[out.responses[k]], 0)
  {}

  /**
   In any reachable state a poll fails if and only if the connection is still active, the
   server's stream has ended, and nothing is left that stops the read loop before its end. A
   server that closes after the client's Terminate makes no poll fail.
   */
  lemma FailsExactlyAtEnd(start: World, o: Origin, steps: seq<Step>, budget: nat, shut: bool)
    requires Starts(start, o)
    ensures var c := Run(start, steps).conn;
      && Valid(c)
      && (PollMessage(c, budget, shut).1.Failed? <==> c.state == Active && c.eof && Clear(c))
  {
    hide ReadInv, Run, Starts, Valid, AllDrains, Clear, ReadLoop, PollWrite;
    var w := Run(start, steps);
    var s := RunKeepsInv(start, o, steps);
    ReadInvValid(w.conn, w.sent, w.flight, w.submitted, w.surfaced, o, s);
    ReadLoopValid(w.conn);
    if w.conn.state == Active {
      if w.conn.eof {
        LoopDecides(w.conn, w.sent, w.flight, w.submitted, w.surfaced, o, s);
        ClearIsDraining(w.conn, w.sent, w.flight, w.submitted, w.surfaced, o, s);
      } else {
        var s' := ReadLoopKeepsInv(w.conn, w.sent, w.flight, w.submitted, w.surfaced, o, s);
      }
    }
  }

  /** A connection whose startup announced nothing and whose server has sent nothing since. */
  const QUIET :=
    World(Conn([], false, [], map[], [], false, None, [], [], Active, [], [], []), [], [], [], [], false, false)

  lemma QuietStarts()
    ensures Starts(QUIET, Origin([], map[]))
  {
    NothingEncoded();
    assert MessagesOf([]) == [];
  }

  lemma QuietEnds()
    ensures Run(QUIET, [ServerCloses, EndArrives]) == QUIET.(closed := true, conn := QUIET.conn.(eof := true))
  {
    var steps := [ServerCloses, EndArrives];
    assert steps[..1] == [ServerCloses] && steps[..1][..0] == [];
  }

  /** A server that closes on an idle client makes the next poll fail. */
  lemma ClosingServerFails(budget: nat, shut: bool)
    ensures Starts(QUIET, Origin([], map[]))
    ensures var w := Run(QUIET, [ServerCloses, EndArrives]);
      && Valid(w.conn) && w.closed && w.conn.eof && w.submitted == []
      && PollMessage(w.conn, budget, shut).1 == Failed(Closed)
  {
    hide PollMessage, Run, Starts;
    var steps, o := [ServerCloses, EndArrives], Origin([], map[]);
    QuietStarts();
    QuietEnds();
    FailsExactlyAtEnd(QUIET, o, steps, budget, shut);
    var s := FailsOnlyAtEnd(QUIET, o, steps, budget, shut);
  }
}
