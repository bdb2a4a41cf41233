/**
 `COPY ... FROM STDIN`: the sink a caller pushes data into, the bounded channel behind it,
 and the receiver the connection drains into the wire.
 */
module CopyIn {
  import opened Bytes
  import opened Wrappers
  import opened Sequences
  import Backend
  import opened Frontend

  const FLUSH_LIMIT: nat := 4096

  /** Slots of the sink's own channel; one more message fits before the sender must wait. */
  const BUFFER: nat := 1

  /** What travels through the channel: a request or a data message, or the end mark. */
  datatype Item = Raw(bytes: seq<byte>) | Data(data: seq<byte>) | DoneMark

  datatype SinkState = Active | Closing | Reading

  datatype Error = Closed | EncodeError | UnexpectedMessage | Answer(cause: Backend.Error) | Db

  /** The channel, with the history of everything that ever entered it. */
  datatype Channel = Channel(queue: seq<Item>, log: seq<Item>, senderOpen: bool, receiverOpen: bool)

  /** The receiving half: its channel, the `done` flag, and all it has emitted. */
  datatype Receiver = Receiver(channel: Channel, done: bool, emitted: seq<seq<byte>>)

  /** The sending half. */
  datatype Sink = Sink(channel: Channel, buf: seq<byte>, state: SinkState)

  // ---- The channel ----

  function PollReady(c: Channel): Poll<Result<(), Error>> {
    if !c.receiverOpen then Ready(Err(Closed))
    else if |c.queue| <= BUFFER then Ready(Ok(()))
    else Pending
  }

  function Push(c: Channel, it: Item): (r: (Channel, Result<(), Error>)) {
    if !c.receiverOpen || |c.queue| > BUFFER then (c, Err(Closed))
    else (c.(queue := c.queue + [it], log := c.log + [it]), Ok(()))
  }

  // ---- The receiver ----

  const DONE_BYTES: seq<byte> := Wire(CopyFinished) + Wire(Sync)
  const FAIL_BYTES: seq<byte> := Wire(CopyFailed([])) + Wire(Sync)

  function ItemWire(it: Item): seq<byte> {
    match it
    case Raw(bytes) => bytes
    case Data(data) => Wire(CopyBytes(data))
    case DoneMark => DONE_BYTES
  }

  function Emit(r: Receiver, bytes: seq<byte>, finished: bool): (Receiver, Poll<Option<seq<byte>>>) {
    (r.(emitted := r.emitted + [bytes], done := finished), Ready(Some(bytes)))
  }

  /** One `poll_next` of the receiver. */
  function PollReceiver(r: Receiver): (Receiver, Poll<Option<seq<byte>>>) {
    if r.done then (r, Ready(None))
    else if r.channel.queue != [] then
      var it := r.channel.queue[0];
      Emit(r.(channel := r.channel.(queue := r.channel.queue[1..])), ItemWire(it), it.DoneMark?)
    else if !r.channel.senderOpen then Emit(r, FAIL_BYTES, true)
    else (r, Pending)
  }

  // A receiver that goes away takes what is queued with it.
  function Dropped(c: Channel): Channel {
    c.(queue := [], receiverOpen := false)
  }

  function HangUp(r: Receiver): Receiver {
    r.(channel := Dropped(r.channel))
  }

  class CopyInReceiver {
    var channel: Channel
    var done: bool
    ghost var emitted: seq<seq<byte>>

    ghost function View(): Receiver
      reads this
    {
      Receiver(channel, done, emitted)
    }

    constructor (channel: Channel)
      ensures View() == Receiver(channel, false, [])
    {
      this.channel := channel;
      done := false;
      emitted := [];
    }

    method PollNext() returns (r: Poll<Option<seq<byte>>>)
      modifies this
      ensures (View(), r) == PollReceiver(old(View()))
    {
      hide Wire;
      if done {
        return Ready(None);
      }
      if channel.queue != [] {
        var it := channel.queue[0];
        channel := channel.(queue := channel.queue[1..]);
        var bytes: seq<byte>;
        match it {
          case Raw(b) => bytes := b;
          case Data(d) => bytes := Wire(CopyBytes(d));
          case DoneMark =>
            done := true;
            var buf := new BytesMut();
            WriteEmpty(CopyFinished, buf);
            WriteEmpty(Sync, buf);
            bytes := buf.data;
            assert bytes == DONE_BYTES;
        }
        emitted := emitted + [bytes];
        return Ready(Some(bytes));
      }
      if channel.senderOpen {
        return Pending;
      }
      done := true;
      var buf := new BytesMut();
      NoReasonEncodable();
      var w := WriteCopyFail([], buf);
      WriteEmpty(Sync, buf);
      assert buf.data == FAIL_BYTES;
      emitted := emitted + [buf.data];
      return Ready(Some(buf.data));
    }
  }

  lemma NoReasonEncodable()
    ensures Encodable(CopyFailed([]))
  {}

  // ---- The sink ----

  predicate CopyDataFits(data: seq<byte>) {
    |data| + 4 <= I32_MAX
  }

  // `CopyData::new` followed by `start_send`.
  function SendData(s: Sink, data: seq<byte>): (Sink, Result<(), Error>) {
    if !CopyDataFits(data) then (s, Err(EncodeError))
    else var (c, r) := Push(s.channel, Data(data)); (s.(channel := c), r)
  }

  /** `start_send`: small items gather in the buffer, large ones take the buffer with them. */
  function StartSend(s: Sink, item: seq<byte>): (Sink, Result<(), Error>) {
    if |item| > FLUSH_LIMIT || |s.buf + item| > FLUSH_LIMIT
    then SendData(s.(buf := []), s.buf + item)
    else (s.(buf := s.buf + item), Ok(()))
  }

  function PollFlush(s: Sink): (Sink, Poll<Result<(), Error>>) {
    if s.buf != [] then
      match PollReady(s.channel)
      case Pending => (s, Pending)
      case Ready(Err(e)) => (s, Ready(Err(e)))
      case Ready(Ok(_)) =>
        match SendData(s.(buf := []), s.buf)
        case (s', Err(e)) => (s', Ready(Err(e)))
        case (s', Ok(_)) => (s', FlushChannel(s'.channel))
    else (s, FlushChannel(s.channel))
  }

  // The sender's own flush: ready once it need not wait, or when nobody listens.
  function FlushChannel(c: Channel): Poll<Result<(), Error>> {
    if c.receiverOpen && |c.queue| > BUFFER then Pending else Ready(Ok(()))
  }

  /** One `poll_finish`: still waiting, failed, or the tag of the server's answer. */
  datatype Finish = Waiting | Failed(error: Error) | Finished(tag: seq<byte>)

  /** What the copy's responses give when they are polled. */
  type Polled = Poll<Result<Backend.Message, Error>>

  function ReadAnswer(answer: Polled): Finish {
    match answer
    case Pending => Waiting
    case Ready(Err(e)) => Failed(e)
    case Ready(Ok(CommandComplete(tag))) => Finished(tag)
    case Ready(Ok(_)) => Failed(UnexpectedMessage)
  }

  function PollFinish(s: Sink, answer: Polled): (Sink, Finish) {
    match s.state
    case Active =>
      (match PollFlush(s)
       case (s', Pending) => (s', Waiting)
       case (s', Ready(Err(e))) => (s', Failed(e))
       case (s', Ready(Ok(_))) =>
         match PollReady(s'.channel)
         case Pending => (s', Waiting)
         case Ready(Err(e)) => (s', Failed(e))
         case Ready(Ok(_)) =>
           match Push(s'.channel, DoneMark)
           case (c, Err(e)) => (s'.(channel := c), Failed(e))
           case (c, Ok(_)) => (Sink(c.(senderOpen := false), s'.buf, Reading), ReadAnswer(answer)))
    case Closing => (s.(channel := s.channel.(senderOpen := false), state := Reading), ReadAnswer(answer))
    case Reading => (s, ReadAnswer(answer))
  }

  class CopyInSink {
    var channel: Channel
    var buf: seq<byte>
    var state: SinkState

    ghost function View(): Sink
      reads this
    {
      Sink(channel, buf, state)
    }

    constructor (channel: Channel)
      ensures View() == Sink(channel, [], Active)
    {
      this.channel := channel;
      buf := [];
      state := Active;
    }

    method SendToChannel(it: Item) returns (r: Result<(), Error>)
      modifies this`channel
      ensures (channel, r) == Push(old(channel), it)
    {
      if !channel.receiverOpen || |channel.queue| > BUFFER {
        return Err(Closed);
      }
      channel := channel.(queue := channel.queue + [it], log := channel.log + [it]);
      return Ok(());
    }

    method Send(item: seq<byte>) returns (r: Result<(), Error>)
      modifies this
      ensures (View(), r) == StartSend(old(View()), item)
    {
      var data;
      if |item| > FLUSH_LIMIT {
        if buf == [] {
          data := item;
          assert data == old(buf) + item;
        } else {
          data := buf + item;
          buf := [];
        }
      } else {
        buf := buf + item;
        if |buf| > FLUSH_LIMIT {
          data := buf;
          buf := [];
        } else {
          return Ok(());
        }
      }
      if !CopyDataFits(data) {
        return Err(EncodeError);
      }
      r := SendToChannel(Data(data));
    }

    method Flush() returns (r: Poll<Result<(), Error>>)
      modifies this
      ensures (View(), r) == PollFlush(old(View()))
    {
      if buf != [] {
        var ready := PollReady(channel);
        if ready.Pending? || ready.value.Err? {
          return ready;
        }
        var data := buf;
        buf := [];
        if !CopyDataFits(data) {
          return Ready(Err(EncodeError));
        }
        var sent := SendToChannel(Data(data));
        if sent.Err? {
          return Ready(sent);
        }
      }
      return FlushChannel(channel);
    }

    method Finish(answer: Polled) returns (r: Finish)
      modifies this
      ensures (View(), r) == PollFinish(old(View()), answer)
    {
      while true
        invariant state == Active ==> View() == old(View())
        invariant state == Closing ==>
          PollFinish(old(View()), answer)
            == (View().(channel := channel.(senderOpen := false), state := Reading), ReadAnswer(answer))
        invariant state == Reading ==> PollFinish(old(View()), answer) == (View(), ReadAnswer(answer))
        decreases match state case Active => 2 case Closing => 1 case Reading => 0
      {
        match state {
          case Active =>
            var flushed := Flush();
            if flushed.Pending? {
              return Waiting;
            }
            if flushed.value.Err? {
              return Failed(flushed.value.error);
            }
            var ready := PollReady(channel);
            if ready.Pending? {
              return Waiting;
            }
            if ready.value.Err? {
              return Failed(ready.value.error);
            }
            var sent := SendToChannel(DoneMark);
            if sent.Err? {
              return Failed(sent.error);
            }
            state := Closing;
          case Closing =>
            channel := channel.(senderOpen := false);
            state := Reading;
          case Reading =>
            return ReadAnswer(answer);
        }
      }
    }
  }

  // ---- Both halves over whole runs ----

  /**
   The copy as a whole: both halves see the one channel. `accepted` is the data of all calls
   to `start_send` that succeeded, and `lost` what failed calls dropped of it.
   */
  datatype Copy = Copy(channel: Channel, buf: seq<byte>, state: SinkState, done: bool, emitted: seq<seq<byte>>,
                       accepted: seq<byte>, lost: seq<byte>)

  /** `start_send` may come at any time, also when the channel is full or nobody listens any more. */
  datatype Step = Send(item: seq<byte>) | FlushStep | FinishStep(answer: Polled) | DropSender | Receive | DropReceiver

  function SinkOf(c: Copy): Sink {
    Sink(c.channel, c.buf, c.state)
  }

  function WithSink(c: Copy, s: Sink): Copy {
    c.(channel := s.channel, buf := s.buf, state := s.state)
  }

  /** The sink is used until it is dropped and, but for polling `finish` again, until it is finished. */
  predicate Allowed(c: Copy, step: Step) {
    match step
    case Send(_) => c.state == Active && c.channel.senderOpen
    case FlushStep => c.state == Active && c.channel.senderOpen
    case FinishStep(_) => c.channel.senderOpen || c.state == Reading
    case DropSender => true
    case Receive => c.channel.receiverOpen
    case DropReceiver => true
  }

  function After(c: Copy, step: Step): Copy {
    match step
    case Send(item) =>
      var (s, r) := StartSend(SinkOf(c), item);
      if r.Ok? then WithSink(c, s).(accepted := c.accepted + item) else WithSink(c, s).(lost := c.lost + c.buf)
    case FlushStep => WithSink(c, PollFlush(SinkOf(c)).0)
    case FinishStep(answer) => WithSink(c, PollFinish(SinkOf(c), answer).0)
    case DropSender => c.(channel := c.channel.(senderOpen := false))
    case Receive =>
      var (r, _) := PollReceiver(Receiver(c.channel, c.done, c.emitted));
      c.(channel := r.channel, done := r.done, emitted := r.emitted)
    case DropReceiver => c.(channel := Dropped(c.channel))
  }

  /** The first message in the channel is the request that starts the copy. */
  function Start(request: seq<byte>): Copy {
    Copy(Channel([Raw(request)], [Raw(request)], true, true), [], Active, false, [], [], [])
  }

  function Run(request: seq<byte>, steps: seq<Step>): Copy {
    if steps == [] then Start(request)
    else After(Run(request, steps[..|steps| - 1]), steps[|steps| - 1])
  }

  predicate Legal(request: seq<byte>, steps: seq<Step>) {
    steps == [] ||
    (Legal(request, steps[..|steps| - 1]) && Allowed(Run(request, steps[..|steps| - 1]), steps[|steps| - 1]))
  }

  /** The data bytes of a list of channel items. */
  function Payload(items: seq<Item>): seq<byte> {
    if items == [] then []
    else Payload(items[..|items| - 1]) + (match items[|items| - 1] case Data(d) => d case _ => [])
  }

  function Wires(items: seq<Item>): (r: seq<seq<byte>>)
    ensures |r| == |items|
  {
    seq(|items|, i requires 0 <= i < |items| => ItemWire(items[i]))
  }

  predicate DoneOnlyLast(log: seq<Item>) {
    forall i :: 0 <= i < |log| - 1 ==> log[i] != DoneMark
  }

  predicate EndsDone(log: seq<Item>) {
    log != [] && log[|log| - 1] == DoneMark
  }

  // ---- The sender's half ----

  /** The data in the channel and in the buffer. */
  function Carried(s: Sink): seq<byte> {
    Payload(s.channel.log) + s.buf
  }

  /** All that was accepted is carried, but for what failed calls lost. */
  predicate Balanced(c: Copy) {
    && |Carried(SinkOf(c))| + |c.lost| == |c.accepted|
    && (c.lost == [] ==> Carried(SinkOf(c)) == c.accepted)
  }

  predicate SenderInv(c: Copy) {
    && |c.buf| <= FLUSH_LIMIT
    && Balanced(c)
    && DoneOnlyLast(c.channel.log)
    && (c.state == Active <==> !EndsDone(c.channel.log))
    && (c.state != Active ==> c.buf == [] && c.state == Reading && !c.channel.senderOpen)
  }

  lemma PayloadSnoc(items: seq<Item>, it: Item)
    ensures Payload(items + [it]) == Payload(items) + (match it case Data(d) => d case _ => [])
  {
    assert (items + [it])[..|items|] == items;
  }

  /** Which calls of `start_send` fail: those that must push, and cannot. */
  lemma SendFails(s: Sink, item: seq<byte>)
    ensures var r := StartSend(s, item).1;
      && (r == Err(EncodeError) <==> |s.buf| + |item| + 4 > I32_MAX)
      && (r == Err(Closed) <==>
          FLUSH_LIMIT < |s.buf| + |item| && |s.buf| + |item| + 4 <= I32_MAX
          && (!s.channel.receiverOpen || |s.channel.queue| > BUFFER))
      && (r == Ok(()) || r == Err(EncodeError) || r == Err(Closed))
  {}

  /**
   What can be seen before a call of `start_send`: nothing is buffered, or the item can be
   framed with the buffer and either still fits in it or the channel takes the two at once.
   */
  predicate Guarded(s: Sink, item: seq<byte>) {
    s.buf == [] ||
    (|s.buf| + |item| + 4 <= I32_MAX &&
     (|s.buf| + |item| <= FLUSH_LIMIT || (s.channel.receiverOpen && |s.channel.queue| <= BUFFER)))
  }

  /**
   A call of `start_send` keeps the data, and adds the item exactly if it reports success, if
   and only if it is guarded: a call that fails drops the buffer.
   */
  lemma SendConserves(s: Sink, item: seq<byte>)
    ensures var (s', r) := StartSend(s, item);
      && (Carried(s') == Carried(s) + (if r.Ok? then item else []) <==> Guarded(s, item))
      && (Guarded(s, item) <==> r.Ok? || s.buf == [])
      && (r.Err? ==> s' == s.(buf := []))
  {
    var (s', r) := StartSend(s, item);
    var all := s.buf + item;
    PayloadSnoc(s.channel.log, Data(all));
    hide Payload;
    if r.Ok? {
      Assoc(Payload(s.channel.log), s.buf, item);
      assert Payload(s.channel.log) + all + [] == Payload(s.channel.log) + all;
    } else {
      assert |Carried(s')| == |Payload(s.channel.log)|;
      assert s.buf == [] ==> Carried(s) + [] == Carried(s');
    }
  }

  /** A flush loses nothing, whether it succeeds, waits or fails. */
  lemma FlushConserves(s: Sink)
    requires |s.buf| <= FLUSH_LIMIT
    ensures Carried(PollFlush(s).0) == Carried(s)
    ensures PollFlush(s).1.Ready? && PollFlush(s).1.value.Ok? ==> PollFlush(s).0.buf == []
    ensures PollFlush(s).0.state == s.state
    ensures var (c, c') := (s.channel, PollFlush(s).0.channel);
      c'.senderOpen == c.senderOpen && c'.receiverOpen == c.receiverOpen
      && (c' == c || c' == c.(queue := c.queue + [Data(s.buf)], log := c.log + [Data(s.buf)]))
  {
    PayloadSnoc(s.channel.log, Data(s.buf));
    hide Payload;
    assert Payload(s.channel.log) + s.buf + [] == Carried(s);
  }

  // A log that has not ended may grow by one item.
  lemma LogGrows(log: seq<Item>, it: Item)
    requires DoneOnlyLast(log) && !EndsDone(log)
    ensures DoneOnlyLast(log + [it]) && (EndsDone(log + [it]) <==> it.DoneMark?)
  {
    assert forall i :: 0 <= i < |log| ==> (log + [it])[i] == log[i];
  }

  lemma SendKeepsSenderInv(c: Copy, item: seq<byte>)
    requires SenderInv(c) && Allowed(c, Send(item))
    ensures SenderInv(After(c, Send(item)))
  {
    SendConserves(SinkOf(c), item);
    LogGrows(c.channel.log, Data(c.buf + item));
    hide Payload, DoneOnlyLast, EndsDone;
    var c' := After(c, Send(item));
    if StartSend(SinkOf(c), item).1.Ok? && c.lost == [] {
      assert Carried(SinkOf(c')) == c.accepted + item;
    }
    if StartSend(SinkOf(c), item).1.Err? {
      assert |Carried(SinkOf(c'))| + |c.buf| == |Carried(SinkOf(c))|;
      assert c'.lost == [] ==> c.buf == [] && c.lost == [];
      assert c.buf == [] ==> Carried(SinkOf(c')) == Carried(SinkOf(c));
    }
  }

  lemma FlushKeepsSenderInv(c: Copy)
    requires SenderInv(c) && Allowed(c, FlushStep)
    ensures SenderInv(After(c, FlushStep)) && Allowed(After(c, FlushStep), FlushStep)
  {
    FlushConserves(SinkOf(c));
    LogGrows(c.channel.log, Data(c.buf));
    hide Payload, DoneOnlyLast, EndsDone, PollFlush;
    assert |After(c, FlushStep).buf| <= FLUSH_LIMIT by {
      FlushedBuffer(SinkOf(c));
    }
  }

  lemma FlushedBuffer(s: Sink)
    ensures PollFlush(s).0.buf == s.buf || PollFlush(s).0.buf == []
  {}

  // The end mark goes into the channel after a flush that left the buffer empty.
  lemma EndKeepsSenderInv(c: Copy, c': Copy)
    requires SenderInv(c) && c.state == Active && c.buf == []
    requires var channel := c.channel.(queue := c.channel.queue + [DoneMark], log := c.channel.log + [DoneMark]);
      c' == c.(channel := channel.(senderOpen := false), state := Reading)
    ensures SenderInv(c')
  {
    LogGrows(c.channel.log, DoneMark);
    PayloadSnoc(c.channel.log, DoneMark);
    hide Payload, DoneOnlyLast, EndsDone;
    assert Payload(c.channel.log) + [] + [] == Payload(c.channel.log) + [];
  }

  // A finish that is not yet closing flushes, and then either stops or sends the end mark.
  lemma FinishShape(s: Sink, answer: Polled)
    requires s.state == Active
    ensures var (s1, flushed) := PollFlush(s);
      var s' := PollFinish(s, answer).0;
      || s' == s1
      || (flushed.Ready? && flushed.value.Ok?
          && s' == Sink(s1.channel.(queue := s1.channel.queue + [DoneMark], log := s1.channel.log + [DoneMark],
                                    senderOpen := false), s1.buf, Reading))
  {
    hide PollFlush, ReadAnswer;
  }

  lemma FinishKeepsSenderInv(c: Copy, answer: Polled)
    requires SenderInv(c) && Allowed(c, FinishStep(answer))
    ensures SenderInv(After(c, FinishStep(answer)))
  {
    if c.state == Active {
      FlushKeepsSenderInv(c);
      FlushConserves(SinkOf(c));
      FinishShape(SinkOf(c), answer);
      hide SenderInv, PollFlush, PollFinish, Payload, Carried;
      var c1, c' := After(c, FlushStep), After(c, FinishStep(answer));
      if SinkOf(c') != SinkOf(c1) {
        EndKeepsSenderInv(c1, c');
      }
    }
  }

  lemma StepKeepsSenderInv(c: Copy, step: Step)
    requires SenderInv(c) && Allowed(c, step)
    ensures SenderInv(After(c, step))
  {
    hide Payload, ItemWire;
    match step
    case Send(item) => SendKeepsSenderInv(c, item);
    case FlushStep => FlushKeepsSenderInv(c);
    case FinishStep(answer) => FinishKeepsSenderInv(c, answer);
    case _ =>
  }

  // ---- The receiver's half ----

  /** `taken` is what the receiver has taken out of the channel. */
  ghost predicate ReceiverInv(c: Copy, request: seq<byte>, taken: seq<Item>) {
    && taken + c.channel.queue <= c.channel.log
    && (c.channel.receiverOpen ==> c.channel.log == taken + c.channel.queue)
    && c.channel.log != [] && c.channel.log[0] == Raw(request)
    && (!c.done ==> c.emitted == Wires(taken) && !EndsDone(taken))
    && (c.done ==> taken == c.channel.log)
    && (c.done && EndsDone(taken) ==> c.emitted == Wires(taken))
    && (c.done && !EndsDone(taken) ==> !c.channel.senderOpen && c.emitted == Wires(taken) + [FAIL_BYTES])
  }

  lemma WiresSnoc(items: seq<Item>, it: Item)
    ensures Wires(items + [it]) == Wires(items) + [ItemWire(it)]
  {
    hide ItemWire;
  }

  // What the sender's calls do to the channel.
  predicate Pushed(c: Channel, c': Channel) {
    && c'.receiverOpen == c.receiverOpen && (c'.senderOpen ==> c.senderOpen)
    && |c.log| <= |c'.log| && c'.log == c.log + c'.log[|c.log|..] && c'.queue == c.queue + c'.log[|c.log|..]
    && (c'.log != c.log ==> c.receiverOpen && c.senderOpen)
  }

  lemma PushedItem(c: Channel, it: Item)
    requires c.senderOpen
    ensures Pushed(c, Push(c, it).0) && Push(c, it).0.senderOpen
  {
    PushedSame(c);
    assert (c.log + [it])[|c.log|..] == [it];
  }

  lemma PushedTrans(a: Channel, b: Channel, c: Channel)
    requires Pushed(a, b) && Pushed(b, c)
    ensures Pushed(a, c)
  {
    var x, y := b.log[|a.log|..], c.log[|b.log|..];
    Assoc(a.log, x, y);
    Assoc(a.queue, x, y);
    assert c.log[|a.log|..] == x + y;
  }

  lemma SenderPushes(c: Copy, step: Step)
    requires Allowed(c, step) && (step.Send? || step.FlushStep? || step.FinishStep?)
    requires c.state != Active ==> !c.channel.senderOpen
    ensures Pushed(c.channel, After(c, step).channel)
  {
    hide Pushed;
    PushedSame(c.channel);
    match step
    case Send(item) => PushedItem(c.channel, Data(c.buf + item));
    case FlushStep => PushedItem(c.channel, Data(c.buf));
    case FinishStep(answer) =>
      if c.state == Active {
        PushedItem(c.channel, Data(c.buf));
        var s1 := PollFlush(SinkOf(c)).0;
        PushedItem(s1.channel, DoneMark);
        PushedSame(s1.channel);
        var s2 := Push(s1.channel, DoneMark).0;
        PushedClosed(s1.channel, s2);
        PushedTrans(c.channel, s1.channel, s2.(senderOpen := false));
        PushedTrans(c.channel, s1.channel, s2);
        PushedTrans(c.channel, s1.channel, s1.channel);
      } else {
        PushedClosed(c.channel, c.channel);
      }
  }

  lemma PushedSame(c: Channel)
    ensures Pushed(c, c)
  {
    assert c.log + [] == c.log && c.queue + [] == c.queue;
  }

  lemma PushedClosed(c: Channel, c': Channel)
    requires Pushed(c, c')
    ensures Pushed(c, c'.(senderOpen := false))
  {}

  lemma PushKeepsReceiverInv(c: Copy, request: seq<byte>, taken: seq<Item>, c': Copy)
    requires ReceiverInv(c, request, taken) && Pushed(c.channel, c'.channel)
    requires c'.done == c.done && c'.emitted == c.emitted && (c.done && EndsDone(taken) ==> !c.channel.senderOpen)
    ensures ReceiverInv(c', request, taken)
  {
    hide Wires, EndsDone, FAIL_BYTES;
    var pushed := c'.channel.log[|c.channel.log|..];
    Assoc(taken, c.channel.queue, pushed);
  }

  lemma ReceiveKeepsInv(c: Copy, request: seq<byte>, taken: seq<Item>) returns (taken': seq<Item>)
    requires ReceiverInv(c, request, taken) && Allowed(c, Receive) && DoneOnlyLast(c.channel.log)
    ensures ReceiverInv(After(c, Receive), request, taken')
  {
    hide ItemWire, Wires, FAIL_BYTES;
    taken' := taken;
    if !c.done && c.channel.queue != [] {
      var it := c.channel.queue[0];
      taken' := taken + [it];
      WiresSnoc(taken, it);
      assert c.channel.log == taken' + c.channel.queue[1..];
      assert c.channel.log[|taken|] == it;
      assert EndsDone(taken') <==> it.DoneMark?;
      assert it.DoneMark? ==> |taken| == |c.channel.log| - 1;
    }
  }

  lemma StepKeepsReceiverInv(c: Copy, request: seq<byte>, taken: seq<Item>, step: Step) returns (taken': seq<Item>)
    requires SenderInv(c) && ReceiverInv(c, request, taken) && Allowed(c, step)
    ensures ReceiverInv(After(c, step), request, taken')
  {
    hide Payload, Wires, ItemWire, FAIL_BYTES, Balanced;
    taken' := taken;
    if step.Receive? {
      taken' := ReceiveKeepsInv(c, request, taken);
    } else if step.Send? || step.FlushStep? || step.FinishStep? {
      SenderPushes(c, step);
      PushKeepsReceiverInv(c, request, taken, After(c, step));
    } else {
      assert taken + [] == taken;
    }
  }

  /** Every legal run keeps both halves in order. */
  lemma {:induction false} RunKeepsInv(request: seq<byte>, steps: seq<Step>) returns (taken: seq<Item>)
    requires Legal(request, steps)
    ensures SenderInv(Run(request, steps)) && ReceiverInv(Run(request, steps), request, taken)
    decreases |steps|
  {
    hide After, SenderInv, ReceiverInv, ItemWire, Allowed;
    if steps == [] {
      taken := [];
      StartKeepsInv(request);
    } else {
      var c := Run(request, steps[..|steps| - 1]);
      taken := RunKeepsInv(request, steps[..|steps| - 1]);
      StepKeepsSenderInv(c, steps[|steps| - 1]);
      taken := StepKeepsReceiverInv(c, request, taken, steps[|steps| - 1]);
    }
  }

  lemma StartKeepsInv(request: seq<byte>)
    ensures SenderInv(Start(request)) && ReceiverInv(Start(request), request, [])
  {
    hide ItemWire, FAIL_BYTES;
    PayloadSnoc([], Raw(request));
    assert [] + [Raw(request)] == [Raw(request)];
    NoPayload();
  }

  lemma NoPayload()
    ensures Payload([]) == []
  {}

  /** Every call of `start_send` in the run is guarded. */
  predicate AllGuarded(request: seq<byte>, steps: seq<Step>) {
    forall k :: 0 <= k < |steps| && steps[k].Send? ==> Guarded(SinkOf(Run(request, steps[..k])), steps[k].item)
  }

  // One step more loses data exactly if it is an unguarded call.
  lemma StepLoses(c: Copy, step: Step)
    ensures After(c, step).lost == [] <==> c.lost == [] && (step.Send? ==> Guarded(SinkOf(c), step.item))
  {
    hide Payload, Carried, PollFlush, PollFinish, PollReceiver;
    if step.Send? {
      SendConserves(SinkOf(c), step.item);
      hide StartSend, Guarded;
    }
  }

  lemma AllGuardedSnoc(request: seq<byte>, steps: seq<Step>)
    requires steps != []
    ensures var (most, last) := (steps[..|steps| - 1], steps[|steps| - 1]);
      AllGuarded(request, steps) <==>
        AllGuarded(request, most) && (last.Send? ==> Guarded(SinkOf(Run(request, most)), last.item))
  {
    hide Guarded, Run;
    var most := steps[..|steps| - 1];
    assert forall k :: 0 <= k < |most| ==> most[..k] == steps[..k] && most[k] == steps[k];
  }

  /** A run loses nothing exactly if all its calls of `start_send` are guarded. */
  lemma {:induction false} LosesNothing(request: seq<byte>, steps: seq<Step>)
    ensures Run(request, steps).lost == [] <==> AllGuarded(request, steps)
    decreases |steps|
  {
    hide After, Guarded, AllGuarded;
    if steps == [] {
      NoCalls(request);
    } else {
      var most, last := steps[..|steps| - 1], steps[|steps| - 1];
      LosesNothing(request, most);
      StepLoses(Run(request, most), last);
      AllGuardedSnoc(request, steps);
    }
  }

  lemma NoCalls(request: seq<byte>)
    ensures AllGuarded(request, [])
  {}

  /**
   Conservation: in every legal run the data that entered the channel and the data still in
   the buffer are what `start_send` accepted, if and only if every call was guarded; the end
   mark enters the channel at most once, last, and only when the buffer is empty.
   */
  lemma Conservation(request: seq<byte>, steps: seq<Step>)
    requires Legal(request, steps)
    ensures var c := Run(request, steps);
      && (Payload(c.channel.log) + c.buf == c.accepted <==> AllGuarded(request, steps))
      && (c.lost == [] <==> AllGuarded(request, steps))
      && |Payload(c.channel.log) + c.buf| + |c.lost| == |c.accepted|
      && DoneOnlyLast(c.channel.log)
      && (EndsDone(c.channel.log) ==>
          c.buf == [] && (Payload(c.channel.log) == c.accepted <==> AllGuarded(request, steps)))
  {
    hide Payload, Wires, ItemWire, AllGuarded;
    var taken := RunKeepsInv(request, steps);
    LosesNothing(request, steps);
    var c := Run(request, steps);
    assert c.buf == [] ==> Payload(c.channel.log) + c.buf == Payload(c.channel.log);
  }

  /**
   The contract of a `Sink`: `start_send` comes only while `poll_ready` gives readiness, and
   here with items that can be framed whatever is buffered.
   */
  predicate KeepsContract(request: seq<byte>, steps: seq<Step>) {
    forall k :: 0 <= k < |steps| && steps[k].Send? ==>
      PollReady(Run(request, steps[..k]).channel) == Ready(Ok(())) && |steps[k].item| + FLUSH_LIMIT + 4 <= I32_MAX
  }

  lemma {:induction false} LegalPrefix(request: seq<byte>, steps: seq<Step>, k: nat)
    requires Legal(request, steps) && k <= |steps|
    ensures Legal(request, steps[..k])
    decreases |steps|
  {
    hide Allowed;
    if k == |steps| {
      assert steps[..k] == steps;
    } else {
      LegalPrefix(request, steps[..|steps| - 1], k);
      assert steps[..|steps| - 1][..k] == steps[..k];
    }
  }

  /** A caller that keeps the contract loses nothing, however flushes, receipts and drops lie between the calls. */
  lemma ContractConserves(request: seq<byte>, steps: seq<Step>)
    requires Legal(request, steps) && KeepsContract(request, steps)
    ensures var c := Run(request, steps); Payload(c.channel.log) + c.buf == c.accepted && c.lost == []
  {
    hide Run, Legal, Payload, Wires, ItemWire;
    forall k | 0 <= k < |steps| && steps[k].Send?
      ensures Guarded(SinkOf(Run(request, steps[..k])), steps[k].item)
    {
      LegalPrefix(request, steps, k);
      var taken := RunKeepsInv(request, steps[..k]);
    }
    Conservation(request, steps);
  }

  /**
   Whatever happens, what the receiver has emitted is the messages at the front of the
   channel's history in order, the request first, and, once it is done, all of them and the
   terminal pair.
   */
  lemma EmittedInOrder(request: seq<byte>, steps: seq<Step>) returns (taken: seq<Item>)
    requires Legal(request, steps)
    ensures var c := Run(request, steps);
      && taken <= c.channel.log && c.channel.log != [] && c.channel.log[0] == Raw(request)
      && (c.channel.receiverOpen ==> c.channel.log == taken + c.channel.queue)
      && (!c.done ==> c.emitted == Wires(taken) && !EndsDone(taken))
      && (c.done ==> taken == c.channel.log)
      && (c.done ==> c.emitted == Wires(taken) + if EndsDone(taken) then [] else [FAIL_BYTES])
  {
    hide Payload, ItemWire, SenderInv, FAIL_BYTES;
    taken := RunKeepsInv(request, steps);
    var c := Run(request, steps);
    assert taken <= taken + c.channel.queue <= c.channel.log;
    assert Wires(taken) + [] == Wires(taken);
  }

  /**
   What a receiver that is done has emitted, in every legal run: the request, the data
   messages in order, and one terminal pair, CopyDone with Sync when the caller finished and
   CopyFail with Sync when the sink went away. The data are all that was accepted, or what
   entered the channel of it, unless some call was not guarded.
   */
  lemma TerminalPair(request: seq<byte>, steps: seq<Step>)
    requires Legal(request, steps) && Run(request, steps).done
    ensures var c := Run(request, steps);
      && c.emitted != [] && c.channel.queue == []
      && if EndsDone(c.channel.log) then
          c.emitted == Wires(c.channel.log) && c.emitted[|c.emitted| - 1] == DONE_BYTES
          && (Payload(c.channel.log) == c.accepted <==> AllGuarded(request, steps))
        else
          c.emitted == Wires(c.channel.log) + [FAIL_BYTES]
          && (AllGuarded(request, steps) ==> Payload(c.channel.log) <= c.accepted)
  {
    hide Payload, Run, Legal, SenderInv, DoneOnlyLast, AllGuarded, FAIL_BYTES;
    var taken := EmittedInOrder(request, steps);
    var again := RunKeepsInv(request, steps);
    Conservation(request, steps);
    var c := Run(request, steps);
    assert Wires(taken) + [] == Wires(taken);
    assert |again + c.channel.queue| == |again| + |c.channel.queue|;
    assert EndsDone(taken) ==> Wires(taken)[|taken| - 1] == DONE_BYTES;
    assert Payload(c.channel.log) <= Payload(c.channel.log) + c.buf;
  }

  /** After the terminal pair the receiver emits nothing, whatever happens next. */
  lemma {:induction false} NothingAfterTerminal(request: seq<byte>, steps: seq<Step>, more: seq<Step>)
    requires Run(request, steps).done
    ensures Run(request, steps + more).done && Run(request, steps + more).emitted == Run(request, steps).emitted
    decreases |more|
  {
    hide After;
    if more == [] {
      assert steps + more == steps;
    } else {
      var most := more[..|more| - 1];
      NothingAfterTerminal(request, steps, most);
      assert (steps + more)[..|steps + more| - 1] == steps + most;
      StaysDone(Run(request, steps + most), more[|more| - 1]);
    }
  }

  lemma StaysDone(c: Copy, step: Step)
    requires c.done
    ensures After(c, step).done && After(c, step).emitted == c.emitted
  {
    hide ItemWire, StartSend, PollFlush, PollFinish;
  }

  lemma OneStepMore(request: seq<byte>, steps: seq<Step>, step: Step)
    ensures Run(request, steps + [step]) == After(Run(request, steps), step)
    ensures Legal(request, steps + [step]) <==> Legal(request, steps) && Allowed(Run(request, steps), step)
  {
    hide After, Allowed;
    assert (steps + [step])[..|steps|] == steps;
  }

  /** Data are lost this way: the connection goes away, and the next large item takes the buffer with it. */
  lemma GoneReceiverLoses(request: seq<byte>, small: seq<byte>, large: seq<byte>)
    requires 0 < |small| <= FLUSH_LIMIT < |large|
    ensures var steps := [Send(small), DropReceiver, Send(large)];
      && Legal(request, steps)
      && Run(request, steps).accepted == small && Run(request, steps).lost == small
      && Payload(Run(request, steps).channel.log) + Run(request, steps).buf == []
  {
    OneStepMore(request, [], Send(small));
    OneStepMore(request, [Send(small)], DropReceiver);
    OneStepMore(request, [Send(small), DropReceiver], Send(large));
    var start := Start(request);
    assert Run(request, []) == start && Legal(request, []);
    assert [] + [Send(small)] == [Send(small)] && [Send(small)] + [DropReceiver] == [Send(small), DropReceiver];
    assert [Send(small), DropReceiver] + [Send(large)] == [Send(small), DropReceiver, Send(large)];
    assert Payload([Raw(request)]) == Payload([]) + [];
    hide Run, Legal, Payload;
    assert [] + small == small;
    assert After(start, Send(small)) == start.(buf := small, accepted := small);
  }

  // ---- What the server reads ----

  /** The messages of a channel item behind the request. */
  function FrontOf(it: Item): seq<FrontMsg> {
    match it
    case Raw(_) => []
    case Data(d) => [CopyBytes(d)]
    case DoneMark => [CopyFinished, Sync]
  }

  function FrontOfAll(items: seq<Item>): seq<FrontMsg> {
    if items == [] then [] else FrontOf(items[0]) + FrontOfAll(items[1..])
  }

  /** Behind the request there are only data that can be framed, and the end mark. */
  predicate AllFramed(items: seq<Item>) {
    forall i :: 0 <= i < |items| ==> !items[i].Raw? && (items[i].Data? ==> CopyDataFits(items[i].data))
  }

  lemma FramedStep(c: Copy, step: Step)
    requires Allowed(c, step) && |c.buf| <= FLUSH_LIMIT && c.channel.log != [] && AllFramed(c.channel.log[1..])
    ensures After(c, step).channel.log != [] && AllFramed(After(c, step).channel.log[1..])
  {
    hide ItemWire, AllFramed, FAIL_BYTES, DONE_BYTES;
    var log := c.channel.log;
    match step {
      case Send(item) => FramedPush(log, Data(c.buf + item));
      case FlushStep => FramedPush(log, Data(c.buf));
      case FinishStep(_) =>
        FramedPush(log, Data(c.buf));
        FramedPush(log, DoneMark);
        FramedPush(log + [Data(c.buf)], DoneMark);
      case _ =>
    }
  }

  lemma FramedPush(log: seq<Item>, it: Item)
    requires log != [] && AllFramed(log[1..])
    ensures !it.Raw? && (it.Data? ==> CopyDataFits(it.data)) ==> AllFramed((log + [it])[1..])
  {
    assert (log + [it])[1..] == log[1..] + [it];
  }

  lemma {:induction false} LogIsFramed(request: seq<byte>, steps: seq<Step>)
    requires Legal(request, steps)
    ensures Run(request, steps).channel.log != [] && AllFramed(Run(request, steps).channel.log[1..])
    decreases |steps|
  {
    hide After, Allowed, AllFramed, ItemWire;
    if steps == [] {
      NothingFramed(request);
    } else {
      var most := steps[..|steps| - 1];
      LogIsFramed(request, most);
      var taken := RunKeepsInv(request, most);
      FramedStep(Run(request, most), steps[|steps| - 1]);
    }
  }

  lemma NothingFramed(request: seq<byte>)
    ensures AllFramed(Start(request).channel.log[1..])
  {}

  lemma {:induction false} FrontEncodable(items: seq<Item>)
    requires AllFramed(items)
    ensures forall i :: 0 <= i < |FrontOfAll(items)| ==> Encodable(FrontOfAll(items)[i])
    decreases |items|
  {
    if items != [] {
      hide Encodable;
      FrontEncodable(items[1..]);
      FrontOneEncodable(items[0]);
    }
  }

  lemma FrontOneEncodable(it: Item)
    requires it.Data? ==> CopyDataFits(it.data)
    ensures forall i :: 0 <= i < |FrontOf(it)| ==> Encodable(FrontOf(it)[i])
  {}

  lemma FrontWire(it: Item)
    requires !it.Raw?
    ensures WireAll(FrontOf(it)) == ItemWire(it)
  {
    hide Wire;
    if it.Data? {
      WireOne(CopyBytes(it.data));
    } else {
      WireCons(CopyFinished, [Sync]);
      WireOne(Sync);
      assert [CopyFinished] + [Sync] == [CopyFinished, Sync];
    }
  }

  lemma {:induction false} WireConcat(a: seq<FrontMsg>, b: seq<FrontMsg>)
    ensures WireAll(a + b) == WireAll(a) + WireAll(b)
    decreases |a|
  {
    hide Wire;
    if a == [] {
      assert a + b == b;
    } else {
      assert (a + b)[1..] == a[1..] + b;
      WireConcat(a[1..], b);
    }
  }

  lemma {:induction false} FrontAllWire(items: seq<Item>)
    requires AllFramed(items)
    ensures WireAll(FrontOfAll(items)) == Joined(Wires(items))
    decreases |items|
  {
    hide ItemWire, Joined, WireAll;
    if items == [] {
      NothingWired();
    } else {
      FrontAllWire(items[1..]);
      FrontWire(items[0]);
      WireConcat(FrontOf(items[0]), FrontOfAll(items[1..]));
      JoinedCons(Wires(items));
      assert Wires(items)[1..] == Wires(items[1..]);
    }
  }

  lemma NothingWired()
    ensures WireAll([]) == [] && Joined(Wires([])) == []
  {}

  /**
   In every legal run, what a finished receiver has emitted behind the request is read by the
   server as the data messages in order and one end: CopyDone and Sync if the caller finished,
   CopyFail and Sync if it did not.
   */
  lemma ServerReadsTheCopy(request: seq<byte>, steps: seq<Step>)
    requires Legal(request, steps) && Run(request, steps).done
    ensures var c := Run(request, steps);
      && c.emitted != [] && c.emitted[0] == request && c.channel.log != []
      && ReadAll(Joined(c.emitted[1..])) == Some(FrontOfAll(c.channel.log[1..]) +
          if EndsDone(c.channel.log) then [] else [CopyFailed([]), Sync])
  {
    hide Run, Legal, ItemWire, AllFramed, Joined, WireAll, ReadAll, Encodable, FAIL_BYTES, EndsDone;
    var taken := EmittedInOrder(request, steps);
    LogIsFramed(request, steps);
    var c := Run(request, steps);
    var items := c.channel.log[1..];
    var end := if EndsDone(c.channel.log) then [] else [CopyFailed([]), Sync];
    assert Wires(c.channel.log)[1..] == Wires(items);
    RawIs(request);
    assert Wires(c.channel.log)[0] == request;
    FrontAllWire(items);
    FrontEncodable(items);
    if end == [] {
      assert c.emitted == Wires(c.channel.log) + [] == Wires(c.channel.log);
      assert FrontOfAll(items) + [] == FrontOfAll(items);
    } else {
      assert c.emitted[1..] == Wires(items) + [FAIL_BYTES];
      JoinedSnoc(Wires(items), FAIL_BYTES);
      FailReads();
      WireConcat(FrontOfAll(items), end);
    }
    StreamBack(FrontOfAll(items) + end);
  }

  lemma RawIs(request: seq<byte>)
    ensures ItemWire(Raw(request)) == request
  {}

  lemma FailReads()
    ensures WireAll([CopyFailed([]), Sync]) == FAIL_BYTES
    ensures Encodable(CopyFailed([])) && Encodable(Sync)
  {
    hide Wire;
    NoReasonEncodable();
    WireCons(CopyFailed([]), [Sync]);
    WireOne(Sync);
    assert [CopyFailed([])] + [Sync] == [CopyFailed([]), Sync];
  }

  /**
   Finishing a sink whose channel has room sends what is buffered and then the end mark, closes
   the channel, and gives what the server answered.
   */
  lemma FinishCompletes(s: Sink, answer: Polled)
    requires s.state == Active && s.channel.receiverOpen && |s.buf| <= FLUSH_LIMIT
    requires |s.channel.queue| + (if s.buf == [] then 0 else 1) <= BUFFER
    ensures var (s', r) := PollFinish(s, answer);
      var last := (if s.buf == [] then [] else [Data(s.buf)]) + [DoneMark];
      && s' == Sink(s.channel.(queue := s.channel.queue + last, log := s.channel.log + last, senderOpen := false), [],
                    Reading)
      && (r == Waiting <==> answer == Pending)
      && forall tag :: r == Finished(tag) <==> answer == Ready(Ok(Backend.CommandComplete(tag)))
  {
    assert [] + [DoneMark] == [DoneMark];
    var d := [Data(s.buf)];
    assert s.channel.queue + d + [DoneMark] == s.channel.queue + (d + [DoneMark]);
    assert s.channel.log + d + [DoneMark] == s.channel.log + (d + [DoneMark]);
  }
}
