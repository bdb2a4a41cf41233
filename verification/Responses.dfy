/**
 The client's end of a response channel: batches are taken off it and read message by
 message.
 */
module Responses {
  import opened Bytes
  import opened Wrappers
  import opened Sequences
  import opened Backend
  import opened Codec
  import opened Answers
  import opened Connection
  import opened Pipelining

  /** What a caller of `poll_next` gets for one frame: the server's errors come out as errors. */
  datatype Failure = Unparsable | ServerError | Disconnected

  type Reply = Result<Message, Failure>

  function ReplyOf(f: Frame): Reply {
    match MessageOf(f)
    case Err(_) => Err(Unparsable)
    case Ok(ErrorResponse(_)) => Err(ServerError)
    case Ok(m) => Ok(m)
  }

  function Replies(fs: seq<Frame>): (r: seq<Reply>)
    ensures |r| == |fs|
  {
    seq(|fs|, i requires 0 <= i < |fs| => ReplyOf(fs[i]))
  }

  /** One client: its channel, the batch it is reading, and all it has got out of batches so far. */
  datatype Reader = Reader(channel: ResponseChannel, cur: seq<byte>, replies: seq<Reply>)

  /** `poll_next`; `gone` says that the connection has let go of the sending half. */
  function PollNext(r: Reader, gone: bool): (Reader, Poll<Reply>)
    decreases |r.channel.queue|
  {
    match ParseStep(r.cur)
    case (Err(_), rest) => (r.(cur := rest, replies := r.replies + [Err(Unparsable)]), Ready(Err(Unparsable)))
    case (Ok(Some(ErrorResponse(_))), rest) =>
      (r.(cur := rest, replies := r.replies + [Err(ServerError)]), Ready(Err(ServerError)))
    case (Ok(Some(m)), rest) => (r.(cur := rest, replies := r.replies + [Ok(m)]), Ready(Ok(m)))
    case (Ok(None), _) =>
      if r.channel.queue == [] then (r, if gone then Ready(Err(Disconnected)) else Pending)
      else PollNext(r.(channel := OneTaken(r.channel), cur := r.channel.queue[0]), gone)
  }

  class Responses {
    const cur: BytesMut
    var channel: ResponseChannel
    ghost var replies: seq<Reply>

    ghost function View(): Reader
      reads this, cur
    {
      Reader(channel, cur.data, replies)
    }

    constructor (channel: ResponseChannel)
      ensures View() == Reader(channel, [], []) && fresh(cur)
    {
      cur := new BytesMut();
      this.channel := channel;
      replies := [];
    }

    method Poll(gone: bool) returns (r: Poll<Reply>)
      modifies this, cur
      ensures (View(), r) == PollNext(old(View()), gone)
    {
      hide ParseStep;
      while true
        invariant PollNext(View(), gone) == PollNext(old(View()), gone)
        decreases |channel.queue|
      {
        var parsed := ParseMessage(cur);
        match parsed {
          case Err(_) =>
            replies := replies + [Err(Unparsable)];
            return Ready(Err(Unparsable));
          case Ok(Some(m)) =>
            var reply: Reply := if m.ErrorResponse? then Err(ServerError) else Ok(m);
            replies := replies + [reply];
            return Ready(reply);
          case Ok(None) =>
        }
        if channel.queue == [] {
          return if gone then Ready(Err(Disconnected)) else Pending;
        }
        cur.data := channel.queue[0];
        channel := channel.(queue := channel.queue[1..], taken := channel.taken + [channel.queue[0]]);
      }
    }
  }

  // ---- What a client gets ----

  /** `h` is left of the batch being read, and everything before it in the batches taken has been returned. */
  ghost predicate Reading(r: Reader, h: seq<Frame>) {
    && AllWhole(r.channel.taken + r.channel.queue)
    && AllWellFormed(h) && r.cur == EncodeAll(h)
    && r.replies + Replies(h) == Replies(FramesOfAll(r.channel.taken))
  }

  lemma RepliesConcat(a: seq<Frame>, b: seq<Frame>)
    ensures Replies(a + b) == Replies(a) + Replies(b)
  {
    hide ReplyOf;
  }

  // Taking a batch, once the one before it has been read.
  lemma TakeKeepsReading(r: Reader)
    requires Reading(r, []) && r.channel.queue != []
    ensures var ch := r.channel;
      Reading(r.(channel := ch.(queue := ch.queue[1..], taken := ch.taken + [ch.queue[0]]), cur := ch.queue[0]),
              FramesOf(ch.queue[0]))
  {
    var ch := r.channel;
    assert Whole((ch.taken + ch.queue)[|ch.taken|]);
    hide FramesOf, EncodeAll, ReplyOf, AllWhole;
    assert ch.taken + [ch.queue[0]] + ch.queue[1..] == ch.taken + ch.queue;
    FramesOfAllSnoc(ch.taken, ch.queue[0]);
    RepliesConcat(FramesOfAll(ch.taken), FramesOf(ch.queue[0]));
    assert r.replies + Replies([]) == r.replies;
  }

  // Reading one message of the batch.
  lemma MessageKeepsReading(r: Reader, h: seq<Frame>, gone: bool)
    requires Reading(r, h) && h != []
    ensures var (r', polled) := PollNext(r, gone);
      && Reading(r', h[1..]) && polled == Ready(ReplyOf(h[0]))
      && r'.channel == r.channel && r'.replies == r.replies + [ReplyOf(h[0])]
  {
    hide MessageOf, Encode, AllWhole, FramesOfAll, ParseStep;
    ParseEncoded(h[0], EncodeAll(h[1..]));
    assert Replies(h) == [ReplyOf(h[0])] + Replies(h[1..]);
    Assoc(r.replies, [ReplyOf(h[0])], Replies(h[1..]));
  }

  // Nothing is left of the batch.
  lemma NothingLeft(r: Reader, gone: bool)
    requires Reading(r, [])
    ensures ParseStep(r.cur) == (Ok(None), r.cur)
  {
    hide AllWhole, FramesOfAll;
    NothingEncoded();
  }

  /**
   One `poll_next`: the next frame of all that the connection has handed over, or nothing
   once all of it has been read.
   */
  lemma {:induction false} PollKeepsReading(r: Reader, h: seq<Frame>, gone: bool) returns (h': seq<Frame>)
    requires Reading(r, h)
    ensures var (r', polled) := PollNext(r, gone);
      && Reading(r', h')
      && r'.channel.taken + r'.channel.queue == r.channel.taken + r.channel.queue && r'.channel.open == r.channel.open
      && (polled == Pending || polled == Ready(Err(Disconnected)) ==>
          r'.replies == r.replies == Replies(FramesOfAll(r.channel.taken + r.channel.queue)))
      && (polled == Pending ==> !gone) && (polled == Ready(Err(Disconnected)) ==> gone)
      && (polled.Ready? && polled != Ready(Err(Disconnected)) ==> r'.replies == r.replies + [polled.value])
    decreases |r.channel.queue|
  {
    hide Reading, FramesOfAll, ParseStep, ReplyOf;
    if h != [] {
      MessageKeepsReading(r, h, gone);
      NeverClosed(h[0]);
      h' := h[1..];
    } else {
      NothingLeft(r, gone);
      var ch := r.channel;
      if ch.queue == [] {
        h' := [];
        AllRead(r);
        assert ch.taken + [] == ch.taken;
      } else {
        var ch' := ch.(queue := ch.queue[1..], taken := ch.taken + [ch.queue[0]]);
        TakeKeepsReading(r);
        assert ch'.taken + ch'.queue == ch.taken + ch.queue;
        h' := PollKeepsReading(r.(channel := ch', cur := ch.queue[0]), FramesOf(ch.queue[0]), gone);
      }
    }
  }

  // What has been returned is the beginning of all that was handed over.
  lemma ReadSoFar(r: Reader, h: seq<Frame>)
    requires Reading(r, h)
    ensures r.replies <= Replies(FramesOfAll(r.channel.taken + r.channel.queue))
  {
    hide FramesOfAll, AllWhole, ReplyOf;
    FewerBatches(r.channel.taken, r.channel.queue);
    RepliesGrow(FramesOfAll(r.channel.taken), FramesOfAll(r.channel.taken + r.channel.queue));
    assert r.replies <= r.replies + Replies(h);
  }

  lemma NeverClosed(f: Frame)
    ensures ReplyOf(f) != Err(Disconnected)
  {
    hide MessageOf;
  }

  lemma AllRead(r: Reader)
    requires Reading(r, [])
    ensures r.replies == Replies(FramesOfAll(r.channel.taken))
  {
    hide FramesOfAll, AllWhole, ReplyOf;
    assert r.replies + Replies([]) == r.replies;
  }

  // ---- A client within the whole run ----

  /** A run in which client `i` reads its channel with `poll_next`, and everything else happens as before. */
  datatype Event = Env(step: Step) | Read(gone: bool)

  datatype Scene = Scene(world: World, reader: Reader)

  function Play(sc: Scene, i: nat, e: Event): Scene {
    var w := sc.world;
    match e
    case Env(step) =>
      if step == Take(i) then sc
      else
        var w' := Next(w, step);
        Scene(w', if i < |w'.conn.channels| then sc.reader.(channel := w'.conn.channels[i]) else sc.reader)
    case Read(gone) =>
      if i < |w.conn.channels| && w.conn.channels[i].open then
        var r := PollNext(sc.reader, gone).0;
        Scene(w.(conn := w.conn.(channels := w.conn.channels[i := r.channel])), r)
      else sc
  }

  function PlayAll(start: Scene, i: nat, events: seq<Event>): Scene {
    if events == [] then start else Play(PlayAll(start, i, events[..|events| - 1]), i, events[|events| - 1])
  }

  ghost predicate SceneRight(sc: Scene, i: nat, o: Origin, s: Split, h: seq<Frame>) {
    && Inv(sc.world, o, s) && Valid(sc.world.conn)
    && Reading(sc.reader, h)
    && (i < |sc.world.conn.channels| ==> sc.reader.channel == sc.world.conn.channels[i])
    && (i >= |sc.world.conn.channels| ==> sc.reader == Reader(NEW_CHANNEL, [], []))
  }

  // What a step of the surroundings does to a channel that is not `Take`.
  lemma ChannelAfter(w: World, step: Step, i: nat, o: Origin, s: Split)
    requires Inv(w, o, s) && Valid(w.conn) && Allowed(w, step) && step != Take(i)
    ensures |w.conn.channels| <= |Pipelining.After(w, step).conn.channels|
    ensures i < |w.conn.channels| ==> Pipelining.After(w, step).conn.channels[i].taken == w.conn.channels[i].taken
    ensures |w.conn.channels| <= i < |Pipelining.After(w, step).conn.channels| ==>
      Pipelining.After(w, step).conn.channels[i] == NEW_CHANNEL
  {
    hide MessageOf, Encode, EncodeAll, Inv, PollMessage, Valid;
    if step.Poll? {
      PollTakesNothing(w.conn, step.budget, step.shut);
    }
  }

  /** The connection never takes a batch back, and opens no channel. */
  predicate SameTaken(a: seq<ResponseChannel>, b: seq<ResponseChannel>) {
    |a| == |b| && forall k :: 0 <= k < |a| ==> a[k].taken == b[k].taken
  }

  lemma PollTakesNothing(c: Conn, budget: nat, shut: bool)
    requires Valid(c)
    ensures SameTaken(c.channels, PollMessage(c, budget, shut).0.channels)
  {
    hide Valid, ReadLoop, PollWrite;
    ReadLoopValid(c);
    ReadTakesNothing(c);
    if PollRead(c).1.Ok? {
      WriteTakesNothing(PollRead(c).0, budget);
    }
  }

  lemma {:induction false} ReadTakesNothing(c: Conn)
    requires Valid(c)
    ensures SameTaken(c.channels, ReadLoop(c).0.channels)
    decreases |c.pendingResponses| + |c.src|
  {
    hide ReadStep, Valid;
    ReadStepValid(c);
    ReadStepTakesNothing(c);
    if ReadStep(c).1.Continue? {
      ReadTakesNothing(ReadStep(c).0);
    }
  }

  lemma ReadStepTakesNothing(c: Conn)
    requires Valid(c)
    ensures SameTaken(c.channels, ReadStep(c).0.channels)
  {
    hide Decoded, ParseStep;
  }

  lemma {:induction false} WriteTakesNothing(c: Conn, budget: nat)
    requires Valid(c)
    ensures SameTaken(c.channels, PollWrite(c, budget).0.channels)
    decreases budget
  {
    hide WriteStep, Valid;
    if c.state != Closing && budget > 0 {
      WriteStepValid(c);
      WriteStepWrites(c);
      assert PollRequest(c).0.channels == c.channels;
      if WriteStep(c).1.Again? {
        WriteTakesNothing(WriteStep(c).0, budget - 1);
      }
    }
  }

  lemma EnvKeepsRight(sc: Scene, i: nat, step: Step, o: Origin, s: Split, h: seq<Frame>) returns (s': Split)
    requires SceneRight(sc, i, o, s, h) && Allowed(sc.world, step) && step != Take(i)
    ensures SceneRight(Play(sc, i, Env(step)), i, o, s', h)
  {
    hide ReadInv, Valid, Allowed, EncodeAll, FramesOfAll, ReplyOf, Given, Answer, AllWhole;
    var w := sc.world;
    s' := StepKeepsInv(w, step, o, s);
    var w' := Pipelining.After(w, step);
    ChannelAfter(w, step, i, o, s);
    ReadInvValid(w'.conn, w'.sent, w'.flight, w'.submitted, w'.surfaced, o, s');
    if i < |w'.conn.channels| {
      ChannelWhole(w', i, o, s');
    }
    hide Pipelining.After, Inv;
  }

  lemma ChannelWhole(w: World, i: nat, o: Origin, s: Split)
    requires Inv(w, o, s) && i < |w.conn.channels|
    ensures AllWhole(w.conn.channels[i].taken + w.conn.channels[i].queue)
    ensures Given(w.conn.channels[i]) <= Answer(s.consumed, i)
    ensures w.conn.channels[i].open ==> Given(w.conn.channels[i]) == Answer(s.consumed, i)
  {
    hide Valid, HeldRight, QueueRight, RequestsRight, EncodeAll, Answer, Parameters, GoodFrames, AllWhole, Given;
  }

  lemma ReadKeepsRight(sc: Scene, i: nat, gone: bool, o: Origin, s: Split, h: seq<Frame>) returns (h': seq<Frame>)
    requires SceneRight(sc, i, o, s, h)
    ensures SceneRight(Play(sc, i, Read(gone)), i, o, s, h')
  {
    hide ReadInv, EncodeAll, FramesOfAll, ReplyOf, AllWhole, Reading, PollNext, Valid;
    var w := sc.world;
    h' := h;
    if i < |w.conn.channels| && w.conn.channels[i].open {
      h' := PollKeepsReading(sc.reader, h, gone);
      var ch := PollNext(sc.reader, gone).0.channel;
      ChannelKeepsInv(w, i, ch, o, s);
      ChannelValid(w.conn, i, ch);
    }
  }

  lemma ChannelValid(c: Conn, i: nat, ch: ResponseChannel)
    requires Valid(c) && i < |c.channels|
    ensures Valid(c.(channels := c.channels[i := ch]))
  {}

  lemma {:induction false} PlayKeepsRight(start: World, i: nat, events: seq<Event>, o: Origin)
    returns (s: Split, h: seq<Frame>)
    requires Starts(start, o)
    ensures SceneRight(PlayAll(Scene(start, Reader(NEW_CHANNEL, [], [])), i, events), i, o, s, h)
    decreases |events|
  {
    hide SceneRight, Starts, Play;
    if events == [] {
      s, h := Split([], [], start.sent), [];
      StartRight(start, i, o);
    } else {
      var last := events[|events| - 1];
      s, h := PlayKeepsRight(start, i, events[..|events| - 1], o);
      var sc := PlayAll(Scene(start, Reader(NEW_CHANNEL, [], [])), i, events[..|events| - 1]);
      s, h := EventKeepsRight(sc, i, last, o, s, h);
    }
  }

  lemma EventKeepsRight(sc: Scene, i: nat, e: Event, o: Origin, s: Split, h: seq<Frame>)
    returns (s': Split, h': seq<Frame>)
    requires SceneRight(sc, i, o, s, h)
    ensures SceneRight(Play(sc, i, e), i, o, s', h')
  {
    hide Inv, Reading, Valid, Allowed, Pipelining.After, PollNext;
    s', h' := s, h;
    match e
    case Env(step) =>
      if step != Take(i) && Allowed(sc.world, step) {
        s' := EnvKeepsRight(sc, i, step, o, s, h);
      } else if i < |sc.world.conn.channels| {
        assert sc.reader.(channel := sc.world.conn.channels[i]) == sc.reader;
      }
    case Read(gone) =>
      h' := ReadKeepsRight(sc, i, gone, o, s, h);
  }

  lemma StartRight(start: World, i: nat, o: Origin)
    requires Starts(start, o)
    ensures SceneRight(Scene(start, Reader(NEW_CHANNEL, [], [])), i, o, Split([], [], start.sent), [])
  {
    StartKeepsInv(start, o);
    StartValid(start, o);
    hide ReadInv, Valid, ReplyOf;
    NothingEncoded();
    NothingGivenYet();
    assert NEW_CHANNEL.taken + NEW_CHANNEL.queue == [];
    assert Replies([]) == [] && [] + Replies([]) == Replies([]);
  }

  lemma StartValid(start: World, o: Origin)
    requires Starts(start, o)
    ensures Valid(start.conn) && start.conn.channels == []
  {
    hide EncodeAll, GoodFrames;
  }

  lemma {:induction false} RepliesGrow(a: seq<Frame>, b: seq<Frame>)
    requires a <= b
    ensures Replies(a) <= Replies(b)
  {
    hide ReplyOf;
  }

  /**
   What the client of request `i` gets out of `poll_next`, over every run in which it polls
   at any moments: the messages of its own answer, in order, each once, the server's errors
   as errors. The next poll gives the next one; only when it has got all that was processed of
   its answer does it find nothing, or, once the connection has let go, the end.
   */
  lemma ClientReadsItsAnswer(start: World, i: nat, events: seq<Event>, o: Origin, gone: bool) returns (s: Split)
    requires Starts(start, o)
    ensures var sc := PlayAll(Scene(start, Reader(NEW_CHANNEL, [], [])), i, events);
      && HowFar(sc.world, s)
      && sc.reader.replies <= Replies(Answer(sc.world.sent, i))
      && (i < |sc.world.conn.channels| && sc.world.conn.channels[i].open ==>
          var (r', polled) := PollNext(sc.reader, gone);
          var all := Replies(Answer(s.consumed, i));
          if polled == Pending || polled == Ready(Err(Disconnected)) then
            sc.reader.replies == all && (gone <==> polled != Pending)
          else
            r'.replies == sc.reader.replies + [polled.value] && r'.replies <= all)
  {
    hide Starts, PlayAll, Valid, HeldRight, QueueRight, RequestsRight, Parameters, EncodeAll, GoodFrames,
      ReplyOf, Answer;
    hide PollNext, AllWhole, FramesOfAll;
    var h: seq<Frame>;
    s, h := PlayKeepsRight(start, i, events, o);
    var sc := PlayAll(Scene(start, Reader(NEW_CHANNEL, [], [])), i, events);
    InvTellsHowFar(sc.world, o, s);
    if i < |sc.world.conn.channels| {
      var ch := sc.world.conn.channels[i];
      var h' := PollKeepsReading(sc.reader, h, gone);
      ChannelWhole(sc.world, i, o, s);
      AnswersGrow(s.consumed, s.held + s.rest, i);
      assert s.consumed + (s.held + s.rest) == sc.world.sent;
      FewerBatches(ch.taken, ch.queue);
      RepliesGrow(FramesOfAll(ch.taken), Answer(sc.world.sent, i));
      var r' := PollNext(sc.reader, gone).0;
      ReadSoFar(r', h');
    }
  }
}
