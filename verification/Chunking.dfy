/**
 Framing over whole runs: bytes arrive in chunks of any size, `decode` is called at any
 moment, and what comes out depends on the bytes alone.
 */
module Chunking {
  import opened Bytes
  import opened Wrappers
  import opened Sequences
  import opened Backend
  import opened Codec

  datatype Step = Arrive(chunk: seq<byte>) | Poll

  /** The read buffer, what `decode` has produced so far, and whether a call failed. */
  datatype Reader = Reader(src: seq<byte>, out: seq<BackendMessage>, failed: bool)

  function After(r: Reader, s: Step): Reader {
    match s
    case Arrive(chunk) => r.(src := r.src + chunk)
    case Poll =>
      var (result, rest) := Decoded(r.src);
      match result
      case Err(_) => r.(src := rest, failed := true)
      case Ok(None) => r.(src := rest)
      case Ok(Some(m)) => r.(src := rest, out := r.out + [m])
  }

  function Run(steps: seq<Step>): Reader {
    if steps == [] then Reader([], [], false)
    else After(Run(steps[..|steps| - 1]), steps[|steps| - 1])
  }

  function Arrived(steps: seq<Step>): seq<byte> {
    if steps == [] then []
    else Arrived(steps[..|steps| - 1]) + (match steps[|steps| - 1] case Arrive(c) => c case Poll => [])
  }

  // ---- What a consumer reads out of the messages ----

  /** `Message::parse` repeated until the batch is used up. */
  function MessagesIn(batch: seq<byte>): seq<Result<Message, Error>>
    decreases |batch|
  {
    match ParseStep(batch)
    case (Ok(None), _) => []
    case (Ok(Some(m)), rest) => [Ok(m)] + MessagesIn(rest)
    case (Err(e), rest) => [Err(e)] + if |rest| < |batch| then MessagesIn(rest) else []
  }

  function Delivered(m: BackendMessage): seq<Result<Message, Error>> {
    match m
    case Async(message) => [Ok(message)]
    case Normal(batch, _) => MessagesIn(batch)
  }

  function Flatten(out: seq<BackendMessage>): seq<Result<Message, Error>> {
    if out == [] then [] else Flatten(out[..|out| - 1]) + Delivered(out[|out| - 1])
  }

  function Parsed(fs: seq<Frame>): (r: seq<Result<Message, Error>>)
    ensures |r| == |fs|
  {
    seq(|fs|, i requires 0 <= i < |fs| => MessageOf(fs[i]))
  }

  lemma FlattenSnoc(out: seq<BackendMessage>, m: BackendMessage)
    ensures Flatten(out + [m]) == Flatten(out) + Delivered(m)
  {
    hide Delivered;
    assert (out + [m])[..|out|] == out;
  }

  lemma ParsedConcat(a: seq<Frame>, b: seq<Frame>)
    ensures Parsed(a + b) == Parsed(a) + Parsed(b)
  {
    hide MessageOf;
  }

  lemma {:induction false} MessagesInFrames(fs: seq<Frame>)
    requires AllWellFormed(fs)
    ensures MessagesIn(EncodeAll(fs)) == Parsed(fs)
    decreases |fs|
  {
    hide MessageOf, Encode;
    if fs != [] {
      ParseEncoded(fs[0], EncodeAll(fs[1..]));
      MessagesInFrames(fs[1..]);
      assert Parsed(fs) == [MessageOf(fs[0])] + Parsed(fs[1..]);
    }
  }

  // ---- The invariant ----

  ghost predicate GoodBatch(m: BackendMessage) {
    m.Normal? ==> exists fs :: IsBatch(fs) && m == Normal(EncodeAll(fs), EndsReady(fs))
  }

  /**
   Of the bytes that arrived, the frames `done` have come out and the buffer holds the
   rest, a cut of the frames still to come.
   */
  ghost predicate Inv(r: Reader, done: seq<Frame>, rest: seq<Frame>, arrived: seq<byte>) {
    && GoodFrames(rest)
    && !r.failed
    && arrived == EncodeAll(done) + r.src
    && r.src <= EncodeAll(rest)
    && Flatten(r.out) == Parsed(done)
    && forall i :: 0 <= i < |r.out| ==> GoodBatch(r.out[i])
  }

  lemma ArriveKeepsInv(r: Reader, done: seq<Frame>, rest: seq<Frame>, arrived: seq<byte>, chunk: seq<byte>)
    requires Inv(r, done, rest, arrived) && arrived + chunk <= EncodeAll(done + rest)
    ensures Inv(After(r, Arrive(chunk)), done, rest, arrived + chunk)
  {
    hide MessageOf, Encode, EncodeAll, Flatten, Parsed;
    EncodeAllConcat(done, rest);
    assert arrived + chunk == EncodeAll(done) + (r.src + chunk);
    DropPrefix(EncodeAll(done), r.src + chunk, EncodeAll(rest));
  }

  // A `decode` that produces `m` out of the frames `batch`.
  lemma EmitKeepsInv(r: Reader, done: seq<Frame>, batch: seq<Frame>, rest: seq<Frame>, arrived: seq<byte>,
      m: BackendMessage, src: seq<byte>)
    requires Inv(r, done, batch + rest, arrived)
    requires r.src == EncodeAll(batch) + src && src <= EncodeAll(rest)
    requires Delivered(m) == Parsed(batch) && GoodBatch(m)
    ensures Inv(Reader(src, r.out + [m], false), done + batch, rest, arrived)
  {
    hide MessageOf, Encode, EncodeAll, Delivered, Flatten, Parsed, GoodBatch;
    FlattenSnoc(r.out, m);
    ParsedConcat(done, batch);
    GoodSplit(batch, rest);
    EncodeAllConcat(done, batch);
    assert arrived == EncodeAll(done + batch) + src;
  }

  lemma BatchDelivers(batch: seq<Frame>, m: BackendMessage)
    requires AllWellFormed(batch) && batch != []
    requires if IsAsyncTag(batch[0].tag) then batch == [batch[0]] && m.Async? && MessageOf(batch[0]) == Ok(m.message)
             else IsBatch(batch) && m == Normal(EncodeAll(batch), EndsReady(batch))
    ensures Delivered(m) == Parsed(batch) && GoodBatch(m)
  {
    hide MessageOf, Encode;
    MessagesInFrames(batch);
  }

  // What `decode` takes from a non-empty list of complete frames.
  lemma TakenFrames(whole: seq<Frame>) returns (batch: seq<Frame>)
    requires GoodFrames(whole) && whole != []
    ensures var (m, left) := DecodedFrames(whole);
      && whole == batch + left && m.Ok? && m.value.Some?
      && Delivered(m.value.value) == Parsed(batch) && GoodBatch(m.value.value)
  {
    hide MessageOf, Encode, EncodeAll;
    var (m, left) := DecodedFrames(whole);
    if IsAsyncTag(whole[0].tag) {
      batch := [whole[0]];
    } else {
      batch := NextBatch(whole).0;
      NextBatchIsMaximal(whole);
    }
    GoodSplit(batch, left);
    BatchDelivers(batch, m.value.value);
  }

  lemma NothingDecoded()
    ensures DecodedFrames([]) == (Ok(None), [])
  {}

  lemma PollWhole(r: Reader, done: seq<Frame>, whole: seq<Frame>, others: seq<Frame>, tail: seq<byte>,
      arrived: seq<byte>)
    returns (done': seq<Frame>, rest': seq<Frame>)
    requires Inv(r, done, whole + others, arrived)
    requires whole != [] && r.src == EncodeAll(whole) + tail && tail <= EncodeAll(others)
    requires Decoded(r.src) == (DecodedFrames(whole).0, EncodeAll(DecodedFrames(whole).1) + tail)
    ensures done' + rest' == done + (whole + others) && Inv(After(r, Poll), done', rest', arrived)
  {
    hide MessageOf, Encode, EncodeAll, Delivered, DecodedFrames, Decoded, Parsed, Flatten, GoodBatch;
    GoodSplit(whole, others);
    var batch := TakenFrames(whole);
    var left := DecodedFrames(whole).1;
    EncodeAllConcat(batch, left);
    EncodeAllConcat(left, others);
    done', rest' := done + batch, left + others;
    assert whole + others == batch + rest';
    EmitKeepsInv(r, done, batch, rest', arrived, DecodedFrames(whole).0.value.value, EncodeAll(left) + tail);
  }

  lemma PollKeepsInv(r: Reader, done: seq<Frame>, rest: seq<Frame>, arrived: seq<byte>)
    returns (done': seq<Frame>, rest': seq<Frame>)
    requires Inv(r, done, rest, arrived)
    ensures done' + rest' == done + rest && Inv(After(r, Poll), done', rest', arrived)
  {
    hide MessageOf, Encode, Delivered, DecodedFrames, Decoded, Parsed, Flatten, GoodBatch, ProperPrefix;
    var whole, others, tail := CutFrames(rest, r.src);
    DecodeFrames(whole, tail, if others == [] then Frame(0, []) else others[0]);
    if whole == [] {
      NothingDecoded();
      assert EncodeAll([]) + tail == tail == r.src;
      done', rest' := done, rest;
    } else {
      TailFits(tail, others);
      done', rest' := PollWhole(r, done, whole, others, tail, arrived);
    }
  }

  lemma TailFits(tail: seq<byte>, others: seq<Frame>)
    requires tail == [] || (others != [] && ProperPrefix(tail, others[0]))
    ensures tail <= EncodeAll(others)
  {
    hide Encode;
  }

  /**
   Every run over a well-formed stream succeeds: the messages read out are those of the
   frames `done`, and the bytes of `done` with those left in the buffer are exactly the
   bytes that arrived.
   */
  lemma {:induction false} RunKeepsInv(steps: seq<Step>, stream: seq<Frame>)
    returns (done: seq<Frame>, rest: seq<Frame>)
    requires GoodFrames(stream) && Arrived(steps) <= EncodeAll(stream)
    ensures stream == done + rest && Inv(Run(steps), done, rest, Arrived(steps))
    decreases |steps|
  {
    hide MessageOf, Encode;
    if steps == [] {
      done, rest := [], stream;
    } else {
      hide Inv;
      var before := steps[..|steps| - 1];
      done, rest := RunKeepsInv(before, stream);
      match steps[|steps| - 1]
      case Arrive(c) =>
        ArriveKeepsInv(Run(before), done, rest, Arrived(before), c);
      case Poll =>
        assert Arrived(steps) == Arrived(before);
        done, rest := PollKeepsInv(Run(before), done, rest, Arrived(before));
    }
  }

  /** A buffer `decode` finds nothing in holds less than one frame. */
  lemma StuckBuffer(r: Reader, done: seq<Frame>, rest: seq<Frame>, arrived: seq<byte>)
    requires Inv(r, done, rest, arrived) && Decoded(r.src).0 == Ok(None)
    ensures r.src == [] || (rest != [] && ProperPrefix(r.src, rest[0]))
  {
    hide MessageOf, Encode, Decoded;
    var whole, others, tail := CutFrames(rest, r.src);
    DecodeFrames(whole, tail, if others == [] then Frame(0, []) else others[0]);
    if whole != [] {
      GoodSplit(whole, others);
      var batch := TakenFrames(whole);
    }
    assert r.src == tail;
  }

  // Two decompositions of the same bytes into frames and a partial frame are one.
  lemma {:induction false} SameCut(d1: seq<Frame>, r1: seq<Frame>, t1: seq<byte>, d2: seq<Frame>, r2: seq<Frame>,
      t2: seq<byte>)
    requires d1 + r1 == d2 + r2 && EncodeAll(d1) + t1 == EncodeAll(d2) + t2
    requires t1 == [] || (r1 != [] && |t1| < |r1[0].body| + 5)
    requires t2 == [] || (r2 != [] && |t2| < |r2[0].body| + 5)
    ensures d1 == d2 && t1 == t2
    decreases |d1|
  {
    hide Encode;
    assert d1 == [] && r1 != [] ==> (d1 + r1)[0] == r1[0];
    assert d2 == [] && r2 != [] ==> (d2 + r2)[0] == r2[0];
    assert d1 != [] ==> (d1 + r1)[0] == d1[0];
    assert d2 != [] ==> (d2 + r2)[0] == d2[0];
    if d1 == [] && d2 == [] {
      assert t1 == EncodeAll(d1) + t1 == EncodeAll(d2) + t2 == t2;
    } else if d1 != [] && d2 != [] {
      assert (d1 + r1)[1..] == d1[1..] + r1 && (d2 + r2)[1..] == d2[1..] + r2;
      var head := Encode(d1[0]);
      assert EncodeAll(d1) + t1 == head + (EncodeAll(d1[1..]) + t1);
      assert EncodeAll(d2) + t2 == head + (EncodeAll(d2[1..]) + t2);
      Cancel(head, EncodeAll(d1[1..]) + t1, EncodeAll(d2[1..]) + t2);
      SameCut(d1[1..], r1, t1, d2[1..], r2, t2);
    }
  }

  /**
   Framing is independent of chunking: two runs that received the same bytes, cut in any
   two ways and polled at any moments, agree as soon as `decode` has nothing more to give.
   */
  lemma SameBytesSameMessages(s1: seq<Step>, s2: seq<Step>, stream: seq<Frame>)
    requires GoodFrames(stream) && Arrived(s1) == Arrived(s2) && Arrived(s1) <= EncodeAll(stream)
    requires Decoded(Run(s1).src).0 == Ok(None) && Decoded(Run(s2).src).0 == Ok(None)
    ensures Flatten(Run(s1).out) == Flatten(Run(s2).out) && Run(s1).src == Run(s2).src
  {
    hide MessageOf, Encode;
    var d1, r1 := RunKeepsInv(s1, stream);
    var d2, r2 := RunKeepsInv(s2, stream);
    StuckBuffer(Run(s1), d1, r1, Arrived(s1));
    StuckBuffer(Run(s2), d2, r2, Arrived(s2));
    SameCut(d1, r1, Run(s1).src, d2, r2, Run(s2).src);
  }
}
