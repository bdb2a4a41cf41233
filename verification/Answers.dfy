/**
 How a server's stream splits into answers: the ordinary frames up to and including each
 `ReadyForQuery`, with asynchronous messages lying anywhere between them.
 */
module Answers {
  import opened Bytes
  import opened Wrappers
  import opened Sequences
  import opened Backend
  import opened Codec

  /** How many answers the frames complete. */
  function Completed(fs: seq<Frame>): nat {
    if fs == [] then 0
    else Completed(fs[..|fs| - 1]) + if fs[|fs| - 1].tag == READY_FOR_QUERY_TAG then 1 else 0
  }

  /** The frames of the `i`-th answer, as far as the stream goes. */
  function Answer(fs: seq<Frame>, i: nat): seq<Frame> {
    if fs == [] then []
    else
      var before, last := fs[..|fs| - 1], fs[|fs| - 1];
      Answer(before, i) + if !IsAsyncTag(last.tag) && Completed(before) == i then [last] else []
  }

  /** The notices and notifications of a stream, in order. */
  function Announcements(fs: seq<Frame>): seq<Message> {
    if fs == [] then []
    else Announcements(fs[..|fs| - 1]) + Announced(fs[|fs| - 1])
  }

  function Announced(f: Frame): seq<Message> {
    if !IsAsyncTag(f.tag) then []
    else match MessageOf(f)
      case Err(_) => []
      case Ok(m) => if m.ParameterStatus? then [] else [m]
  }

  /** The run-time parameters after a stream of `ParameterStatus` messages. */
  function Parameters(start: map<seq<byte>, seq<byte>>, fs: seq<Frame>): map<seq<byte>, seq<byte>> {
    if fs == [] then start
    else
      var before := Parameters(start, fs[..|fs| - 1]);
      match MessageOf(fs[|fs| - 1])
      case Ok(ParameterStatus(name, value)) => before[name := value]
      case _ => before
  }

  // ---- One more frame, one more batch ----

  lemma Snoc(fs: seq<Frame>, f: Frame)
    ensures Completed(fs + [f]) == Completed(fs) + if f.tag == READY_FOR_QUERY_TAG then 1 else 0
    ensures forall i ::
      Answer(fs + [f], i) == Answer(fs, i) + (if !IsAsyncTag(f.tag) && Completed(fs) == i then [f] else [])
    ensures Announcements(fs + [f]) == Announcements(fs) + Announced(f)
  {
    hide Announced;
    assert (fs + [f])[..|fs|] == fs;
  }

  // Only `ParameterStatus` frames parse as `ParameterStatus`.
  lemma StatusTag(f: Frame)
    ensures MessageOf(f).Ok? && MessageOf(f).value.ParameterStatus? ==> f.tag == PARAMETER_STATUS_TAG
  {}

  lemma SnocParameters(start: map<seq<byte>, seq<byte>>, fs: seq<Frame>, f: Frame)
    ensures Parameters(start, fs + [f])
         == match MessageOf(f)
            case Ok(ParameterStatus(name, value)) => Parameters(start, fs)[name := value]
            case _ => Parameters(start, fs)
  {
    hide MessageOf;
    assert (fs + [f])[..|fs|] == fs;
  }

  /** An asynchronous frame belongs to no answer. */
  lemma AsyncIsNoAnswer(fs: seq<Frame>, f: Frame)
    requires IsAsyncTag(f.tag)
    ensures Completed(fs + [f]) == Completed(fs)
    ensures forall i :: Answer(fs + [f], i) == Answer(fs, i)
  {
    Snoc(fs, f);
  }

  lemma RunOfFramesAt(fs: seq<Frame>, more: seq<Frame>, i: nat)
    requires forall k :: 0 <= k < |more| ==> !IsAsyncTag(more[k].tag) && more[k].tag != READY_FOR_QUERY_TAG
    ensures Completed(fs + more) == Completed(fs)
    ensures Answer(fs + more, i) == Answer(fs, i) + if i == Completed(fs) then more else []
    decreases |more|
  {
    hide Answer, Completed, Announcements;
    if more == [] {
      assert fs + more == fs;
      assert Answer(fs, i) + [] == Answer(fs, i);
    } else {
      var most, last := more[..|more| - 1], more[|more| - 1];
      RunOfFramesAt(fs, most, i);
      Snoc(fs + most, last);
      assert (fs + most) + [last] == fs + more && most + [last] == more;
      Assoc(Answer(fs, i), most, [last]);
      assert Answer(fs, i) + [] + [] == Answer(fs, i) + [];
    }
  }

  // Frames without ReadyForQuery all go to the answer in progress.
  lemma {:induction false} RunOfFrames(fs: seq<Frame>, more: seq<Frame>)
    requires forall k :: 0 <= k < |more| ==> !IsAsyncTag(more[k].tag) && more[k].tag != READY_FOR_QUERY_TAG
    ensures Completed(fs + more) == Completed(fs)
    ensures forall i :: Answer(fs + more, i) == Answer(fs, i) + if i == Completed(fs) then more else []
  {
    RunOfFramesAt(fs, more, 0);
    forall i: nat
      ensures Answer(fs + more, i) == Answer(fs, i) + if i == Completed(fs) then more else []
    {
      RunOfFramesAt(fs, more, i);
    }
  }

  lemma OrdinaryFrame(start: map<seq<byte>, seq<byte>>, fs: seq<Frame>, f: Frame)
    requires !IsAsyncTag(f.tag)
    ensures Announcements(fs + [f]) == Announcements(fs)
    ensures Parameters(start, fs + [f]) == Parameters(start, fs)
  {
    hide MessageOf, Completed, Answer;
    Snoc(fs, f);
    StatusTag(f);
    SnocParameters(start, fs, f);
    hide Announcements, Parameters;
    assert Announcements(fs) + [] == Announcements(fs);
  }

  // Ordinary frames announce nothing and set no parameter.
  lemma {:induction false} OrdinaryFrames(start: map<seq<byte>, seq<byte>>, fs: seq<Frame>, more: seq<Frame>)
    requires forall k :: 0 <= k < |more| ==> !IsAsyncTag(more[k].tag)
    ensures Announcements(fs + more) == Announcements(fs)
    ensures Parameters(start, fs + more) == Parameters(start, fs)
    decreases |more|
  {
    hide Announcements, Parameters;
    if more == [] {
      assert fs + more == fs;
    } else {
      var most, last := more[..|more| - 1], more[|more| - 1];
      OrdinaryFrames(start, fs, most);
      OrdinaryFrame(start, fs + most, last);
      assert (fs + most) + [last] == fs + more;
    }
  }

  /** A batch goes whole to the answer in progress, and completes it exactly if it ends with ReadyForQuery. */
  lemma BatchIsOneAnswer(fs: seq<Frame>, batch: seq<Frame>)
    requires IsBatch(batch)
    ensures Completed(fs + batch) == Completed(fs) + if EndsReady(batch) then 1 else 0
    ensures forall i :: Answer(fs + batch, i) == Answer(fs, i) + if i == Completed(fs) then batch else []
  {
    hide Answer, Completed, Announcements;
    var most, last := batch[..|batch| - 1], batch[|batch| - 1];
    RunOfFrames(fs, most);
    Snoc(fs + most, last);
    assert (fs + most) + [last] == fs + batch;
    assert most + [last] == batch;
  }

  /** Answers only grow. */
  lemma {:induction false} AnswersGrow(fs: seq<Frame>, more: seq<Frame>, i: nat)
    ensures Answer(fs, i) <= Answer(fs + more, i) && Completed(fs) <= Completed(fs + more)
    decreases |more|
  {
    hide Answer, Completed, Announcements;
    if more == [] {
      assert fs + more == fs;
    } else {
      var most, last := more[..|more| - 1], more[|more| - 1];
      AnswersGrow(fs, most, i);
      Snoc(fs + most, last);
      assert (fs + most) + [last] == fs + more;
    }
  }

  // ---- Streams one after the other ----

  /** The answers of a stream that goes on: the one in progress continues, the later ones are shifted. */
  lemma {:induction false} AnswersConcat(a: seq<Frame>, b: seq<Frame>, j: nat)
    ensures Completed(a + b) == Completed(a) + Completed(b)
    ensures Answer(a + b, Completed(a) + j) == Answer(a, Completed(a) + j) + Answer(b, j)
    decreases |b|
  {
    hide Answer, Completed, Announcements;
    NothingAnswered(j);
    if b == [] {
      assert a + b == a;
      assert Answer(a, Completed(a) + j) + [] == Answer(a, Completed(a) + j);
    } else {
      var most, last := b[..|b| - 1], b[|b| - 1];
      AnswersConcat(a, most, j);
      Snoc(a + most, last);
      Snoc(most, last);
      assert b == most + [last];
      Assoc(a, most, [last]);
      var more := if !IsAsyncTag(last.tag) && Completed(most) == j then [last] else [];
      Assoc(Answer(a, Completed(a) + j), Answer(most, j), more);
    }
  }

  lemma NothingAnswered(j: nat)
    ensures Answer([], j) == [] && Completed([]) == 0
  {}

  lemma {:induction false} NoneAfter(fs: seq<Frame>, k: nat)
    requires k > Completed(fs) || (k == Completed(fs) && EndsReady(fs))
    ensures Answer(fs, k) == []
    decreases |fs|
  {
    if fs != [] {
      NoneAfter(fs[..|fs| - 1], k);
    }
  }

  lemma {:induction false} AnnouncementsConcat(a: seq<Frame>, b: seq<Frame>)
    ensures Announcements(a + b) == Announcements(a) + Announcements(b)
    decreases |b|
  {
    hide Announced, Announcements, Answer, Completed;
    if b == [] {
      assert a + b == a;
      NothingAnnounced();
      assert Announcements(a) + [] == Announcements(a);
    } else {
      var most, last := b[..|b| - 1], b[|b| - 1];
      AnnouncementsConcat(a, most);
      Snoc(a + most, last);
      Snoc(most, last);
      assert b == most + [last];
      Assoc(a, most, [last]);
      Assoc(Announcements(a), Announcements(most), Announced(last));
    }
  }

  lemma NothingAnnounced()
    ensures Announcements([]) == []
  {}

  lemma {:induction false} ParametersConcat(start: map<seq<byte>, seq<byte>>, a: seq<Frame>, b: seq<Frame>)
    ensures Parameters(start, a + b) == Parameters(Parameters(start, a), b)
    decreases |b|
  {
    hide MessageOf;
    if b == [] {
      assert a + b == a;
    } else {
      hide Parameters;
      var most, last := b[..|b| - 1], b[|b| - 1];
      ParametersConcat(start, a, most);
      SnocParameters(start, a + most, last);
      SnocParameters(Parameters(start, a), most, last);
      assert b == most + [last];
      Assoc(a, most, [last]);
    }
  }

  // ---- Reading the frames out of bytes ----

  /** The frames a client would cut out of a batch. */
  function FramesOf(b: seq<byte>): seq<Frame>
    decreases |b|
  {
    match ParseHeader(b)
    case Ok(Some(h)) => if |b| < h.len + 1 then [] else [Frame(h.tag, b[5..h.len + 1])] + FramesOf(b[h.len + 1..])
    case _ => []
  }

  /** Do the frames make up all of the bytes? */
  predicate Whole(b: seq<byte>) {
    AllWellFormed(FramesOf(b)) && b == EncodeAll(FramesOf(b))
  }

  lemma FramesOfCons(f: Frame, tail: seq<byte>)
    requires WellFormed(f)
    ensures FramesOf(Encode(f) + tail) == [f] + FramesOf(tail)
  {
    hide Encode;
    EncodedHeader(f, tail);
    EncodedLength(f, tail);
  }

  lemma {:induction false} FramesOfEncoded(fs: seq<Frame>)
    requires AllWellFormed(fs)
    ensures FramesOf(EncodeAll(fs)) == fs
    decreases |fs|
  {
    hide Encode;
    if fs != [] {
      FramesOfCons(fs[0], EncodeAll(fs[1..]));
      FramesOfEncoded(fs[1..]);
      assert fs == [fs[0]] + fs[1..];
    }
  }

  function FramesOfAll(batches: seq<seq<byte>>): seq<Frame> {
    if batches == [] then [] else FramesOfAll(batches[..|batches| - 1]) + FramesOf(batches[|batches| - 1])
  }

  lemma FramesOfAllSnoc(batches: seq<seq<byte>>, b: seq<byte>)
    ensures FramesOfAll(batches + [b]) == FramesOfAll(batches) + FramesOf(b)
  {
    assert (batches + [b])[..|batches|] == batches;
  }
}
