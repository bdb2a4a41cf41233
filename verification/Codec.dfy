/**
 The codec under the connection: it cuts the byte stream into asynchronous messages and
 batches of ordinary frames, each batch ending no later than the first `ReadyForQuery`.
 */
module Codec {
  import opened Bytes
  import opened Wrappers
  import opened Sequences
  import opened Backend

  datatype BackendMessage =
    | Normal(messages: seq<byte>, requestComplete: bool)
    | Async(message: Message)

  // ---- Decoding, on bytes ----

  /**
   How many bytes of complete ordinary frames start `rest`, stopping after a
   `ReadyForQuery`, and whether one was reached. A malformed header anywhere fails it.
   */
  function Scan(rest: seq<byte>): (r: Result<(nat, bool), Error>)
    ensures r.Ok? ==> r.value.0 <= |rest|
    decreases |rest|
  {
    match ParseHeader(rest)
    case Err(e) => Err(e)
    case Ok(None) => Ok((0, false))
    case Ok(Some(h)) =>
      if |rest| < h.len + 1 || IsAsyncTag(h.tag) then Ok((0, false))
      else if h.tag == READY_FOR_QUERY_TAG then Ok((h.len + 1, true))
      else match Scan(rest[h.len + 1..])
        case Err(e) => Err(e)
        case Ok((n, complete)) => Ok((h.len + 1 + n, complete))
  }

  // Does `src` start with a complete asynchronous frame?
  predicate StartsAsync(src: seq<byte>) {
    var h := ParseHeader(src);
    h.Ok? && h.value.Some? && h.value.value.len + 1 <= |src| && IsAsyncTag(h.value.value.tag)
  }

  /** The outcome of one `decode` call and the bytes it leaves. */
  function Decoded(src: seq<byte>): (r: (Result<Option<BackendMessage>, Error>, seq<byte>))
    ensures r.0.Ok? && r.0.value.Some? ==> |r.1| < |src|
    ensures r.0 == Ok(None) ==> r.1 == src
    ensures |r.1| <= |src|
  {
    if StartsAsync(src) then
      var (parsed, rest) := ParseStep(src);
      match parsed
      case Err(e) => (Err(e), rest)
      case Ok(None) => (Ok(None), src)
      case Ok(Some(m)) => (Ok(Some(Async(m))), rest)
    else
      match Scan(src)
      case Err(e) => (Err(e), src)
      case Ok((n, complete)) =>
        if n == 0 then (Ok(None), src) else (Ok(Some(Normal(src[..n], complete))), src[n..])
  }

  // What `Scan` finds in `src` is what it finds from `idx` on, shifted by the bytes passed.
  ghost predicate Reached(src: seq<byte>, idx: nat) {
    idx <= |src| && !(idx > 0 && StartsAsync(src)) &&
    Scan(src) == (match Scan(src[idx..])
                  case Err(e) => Err(e)
                  case Ok((n, complete)) => Ok((idx + n, complete)))
  }

  lemma ReachedStart(src: seq<byte>)
    ensures Reached(src, 0)
  {
    hide ParseHeader;
    assert src[0..] == src;
  }

  lemma ReachedStep(src: seq<byte>, idx: nat, h: Header)
    requires Reached(src, idx) && ParseHeader(src[idx..]) == Ok(Some(h))
    requires h.len + 1 <= |src| - idx && !IsAsyncTag(h.tag)
    ensures h.tag != READY_FOR_QUERY_TAG && h.len > 0 ==> Reached(src, idx + h.len + 1)
    ensures h.tag == READY_FOR_QUERY_TAG && h.len > 0 ==> Scan(src) == Ok((idx + h.len + 1, true)) && !StartsAsync(src)
  {
    hide ParseHeader;
    if h.len > 0 {
      assert src[idx + h.len + 1..] == src[idx..][h.len + 1..];
      assert idx == 0 ==> src[idx..] == src;
    }
  }

  lemma HeaderPositive(b: seq<byte>)
    ensures ParseHeader(b).Ok? && ParseHeader(b).value.Some? ==> ParseHeader(b).value.value.len >= 4
  {}

  method Decode(src: BytesMut) returns (r: Result<Option<BackendMessage>, Error>)
    modifies src
    ensures (r, src.data) == Decoded(old(src.data))
  {
    hide ParseStep, ParseHeader, Reached;
    var idx := 0;
    var requestComplete := false;
    ReachedStart(src.data);
    while true
      invariant src.data == old(src.data) && idx <= |src.data| && !requestComplete && Reached(src.data, idx)
      decreases |src.data| - idx
    {
      var rest := src.data[idx..];
      var header := ParseHeader(rest);
      if header.Err? {
        ReachedEnd(src.data, idx);
        return Err(header.error);
      }
      if header.value.None? {
        ReachedEnd(src.data, idx);
        break;
      }
      var h := header.value.value;
      HeaderPositive(rest);
      if |rest| < h.len + 1 {
        ReachedEnd(src.data, idx);
        break;
      }
      if IsAsyncTag(h.tag) {
        ReachedEnd(src.data, idx);
        if idx == 0 {
          var parsed := ParseMessage(src);
          match parsed {
            case Err(e) => return Err(e);
            case Ok(None) => return Ok(None);
            case Ok(Some(m)) => return Ok(Some(Async(m)));
          }
        } else {
          break;
        }
      }
      ReachedStep(src.data, idx, h);
      idx := idx + h.len + 1;
      if h.tag == READY_FOR_QUERY_TAG {
        requestComplete := true;
        break;
      }
    }
    if idx == 0 {
      return Ok(None);
    }
    var messages := src.SplitTo(idx);
    return Ok(Some(Normal(messages, requestComplete)));
  }

  // The loop stops at `idx` without taking a frame there.
  lemma ReachedEnd(src: seq<byte>, idx: nat)
    requires Reached(src, idx)
    ensures StartsAsync(src[idx..]) && idx == 0 ==> StartsAsync(src)
    ensures var h := ParseHeader(src[idx..]);
      && (h.Err? ==> Scan(src) == Err(h.error) && !StartsAsync(src))
      && (h.Ok? && (h.value.None? || |src| - idx < h.value.value.len + 1 || IsAsyncTag(h.value.value.tag))
          ==> Scan(src) == Ok((idx, false)))
      && (h.Ok? && (h.value.None? || |src| - idx < h.value.value.len + 1) ==> !StartsAsync(src))
  {
    assert idx == 0 ==> src[idx..] == src;
    hide ParseHeader;
  }

  // ---- Decoding, on frames ----

  /** The frames of the next batch, and the frames after it. */
  function NextBatch(fs: seq<Frame>): (r: (seq<Frame>, seq<Frame>))
    ensures fs == r.0 + r.1
    ensures r.0 == [] <==> fs == [] || IsAsyncTag(fs[0].tag)
  {
    if fs == [] || IsAsyncTag(fs[0].tag) then ([], fs)
    else if fs[0].tag == READY_FOR_QUERY_TAG then ([fs[0]], fs[1..])
    else var (batch, rest) := NextBatch(fs[1..]); ([fs[0]] + batch, rest)
  }

  predicate EndsReady(fs: seq<Frame>) {
    fs != [] && fs[|fs| - 1].tag == READY_FOR_QUERY_TAG
  }

  /** A batch: ordinary frames only, `ReadyForQuery` nowhere but at the end. */
  predicate IsBatch(fs: seq<Frame>) {
    && fs != []
    && (forall i :: 0 <= i < |fs| ==> !IsAsyncTag(fs[i].tag))
    && (forall i :: 0 <= i < |fs| - 1 ==> fs[i].tag != READY_FOR_QUERY_TAG)
  }

  /** The batch is as long as it can be. */
  lemma {:induction false} NextBatchIsMaximal(fs: seq<Frame>)
    requires fs != [] && !IsAsyncTag(fs[0].tag)
    ensures var (batch, rest) := NextBatch(fs);
      IsBatch(batch) && (rest != [] ==> EndsReady(batch) || IsAsyncTag(rest[0].tag))
  {
    if fs[0].tag != READY_FOR_QUERY_TAG && |fs| > 1 && !IsAsyncTag(fs[1].tag) {
      NextBatchIsMaximal(fs[1..]);
    }
  }

  // `Scan` past one complete frame.
  lemma ScanStep(f: Frame, rest: seq<byte>)
    requires WellFormed(f)
    ensures StartsAsync(Encode(f) + rest) == IsAsyncTag(f.tag)
    ensures Scan(Encode(f) + rest)
         == if IsAsyncTag(f.tag) then Ok((0, false))
            else if f.tag == READY_FOR_QUERY_TAG then Ok((|Encode(f)|, true))
            else match Scan(rest)
              case Err(e) => Err(e)
              case Ok((n, complete)) => Ok((|Encode(f)| + n, complete))
  {
    EncodedHeader(f, rest);
  }

  // A frame that has not arrived completely is not decoded.
  lemma ScanPartial(tail: seq<byte>, next: Frame)
    requires tail == [] || ProperPrefix(tail, next)
    ensures !StartsAsync(tail) && Scan(tail) == Ok((0, false))
  {
    if |tail| >= 5 {
      assert tail[0] == Encode(next)[0] && tail[1..5] == Encode(next)[1..5];
      EncodedHeader(next, []);
      assert Encode(next) + [] == Encode(next);
    }
  }

  predicate ScansAsBatch(fs: seq<Frame>, tail: seq<byte>) {
    Scan(EncodeAll(fs) + tail) == Ok((|EncodeAll(NextBatch(fs).0)|, EndsReady(NextBatch(fs).0)))
  }

  lemma NextBatchCons(f: Frame, fs: seq<Frame>)
    ensures NextBatch([f] + fs).0
         == if IsAsyncTag(f.tag) then []
            else if f.tag == READY_FOR_QUERY_TAG then [f]
            else [f] + NextBatch(fs).0
  {
    var all := [f] + fs;
    assert all[0] == f && all[1..] == fs;
  }

  lemma ScanFramesStep(f: Frame, fs: seq<Frame>, tail: seq<byte>)
    requires WellFormed(f) && ScansAsBatch(fs, tail)
    ensures ScansAsBatch([f] + fs, tail)
  {
    hide Encode, Scan, StartsAsync, NextBatch;
    var batch, rest := NextBatch(fs).0, EncodeAll(fs) + tail;
    ScanStep(f, rest);
    NextBatchCons(f, fs);
    EncodeAllCons(f, fs);
    EncodeAllCons(f, batch);
    EncodeAllCons(f, []);
    assert [f] + [] == [f];
    assert EncodeAll([f] + fs) + tail == Encode(f) + rest;
    assert batch != [] ==> ([f] + batch)[|batch|] == batch[|batch| - 1];
  }

  lemma ScanNoFrames(tail: seq<byte>, next: Frame)
    requires tail == [] || ProperPrefix(tail, next)
    ensures ScansAsBatch([], tail)
  {
    hide Scan, StartsAsync, ProperPrefix;
    assert EncodeAll([]) + tail == tail;
    ScanPartial(tail, next);
  }

  lemma {:induction false} ScanFrames(fs: seq<Frame>, tail: seq<byte>, next: Frame)
    requires AllWellFormed(fs) && (tail == [] || ProperPrefix(tail, next))
    ensures ScansAsBatch(fs, tail)
    decreases |fs|
  {
    hide ScansAsBatch, ProperPrefix;
    if fs == [] {
      ScanNoFrames(tail, next);
    } else {
      ScanFrames(fs[1..], tail, next);
      ScanFramesStep(fs[0], fs[1..], tail);
      assert fs == [fs[0]] + fs[1..];
    }
  }

  /** What one `decode` makes of a buffer of frames: the outcome and the frames it leaves. */
  function DecodedFrames(fs: seq<Frame>): (Result<Option<BackendMessage>, Error>, seq<Frame>) {
    if fs == [] then (Ok(None), [])
    else if IsAsyncTag(fs[0].tag) then
      match MessageOf(fs[0])
      case Err(e) => (Err(e), fs[1..])
      case Ok(m) => (Ok(Some(Async(m))), fs[1..])
    else
      var (batch, rest) := NextBatch(fs);
      (Ok(Some(Normal(EncodeAll(batch), EndsReady(batch)))), rest)
  }

  lemma DecodeBatch(fs: seq<Frame>, tail: seq<byte>)
    requires fs != [] && !IsAsyncTag(fs[0].tag)
    requires ScansAsBatch(fs, tail) && !StartsAsync(EncodeAll(fs) + tail)
    ensures Decoded(EncodeAll(fs) + tail) == (DecodedFrames(fs).0, EncodeAll(DecodedFrames(fs).1) + tail)
  {
    hide Encode, StartsAsync, Scan;
    var (batch, rest) := NextBatch(fs);
    assert |EncodeAll(batch)| > 0;
    hide EncodeAll, NextBatch;
    EncodeAllConcat(batch, rest);
    CutConcat(EncodeAll(batch), EncodeAll(rest), tail);
  }

  /**
   One `decode` over a buffer of frames and the start of a frame still arriving: it takes
   the leading asynchronous frame, or the longest batch, and leaves everything else.
   */
  lemma DecodeFrames(fs: seq<Frame>, tail: seq<byte>, next: Frame)
    requires AllWellFormed(fs) && (tail == [] || ProperPrefix(tail, next))
    ensures Decoded(EncodeAll(fs) + tail) == (DecodedFrames(fs).0, EncodeAll(DecodedFrames(fs).1) + tail)
  {
    hide Encode, MessageOf, ScansAsBatch;
    var src := EncodeAll(fs) + tail;
    ScanFrames(fs, tail, next);
    if fs == [] {
      assert src == tail;
      ScanPartial(tail, next);
    } else {
      var after := EncodeAll(fs[1..]) + tail;
      assert src == Encode(fs[0]) + after;
      ScanStep(fs[0], after);
      if IsAsyncTag(fs[0].tag) {
        ParseEncoded(fs[0], after);
      } else {
        DecodeBatch(fs, tail);
      }
    }
  }

  // ---- An impossible length ----

  lemma {:induction false} ScanBadHeader(fs: seq<Frame>, junk: seq<byte>)
    requires AllWellFormed(fs) && ParseHeader(junk).Err?
    requires forall i :: 0 <= i < |fs| ==> !IsAsyncTag(fs[i].tag) && fs[i].tag != READY_FOR_QUERY_TAG
    ensures Scan(EncodeAll(fs) + junk) == Err(InvalidLength) && !StartsAsync(EncodeAll(fs) + junk)
    decreases |fs|
  {
    hide Encode, ParseHeader;
    if fs == [] {
      assert EncodeAll(fs) + junk == junk;
      BadHeader(junk);
    } else {
      var rest := EncodeAll(fs[1..]) + junk;
      assert EncodeAll(fs) + junk == Encode(fs[0]) + rest;
      ScanBadHeader(fs[1..], junk);
      ScanStep(fs[0], rest);
    }
  }

  lemma BadHeader(junk: seq<byte>)
    requires ParseHeader(junk).Err?
    ensures Scan(junk) == Err(InvalidLength) && !StartsAsync(junk)
  {}

  /**
   A length that does not even count itself fails the decoder, also behind frames of a batch
   that is not complete, and those are then not given out.
   */
  lemma BadLengthFails(fs: seq<Frame>, junk: seq<byte>)
    requires AllWellFormed(fs) && |junk| >= 5 && I32Of(junk[1..5]) < 4
    requires forall i :: 0 <= i < |fs| ==> !IsAsyncTag(fs[i].tag) && fs[i].tag != READY_FOR_QUERY_TAG
    ensures Decoded(EncodeAll(fs) + junk) == (Err(InvalidLength), EncodeAll(fs) + junk)
  {
    hide I32Of, Scan, StartsAsync, EncodeAll;
    ScanBadHeader(fs, junk);
  }

  // ---- Decoding a stream that is still arriving ----

  /** The server's stream: encodable frames whose asynchronous messages parse. */
  predicate GoodFrames(fs: seq<Frame>) {
    AllWellFormed(fs) && forall i :: 0 <= i < |fs| && IsAsyncTag(fs[i].tag) ==> MessageOf(fs[i]).Ok?
  }

  lemma GoodSplit(a: seq<Frame>, b: seq<Frame>)
    requires GoodFrames(a + b)
    ensures GoodFrames(a) && GoodFrames(b)
  {
    hide MessageOf;
    forall i | 0 <= i < |a|
      ensures WellFormed(a[i]) && (IsAsyncTag(a[i].tag) ==> MessageOf(a[i]).Ok?)
    {
      assert a[i] == (a + b)[i];
    }
    forall i | 0 <= i < |b|
      ensures WellFormed(b[i]) && (IsAsyncTag(b[i].tag) ==> MessageOf(b[i]).Ok?)
    {
      assert b[i] == (a + b)[|a| + i];
    }
  }

  lemma RestOfStream(batch: seq<byte>, left: seq<byte>, tail: seq<byte>, others: seq<byte>, src: seq<byte>,
      flight: seq<byte>)
    requires src == batch + left + tail && batch + left + others == src + flight
    ensures left + others == left + tail + flight
  {
    assert batch + (left + others) == batch + left + others;
    assert batch + (left + tail + flight) == batch + left + tail + flight;
    Cancel(batch, left + others, left + tail + flight);
  }

  // What `DecodedFrames` takes: one asynchronous frame, a batch, or nothing.
  predicate IsTaken(taken: seq<Frame>, r: Result<Option<BackendMessage>, Error>) {
    if taken == [] then r == Ok(None)
    else if IsAsyncTag(taken[0].tag) then
      taken == [taken[0]] && r == (match MessageOf(taken[0]) case Err(e) => Err(e) case Ok(m) => Ok(Some(Async(m))))
    else IsBatch(taken) && r == Ok(Some(Normal(EncodeAll(taken), EndsReady(taken))))
  }

  lemma TakenByDecode(whole: seq<Frame>) returns (taken: seq<Frame>)
    ensures whole == taken + DecodedFrames(whole).1 && IsTaken(taken, DecodedFrames(whole).0)
    ensures taken == [] ==> whole == []
  {
    hide MessageOf, EncodeAll;
    if whole == [] {
      taken := [];
    } else if IsAsyncTag(whole[0].tag) {
      taken := [whole[0]];
    } else {
      taken := NextBatch(whole).0;
      NextBatchIsMaximal(whole);
    }
  }

  /**
   One `decode` of a frame stream of which `src` has arrived and `flight` has not: it takes
   whole frames off the front, and nothing only if no whole frame has arrived.
   */
  lemma DecodeNext(rest: seq<Frame>, src: seq<byte>, flight: seq<byte>) returns (taken: seq<Frame>, left: seq<Frame>)
    requires AllWellFormed(rest) && EncodeAll(rest) == src + flight
    ensures rest == taken + left && EncodeAll(left) == Decoded(src).1 + flight
    ensures IsTaken(taken, Decoded(src).0)
    ensures taken == [] ==> Decoded(src).1 == src && ShortOf(src, rest) && (flight == [] ==> rest == [])
  {
    hide EncodeAll, Encode, MessageOf, Decoded, DecodedFrames, NextBatch, IsTaken, ProperPrefix;
    var whole, others, tail := CutFrames(rest, src);
    EncodeAllConcat(whole, others);
    DecodeFrames(whole, tail, if others == [] then Frame(0, []) else others[0]);
    var back := DecodedFrames(whole).1;
    taken := TakenByDecode(whole);
    left := back + others;
    EncodeAllConcat(taken, back);
    EncodeAllConcat(back, others);
    RestOfStream(EncodeAll(taken), EncodeAll(back), tail, EncodeAll(others), src, flight);
    if taken == [] {
      NothingArrived(others, tail, src, flight);
    }
  }

  lemma NothingArrived(others: seq<Frame>, tail: seq<byte>, src: seq<byte>, flight: seq<byte>)
    requires EncodeAll(others) == src + flight && src == EncodeAll([]) + tail
    requires ShortOf(tail, others)
    ensures EncodeAll([]) + tail == tail && (flight == [] ==> others == [])
  {}
}
