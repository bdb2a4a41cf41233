/**
 Ranges on the wire: a byte of flags, then a slot for each bound there is.
 */
module Ranges {
  import opened Bytes
  import opened Wrappers
  import opened Sequences
  import opened Slots

  const RANGE_EMPTY: int := 1
  const RANGE_LOWER_INCLUSIVE: int := 2
  const RANGE_UPPER_INCLUSIVE: int := 4
  const RANGE_LOWER_UNBOUNDED: int := 8
  const RANGE_UPPER_UNBOUNDED: int := 16

  datatype RangeBound = Inclusive(value: Value) | Exclusive(value: Value) | Unbounded

  datatype Range = Empty | Nonempty(lower: RangeBound, upper: RangeBound)

  datatype Error = InvalidSize

  /** Is the single-bit flag set? */
  predicate Has(tag: byte, flag: int)
    requires flag > 0
  {
    (tag as int / flag) % 2 == 1
  }

  predicate FitsBound(b: RangeBound) {
    b.Unbounded? || Fits(b.value)
  }

  function BoundWire(b: RangeBound): seq<byte>
    requires FitsBound(b)
  {
    if b.Unbounded? then [] else Slot(b.value)
  }

  function Flags(b: RangeBound, inclusive: int, unbounded: int): int {
    match b case Inclusive(_) => inclusive case Exclusive(_) => 0 case Unbounded => unbounded
  }

  function Tag(lower: RangeBound, upper: RangeBound): byte {
    (Flags(lower, RANGE_LOWER_INCLUSIVE, RANGE_LOWER_UNBOUNDED) +
     Flags(upper, RANGE_UPPER_INCLUSIVE, RANGE_UPPER_UNBOUNDED)) as byte
  }

  predicate FitsRange(r: Range) {
    r.Nonempty? ==> FitsBound(r.lower) && FitsBound(r.upper)
  }

  function RangeWire(r: Range): seq<byte>
    requires FitsRange(r)
  {
    match r
    case Empty => [RANGE_EMPTY as byte]
    case Nonempty(lower, upper) => [Tag(lower, upper)] + BoundWire(lower) + BoundWire(upper)
  }

  // ---- Encoding ----

  /** One bound. What its serializer wrote before it found there is no bound is cut off again. */
  method WriteBound(b: RangeBound, scratch: seq<byte>, buf: BytesMut) returns (ok: bool)
    modifies buf
    ensures ok == FitsBound(b)
    ensures ok ==> buf.data == old(buf.data) + BoundWire(b)
    ensures old(buf.data) <= buf.data
  {
    hide I32Bytes, Slot;
    if b.Unbounded? {
      var base := |buf.data|;
      buf.Put(I32Bytes(0));
      buf.Put(scratch);
      buf.Truncate(base);
      assert old(buf.data) + [] == old(buf.data);
      return true;
    }
    ok := WriteNullable(b.value, buf);
  }

  method RangeToSql(lower: RangeBound, upper: RangeBound, scratch: seq<byte>, buf: BytesMut) returns (ok: bool)
    modifies buf
    ensures ok == FitsRange(Nonempty(lower, upper))
    ensures ok ==> buf.data == old(buf.data) + RangeWire(Nonempty(lower, upper))
    ensures old(buf.data) <= buf.data
  {
    hide BoundWire, FitsBound;
    var tagIdx := |buf.data|;
    buf.Put([0]);
    var tag := 0;
    var written := WriteBound(lower, scratch, buf);
    if !written {
      return false;
    }
    match lower {
      case Inclusive(_) => tag := tag + RANGE_LOWER_INCLUSIVE;
      case Exclusive(_) =>
      case Unbounded => tag := tag + RANGE_LOWER_UNBOUNDED;
    }
    written := WriteBound(upper, scratch, buf);
    if !written {
      return false;
    }
    match upper {
      case Inclusive(_) => tag := tag + RANGE_UPPER_INCLUSIVE;
      case Exclusive(_) =>
      case Unbounded => tag := tag + RANGE_UPPER_UNBOUNDED;
    }
    assert tag as byte == Tag(lower, upper);
    TagPatched(old(buf.data), BoundWire(lower), BoundWire(upper), tag as byte);
    buf.Patch(tagIdx, [tag as byte]);
    return true;
  }

  lemma TagPatched(before: seq<byte>, lower: seq<byte>, upper: seq<byte>, tag: byte)
    ensures Patched(before + [0] + lower + upper, |before|, [tag]) == before + ([tag] + lower + upper)
  {
    PatchedMiddle(before, [0], lower + upper, [tag]);
    assert before + [0] + lower + upper == before + [0] + (lower + upper);
  }

  // ---- Decoding ----

  function ReadBound(b: seq<byte>, tag: byte, unbounded: int, inclusive: int): Option<(RangeBound, seq<byte>)>
    requires unbounded > 0 && inclusive > 0
  {
    if Has(tag, unbounded) then Some((Unbounded, b))
    else match ReadSlot(b)
      case None => None
      case Some((v, rest)) => Some((if Has(tag, inclusive) then Inclusive(v) else Exclusive(v), rest))
  }

  function ParseRange(raw: seq<byte>): Result<Range, Error> {
    if raw == [] then Err(InvalidSize)
    else if raw[0] as int == RANGE_EMPTY then (if |raw| > 1 then Err(InvalidSize) else Ok(Empty))
    else match ReadBound(raw[1..], raw[0], RANGE_LOWER_UNBOUNDED, RANGE_LOWER_INCLUSIVE)
      case None => Err(InvalidSize)
      case Some((lower, rest)) =>
        match ReadBound(rest, raw[0], RANGE_UPPER_UNBOUNDED, RANGE_UPPER_INCLUSIVE)
        case None => Err(InvalidSize)
        case Some((upper, rest')) => if rest' == [] then Ok(Nonempty(lower, upper)) else Err(InvalidSize)
  }

  // ---- What is read as a range ----

  function BoundSize(b: RangeBound): nat {
    if b.Unbounded? then 0 else SizeOf(b.value)
  }

  /** Does the flag byte say this of the bound, and do the bytes begin with its value? */
  predicate BoundIs(bytes: seq<byte>, tag: byte, unbounded: int, inclusive: int, b: RangeBound)
    requires unbounded > 0 && inclusive > 0
  {
    && Has(tag, unbounded) == b.Unbounded?
    && (!b.Unbounded? ==> Has(tag, inclusive) == b.Inclusive? && BeginsWith(bytes, b.value))
  }

  /** The range these bytes hold, and nothing after it. */
  predicate Holds(raw: seq<byte>, r: Range) {
    && raw != []
    && match r
       case Empty => raw[0] as int == RANGE_EMPTY && |raw| == 1
       case Nonempty(lower, upper) =>
         && raw[0] as int != RANGE_EMPTY && |raw| == 1 + BoundSize(lower) + BoundSize(upper)
         && BoundIs(raw[1..], raw[0], RANGE_LOWER_UNBOUNDED, RANGE_LOWER_INCLUSIVE, lower)
         && BoundIs(raw[1 + BoundSize(lower)..], raw[0], RANGE_UPPER_UNBOUNDED, RANGE_UPPER_INCLUSIVE, upper)
  }

  lemma BoundExactly(bytes: seq<byte>, tag: byte, unbounded: int, inclusive: int, b: RangeBound, rest: seq<byte>)
    requires unbounded > 0 && inclusive > 0
    ensures ReadBound(bytes, tag, unbounded, inclusive) == Some((b, rest)) <==>
      BoundIs(bytes, tag, unbounded, inclusive, b) && BoundSize(b) <= |bytes| && rest == bytes[BoundSize(b)..]
  {
    hide BeginsWith, ReadSlot, Has, SizeOf;
    if !b.Unbounded? {
      ReadSlotExactly(bytes, b.value, rest);
      BeginsSize(bytes, b.value);
    }
  }

  /** Bytes are read as a range exactly if they hold it and nothing else. */
  lemma RangeExactly(raw: seq<byte>, r: Range)
    ensures ParseRange(raw) == Ok(r) <==> Holds(raw, r)
  {
    hide ReadBound, BoundIs, BoundSize, Has;
    if raw != [] && raw[0] as int != RANGE_EMPTY {
      var tag, b := raw[0], raw[1..];
      var first := ReadBound(b, tag, RANGE_LOWER_UNBOUNDED, RANGE_LOWER_INCLUSIVE);
      if r.Nonempty? {
        var n := BoundSize(r.lower);
        if n <= |b| {
          BoundExactly(b, tag, RANGE_LOWER_UNBOUNDED, RANGE_LOWER_INCLUSIVE, r.lower, b[n..]);
          assert b[n..] == raw[1 + n..];
          BoundExactly(b[n..], tag, RANGE_UPPER_UNBOUNDED, RANGE_UPPER_INCLUSIVE, r.upper, []);
          var m := BoundSize(r.upper);
          assert m == |b[n..]| ==> b[n..][m..] == [];
        }
        if first.Some? {
          BoundExactly(b, tag, RANGE_LOWER_UNBOUNDED, RANGE_LOWER_INCLUSIVE, first.value.0, first.value.1);
        }
      }
    }
  }

  // ---- Round trip ----

  lemma TagTells(lower: RangeBound, upper: RangeBound)
    ensures var t := Tag(lower, upper);
      && t as int != RANGE_EMPTY
      && Has(t, RANGE_LOWER_UNBOUNDED) == lower.Unbounded? && Has(t, RANGE_UPPER_UNBOUNDED) == upper.Unbounded?
      && Has(t, RANGE_LOWER_INCLUSIVE) == lower.Inclusive? && Has(t, RANGE_UPPER_INCLUSIVE) == upper.Inclusive?
  {}

  lemma ReadBoundBack(b: RangeBound, tail: seq<byte>, tag: byte, unbounded: int, inclusive: int)
    requires FitsBound(b) && unbounded > 0 && inclusive > 0
    requires Has(tag, unbounded) == b.Unbounded? && Has(tag, inclusive) == b.Inclusive?
    ensures ReadBound(BoundWire(b) + tail, tag, unbounded, inclusive) == Some((b, tail))
  {
    hide Slot, ReadSlot, Has;
    if b.Unbounded? {
      assert BoundWire(b) + tail == tail;
    } else {
      ReadSlotBack(b.value, tail);
    }
  }

  /** Every range, with every kind of bound and NULL bounds, decodes as itself. */
  lemma RangeBack(r: Range)
    requires FitsRange(r)
    ensures ParseRange(RangeWire(r)) == Ok(r)
  {
    hide BoundWire, ReadBound, Tag;
    if r.Nonempty? {
      var t := Tag(r.lower, r.upper);
      var raw := RangeWire(r);
      TagTells(r.lower, r.upper);
      assert raw[1..] == BoundWire(r.lower) + BoundWire(r.upper);
      ReadBoundBack(r.lower, BoundWire(r.upper), t, RANGE_LOWER_UNBOUNDED, RANGE_LOWER_INCLUSIVE);
      assert BoundWire(r.upper) + [] == BoundWire(r.upper);
      ReadBoundBack(r.upper, [], t, RANGE_UPPER_UNBOUNDED, RANGE_UPPER_INCLUSIVE);
    }
  }
}
