/**
 Length-prefixed nullable values: a four-byte length counting the bytes after it, or -1 and
 nothing for NULL. Composites, arrays, ranges and hstores are all built from these.
 */
module Slots {
  import opened Bytes
  import opened Wrappers

  type Value = Option<seq<byte>>

  /** The length field is an `i32`. */
  predicate Fits(v: Value) {
    v.Some? ==> |v.value| <= I32_MAX
  }

  predicate AllFit(vs: seq<Value>) {
    forall i :: 0 <= i < |vs| ==> Fits(vs[i])
  }

  function Slot(v: Value): (b: seq<byte>)
    requires Fits(v)
    ensures |b| >= 4
  {
    match v
    case None => I32Bytes(-1)
    case Some(data) => I32Bytes(|data|) + data
  }

  function AllSlots(vs: seq<Value>): seq<byte>
    requires AllFit(vs)
  {
    if vs == [] then [] else AllSlots(vs[..|vs| - 1]) + Slot(vs[|vs| - 1])
  }

  function ReadI32(b: seq<byte>): (r: Option<(i32, seq<byte>)>)
    ensures r.None? <==> |b| < 4
    ensures r.Some? ==> |r.value.1| == |b| - 4
  {
    if |b| < 4 then None else Some((I32Of(b[..4]), b[4..]))
  }

  /** The next value and the bytes after it; `None` when the bytes run out. */
  function ReadSlot(b: seq<byte>): (r: Option<(Value, seq<byte>)>)
    ensures r.Some? ==> |r.value.1| < |b|
  {
    match ReadI32(b)
    case None => None
    case Some((len, rest)) =>
      if len < 0 then Some((None, rest))
      else if len > |rest| then None
      else Some((Some(rest[..len]), rest[len..]))
  }

  lemma ReadI32Back(x: i32, tail: seq<byte>)
    ensures ReadI32(I32Bytes(x) + tail) == Some((x, tail))
  {
    I32RoundTrip(x);
    assert (I32Bytes(x) + tail)[..4] == I32Bytes(x);
  }

  lemma ReadSlotBack(v: Value, tail: seq<byte>)
    requires Fits(v)
    ensures ReadSlot(Slot(v) + tail) == Some((v, tail))
  {
    hide I32Bytes, ReadI32;
    match v {
      case None =>
        ReadI32Back(-1, tail);
      case Some(data) =>
        assert Slot(v) + tail == I32Bytes(|data|) + (data + tail);
        ReadI32Back(|data|, data + tail);
    }
  }

  function SizeOf(v: Value): nat {
    4 + match v case None => 0 case Some(data) => |data|
  }

  /** Do the bytes begin with this value? Any negative length stands for NULL. */
  predicate BeginsWith(b: seq<byte>, v: Value) {
    Fits(v) && |b| >= SizeOf(v) && if v.Some? then b[..SizeOf(v)] == Slot(v) else I32Of(b[..4]) < 0
  }

  lemma BeginsSize(b: seq<byte>, v: Value)
    ensures BeginsWith(b, v) ==> SizeOf(v) <= |b|
  {}

  /** A value is read exactly where the bytes begin with it, and exactly its bytes are taken. */
  lemma ReadSlotExactly(b: seq<byte>, v: Value, rest: seq<byte>)
    ensures ReadSlot(b) == Some((v, rest)) <==> BeginsWith(b, v) && rest == b[SizeOf(v)..]
  {
    hide I32Bytes, I32Of;
    if ReadSlot(b) == Some((v, rest)) && v.Some? {
      I32Only(b[..4]);
      assert b[..SizeOf(v)] == b[..4] + b[4..][..|v.value|];
    }
    if BeginsWith(b, v) && v.Some? {
      ReadSlotBack(v, b[SizeOf(v)..]);
      assert b == Slot(v) + b[SizeOf(v)..];
    }
  }

  lemma AllSlotsSnoc(vs: seq<Value>, v: Value)
    requires AllFit(vs) && Fits(v)
    ensures AllFit(vs + [v]) && AllSlots(vs + [v]) == AllSlots(vs) + Slot(v)
  {
    assert (vs + [v])[..|vs|] == vs;
  }

  lemma {:induction false} AllSlotsCons(v: Value, vs: seq<Value>)
    requires AllFit(vs) && Fits(v)
    ensures AllFit([v] + vs) && AllSlots([v] + vs) == Slot(v) + AllSlots(vs)
    decreases |vs|
  {
    hide Slot;
    if vs == [] {
      assert [v] + vs == [v] && [v][..0] == [];
    } else {
      var most, last := vs[..|vs| - 1], vs[|vs| - 1];
      AllSlotsCons(v, most);
      AllSlotsSnoc([v] + most, last);
      assert ([v] + most) + [last] == [v] + vs;
    }
  }

  /**
   Writes one value as the encoders do: a zero length, the bytes, then the length patched in
   at the remembered offset. A value too long to transmit leaves its bytes behind and fails.
   */
  method WriteNullable(v: Value, buf: BytesMut) returns (ok: bool)
    modifies buf
    ensures ok == Fits(v)
    ensures ok ==> buf.data == old(buf.data) + Slot(v)
    ensures old(buf.data) <= buf.data
  {
    hide I32Bytes;
    var base := |buf.data|;
    buf.Put(I32Bytes(0));
    var size := -1;
    match v {
      case Some(data) =>
        buf.Put(data);
        if |buf.data| - base - 4 > I32_MAX {
          return false;
        }
        size := |buf.data| - base - 4;
      case None =>
    }
    PatchedMiddle(old(buf.data), I32Bytes(0), if v.Some? then v.value else [], I32Bytes(size));
    assert buf.data == old(buf.data) + I32Bytes(0) + if v.Some? then v.value else [];
    buf.Patch(base, I32Bytes(size));
    assert I32Bytes(-1) + [] == I32Bytes(-1);
    return true;
  }
}
