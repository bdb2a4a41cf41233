/**
 Hstores on the wire: a count, then for each entry its key and its value, the value possibly
 NULL.
 */
module Hstore {
  import opened Bytes
  import opened Wrappers
  import opened Sequences
  import opened Slots

  datatype Entry = Entry(key: seq<byte>, value: Value)

  /** `split_at` beyond the end panics. */
  datatype Error = Invalid | Panic

  predicate FitsEntry(e: Entry) {
    |e.key| <= I32_MAX && Fits(e.value)
  }

  predicate AllFitting(es: seq<Entry>) {
    forall i :: 0 <= i < |es| ==> FitsEntry(es[i])
  }

  function EntryWire(e: Entry): seq<byte>
    requires FitsEntry(e)
  {
    Slot(Some(e.key)) + Slot(e.value)
  }

  function EntriesWire(es: seq<Entry>): seq<byte>
    requires AllFitting(es)
  {
    if es == [] then [] else EntryWire(es[0]) + EntriesWire(es[1..])
  }

  function HstoreWire(es: seq<Entry>): seq<byte>
    requires AllFitting(es) && |es| <= I32_MAX
  {
    I32Bytes(|es|) + EntriesWire(es)
  }

  // ---- Encoding ----

  method WritePascalString(s: seq<byte>, buf: BytesMut) returns (ok: bool)
    modifies buf
    ensures ok <==> |s| <= I32_MAX
    ensures ok ==> buf.data == old(buf.data) + Slot(Some(s))
    ensures old(buf.data) <= buf.data
  {
    hide I32Bytes;
    if |s| > I32_MAX {
      return false;
    }
    buf.Put(I32Bytes(|s|));
    buf.Put(s);
    return true;
  }

  method WriteEntry(e: Entry, buf: BytesMut) returns (ok: bool)
    modifies buf
    ensures ok == FitsEntry(e)
    ensures ok ==> buf.data == old(buf.data) + EntryWire(e)
    ensures old(buf.data) <= buf.data
  {
    hide I32Bytes, Slot;
    ok := WritePascalString(e.key, buf);
    if !ok {
      return;
    }
    match e.value {
      case Some(value) =>
        ok := WritePascalString(value, buf);
      case None =>
        NullSlot();
        buf.Put(I32Bytes(-1));
    }
    if ok {
      Assoc(old(buf.data), Slot(Some(e.key)), Slot(e.value));
    }
  }

  method HstoreToSql(es: seq<Entry>, buf: BytesMut) returns (ok: bool)
    modifies buf
    ensures ok <==> AllFitting(es) && |es| <= I32_MAX
    ensures ok ==> buf.data == old(buf.data) + HstoreWire(es)
    ensures old(buf.data) <= buf.data
  {
    hide I32Bytes, EntriesWire, Patched;
    var base := |buf.data|;
    buf.Put(I32Bytes(0));
    var written := WriteEntries(es, buf);
    PrefixTrans(old(buf.data), I32Bytes(0), buf.data);
    if !written || |es| > I32_MAX {
      return false;
    }
    PatchedMiddle(old(buf.data), I32Bytes(0), EntriesWire(es), I32Bytes(|es|));
    buf.Patch(base, I32Bytes(|es|));
    Assoc(old(buf.data), I32Bytes(|es|), EntriesWire(es));
    return true;
  }

  method WriteEntries(es: seq<Entry>, buf: BytesMut) returns (ok: bool)
    modifies buf
    ensures ok == AllFitting(es)
    ensures ok ==> buf.data == old(buf.data) + EntriesWire(es)
    ensures old(buf.data) <= buf.data
  {
    hide FitsEntry, EntryWire, EntriesWire, Cat;
    ghost var done: seq<byte> := [];
    CatNothing(buf.data);
    if AllFitting(es) {
      CatNothing(EntriesWire(es));
    }
    assert es[0..] == es;
    for i := 0 to |es|
      invariant AllFitting(es[..i]) && buf.data == Cat(old(buf.data), done)
      invariant AllFitting(es) ==> EntriesWire(es) == Cat(done, EntriesWire(es[i..]))
    {
      CatIs(old(buf.data), done);
      var written := WriteEntry(es[i], buf);
      if !written {
        return false;
      }
      Advance(es, i, done);
      CatMore(old(buf.data), done, EntryWire(es[i]));
      done := done + EntryWire(es[i]);
    }
    assert es[..|es|] == es && es[|es|..] == [];
    NoEntries();
    CatNothing(done);
    CatIs(old(buf.data), done);
    return true;
  }

  lemma NullSlot()
    ensures Slot(None) == I32Bytes(-1)
  {}

  lemma NoEntries()
    ensures EntriesWire([]) == []
  {}

  lemma Advance(es: seq<Entry>, i: nat, done: seq<byte>)
    requires i < |es| && FitsEntry(es[i])
    ensures AllFitting(es) ==> Cat(done, EntriesWire(es[i..])) == Cat(done + EntryWire(es[i]), EntriesWire(es[i + 1..]))
  {
    hide EntryWire;
    assert es[i..][1..] == es[i + 1..];
    if AllFitting(es) {
      Assoc(done, EntryWire(es[i]), EntriesWire(es[i + 1..]));
    }
  }

  // ---- Decoding ----

  /** The next entry of the iterator and the bytes after it. */
  function ReadEntry(b: seq<byte>): (r: Result<(Entry, seq<byte>), Error>)
    ensures r.Ok? ==> |r.value.1| < |b|
  {
    match ReadI32(b)
    case None => Err(Invalid)
    case Some((keyLen, rest)) =>
      if keyLen < 0 then Err(Invalid)
      else if keyLen > |rest| then Err(Panic)
      else
        var key, rest' := rest[..keyLen], rest[keyLen..];
        match ReadI32(rest')
        case None => Err(Invalid)
        case Some((valueLen, tail)) =>
          if valueLen < 0 then Ok((Entry(key, None), tail))
          else if valueLen > |tail| then Err(Panic)
          else Ok((Entry(key, Some(tail[..valueLen])), tail[valueLen..]))
  }

  /** All that the iterator gives when it is run to its end. */
  function Collect(b: seq<byte>, remaining: nat): Result<seq<Entry>, Error> {
    if remaining == 0 then (if b == [] then Ok([]) else Err(Invalid))
    else match ReadEntry(b)
      case Err(e) => Err(e)
      case Ok((e, rest)) => After([e], Collect(rest, remaining - 1))
  }

  function ParseHstore(raw: seq<byte>): Result<seq<Entry>, Error> {
    match ReadI32(raw)
    case None => Err(Invalid)
    case Some((count, rest)) => if count < 0 then Err(Invalid) else Collect(rest, count)
  }

  class HstoreEntries {
    var remaining: nat
    var buf: seq<byte>

    constructor (count: nat, rest: seq<byte>)
      ensures Left() == Collect(rest, count)
    {
      remaining := count;
      buf := rest;
    }

    function Left(): Result<seq<Entry>, Error>
      reads this
    {
      Collect(buf, remaining)
    }

    /** What is left to give is what was left, without the entry given. */
    method Next() returns (r: Result<Option<Entry>, Error>)
      modifies this
      ensures r.Err? ==> old(Left()) == Err(r.error)
      ensures r == Ok(None) ==> old(Left()) == Ok([])
      ensures r.Ok? && r.value.Some? ==> old(Left()) == After([r.value.value], Left())
    {
      hide I32Of;
      if remaining == 0 {
        return if buf == [] then Ok(None) else Err(Invalid);
      }
      remaining := remaining - 1;
      if |buf| < 4 {
        return Err(Invalid);
      }
      var keyLen := I32Of(buf[..4]);
      buf := buf[4..];
      if keyLen < 0 {
        return Err(Invalid);
      }
      if keyLen > |buf| {
        return Err(Panic);
      }
      var key := buf[..keyLen];
      buf := buf[keyLen..];
      if |buf| < 4 {
        return Err(Invalid);
      }
      var valueLen := I32Of(buf[..4]);
      buf := buf[4..];
      if valueLen < 0 {
        return Ok(Some(Entry(key, None)));
      }
      if valueLen > |buf| {
        return Err(Panic);
      }
      var value := buf[..valueLen];
      buf := buf[valueLen..];
      return Ok(Some(Entry(key, Some(value))));
    }
  }

  // ---- What is read as an hstore ----

  function EntrySize(e: Entry): nat {
    SizeOf(Some(e.key)) + SizeOf(e.value)
  }

  /** Do the bytes begin with this entry? */
  predicate EntryBegins(b: seq<byte>, e: Entry) {
    && |b| >= EntrySize(e) && BeginsWith(b, Some(e.key)) && BeginsWith(b[SizeOf(Some(e.key))..], e.value)
  }

  /** Are the bytes these entries, one after the other? */
  predicate Holds(b: seq<byte>, es: seq<Entry>)
    decreases |es|
  {
    if es == [] then b == [] else EntryBegins(b, es[0]) && Holds(b[EntrySize(es[0])..], es[1..])
  }

  lemma EntryExactly(b: seq<byte>, e: Entry, rest: seq<byte>)
    ensures ReadEntry(b) == Ok((e, rest)) <==> EntryBegins(b, e) && rest == b[EntrySize(e)..]
  {
    hide BeginsWith;
    var n := SizeOf(Some(e.key));
    if n <= |b| {
      ReadSlotExactly(b, Some(e.key), b[n..]);
      if EntrySize(e) <= |b| {
        ReadSlotExactly(b[n..], e.value, b[EntrySize(e)..]);
        assert b[n..][SizeOf(e.value)..] == b[EntrySize(e)..];
      }
      ReadSlotExactly(b[n..], e.value, rest);
    }
    if ReadEntry(b) == Ok((e, rest)) {
      assert |b| >= n && b[n..] == b[4..][|e.key|..] && b[4..n] == e.key;
    }
  }

  lemma {:induction false} CollectExactly(b: seq<byte>, n: nat, es: seq<Entry>)
    ensures Collect(b, n) == Ok(es) <==> |es| == n && Holds(b, es)
    decreases n
  {
    hide ReadEntry, EntryBegins, EntrySize;
    if n > 0 {
      var r := ReadEntry(b);
      if r.Ok? {
        EntryExactly(b, r.value.0, r.value.1);
        if es != [] {
          CollectExactly(r.value.1, n - 1, es[1..]);
          assert es == [es[0]] + es[1..];
        }
        if Collect(r.value.1, n - 1).Ok? {
          assert ([r.value.0] + Collect(r.value.1, n - 1).value)[1..] == Collect(r.value.1, n - 1).value;
        }
      }
      if es != [] && EntryBegins(b, es[0]) {
        EntryLength(b, es[0]);
        EntryExactly(b, es[0], b[EntrySize(es[0])..]);
      }
    }
  }

  lemma EntryLength(b: seq<byte>, e: Entry)
    ensures EntryBegins(b, e) ==> EntrySize(e) <= |b|
  {}

  /** Bytes are read as a list of entries exactly if they are its count and these entries and nothing else. */
  lemma HstoreExactly(raw: seq<byte>, es: seq<Entry>)
    ensures ParseHstore(raw) == Ok(es) <==> |raw| >= 4 && I32Of(raw[..4]) == |es| && Holds(raw[4..], es)
  {
    hide Holds, Collect, I32Of;
    if |raw| >= 4 && I32Of(raw[..4]) >= 0 {
      CollectExactly(raw[4..], I32Of(raw[..4]), es);
    }
  }

  // ---- Round trip ----

  lemma ReadEntryBack(e: Entry, tail: seq<byte>)
    requires FitsEntry(e)
    ensures ReadEntry(EntryWire(e) + tail) == Ok((e, tail))
  {
    var b := I32Bytes(|e.key|) + (e.key + (Slot(e.value) + tail));
    assert EntryWire(e) + tail == b;
    hide I32Bytes, ReadI32, EntryWire;
    ReadI32Back(|e.key|, e.key + (Slot(e.value) + tail));
    var value := if e.value.None? then [] else e.value.value;
    assert e.value.None? ==> Slot(e.value) + tail == I32Bytes(-1) + tail;
    assert e.value.Some? ==> Slot(e.value) + tail == I32Bytes(|value|) + (value + tail);
    hide Slot;
    ReadI32Back(-1, tail);
    ReadI32Back(|value|, value + tail);
  }

  lemma {:induction false} CollectBack(es: seq<Entry>)
    requires AllFitting(es)
    ensures Collect(EntriesWire(es), |es|) == Ok(es)
    decreases |es|
  {
    hide EntryWire, ReadEntry;
    if es != [] {
      ReadEntryBack(es[0], EntriesWire(es[1..]));
      CollectBack(es[1..]);
      assert [es[0]] + es[1..] == es;
    }
  }

  /** Every list of keys and optional values decodes as itself. */
  lemma HstoreBack(es: seq<Entry>)
    requires AllFitting(es) && |es| <= I32_MAX
    ensures ParseHstore(HstoreWire(es)) == Ok(es)
  {
    hide I32Bytes, ReadI32, EntriesWire, Collect;
    ReadI32Back(|es|, EntriesWire(es));
    CollectBack(es);
  }
}
