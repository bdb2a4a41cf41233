/**
 The binary COPY format: a writer that flushes when its buffer grows, and a reader that is
 given one chunk for each row.
 */
module BinaryCopy {
  import opened Bytes
  import opened Wrappers
  import opened Sequences
  import opened Slots
  import opened Arrays

  const MAGIC: seq<byte> := [0x50, 0x47, 0x43, 0x4f, 0x50, 0x59, 0x0a, 0xff, 0x0d, 0x0a, 0x00]
  const HEADER_LEN: nat := 19
  const FLUSH_AT: nat := 4096

  const HEADER: seq<byte> := MAGIC + I32Bytes(0) + I32Bytes(0)
  const TRAILER: seq<byte> := I16Bytes(-1)

  type Row = seq<Value>

  function RowWire(row: Row): seq<byte>
    requires AllFit(row)
  {
    I16Bytes(WrapI16(|row|)) + AllSlots(row)
  }

  predicate RowsFit(rows: seq<Row>) {
    forall i :: 0 <= i < |rows| ==> AllFit(rows[i])
  }

  function RowsWire(rows: seq<Row>): seq<byte>
    requires RowsFit(rows)
  {
    if rows == [] then [] else RowsWire(rows[..|rows| - 1]) + RowWire(rows[|rows| - 1])
  }

  function FileWire(rows: seq<Row>): seq<byte>
    requires RowsFit(rows)
  {
    HEADER + RowsWire(rows) + TRAILER
  }

  lemma RowsSnoc(rows: seq<Row>, row: Row)
    requires RowsFit(rows) && AllFit(row)
    ensures RowsFit(rows + [row]) && RowsWire(rows + [row]) == RowsWire(rows) + RowWire(row)
  {
    hide RowWire;
    assert (rows + [row])[..|rows|] == rows;
  }

  // ---- Writing ----

  class BinaryCopyInWriter {
    const columns: nat
    const buf: BytesMut
    var sent: seq<seq<byte>>
    ghost var rows: seq<Row>

    /** Everything written so far, flushed or not, is the header and the rows. */
    ghost predicate Valid()
      reads this, buf
    {
      RowsFit(rows) && Joined(sent) + buf.data == HEADER + RowsWire(rows)
    }

    constructor (columns: nat)
      ensures Valid() && rows == [] && this.columns == columns && fresh(buf)
    {
      this.columns := columns;
      var b := new BytesMut();
      b.Put(MAGIC);
      b.Put(I32Bytes(0));
      b.Put(I32Bytes(0));
      buf := b;
      sent := [];
      rows := [];
    }

    /**
     Writes one row. Each value is what its conversion gives, `None` if it fails. A row that
     fails leaves its beginning in the buffer, after everything written before.
     */
    method WriteRaw(values: seq<Option<Value>>) returns (ok: bool)
      requires Valid() && |values| == columns
      modifies this, buf
      ensures ok <==> AllGiven(values)
      ensures ok ==> Valid() && rows == old(rows) + [Given(values)]
      ensures ok ==> |buf.data| <= FLUSH_AT
      ensures !ok ==> old(buf.data) <= buf.data && sent == old(sent) && rows == old(rows)
    {
      hide I16Bytes, Slot, AllSlots, HEADER, WrapI16, RowsWire, Joined;
      buf.Put(I16Bytes(WrapI16(columns)));
      var written, hasNulls := WriteElements(values, buf);
      PrefixTrans(old(buf.data), I16Bytes(WrapI16(columns)), buf.data);
      if !written {
        return false;
      }
      ghost var row := Given(values);
      RowsSnoc(rows, row);
      RowAdded(Joined(sent), old(buf.data), RowsWire(rows), I16Bytes(WrapI16(columns)), AllSlots(row));
      rows := rows + [row];
      if |buf.data| > FLUSH_AT {
        JoinedSnoc(sent, buf.data);
        var chunk := buf.Split();
        sent := sent + [chunk];
        assert Joined(sent) + [] == Joined(sent);
      }
      return true;
    }

    /** Whatever the flush points were, the chunks sent make up the file. */
    method Finish()
      requires Valid()
      modifies this, buf
      ensures rows == old(rows) && RowsFit(rows) && Joined(sent) == FileWire(rows)
    {
      hide I16Bytes, HEADER, RowsWire, Joined;
      buf.Put(I16Bytes(-1));
      JoinedSnoc(sent, buf.data);
      Assoc(Joined(sent), old(buf.data), TRAILER);
      var chunk := buf.Split();
      sent := sent + [chunk];
    }
  }

  lemma RowAdded(sent: seq<byte>, buf: seq<byte>, rows: seq<byte>, count: seq<byte>, slots: seq<byte>)
    requires sent + buf == HEADER + rows
    ensures sent + (buf + count + slots) == HEADER + (rows + (count + slots))
  {
    hide HEADER;
    assert sent + (buf + count + slots) == sent + buf + (count + slots);
    assert HEADER + (rows + (count + slots)) == HEADER + rows + (count + slots);
  }

  // ---- Reading ----

  datatype CopyError = UnexpectedEof | InvalidMagic | InvalidCount | Overflow

  /** A column's bytes within the chunk, or NULL. */
  type Range = Option<(nat, nat)>

  /** The columns that start at `pos`. */
  function ReadColumns(chunk: seq<byte>, pos: nat, n: nat): (r: Result<seq<Range>, CopyError>)
    requires pos <= |chunk|
    ensures r.Ok? ==> |r.value| == n
    decreases n
  {
    if n == 0 then Ok([])
    else match ReadI32(chunk[pos..])
      case None => Err(UnexpectedEof)
      case Some((len, rest)) =>
        if len == -1 then After([None], ReadColumns(chunk, pos + 4, n - 1))
        else if len < 0 || len > |rest| then Err(UnexpectedEof)
        else After([Some((pos + 4, pos + 4 + len))], ReadColumns(chunk, pos + 4 + len, n - 1))
  }

  // The header: whether rows carry object identifiers, and where the first row starts.
  function ReadHeader(chunk: seq<byte>): (r: Result<(bool, nat), CopyError>)
    ensures r.Ok? ==> HEADER_LEN <= r.value.1 <= |chunk|
  {
    if |chunk| < HEADER_LEN then Err(UnexpectedEof)
    else if chunk[..11] != MAGIC then Err(InvalidMagic)
    else
      var flags := U32Of(chunk[11..15]);
      var extension := U32Of(chunk[15..19]);
      if |chunk| - HEADER_LEN < extension then Err(UnexpectedEof)
      else Ok(((flags / 0x1_0000) % 2 == 1, HEADER_LEN + extension))
  }

  /** One more than a count, in an `i16` that wraps unless overflow is checked. */
  function CountWithOid(count: i16): i16 {
    if count == I16_MAX then -0x8000 else count + 1
  }

  /**
   Is there a tuple of so many columns behind this count, or is it the trailer? An object
   identifier is not counted by the server; a negative count equals no number of columns.
   */
  function CheckCount(count: i16, hasOids: bool, columns: nat, checked: bool): Result<bool, CopyError> {
    if count == -1 then Ok(false)
    else if checked && hasOids && count == I16_MAX then Err(Overflow)
    else if (if hasOids then CountWithOid(count) else count) != columns then Err(InvalidCount)
    else Ok(true)
  }

  /** The tuple at `pos`, or `None` for the trailer. */
  function ReadTuple(chunk: seq<byte>, pos: nat, hasOids: bool, columns: nat, checked: bool)
    : Result<Option<seq<Range>>, CopyError>
    requires pos <= |chunk|
  {
    if |chunk| - pos < 2 then Err(UnexpectedEof)
    else
      match CheckCount(I16Of(chunk[pos..pos + 2]), hasOids, columns, checked)
      case Err(e) => Err(e)
      case Ok(false) => Ok(None)
      case Ok(true) =>
        match ReadColumns(chunk, pos + 2, columns)
        case Err(e) => Err(e)
        case Ok(ranges) => Ok(Some(ranges))
  }

  /** One `poll_next` with a chunk: the outcome and the header now known. */
  function ReadChunk(header: Option<bool>, columns: nat, checked: bool, chunk: seq<byte>)
    : (Result<Option<seq<Range>>, CopyError>, Option<bool>)
  {
    match header
    case Some(hasOids) => (ReadTuple(chunk, 0, hasOids, columns, checked), header)
    case None =>
      match ReadHeader(chunk)
      case Err(e) => (Err(e), None)
      case Ok((hasOids, pos)) => (ReadTuple(chunk, pos, hasOids, columns, checked), Some(hasOids))
  }

  class BinaryCopyOutStream {
    const columns: nat
    const checked: bool
    var header: Option<bool>

    constructor (columns: nat, checked: bool)
      ensures this.columns == columns && this.checked == checked && header == None
    {
      this.columns, this.checked := columns, checked;
      header := None;
    }

    /** One row out of one chunk; the first chunk starts with the file's header. */
    method PollNext(chunk: seq<byte>) returns (r: Result<Option<seq<Range>>, CopyError>)
      modifies this
      ensures (r, header) == ReadChunk(old(header), columns, checked, chunk)
    {
      hide I16Of, U32Of, ReadColumns, MAGIC;
      var pos: nat := 0;
      var hasOids := false;
      match header {
        case Some(known) => hasOids := known;
        case None =>
          if |chunk| < HEADER_LEN {
            return Err(UnexpectedEof);
          }
          if chunk[..11] != MAGIC {
            return Err(InvalidMagic);
          }
          hasOids := (U32Of(chunk[11..15]) / 0x1_0000) % 2 == 1;
          var extension := U32Of(chunk[15..19]);
          if |chunk| - HEADER_LEN < extension {
            return Err(UnexpectedEof);
          }
          pos := HEADER_LEN + extension;
          header := Some(hasOids);
      }
      if |chunk| - pos < 2 {
        return Err(UnexpectedEof);
      }
      var len := I16Of(chunk[pos..pos + 2]);
      if len == -1 {
        return Ok(None);
      }
      if hasOids {
        if checked && len == I16_MAX {
          return Err(Overflow);
        }
        len := CountWithOid(len);
      }
      if len != columns {
        return Err(InvalidCount);
      }
      var ranges := Columns(chunk, pos + 2);
      return match ranges case Err(e) => Err(e) case Ok(rs) => Ok(Some(rs));
    }

    // The cursor moves over the columns and notes where each lies.
    method Columns(chunk: seq<byte>, start: nat) returns (r: Result<seq<Range>, CopyError>)
      requires start <= |chunk|
      ensures r == ReadColumns(chunk, start, columns)
    {
      hide I32Of;
      var pos: nat := start;
      var ranges: seq<Range> := [];
      AfterNothing(ReadColumns(chunk, pos, columns));
      for i := 0 to columns
        invariant pos <= |chunk|
        invariant ReadColumns(chunk, start, columns) == After(ranges, ReadColumns(chunk, pos, columns - i))
      {
        if |chunk| - pos < 4 {
          return Err(UnexpectedEof);
        }
        var size := I32Of(chunk[pos..pos + 4]);
        assert chunk[pos..][..4] == chunk[pos..pos + 4];
        if size == -1 {
          AfterBoth(ranges, [None], ReadColumns(chunk, pos + 4, columns - i - 1));
          ranges := ranges + [None];
          pos := pos + 4;
        } else {
          if size < 0 || |chunk| - pos - 4 < size {
            return Err(UnexpectedEof);
          }
          AfterBoth(ranges, [Some((pos + 4, pos + 4 + size))], ReadColumns(chunk, pos + 4 + size, columns - i - 1));
          ranges := ranges + [Some((pos + 4, pos + 4 + size))];
          pos := pos + 4 + size;
        }
      }
      assert ranges + [] == ranges;
      return Ok(ranges);
    }
  }

  // ---- The ranges ----

  /** In bounds, disjoint, and in the order of the columns. */
  ghost predicate Ordered(ranges: seq<Range>, from: nat, to: nat) {
    && (forall i :: 0 <= i < |ranges| && ranges[i].Some? ==> from <= ranges[i].value.0 <= ranges[i].value.1 <= to)
    && (forall i, j :: 0 <= i < j < |ranges| && ranges[i].Some? && ranges[j].Some? ==>
        ranges[i].value.1 <= ranges[j].value.0)
  }

  lemma OrderedCons(r: Range, ranges: seq<Range>, from: nat, next: nat, to: nat)
    requires Ordered(ranges, next, to) && from <= next <= to
    requires r.Some? ==> from <= r.value.0 <= r.value.1 <= next
    ensures Ordered([r] + ranges, from, to)
  {}

  lemma {:induction false} RangesOrdered(chunk: seq<byte>, pos: nat, n: nat)
    requires pos <= |chunk| && ReadColumns(chunk, pos, n).Ok?
    ensures Ordered(ReadColumns(chunk, pos, n).value, pos, |chunk|)
    decreases n
  {
    hide I32Of;
    if n > 0 {
      var len := I32Of(chunk[pos..][..4]);
      var next := if len == -1 then pos + 4 else pos + 4 + len;
      RangesOrdered(chunk, next, n - 1);
      var r := if len == -1 then None else Some((pos + 4, pos + 4 + len));
      OrderedCons(r, ReadColumns(chunk, next, n - 1).value, pos, next, |chunk|);
    }
  }

  /** Whatever chunk the server sends, a row's ranges lie in it, apart and in order. */
  lemma RowInBounds(header: Option<bool>, columns: nat, checked: bool, chunk: seq<byte>)
    requires ReadChunk(header, columns, checked, chunk).0.Ok?
    requires ReadChunk(header, columns, checked, chunk).0.value.Some?
    ensures |ReadChunk(header, columns, checked, chunk).0.value.value| == columns
    ensures Ordered(ReadChunk(header, columns, checked, chunk).0.value.value, 0, |chunk|)
  {
    hide ReadColumns, I16Of, U32Of;
    var pos := if header.Some? then 0 else ReadHeader(chunk).value.1;
    hide ReadHeader;
    RangesOrdered(chunk, pos + 2, columns);
  }

  function ValueAt(chunk: seq<byte>, r: Range): Value
    requires r.Some? ==> r.value.0 <= r.value.1 <= |chunk|
  {
    match r case None => None case Some((start, end)) => Some(chunk[start..end])
  }

  /** The ranges read out of the chunk are the values of the row. */
  ghost predicate Shows(chunk: seq<byte>, ranges: seq<Range>, row: Row) {
    && Ordered(ranges, 0, |chunk|) && |ranges| == |row|
    && forall i :: 0 <= i < |row| ==> ValueAt(chunk, ranges[i]) == row[i]
  }

  // ---- Round trip ----

  lemma ShowsCons(chunk: seq<byte>, r: Range, ranges: seq<Range>, v: Value, row: Row, from: nat, next: nat)
    requires Ordered(ranges, next, |chunk|) && Shows(chunk, ranges, row)
    requires from <= next <= |chunk| && (r.Some? ==> from <= r.value.0 <= r.value.1 <= next) && ValueAt(chunk, r) == v
    ensures Ordered([r] + ranges, from, |chunk|) && Shows(chunk, [r] + ranges, [v] + row)
  {
    OrderedCons(r, ranges, from, next, |chunk|);
    assert Ordered([r] + ranges, 0, |chunk|);
  }

  lemma {:induction false} ColumnsBack(before: seq<byte>, row: Row)
    requires AllFit(row)
    ensures var r := ReadColumns(before + AllSlots(row), |before|, |row|);
      r.Ok? && Ordered(r.value, |before|, |before + AllSlots(row)|) && Shows(before + AllSlots(row), r.value, row)
    decreases |row|
  {
    hide Slot, AllSlots, ReadSlot, I32Bytes, ReadI32, Ordered, Shows;
    if row == [] {
      NoColumns(before + AllSlots(row), |before|);
    } else {
      var v, rest := row[0], AllSlots(row[1..]);
      var chunk := before + AllSlots(row);
      AllSlotsCons(v, row[1..]);
      assert [v] + row[1..] == row;
      var next := before + Slot(v);
      assert chunk == next + rest;
      ColumnsBack(next, row[1..]);
      SlotAt(before, v, rest);
      var r := if v.None? then None else Some((|before| + 4, |next|));
      ShowsCons(chunk, r, ReadColumns(chunk, |next|, |row| - 1).value, v, row[1..], |before|, |next|);
    }
  }

  lemma NoColumns(chunk: seq<byte>, pos: nat)
    requires pos <= |chunk|
    ensures ReadColumns(chunk, pos, 0) == Ok([]) && Ordered([], pos, |chunk|) && Shows(chunk, [], [])
  {}

  // One column read where it was written.
  lemma SlotAt(before: seq<byte>, v: Value, rest: seq<byte>)
    requires Fits(v)
    ensures var chunk := before + Slot(v) + rest;
      && |Slot(v)| == 4 + (if v.None? then 0 else |v.value|)
      && ValueAt(chunk, if v.None? then None else Some((|before| + 4, |before + Slot(v)|))) == v
      && var read := ReadI32(chunk[|before|..]);
      read.Some? && (v.None? ==> read.value.0 == -1) && (v.Some? ==> read.value.0 == |v.value| <= |read.value.1|)
  {
    hide I32Bytes, ReadI32;
    var data := if v.None? then [] else v.value;
    var len := if v.None? then -1 else |v.value|;
    var chunk := before + Slot(v) + rest;
    assert chunk[|before|..] == I32Bytes(len) + (data + rest);
    var head := before + I32Bytes(len);
    assert chunk == head + data + rest && chunk[|head|..|head| + |data|] == data;
    ReadI32Back(len, data + rest);
  }

  /** Columns that are read are values the server wrote one after the other, each behind its length. */
  lemma {:induction false} ColumnsOnly(chunk: seq<byte>, pos: nat, n: nat) returns (row: Row)
    requires pos <= |chunk| && ReadColumns(chunk, pos, n).Ok?
    ensures |row| == n && AllFit(row) && AllSlots(row) <= chunk[pos..]
    ensures Ordered(ReadColumns(chunk, pos, n).value, pos, |chunk|)
    ensures Shows(chunk, ReadColumns(chunk, pos, n).value, row)
    decreases n
  {
    hide I32Of, I32Bytes, Slot, AllSlots, Ordered, Shows;
    if n == 0 {
      row := [];
      NoColumns(chunk, pos);
      NoSlots();
    } else {
      var len := I32Of(chunk[pos..][..4]);
      var next := if len == -1 then pos + 4 else pos + 4 + len;
      var r := if len == -1 then None else Some((pos + 4, next));
      var v := ValueAt(chunk, r);
      var more := ColumnsOnly(chunk, next, n - 1);
      row := [v] + more;
      ColumnIsSlot(chunk, pos, next, v);
      AllSlotsCons(v, more);
      assert chunk[pos..] == chunk[pos..next] + chunk[next..];
      ShowsCons(chunk, r, ReadColumns(chunk, next, n - 1).value, v, more, pos, next);
    }
  }

  lemma NoSlots()
    ensures AllSlots([]) == []
  {}

  lemma ColumnIsSlot(chunk: seq<byte>, pos: nat, next: nat, v: Value)
    requires pos + 4 <= next <= |chunk|
    requires var len := I32Of(chunk[pos..][..4]);
      if v.None? then len == -1 && next == pos + 4 else len == next - pos - 4 && v.value == chunk[pos + 4..next]
    ensures Fits(v) && Slot(v) == chunk[pos..next]
  {
    hide I32Of, I32Bytes;
    I32Only(chunk[pos..][..4]);
    assert chunk[pos..][..4] == chunk[pos..pos + 4];
    assert chunk[pos..next] == chunk[pos..pos + 4] + chunk[pos + 4..next];
  }

  /** A wrapped column count is the count itself exactly when it fits in an `i16`. */
  lemma CountBack(n: nat)
    ensures I16Of(I16Bytes(WrapI16(n))) == WrapI16(n)
    ensures WrapI16(n) == n <==> n <= I16_MAX
  {
    I16RoundTrip(WrapI16(n));
  }

  /** A tuple's columns are read back exactly when their number fits in an `i16`. */
  lemma TupleBack(before: seq<byte>, row: Row, checked: bool)
    requires AllFit(row)
    ensures var chunk := before + RowWire(row);
      var r := ReadTuple(chunk, |before|, false, |row|, checked);
      (r.Ok? && r.value.Some? && Shows(chunk, r.value.value, row)) <==> |row| <= I16_MAX
  {
    hide I16Bytes, I16Of, AllSlots, ReadColumns, ReadTuple, WrapI16, Ordered, Shows;
    var count := I16Bytes(WrapI16(|row|));
    Assoc(before, count, AllSlots(row));
    CountBack(|row|);
    ColumnsBack(before + count, row);
    TupleAt(before, count, AllSlots(row), false, |row|, checked);
  }

  lemma OidCount(n: nat, checked: bool)
    ensures CheckCount(I16Of(I16Bytes(WrapI16(n))), true, n + 1, checked) == Ok(true) <==> n < I16_MAX
  {
    hide I16Of, I16Bytes, WrapI16;
    CountBack(n);
  }

  // A tuple read where its count was written.
  lemma TupleAt(before: seq<byte>, count: seq<byte>, rest: seq<byte>, hasOids: bool, columns: nat, checked: bool)
    requires |count| == 2
    ensures ReadTuple(before + count + rest, |before|, hasOids, columns, checked)
         == match CheckCount(I16Of(count), hasOids, columns, checked)
            case Err(e) => Err(e)
            case Ok(false) => Ok(None)
            case Ok(true) =>
              match ReadColumns(before + count + rest, |before + count|, columns)
              case Err(e) => Err(e)
              case Ok(ranges) => Ok(Some(ranges))
  {
    hide I16Of, CheckCount, ReadColumns;
    assert (before + count + rest)[|before|..|before| + 2] == count;
  }

  /**
   A tuple that a server sends with an object identifier first is read back under the same
   condition; 32767 columns after the identifier are one too many for the `i16`.
   */
  lemma OidTupleBack(before: seq<byte>, row: Row, checked: bool)
    requires AllFit(row) && row != []
    ensures var chunk := before + I16Bytes(WrapI16(|row| - 1)) + AllSlots(row);
      var r := ReadTuple(chunk, |before|, true, |row|, checked);
      (r.Ok? && r.value.Some? && Shows(chunk, r.value.value, row)) <==> |row| <= I16_MAX
  {
    hide I16Bytes, I16Of, AllSlots, ReadColumns, ReadTuple, WrapI16, Ordered, Shows, CheckCount;
    var n: nat := |row| - 1;
    var count := I16Bytes(WrapI16(n));
    OidCount(n, checked);
    ColumnsBack(before + count, row);
    TupleAt(before, count, AllSlots(row), true, |row|, checked);
  }

  lemma OidCountOverflows(rest: seq<byte>, columns: nat, checked: bool)
    ensures ReadTuple(I16Bytes(I16_MAX) + rest, 0, true, columns, checked)
         == Err(if checked then Overflow else InvalidCount)
  {
    hide I16Bytes, I16Of;
    I16RoundTrip(I16_MAX);
    assert (I16Bytes(I16_MAX) + rest)[0..2] == I16Bytes(I16_MAX);
  }

  /** With 65535 columns, or any count that wraps to it, a row reads as the trailer: the end. */
  lemma WrappedRowEnds(row: Row, checked: bool)
    requires AllFit(row) && |row| % 0x1_0000 == 0xffff
    ensures ReadTuple(RowWire(row), 0, false, |row|, checked) == Ok(None)
  {
    hide AllSlots;
    I16RoundTrip(-1);
    assert RowWire(row)[0..2] == I16Bytes(-1);
  }

  lemma HeaderBack(rest: seq<byte>)
    ensures ReadHeader(HEADER + rest) == Ok((false, HEADER_LEN))
  {
    var chunk := HEADER + rest;
    I32RoundTrip(0);
    assert chunk[..11] == MAGIC && chunk[11..15] == I32Bytes(0) && chunk[15..19] == I32Bytes(0);
    assert U32Of(I32Bytes(0)) == 0;
  }

  /** The chunks a server makes of the file: the header with the first tuple, then a tuple each. */
  function Chunks(rows: seq<Row>): seq<seq<byte>>
    requires RowsFit(rows)
  {
    if rows == [] then [HEADER + TRAILER]
    else [HEADER + RowWire(rows[0])] + LaterChunks(rows[1..])
  }

  function LaterChunks(rows: seq<Row>): seq<seq<byte>>
    requires RowsFit(rows)
  {
    if rows == [] then [TRAILER] else [RowWire(rows[0])] + LaterChunks(rows[1..])
  }

  /** What a client gets by polling to the end: the values of each row. */
  function ReadAll(header: Option<bool>, columns: nat, checked: bool, chunks: seq<seq<byte>>)
    : Result<seq<Row>, CopyError>
    decreases |chunks|
  {
    if chunks == [] then Err(UnexpectedEof)
    else
      var (r, header') := ReadChunk(header, columns, checked, chunks[0]);
      match r
      case Err(e) => Err(e)
      case Ok(None) => Ok([])
      case Ok(Some(ranges)) =>
        RowInBounds(header, columns, checked, chunks[0]);
        After([Values(chunks[0], ranges)], ReadAll(header', columns, checked, chunks[1..]))
  }

  function Values(chunk: seq<byte>, ranges: seq<Range>): (r: Row)
    requires Ordered(ranges, 0, |chunk|)
    ensures |r| == |ranges|
  {
    seq(|ranges|, i requires 0 <= i < |ranges| && Ordered(ranges, 0, |chunk|) => ValueAt(chunk, ranges[i]))
  }

  lemma TrailerEnds(hasOids: bool, columns: nat, checked: bool)
    ensures ReadChunk(Some(hasOids), columns, checked, TRAILER).0 == Ok(None)
    ensures ReadChunk(None, columns, checked, HEADER + TRAILER).0 == Ok(None)
  {
    I16RoundTrip(-1);
    assert TRAILER[0..2] == TRAILER;
    HeaderBack(TRAILER);
    assert (HEADER + TRAILER)[19..21] == TRAILER;
  }

  ghost predicate AllColumns(rows: seq<Row>, columns: nat) {
    forall i :: 0 <= i < |rows| ==> |rows[i]| == columns
  }

  lemma ShowsValues(chunk: seq<byte>, ranges: seq<Range>, row: Row)
    requires Ordered(ranges, 0, |chunk|)
    ensures Shows(chunk, ranges, row) <==> Values(chunk, ranges) == row
  {}

  // One chunk more: its tuple is read back if the count fits, and the rest as it is.
  lemma ReadAllStep(header: Option<bool>, columns: nat, checked: bool, chunk: seq<byte>, chunks: seq<seq<byte>>,
      row: Row)
    requires var (r, _) := ReadChunk(header, columns, checked, chunk);
      (r.Ok? && r.value.Some? && Shows(chunk, r.value.value, row)) <==> columns <= I16_MAX
    ensures columns <= I16_MAX ==>
      ReadAll(header, columns, checked, [chunk] + chunks)
        == After([row], ReadAll(ReadChunk(header, columns, checked, chunk).1, columns, checked, chunks))
    ensures columns > I16_MAX ==> forall rows: seq<Row> :: rows != [] && rows[0] == row ==>
      ReadAll(header, columns, checked, [chunk] + chunks) != Ok(rows)
  {
    hide ReadChunk, Shows;
    var all := [chunk] + chunks;
    assert all[0] == chunk && all[1..] == chunks;
    var (r, header') := ReadChunk(header, columns, checked, chunk);
    if r.Ok? && r.value.Some? {
      RowInBounds(header, columns, checked, chunk);
      ShowsValues(chunk, r.value.value, row);
    }
  }

  lemma {:induction false} LaterBack(columns: nat, checked: bool, rows: seq<Row>)
    requires RowsFit(rows) && AllColumns(rows, columns) && columns <= I16_MAX
    ensures ReadAll(Some(false), columns, checked, LaterChunks(rows)) == Ok(rows)
    decreases |rows|
  {
    hide ReadChunk, RowWire, ReadTuple, TRAILER;
    if rows == [] {
      TrailerEnds(false, columns, checked);
    } else {
      LaterBack(columns, checked, rows[1..]);
      LaterTuple(columns, checked, rows[0]);
      ReadAllStep(Some(false), columns, checked, RowWire(rows[0]), LaterChunks(rows[1..]), rows[0]);
      assert [rows[0]] + rows[1..] == rows;
    }
  }

  lemma LaterTuple(columns: nat, checked: bool, row: Row)
    requires AllFit(row) && |row| == columns
    ensures var (r, header) := ReadChunk(Some(false), columns, checked, RowWire(row));
      && header == Some(false)
      && ((r.Ok? && r.value.Some? && Shows(RowWire(row), r.value.value, row)) <==> columns <= I16_MAX)
  {
    hide RowWire, ReadTuple, Shows;
    TupleBack([], row, checked);
    assert [] + RowWire(row) == RowWire(row);
  }

  lemma FirstTuple(columns: nat, checked: bool, row: Row)
    requires AllFit(row) && |row| == columns
    ensures var (r, header) := ReadChunk(None, columns, checked, HEADER + RowWire(row));
      && header == Some(false)
      && ((r.Ok? && r.value.Some? && Shows(HEADER + RowWire(row), r.value.value, row)) <==> columns <= I16_MAX)
  {
    hide RowWire, ReadTuple, Shows, ReadHeader, HEADER;
    HeaderLength();
    HeaderBack(RowWire(row));
    TupleBack(HEADER, row, checked);
  }

  lemma HeaderLength()
    ensures |HEADER| == HEADER_LEN
  {}

  /**
   Every list of rows is read back as itself exactly when the column count fits in an `i16`
   or there are no rows: a larger count is written modulo 65536, and 65535 columns look like
   the trailer.
   */
  lemma CopyBack(columns: nat, checked: bool, rows: seq<Row>)
    requires RowsFit(rows) && AllColumns(rows, columns)
    ensures ReadAll(None, columns, checked, Chunks(rows)) == Ok(rows) <==> columns <= I16_MAX || rows == []
  {
    hide ReadChunk, RowWire, ReadTuple, HEADER, TRAILER;
    if rows == [] {
      TrailerEnds(false, columns, checked);
    } else {
      FirstTuple(columns, checked, rows[0]);
      ReadAllStep(None, columns, checked, HEADER + RowWire(rows[0]), LaterChunks(rows[1..]), rows[0]);
      if columns <= I16_MAX {
        LaterBack(columns, checked, rows[1..]);
        assert [rows[0]] + rows[1..] == rows;
      }
    }
  }

  lemma Shift(before: seq<byte>, w: seq<byte>, rows: seq<byte>, end: seq<byte>)
    ensures before + w + (rows + end) == before + ((w + rows) + end)
  {}

  lemma {:induction false} LaterChunksJoined(rows: seq<Row>, before: seq<seq<byte>>)
    requires RowsFit(rows)
    ensures Joined(before + LaterChunks(rows)) == Joined(before) + (RowsWire(rows) + TRAILER)
    decreases |rows|
  {
    hide RowWire, TRAILER, Joined;
    if rows == [] {
      JoinedSnoc(before, TRAILER);
      assert RowsWire(rows) + TRAILER == TRAILER;
    } else {
      var w := RowWire(rows[0]);
      LaterChunksJoined(rows[1..], before + [w]);
      JoinedSnoc(before, w);
      assert (before + [w]) + LaterChunks(rows[1..]) == before + LaterChunks(rows);
      hide LaterChunks, RowsWire;
      RowsCons(rows[0], rows[1..]);
      assert [rows[0]] + rows[1..] == rows;
      Shift(Joined(before), w, RowsWire(rows[1..]), TRAILER);
    }
  }

  lemma {:induction false} RowsCons(row: Row, rows: seq<Row>)
    requires AllFit(row) && RowsFit(rows)
    ensures RowsFit([row] + rows) && RowsWire([row] + rows) == RowWire(row) + RowsWire(rows)
    decreases |rows|
  {
    hide RowWire;
    if rows == [] {
      assert [row] + rows == [row] && [row][..0] == [];
    } else {
      var most, last := rows[..|rows| - 1], rows[|rows| - 1];
      RowsCons(row, most);
      RowsSnoc([row] + most, last);
      assert ([row] + most) + [last] == [row] + rows;
      assert RowWire(row) + RowsWire(most) + RowWire(last) == RowWire(row) + RowsWire(rows);
    }
  }

  /** Those chunks are the file the writer produces, cut in another way. */
  lemma ChunksAreTheFile(rows: seq<Row>)
    requires RowsFit(rows)
    ensures Joined(Chunks(rows)) == FileWire(rows)
  {
    hide RowWire, HEADER, TRAILER;
    JoinedSnoc([], HEADER + TRAILER);
    if rows == [] {
      assert [] + [HEADER + TRAILER] == Chunks(rows);
      assert [] + (HEADER + TRAILER) == HEADER + RowsWire(rows) + TRAILER;
    } else {
      var first := HEADER + RowWire(rows[0]);
      LaterChunksJoined(rows[1..], [first]);
      JoinedSnoc([], first);
      assert [] + [first] == [first] && [] + first == first;
      RowsCons(rows[0], rows[1..]);
      assert [rows[0]] + rows[1..] == rows;
      assert first + (RowsWire(rows[1..]) + TRAILER) == HEADER + (RowWire(rows[0]) + RowsWire(rows[1..])) + TRAILER;
    }
  }
}
