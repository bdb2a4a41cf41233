/**
 Arrays on the wire: dimension count, null flag, element type, the dimensions, then one slot
 for each element in row-major order.
 */
module Arrays {
  import opened Bytes
  import opened Wrappers
  import opened Sequences
  import opened Slots

  datatype Dimension = Dimension(len: i32, lowerBound: i32)

  datatype Error = InvalidBuffer | InvalidDimension | TooManyElements | NotDrained

  /** A decoded header; `buf` still holds the dimensions and the elements. */
  datatype ArrayView = ArrayView(dimensions: nat, hasNulls: bool, elementType: u32, elements: nat, buf: seq<byte>)

  function DimensionsWire(dims: seq<Dimension>): (r: seq<byte>)
    ensures |r| == 8 * |dims|
  {
    if dims == [] then []
    else DimensionsWire(dims[..|dims| - 1]) + I32Bytes(dims[|dims| - 1].len) + I32Bytes(dims[|dims| - 1].lowerBound)
  }

  function ArrayWire(dims: seq<Dimension>, elementType: u32, elements: seq<Value>): seq<byte>
    requires |dims| <= I32_MAX && AllFit(elements)
  {
    I32Bytes(|dims|) + I32Bytes(if None in elements then 1 else 0) + U32Bytes(elementType) +
    DimensionsWire(dims) + AllSlots(elements)
  }

  // ---- Encoding ----

  predicate AllGiven(elements: seq<Option<Value>>) {
    forall i :: 0 <= i < |elements| ==> elements[i].Some? && Fits(elements[i].value)
  }

  function Given(elements: seq<Option<Value>>): (r: seq<Value>)
    requires AllGiven(elements)
    ensures AllFit(r)
  {
    seq(|elements|, i requires 0 <= i < |elements| && elements[i].Some? => elements[i].value)
  }

  lemma Grouped(a: seq<byte>, b: seq<byte>, c: seq<byte>, d: seq<byte>, e: seq<byte>)
    ensures a + b + c + d + e == a + (b + c + d + e) && a + b + c + d == a + (b + c + d)
  {}

  lemma HeaderPatched(
      prefix: seq<byte>, zero: seq<byte>, elementType: seq<byte>, dims: seq<byte>, slots: seq<byte>,
      count: seq<byte>, flag: seq<byte>)
    requires |zero| == |count| == |flag| == 4
    ensures Patched(prefix + zero + zero + elementType + dims, |prefix|, count)
         == prefix + count + zero + elementType + dims
    ensures Patched(prefix + count + zero + elementType + dims + slots, |prefix| + 4, flag)
         == prefix + (count + flag + elementType + dims + slots)
  {
    hide Patched;
    PatchedMiddle(prefix, zero, zero + elementType + dims, count);
    Grouped(prefix + zero, zero, elementType, dims, []);
    Grouped(prefix + count, zero, elementType, dims, []);
    var front := prefix + count;
    PatchedMiddle(front, zero, elementType + dims + slots, flag);
    Grouped(front + zero, elementType, dims, slots, []);
    Grouped(front + flag, elementType, dims, slots, []);
    Grouped(prefix, count, flag, elementType + dims + slots, []);
    Grouped(count + flag, elementType, dims, slots, []);
  }

  lemma GivenSnoc(elements: seq<Option<Value>>, i: nat)
    requires i < |elements| && AllGiven(elements[..i]) && elements[i].Some? && Fits(elements[i].value)
    ensures AllGiven(elements[..i + 1]) && Given(elements[..i + 1]) == Given(elements[..i]) + [elements[i].value]
  {}

  // An array's header: its dimension count is patched in, its null flag is still to come.
  method HeaderToSql(dims: seq<Dimension>, elementType: u32, buf: BytesMut) returns (ok: bool)
    modifies buf
    ensures ok <==> |dims| <= I32_MAX
    ensures ok ==>
      buf.data == old(buf.data) + I32Bytes(|dims|) + I32Bytes(0) + U32Bytes(elementType) + DimensionsWire(dims)
    ensures old(buf.data) <= buf.data
  {
    hide I32Bytes, U32Bytes, DimensionsWire, Patched;
    var dimensionsIdx := |buf.data|;
    buf.Put(I32Bytes(0));
    buf.Put(I32Bytes(0));
    buf.Put(U32Bytes(elementType));
    WriteDimensions(dims, buf);
    if |dims| > I32_MAX {
      return false;
    }
    HeaderPatched(old(buf.data), I32Bytes(0), U32Bytes(elementType), DimensionsWire(dims), [], I32Bytes(|dims|),
      I32Bytes(0));
    buf.Patch(dimensionsIdx, I32Bytes(|dims|));
    return true;
  }

  /**
   `array_to_sql`. Each element is what its serializer makes of it, `None` if it fails; the
   header's count and null flag are patched once they are known.
   */
  method ArrayToSql(dims: seq<Dimension>, elementType: u32, elements: seq<Option<Value>>, buf: BytesMut)
    returns (ok: bool)
    modifies buf
    ensures ok <==> |dims| <= I32_MAX && AllGiven(elements)
    ensures ok ==> buf.data == old(buf.data) + ArrayWire(dims, elementType, Given(elements))
    ensures old(buf.data) <= buf.data
  {
    hide I32Bytes, U32Bytes, AllSlots, DimensionsWire, AllGiven, Given;
    var flagsIdx := |buf.data| + 4;
    var header := HeaderToSql(dims, elementType, buf);
    if !header {
      return false;
    }
    var written, hasNulls := WriteElements(elements, buf);
    if !written {
      return false;
    }
    var flag := I32Bytes(if hasNulls then 1 else 0);
    HeaderPatched(old(buf.data), I32Bytes(0), U32Bytes(elementType), DimensionsWire(dims), AllSlots(Given(elements)),
      I32Bytes(|dims|), flag);
    buf.Patch(flagsIdx, flag);
    return true;
  }

  // The elements, one slot after the other; tells whether any of them is NULL.
  method WriteElements(elements: seq<Option<Value>>, buf: BytesMut) returns (ok: bool, hasNulls: bool)
    modifies buf
    ensures ok <==> AllGiven(elements)
    ensures ok ==> buf.data == old(buf.data) + AllSlots(Given(elements)) && hasNulls == (None in Given(elements))
    ensures old(buf.data) <= buf.data
  {
    hide Slot, AllSlots, Cat;
    hasNulls := false;
    NoSlots();
    CatNothing(buf.data);
    assert AllGiven(elements[..0]) && Given(elements[..0]) == [];
    for i := 0 to |elements|
      invariant AllGiven(elements[..i]) && buf.data == Cat(old(buf.data), AllSlots(Given(elements[..i])))
      invariant hasNulls == (None in Given(elements[..i]))
    {
      CatIs(old(buf.data), AllSlots(Given(elements[..i])));
      if elements[i].None? {
        return false, hasNulls;
      }
      if elements[i].value.None? {
        hasNulls := true;
      }
      var written := WriteNullable(elements[i].value, buf);
      if !written {
        return false, hasNulls;
      }
      GivenSnoc(elements, i);
      AllSlotsSnoc(Given(elements[..i]), elements[i].value);
      CatMore(old(buf.data), AllSlots(Given(elements[..i])), Slot(elements[i].value));
    }
    assert elements[..|elements|] == elements;
    CatIs(old(buf.data), AllSlots(Given(elements)));
    return true, hasNulls;
  }

  lemma NoSlots()
    ensures AllSlots([]) == []
  {}

  method WriteDimensions(dims: seq<Dimension>, buf: BytesMut)
    modifies buf
    ensures buf.data == old(buf.data) + DimensionsWire(dims)
  {
    hide I32Bytes;
    for i := 0 to |dims|
      invariant buf.data == old(buf.data) + DimensionsWire(dims[..i])
    {
      assert dims[..i + 1][..i] == dims[..i];
      buf.Put(I32Bytes(dims[i].len));
      buf.Put(I32Bytes(dims[i].lowerBound));
    }
    assert dims[..|dims|] == dims;
  }

  // ---- Decoding the header ----

  // `checked_mul`.
  function CheckedMul(a: nat, b: nat): (r: Option<nat>)
    ensures r.Some? ==> r.value <= I32_MAX
  {
    if a * b > I32_MAX then None else Some(a * b)
  }

  /** The element count of `n` dimensions starting `b`, times `elements`. */
  function ParseDimensions(b: seq<byte>, n: nat, elements: nat): (r: Result<nat, Error>)
    ensures r.Ok? && elements <= I32_MAX ==> |b| >= 8 * n && r.value <= I32_MAX
  {
    if n == 0 then Ok(elements)
    else match ReadI32(b)
      case None => Err(InvalidBuffer)
      case Some((len, rest)) =>
        if len < 0 then Err(InvalidDimension)
        else match ReadI32(rest)
          case None => Err(InvalidBuffer)
          case Some((_, rest')) =>
            match CheckedMul(elements, len)
            case None => Err(TooManyElements)
            case Some(product) => ParseDimensions(rest', n - 1, product)
  }

  function ParseArray(raw: seq<byte>): Result<ArrayView, Error> {
    match ReadI32(raw)
    case None => Err(InvalidBuffer)
    case Some((dimensions, rest)) =>
      if dimensions < 0 then Err(InvalidDimension)
      else match ReadI32(rest)
        case None => Err(InvalidBuffer)
        case Some((flag, rest')) =>
          match ReadI32(rest')
          case None => Err(InvalidBuffer)
          case Some((oid, b)) =>
            match ParseDimensions(b, dimensions, 1)
            case Err(e) => Err(e)
            case Ok(n) => Ok(ArrayView(dimensions, flag != 0, U32FromI32(oid), if dimensions == 0 then 0 else n, b))
  }

  method ArrayFromSql(raw: seq<byte>) returns (r: Result<ArrayView, Error>)
    ensures r == ParseArray(raw)
  {
    hide I32Of, CheckedMul;
    var buf := raw;
    if |buf| < 4 {
      return Err(InvalidBuffer);
    }
    var dimensions := I32Of(buf[..4]);
    buf := buf[4..];
    if dimensions < 0 {
      return Err(InvalidDimension);
    }
    if |buf| < 4 {
      return Err(InvalidBuffer);
    }
    var hasNulls := I32Of(buf[..4]) != 0;
    buf := buf[4..];
    if |buf| < 4 {
      return Err(InvalidBuffer);
    }
    var elementType := U32FromI32(I32Of(buf[..4]));
    buf := buf[4..];
    var rest := buf;
    var elements: nat := 1;
    for i := 0 to dimensions
      invariant ParseDimensions(buf, dimensions, 1) == ParseDimensions(rest, dimensions - i, elements)
    {
      if |rest| < 4 {
        return Err(InvalidBuffer);
      }
      var len := I32Of(rest[..4]);
      rest := rest[4..];
      if len < 0 {
        return Err(InvalidDimension);
      }
      if |rest| < 4 {
        return Err(InvalidBuffer);
      }
      rest := rest[4..];
      var product := CheckedMul(elements, len);
      if product.None? {
        return Err(TooManyElements);
      }
      elements := product.value;
    }
    if dimensions == 0 {
      elements := 0;
    }
    return Ok(ArrayView(dimensions, hasNulls, elementType, elements, buf));
  }

  // ---- Iterating ----

  /** All that `values()` gives when it is run to its end. */
  function Collect(b: seq<byte>, remaining: nat): (r: Result<seq<Value>, Error>)
    ensures r.Ok? ==> |r.value| == remaining
  {
    if remaining == 0 then (if b == [] then Ok([]) else Err(NotDrained))
    else match ReadSlot(b)
      case None => Err(InvalidBuffer)
      case Some((v, rest)) =>
        match Collect(rest, remaining - 1)
        case Err(e) => Err(e)
        case Ok(vs) => Ok([v] + vs)
  }

  /** Are the bytes these values, one after the other? */
  predicate Holds(b: seq<byte>, vs: seq<Value>)
    decreases |vs|
  {
    if vs == [] then b == []
    else BeginsWith(b, vs[0]) && SizeOf(vs[0]) <= |b| && Holds(b[SizeOf(vs[0])..], vs[1..])
  }

  /** The elements are read exactly if the bytes are so many of them and nothing else. */
  lemma {:induction false} CollectExactly(b: seq<byte>, n: nat, vs: seq<Value>)
    ensures Collect(b, n) == Ok(vs) <==> |vs| == n && Holds(b, vs)
    decreases n
  {
    hide ReadSlot, BeginsWith, SizeOf;
    if n > 0 {
      var r := ReadSlot(b);
      if r.Some? {
        ReadSlotExactly(b, r.value.0, r.value.1);
        BeginsSize(b, r.value.0);
        if vs != [] {
          CollectExactly(r.value.1, n - 1, vs[1..]);
          assert vs == [vs[0]] + vs[1..];
        }
        if Collect(r.value.1, n - 1).Ok? {
          var more := Collect(r.value.1, n - 1).value;
          assert ([r.value.0] + more)[1..] == more;
        }
      }
      if vs != [] && BeginsWith(b, vs[0]) && SizeOf(vs[0]) <= |b| {
        ReadSlotExactly(b, vs[0], b[SizeOf(vs[0])..]);
      }
    }
  }

  class ArrayValues {
    var remaining: nat
    var buf: seq<byte>

    constructor (view: ArrayView)
      requires view.dimensions * 8 <= |view.buf|
      ensures Left() == Collect(view.buf[view.dimensions * 8..], view.elements)
      ensures remaining == view.elements
    {
      remaining := view.elements;
      buf := view.buf[view.dimensions * 8..];
    }

    function Left(): Result<seq<Value>, Error>
      reads this
    {
      Collect(buf, remaining)
    }

    /** The next element: what is left to give is what was left, without it. */
    method Next() returns (r: Result<Option<Value>, Error>)
      modifies this
      ensures r.Err? ==> old(Left()) == Err(r.error)
      ensures r == Ok(None) ==> old(remaining) == 0 && old(Left()) == Ok([])
      ensures r.Ok? && r.value.Some? ==> remaining < old(remaining)
      ensures r.Ok? && r.value.Some? ==>
        old(Left()) == (match Left() case Err(e) => Err(e) case Ok(vs) => Ok([r.value.value] + vs))
    {
      hide I32Of;
      if remaining == 0 {
        return if buf == [] then Ok(None) else Err(NotDrained);
      }
      remaining := remaining - 1;
      if |buf| < 4 {
        return Err(InvalidBuffer);
      }
      var len := I32Of(buf[..4]);
      buf := buf[4..];
      if len < 0 {
        return Ok(Some(None));
      }
      if len > |buf| {
        return Err(InvalidBuffer);
      }
      var v := buf[..len];
      buf := buf[len..];
      return Ok(Some(Some(v)));
    }
  }

  function DimensionsOf(b: seq<byte>): Result<seq<Dimension>, Error>
    decreases |b|
  {
    if b == [] then Ok([])
    else match ReadI32(b)
      case None => Err(InvalidBuffer)
      case Some((len, rest)) =>
        match ReadI32(rest)
        case None => Err(InvalidBuffer)
        case Some((lower, rest')) =>
          match DimensionsOf(rest')
          case Err(e) => Err(e)
          case Ok(ds) => Ok([Dimension(len, lower)] + ds)
  }

  /**
   Whatever bytes were decoded, the dimensions and the elements can be sliced out, there are
   as many dimensions as counted, and running the elements to the end gives exactly the
   count or an error.
   */
  lemma ViewInRange(raw: seq<byte>)
    requires ParseArray(raw).Ok?
    ensures var a := ParseArray(raw).value;
      && a.dimensions * 8 <= |a.buf|
      && DimensionsOf(a.buf[..a.dimensions * 8]).Ok? && |DimensionsOf(a.buf[..a.dimensions * 8]).value| == a.dimensions
      && (Collect(a.buf[a.dimensions * 8..], a.elements).Ok? ==>
          |Collect(a.buf[a.dimensions * 8..], a.elements).value| == a.elements)
  {
    hide I32Of;
    var a := ParseArray(raw).value;
    DimensionsComplete(a.buf[..a.dimensions * 8], a.dimensions);
  }

  lemma {:induction false} DimensionsComplete(b: seq<byte>, n: nat)
    requires |b| == 8 * n
    ensures DimensionsOf(b).Ok? && |DimensionsOf(b).value| == n
    decreases n
  {
    hide I32Of;
    if n > 0 {
      assert b[4..][4..] == b[8..];
      DimensionsComplete(b[8..], n - 1);
    }
  }

  // ---- Round trip ----

  /** The element count, and every product of leading dimensions, fits in an `i32`. */
  predicate Countable(dims: seq<Dimension>, elements: nat)
    decreases |dims|
  {
    elements <= I32_MAX &&
    (dims == [] || (dims[0].len >= 0 && Countable(dims[1..], elements * dims[0].len)))
  }

  function Product(dims: seq<Dimension>, elements: int): int
    decreases |dims|
  {
    if dims == [] then elements else Product(dims[1..], elements * dims[0].len)
  }

  function DimensionWire(d: Dimension): (r: seq<byte>)
    ensures |r| == 8
  {
    I32Bytes(d.len) + I32Bytes(d.lowerBound)
  }

  lemma DimensionsSnoc(dims: seq<Dimension>, d: Dimension)
    ensures DimensionsWire(dims + [d]) == DimensionsWire(dims) + DimensionWire(d)
  {
    hide I32Bytes;
    assert (dims + [d])[..|dims|] == dims;
    Assoc(DimensionsWire(dims), I32Bytes(d.len), I32Bytes(d.lowerBound));
  }

  lemma {:induction false} DimensionsCons(d: Dimension, dims: seq<Dimension>)
    ensures DimensionsWire([d] + dims) == DimensionWire(d) + DimensionsWire(dims)
    decreases |dims|
  {
    hide DimensionWire, DimensionsWire;
    NoDimensions();
    if dims == [] {
      DimensionsSnoc([], d);
      assert [d] + dims == [] + [d];
      assert [] + DimensionWire(d) == DimensionWire(d) + [];
    } else {
      var most, last := dims[..|dims| - 1], dims[|dims| - 1];
      DimensionsCons(d, most);
      DimensionsSnoc([d] + most, last);
      DimensionsSnoc(most, last);
      assert ([d] + most) + [last] == [d] + dims && most + [last] == dims;
      Assoc(DimensionWire(d), DimensionsWire(most), DimensionWire(last));
    }
  }

  lemma NoDimensions()
    ensures DimensionsWire([]) == []
  {}

  // The first dimension, read from the front.
  lemma DimensionFront(dims: seq<Dimension>, tail: seq<byte>)
    requires dims != []
    ensures DimensionsWire(dims) + tail
         == I32Bytes(dims[0].len) + (I32Bytes(dims[0].lowerBound) + (DimensionsWire(dims[1..]) + tail))
  {
    hide I32Bytes, DimensionsWire;
    DimensionsCons(dims[0], dims[1..]);
    assert [dims[0]] + dims[1..] == dims;
    Grouped(I32Bytes(dims[0].len), I32Bytes(dims[0].lowerBound), DimensionsWire(dims[1..]), tail, []);
    Assoc(I32Bytes(dims[0].lowerBound), DimensionsWire(dims[1..]), tail);
  }

  lemma {:induction false} ParseDimensionsBack(dims: seq<Dimension>, elements: nat, tail: seq<byte>)
    requires elements <= I32_MAX
    ensures var r := ParseDimensions(DimensionsWire(dims) + tail, |dims|, elements);
      && (r.Ok? <==> Countable(dims, elements))
      && (r.Ok? ==> r.value == Product(dims, elements))
    decreases |dims|
  {
    hide I32Bytes, DimensionsWire, ReadI32;
    if dims != [] {
      var d, rest := dims[0], DimensionsWire(dims[1..]) + tail;
      DimensionFront(dims, tail);
      ReadI32Back(d.len, I32Bytes(d.lowerBound) + rest);
      ReadI32Back(d.lowerBound, rest);
      if d.len >= 0 && elements * d.len <= I32_MAX {
        ParseDimensionsBack(dims[1..], elements * d.len, tail);
      }
    }
  }

  lemma {:induction false} DimensionsBack(dims: seq<Dimension>)
    ensures DimensionsOf(DimensionsWire(dims)) == Ok(dims)
    decreases |dims|
  {
    hide I32Bytes, DimensionsWire, ReadI32;
    if dims == [] {
      NoDimensions();
    } else {
      var d, rest := dims[0], DimensionsWire(dims[1..]);
      DimensionFront(dims, []);
      assert DimensionsWire(dims) + [] == DimensionsWire(dims) && rest + [] == rest && [d] + dims[1..] == dims;
      ReadI32Back(d.len, I32Bytes(d.lowerBound) + rest);
      ReadI32Back(d.lowerBound, rest);
      DimensionsBack(dims[1..]);
    }
  }

  lemma {:induction false} CollectBack(vs: seq<Value>)
    requires AllFit(vs)
    ensures Collect(AllSlots(vs), |vs|) == Ok(vs)
    decreases |vs|
  {
    hide Slot, AllSlots, ReadSlot;
    if vs == [] {
      NoSlots();
    } else {
      AllSlotsCons(vs[0], vs[1..]);
      assert [vs[0]] + vs[1..] == vs;
      ReadSlotBack(vs[0], AllSlots(vs[1..]));
      CollectBack(vs[1..]);
    }
  }

  lemma HeaderBack(dims: seq<Dimension>, elementType: u32, elements: seq<Value>)
    requires |dims| <= I32_MAX && AllFit(elements)
    ensures var b := DimensionsWire(dims) + AllSlots(elements);
      ParseArray(ArrayWire(dims, elementType, elements))
      == (match ParseDimensions(b, |dims|, 1)
          case Err(e) => Err(e)
          case Ok(n) => Ok(ArrayView(|dims|, None in elements, elementType, if dims == [] then 0 else n, b)))
  {
    hide I32Bytes, U32Bytes, AllSlots, DimensionsWire, ReadI32, ParseDimensions;
    var b := DimensionsWire(dims) + AllSlots(elements);
    var flag: i32 := if None in elements then 1 else 0;
    var oid := I32FromU32(elementType);
    OidBytes(elementType);
    assert ArrayWire(dims, elementType, elements) == I32Bytes(|dims|) + (I32Bytes(flag) + (I32Bytes(oid) + b));
    ReadI32Back(|dims|, I32Bytes(flag) + (I32Bytes(oid) + b));
    ReadI32Back(flag, I32Bytes(oid) + b);
    ReadI32Back(oid, b);
  }

  lemma OidBytes(x: u32)
    ensures I32Bytes(I32FromU32(x)) == U32Bytes(x) && U32FromI32(I32FromU32(x)) == x
  {}

  /**
   An array decodes to what was encoded exactly when its dimensions count its elements
   without overflow; an array without dimensions has no elements.
   */
  lemma ArrayBack(dims: seq<Dimension>, elementType: u32, elements: seq<Value>)
    requires |dims| <= I32_MAX && AllFit(elements)
    requires |elements| == if dims == [] then 0 else Product(dims, 1)
    ensures ParseArray(ArrayWire(dims, elementType, elements)).Ok? <==> Countable(dims, 1)
    ensures Countable(dims, 1) ==>
      var a := ParseArray(ArrayWire(dims, elementType, elements)).value;
      && a.hasNulls == (None in elements) && a.elementType == elementType
      && a.dimensions == |dims| && a.dimensions * 8 <= |a.buf|
      && DimensionsOf(a.buf[..a.dimensions * 8]) == Ok(dims)
      && Collect(a.buf[a.dimensions * 8..], a.elements) == Ok(elements)
  {
    hide AllSlots, DimensionsWire, ParseDimensions, ParseArray, ArrayWire, DimensionsOf, Collect;
    HeaderBack(dims, elementType, elements);
    ParseDimensionsBack(dims, 1, AllSlots(elements));
    CutConcat(DimensionsWire(dims), AllSlots(elements), []);
    assert DimensionsWire(dims) + AllSlots(elements) + [] == DimensionsWire(dims) + AllSlots(elements);
    assert AllSlots(elements) + [] == AllSlots(elements);
    DimensionsBack(dims);
    CollectBack(elements);
  }
}
